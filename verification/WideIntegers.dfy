/**
 scval_converter.go: integers of 128 and 256 bits held in 64-bit words, rendered in decimal and in
 hex, and the big-endian packing of a muxed account's id.
 */
module WideIntegers {
  import opened Leb128
  import Text

  const TWO128: int := 0x1_0000_0000_0000_0000_0000_0000_0000_0000
  const TWO192: int := 0x1_0000_0000_0000_0000_0000_0000_0000_0000_0000_0000_0000_0000
  const TWO256: int := 0x1_0000_0000_0000_0000_0000_0000_0000_0000_0000_0000_0000_0000_0000_0000_0000_0000

  type Word = w: int | 0 <= w < TWO64

  type Int64 = w: int | -TWO63 <= w < TWO63

  datatype UInt128Parts = UInt128Parts(hi: Word, lo: Word)

  datatype Int128Parts = Int128Parts(hi: Int64, lo: Word)

  datatype UInt256Parts = UInt256Parts(hiHi: Word, hiLo: Word, loHi: Word, loLo: Word)

  datatype Int256Parts = Int256Parts(hiHi: Int64, hiLo: Word, loHi: Word, loLo: Word)

  /** Go's uint64(n). */
  function AsUint64(n: Int64): Word {
    if n < 0 then n + TWO64 else n
  }

  /** u & (1 << 63) != 0 */
  predicate TopBit(u: Word) {
    (u / TWO63) % 2 == 1
  }

  // What the words stand for: two's complement, the sign carried by the top word.

  function U128(v: UInt128Parts): int {
    v.hi * TWO64 + v.lo
  }

  function I128(v: Int128Parts): int {
    v.hi * TWO64 + v.lo
  }

  function U256(v: UInt256Parts): int {
    v.hiHi * TWO192 + v.hiLo * TWO128 + v.loHi * TWO64 + v.loLo
  }

  function I256(v: Int256Parts): int {
    v.hiHi * TWO192 + v.hiLo * TWO128 + v.loHi * TWO64 + v.loLo
  }

  /** The same bits read as unsigned words. */
  function Bits128(v: Int128Parts): UInt128Parts {
    UInt128Parts(AsUint64(v.hi), v.lo)
  }

  function Bits256(v: Int256Parts): UInt256Parts {
    UInt256Parts(AsUint64(v.hiHi), v.hiLo, v.loHi, v.loLo)
  }

  /** The part of math/big used: values updated in place. */
  class BigInt {
    var value: int

    constructor (n: int)
      ensures value == n
    {
      value := n;
    }

    method Lsh(x: BigInt, n: nat)
      modifies this
      ensures value == old(x.value) * Pow2(n)
    {
      value := x.value * Pow2(n);
    }

    method Add(x: BigInt, y: BigInt)
      modifies this
      ensures value == old(x.value) + old(y.value)
    {
      value := x.value + y.value;
    }

    method Sub(x: BigInt, y: BigInt)
      modifies this
      ensures value == old(x.value) - old(y.value)
    {
      value := x.value - y.value;
    }

    function String(): string
      reads this
    {
      Text.Decimal(value)
    }
  }

  lemma Shifts()
    ensures Pow2(64) == TWO64 && Pow2(128) == TWO128 && Pow2(192) == TWO192
  {
    WeightIsPow2(9);
    WeightNine();
    Pow2Add(64, 64);
    Pow2Add(64, 128);
  }

  /** uint128ToString. */
  method Uint128ToString(v: UInt128Parts) returns (s: string)
    ensures s == Text.Decimal(U128(v)) && Text.ReadDecimal(s) == U128(v)
  {
    hide Pow2, Text.Decimal, Text.ReadDecimal;
    Text.DecimalReads(U128(v));
    Shifts();
    var hi := new BigInt(v.hi);
    var lo := new BigInt(v.lo);
    hi.Lsh(hi, 64);
    hi.Add(hi, lo);
    return hi.String();
  }

  /** int128ToString. */
  method Int128ToString(v: Int128Parts) returns (s: string)
    ensures s == Text.Decimal(I128(v)) && Text.ReadDecimal(s) == I128(v)
  {
    hide Pow2, Text.Decimal, Text.ReadDecimal;
    Text.DecimalReads(I128(v));
    Shifts();
    var hi := new BigInt(AsUint64(v.hi));
    var lo := new BigInt(v.lo);
    if TopBit(AsUint64(v.hi)) {
      var borrow := new BigInt(1);
      borrow.Lsh(borrow, 64);
      hi.Sub(hi, borrow);
    }
    hi.Lsh(hi, 64);
    hi.Add(hi, lo);
    return hi.String();
  }

  /** uint256ToString. */
  method Uint256ToString(v: UInt256Parts) returns (s: string)
    ensures s == Text.Decimal(U256(v)) && Text.ReadDecimal(s) == U256(v)
  {
    hide Pow2, Text.Decimal, Text.ReadDecimal;
    Text.DecimalReads(U256(v));
    Shifts();
    var hiHi := new BigInt(v.hiHi);
    var hiLo := new BigInt(v.hiLo);
    var loHi := new BigInt(v.loHi);
    var loLo := new BigInt(v.loLo);
    hiHi.Lsh(hiHi, 192);
    hiLo.Lsh(hiLo, 128);
    loHi.Lsh(loHi, 64);
    var result := new BigInt(0);
    result.Add(result, hiHi);
    result.Add(result, hiLo);
    result.Add(result, loHi);
    result.Add(result, loLo);
    return result.String();
  }

  /** int256ToString. */
  method Int256ToString(v: Int256Parts) returns (s: string)
    ensures s == Text.Decimal(I256(v)) && Text.ReadDecimal(s) == I256(v)
  {
    hide Pow2, Text.Decimal, Text.ReadDecimal;
    Text.DecimalReads(I256(v));
    Shifts();
    var hiHi := new BigInt(AsUint64(v.hiHi));
    var hiLo := new BigInt(v.hiLo);
    var loHi := new BigInt(v.loHi);
    var loLo := new BigInt(v.loLo);
    if TopBit(AsUint64(v.hiHi)) {
      var borrow := new BigInt(1);
      borrow.Lsh(borrow, 64);
      hiHi.Sub(hiHi, borrow);
    }
    hiHi.Lsh(hiHi, 192);
    hiLo.Lsh(hiLo, 128);
    loHi.Lsh(loHi, 64);
    var result := new BigInt(0);
    result.Add(result, hiHi);
    result.Add(result, hiLo);
    result.Add(result, loHi);
    result.Add(result, loLo);
    return result.String();
  }

  // Exact ranges, and the words behind a rendering.

  /** Every integer of the range, and no other, is some pair of words. */
  lemma Exactly128(n: int)
    ensures (exists v :: U128(v) == n) <==> 0 <= n < TWO128
    ensures (exists v :: I128(v) == n) <==> -TWO63 * TWO64 <= n < TWO63 * TWO64
  {
    if 0 <= n < TWO128 {
      assert U128(UInt128Parts(n / TWO64, n % TWO64)) == n;
    }
    if -TWO63 * TWO64 <= n < TWO63 * TWO64 {
      assert I128(Int128Parts(n / TWO64, n % TWO64)) == n;
    }
  }

  /** One division step: the low word split off. */
  lemma WordSplit(n: int) returns (q: int, w: Word)
    ensures n == q * TWO64 + w
  {
    q, w := n / TWO64, n % TWO64;
  }

  /** Four words: three division steps, low word first. */
  lemma WordsOf(n: int) returns (a: int, b: Word, c: Word, d: Word)
    ensures n == a * TWO192 + b * TWO128 + c * TWO64 + d
  {
    var q, r;
    q, d := WordSplit(n);
    r, c := WordSplit(q);
    a, b := WordSplit(r);
  }

  lemma Exactly256(n: int)
    ensures (exists v :: U256(v) == n) <==> 0 <= n < TWO256
    ensures (exists v :: I256(v) == n) <==> -TWO63 * TWO192 <= n < TWO63 * TWO192
  {
    var a, b, c, d := WordsOf(n);
    if 0 <= n < TWO256 {
      assert U256(UInt256Parts(a, b, c, d)) == n;
    }
    if -TWO63 * TWO192 <= n < TWO63 * TWO192 {
      assert I256(Int256Parts(a, b, c, d)) == n;
    }
  }

  /** The decimal renderings tell words apart. */
  lemma DecimalsDetermineWords128(v: UInt128Parts, w: UInt128Parts, x: Int128Parts, y: Int128Parts)
    ensures Text.Decimal(U128(v)) == Text.Decimal(U128(w)) <==> v == w
    ensures Text.Decimal(I128(x)) == Text.Decimal(I128(y)) <==> x == y
  {
    hide Text.Decimal;
    if Text.Decimal(U128(v)) == Text.Decimal(U128(w)) {
      Text.DecimalInjective(U128(v), U128(w));
    }
    if Text.Decimal(I128(x)) == Text.Decimal(I128(y)) {
      Text.DecimalInjective(I128(x), I128(y));
    }
  }

  lemma PairDetermined(x: int, y: Word, x': int, y': Word)
    requires x * TWO64 + y == x' * TWO64 + y'
    ensures x == x' && y == y'
  {
  }

  lemma WordsDetermined(a: int, b: Word, c: Word, d: Word, a': int, b': Word, c': Word, d': Word)
    requires a * TWO192 + b * TWO128 + c * TWO64 + d == a' * TWO192 + b' * TWO128 + c' * TWO64 + d'
    ensures a == a' && b == b' && c == c' && d == d'
  {
    PairDetermined((a * TWO64 + b) * TWO64 + c, d, (a' * TWO64 + b') * TWO64 + c', d');
    PairDetermined(a * TWO64 + b, c, a' * TWO64 + b', c');
    PairDetermined(a, b, a', b');
  }

  lemma DecimalsDetermineWords256(v: UInt256Parts, w: UInt256Parts, x: Int256Parts, y: Int256Parts)
    ensures Text.Decimal(U256(v)) == Text.Decimal(U256(w)) <==> v == w
    ensures Text.Decimal(I256(x)) == Text.Decimal(I256(y)) <==> x == y
  {
    hide Text.Decimal;
    if Text.Decimal(U256(v)) == Text.Decimal(U256(w)) {
      Text.DecimalInjective(U256(v), U256(w));
      WordsDetermined(v.hiHi, v.hiLo, v.loHi, v.loLo, w.hiHi, w.hiLo, w.loHi, w.loLo);
    }
    if Text.Decimal(I256(x)) == Text.Decimal(I256(y)) {
      Text.DecimalInjective(I256(x), I256(y));
      WordsDetermined(x.hiHi, x.hiLo, x.loHi, x.loLo, y.hiHi, y.hiLo, y.loHi, y.loLo);
    }
  }

  /** The signed and unsigned readings of the same bits differ exactly when the top bit is set. */
  lemma SignedAndUnsigned(v: Int128Parts, w: Int256Parts)
    ensures U128(Bits128(v)) - I128(v) == if TopBit(AsUint64(v.hi)) then TWO128 else 0
    ensures U256(Bits256(w)) - I256(w) == if TopBit(AsUint64(w.hiHi)) then TWO256 else 0
    ensures TopBit(AsUint64(v.hi)) <==> I128(v) < 0
    ensures TopBit(AsUint64(w.hiHi)) <==> I256(w) < 0
  {
  }

  // Positional notation in base 16 and 256.

  type Base = b: nat | b == 16 || b == 256 witness 16

  function Power(b: Base, k: nat): (p: nat)
    ensures p >= 1
  {
    if k == 0 then 1 else b * Power(b, k - 1)
  }

  /** The last `k` digits of `n`, most significant first. */
  function Expand(b: Base, n: nat, k: nat): (ds: seq<nat>)
    ensures |ds| == k && forall d | d in ds :: d < b
  {
    if k == 0 then [] else Expand(b, n / b, k - 1) + [n % b]
  }

  function Read(b: Base, ds: seq<nat>): nat {
    if ds == [] then 0 else Read(b, ds[..|ds| - 1]) * b + ds[|ds| - 1]
  }

  lemma QuotientBelow(b: Base, n: nat, p: nat)
    requires n < b * p
    ensures n / b < p
  {
    if b == 16 {
    } else {
    }
  }

  lemma {:induction false} ReadExpand(b: Base, n: nat, k: nat)
    requires n < Power(b, k)
    ensures Read(b, Expand(b, n, k)) == n
  {
    if k > 0 {
      QuotientBelow(b, n, Power(b, k - 1));
      ReadExpand(b, n / b, k - 1);
      assert Expand(b, n, k)[..k - 1] == Expand(b, n / b, k - 1);
    }
  }

  lemma SplitDigit(b: Base, q: nat, r: nat)
    ensures (b * q + r) / b == q + r / b && (b * q + r) % b == r % b
  {
    if b == 16 {
    } else {
    }
  }

  lemma LastDigit(b: Base, hi: nat, lo: nat, p: nat)
    ensures (hi * (b * p) + lo) / b == hi * p + lo / b && (hi * (b * p) + lo) % b == lo % b
  {
    var q := hi * p;
    assert hi * (b * p) == b * q;
    SplitDigit(b, q, lo);
  }

  lemma ExpandStep(b: Base, n: nat, k: nat)
    requires k > 0
    ensures Expand(b, n, k) == Expand(b, n / b, k - 1) + [n % b]
    ensures Power(b, k) == b * Power(b, k - 1)
  {
  }

  /** High digits then low digits. */
  lemma {:induction false} ExpandConcat(b: Base, hi: nat, m: nat, lo: nat, k: nat)
    requires lo < Power(b, k)
    ensures Expand(b, hi * Power(b, k) + lo, m + k) == Expand(b, hi, m) + Expand(b, lo, k)
    decreases k
  {
    if k == 0 {
      assert hi * 1 + 0 == hi;
    } else {
      ExpandConcatStep(b, hi, m, lo, k);
    }
  }

  lemma {:induction false} ExpandConcatStep(b: Base, hi: nat, m: nat, lo: nat, k: nat)
    requires k > 0 && lo < Power(b, k)
    ensures Expand(b, hi * Power(b, k) + lo, m + k) == Expand(b, hi, m) + Expand(b, lo, k)
    decreases k, 0
  {
    hide Expand, Power;
    var p := Power(b, k - 1);
    ExpandStep(b, lo, k);
    ExpandStep(b, hi * Power(b, k) + lo, m + k);
    LastDigit(b, hi, lo, p);
    QuotientBelow(b, lo, p);
    ExpandConcat(b, hi, m, lo / b, k - 1);
  }

  lemma {:induction false} ExpandZero(b: Base, k: nat)
    ensures Expand(b, 0, k) == seq(k, _ => 0)
  {
    if k > 0 {
      ExpandZero(b, k - 1);
      assert seq(k, _ => 0) == seq(k - 1, _ => 0) + [0];
    }
  }

  /** Digit `i` of the expansion is a shift and a truncation. */
  lemma {:induction false} ExpandAt(n: nat, k: nat, i: nat)
    requires i < k
    ensures Expand(256, n, k)[i] == (n / Power(256, k - 1 - i)) % 256
  {
    if i < k - 1 {
      ExpandAt(n / 256, k - 1, i);
      DivDiv(n, Power(256, k - 2 - i));
    }
  }

  lemma DivDiv(n: nat, b: nat)
    requires b > 0
    ensures (n / 256) / b == n / (256 * b)
  {
    var m, s := n / 256, n % 256;
    var q, r := m / b, m % b;
    var z := b * q;
    assert m == z + r;
    assert (256 * b) * q == 256 * z;
    QuotientIs(n, 256 * b, q, 256 * r + s);
  }

  lemma QuotientIs(n: nat, d: nat, q: nat, r: nat)
    requires n == d * q + r && r < d
    ensures n / d == q
  {
    var e := n / d - q;
    assert d * e == r - n % d;
  }

  // Hex.

  const HEX := "0123456789abcdef"

  function HexChars(ds: seq<nat>): (s: string)
    requires forall d | d in ds :: d < 16
    ensures |s| == |ds|
  {
    seq(|ds|, i requires 0 <= i < |ds| => assert ds[i] in ds; HEX[ds[i]])
  }

  /** The `k`-digit hex expansion. */
  function Hex(n: nat, k: nat): (s: string)
    ensures |s| == k
  {
    HexChars(Expand(16, n, k))
  }

  function HexValue(c: char): nat {
    if '0' <= c <= '9' then c as int - '0' as int else if 'a' <= c <= 'f' then c as int - 'a' as int + 10 else 0
  }

  function ParseHex(s: string): nat {
    Read(16, seq(|s|, i requires 0 <= i < |s| => HexValue(s[i])))
  }

  lemma HexValueOfDigit(d: nat)
    requires d < 16
    ensures HexValue(HEX[d]) == d
  {
    if d < 10 {
      assert HEX[d] == '0' + d as char;
    } else {
      assert HEX[d] == 'a' + (d - 10) as char;
    }
  }

  lemma HexRoundTrip(n: nat, k: nat)
    requires n < Power(16, k)
    ensures ParseHex(Hex(n, k)) == n
  {
    var ds := Expand(16, n, k);
    var s := Hex(n, k);
    forall i | 0 <= i < k ensures HexValue(s[i]) == ds[i] {
      assert ds[i] in ds;
      HexValueOfDigit(ds[i]);
    }
    assert seq(|s|, i requires 0 <= i < |s| => HexValue(s[i])) == ds;
    ReadExpand(16, n, k);
  }

  /** The shortest hex rendering, `%x`. */
  function MinHex(n: nat): (s: string)
    ensures s != [] && '-' !in s
  {
    if n < 16 then [HEX[n]] else MinHex(n / 16) + [HEX[n % 16]]
  }

  function Pad(s: string, k: nat): string {
    if |s| >= k then s else seq(k - |s|, _ => '0') + s
  }

  /** Go's `%016x`: zero-padded to sixteen characters, of which a minus sign takes one. */
  function Format016x(n: int): string {
    if n < 0 then "-" + Pad(MinHex(-n), 15) else Pad(MinHex(n), 16)
  }

  lemma HexLast(n: nat, k: nat)
    requires k > 0
    ensures Hex(n, k) == Hex(n / 16, k - 1) + [HEX[n % 16]]
  {
  }

  lemma HexZero(k: nat)
    ensures Hex(0, k) == seq(k, _ => '0')
  {
    ExpandZero(16, k);
  }

  lemma PadLast(s: string, c: char, k: nat)
    requires k > 0
    ensures Pad(s + [c], k) == Pad(s, k - 1) + [c]
  {
  }

  /** Within the width, padding the shortest form is the full expansion. */
  lemma {:induction false} PadIsHex(n: nat, k: nat)
    requires k > 0 && n < Power(16, k)
    ensures Pad(MinHex(n), k) == Hex(n, k)
    decreases k
  {
    hide Hex, Pad;
    HexLast(n, k);
    if n < 16 {
      HexZero(k - 1);
      PadLast([], HEX[n], k);
      PadNothing(k - 1);
      assert [] + [HEX[n]] == [HEX[n]];
    } else {
      assert k > 1;
      QuotientBelow(16, n, Power(16, k - 1));
      PadIsHex(n / 16, k - 1);
      PadLast(MinHex(n / 16), HEX[n % 16], k);
    }
  }

  lemma PadNothing(k: nat)
    ensures Pad([], k) == seq(k, _ => '0')
  {
    assert seq(k, _ => '0') + [] == seq(k, _ => '0');
  }

  lemma HexConcat(hi: nat, m: nat, lo: nat, k: nat)
    requires lo < Power(16, k)
    ensures Hex(hi * Power(16, k) + lo, m + k) == Hex(hi, m) + Hex(lo, k)
  {
    ExpandConcat(16, hi, m, lo, k);
  }

  lemma HexPowers()
    ensures Power(16, 16) == TWO64 && Power(16, 32) == TWO128 && Power(16, 48) == TWO192 && Power(16, 64) == TWO256
  {
    assert Power(16, 4) == 0x1_0000;
    assert Power(16, 8) == 0x1_0000_0000;
    assert Power(16, 12) == 0x1_0000_0000_0000;
    PowerAdd(16, 16);
    PowerAdd(16, 32);
    PowerAdd(16, 48);
  }

  lemma {:induction false} PowerAdd(j: nat, k: nat)
    ensures Power(16, j + k) == Power(16, j) * Power(16, k)
  {
    if j > 0 {
      PowerAdd(j - 1, k);
    }
  }

  /** uint256ToHex. */
  function Uint256ToHex(v: UInt256Parts): string {
    Format016x(v.hiHi) + Format016x(v.hiLo) + Format016x(v.loHi) + Format016x(v.loLo)
  }

  /** int256ToHex: its top word is a signed integer, and `%016x` renders it as one. */
  function Int256ToHex(v: Int256Parts): string {
    Format016x(v.hiHi) + Format016x(v.hiLo) + Format016x(v.loHi) + Format016x(v.loLo)
  }

  lemma WordHex(w: Word)
    ensures Format016x(w) == Hex(w, 16) && ParseHex(Hex(w, 16)) == w
  {
    hide Hex, ParseHex;
    HexPowers();
    PadIsHex(w, 16);
    HexRoundTrip(w, 16);
  }

  lemma FourWords(a: Word, b: Word, c: Word, d: Word)
    ensures Hex(a, 16) + Hex(b, 16) + Hex(c, 16) + Hex(d, 16) == Hex(U256(UInt256Parts(a, b, c, d)), 64)
  {
    hide Hex, Power;
    HexPowers();
    HexConcat(a, 16, b, 16);
    HexConcat(a * TWO64 + b, 32, c, 16);
    HexConcat((a * TWO64 + b) * TWO64 + c, 48, d, 16);
  }

  /** The unsigned hex form is the 64-digit expansion of the value; it, and its quarters, parse back. */
  lemma Uint256HexExpands(v: UInt256Parts)
    ensures Uint256ToHex(v) == Hex(U256(v), 64)
    ensures ParseHex(Uint256ToHex(v)) == U256(v)
    ensures var s := Uint256ToHex(v);
            |s| == 64 && ParseHex(s[..16]) == v.hiHi && ParseHex(s[16..32]) == v.hiLo &&
            ParseHex(s[32..48]) == v.loHi && ParseHex(s[48..]) == v.loLo
  {
    hide Hex, ParseHex, Power, Format016x;
    WordHex(v.hiHi);
    WordHex(v.hiLo);
    WordHex(v.loHi);
    WordHex(v.loLo);
    FourWords(v.hiHi, v.hiLo, v.loHi, v.loLo);
    HexPowers();
    HexRoundTrip(U256(v), 64);
    var s := Uint256ToHex(v);
    assert s[..16] == Hex(v.hiHi, 16) && s[16..32] == Hex(v.hiLo, 16);
    assert s[32..48] == Hex(v.loHi, 16) && s[48..] == Hex(v.loLo, 16);
  }

  lemma HexHasNoSign(n: nat, k: nat)
    ensures '-' !in Hex(n, k)
  {
    var ds := Expand(16, n, k);
    forall i | 0 <= i < k ensures Hex(n, k)[i] != '-' {
      assert ds[i] in ds;
      assert Hex(n, k)[i] == HEX[ds[i]];
    }
  }

  /** The signed hex form is the expansion of the value mod 2^256 exactly when the value is not negative. */
  lemma Int256HexExpands(v: Int256Parts)
    ensures Int256ToHex(v) == Hex(U256(Bits256(v)), 64) <==> I256(v) >= 0
    ensures U256(Bits256(v)) == I256(v) % TWO256
    ensures I256(v) < 0 ==> Int256ToHex(v)[..1] == "-"
  {
    hide Hex, ParseHex, Power, MinHex, Pad, Expand;
    SignedAndUnsigned(Int128Parts(0, 0), v);
    if v.hiHi >= 0 {
      Uint256HexExpands(Bits256(v));
    } else {
      HexHasNoSign(U256(Bits256(v)), 64);
      assert Int256ToHex(v)[0] == '-';
    }
  }

  /** Sign or not, the hex form still tells words apart. */
  lemma Int256HexInjective(v: Int256Parts, w: Int256Parts)
    requires Int256ToHex(v) == Int256ToHex(w)
    ensures v == w
  {
    hide Hex, ParseHex, Power, Format016x;
    WordHex(v.hiLo);
    WordHex(v.loHi);
    WordHex(v.loLo);
    WordHex(w.hiLo);
    WordHex(w.loHi);
    WordHex(w.loLo);
    var a, b, s := Format016x(v.hiHi), Format016x(w.hiHi), Int256ToHex(v);
    var n := |s|;
    assert |a| == |b| == n - 48;
    assert s[..n - 48] == a && Int256ToHex(w)[..n - 48] == b;
    assert s[n - 48..n - 32] == Hex(v.hiLo, 16) && Int256ToHex(w)[n - 48..n - 32] == Hex(w.hiLo, 16);
    assert s[n - 32..n - 16] == Hex(v.loHi, 16) && Int256ToHex(w)[n - 32..n - 16] == Hex(w.loHi, 16);
    assert s[n - 16..] == Hex(v.loLo, 16) && Int256ToHex(w)[n - 16..] == Hex(w.loLo, 16);
    FormatInjective(v.hiHi, w.hiHi);
  }

  lemma {:induction false} MinHexLength(n: nat, k: nat)
    requires n >= Power(16, k)
    ensures |MinHex(n)| > k
    decreases k
  {
    if k > 0 {
      assert n / 16 >= Power(16, k - 1);
      MinHexLength(n / 16, k - 1);
    }
  }

  /** Padded to fifteen or sixteen, the form of a word parses back. */
  lemma PadReads(n: nat, k: nat)
    requires n <= TWO63 && (k == 15 || k == 16)
    ensures ParseHex(Pad(MinHex(n), k)) == n
  {
    hide Hex, ParseHex, Power, MinHex;
    assert n < Power(16, 16) by {
      HexPowers();
    }
    if n < Power(16, k) {
      PadIsHex(n, k);
      HexRoundTrip(n, k);
    } else {
      MinHexLength(n, k);
      PadIsHex(n, 16);
      HexRoundTrip(n, 16);
    }
  }

  lemma PadHasNoSign(n: nat, k: nat)
    ensures |Pad(MinHex(n), k)| > 0 && Pad(MinHex(n), k)[0] != '-'
  {
  }

  lemma FormatInjective(m: Int64, n: Int64)
    requires Format016x(m) == Format016x(n)
    ensures m == n
  {
    hide ParseHex, Pad, MinHex;
    if m >= 0 {
      PadHasNoSign(m, 16);
      PadReads(m, 16);
    } else {
      var abs: int := -(m as int);
      assert Format016x(m)[1..] == Pad(MinHex(abs), 15);
      PadReads(abs, 15);
    }
    if n >= 0 {
      PadHasNoSign(n, 16);
      PadReads(n, 16);
    } else {
      var abs: int := -(n as int);
      assert Format016x(n)[1..] == Pad(MinHex(abs), 15);
      PadReads(abs, 15);
    }
  }

  /** The form of a negative word: a minus sign, then its magnitude, in fifteen digits when they suffice. */
  lemma NegativeForm(n: Int64)
    requires n < 0
    ensures var s := Format016x(n);
            && s[..1] == "-" && ParseHex(s[1..]) == -(n as int)
            && |s| == if -(n as int) < Power(16, 15) then 16 else 17
  {
    hide ParseHex, MinHex, Power, Hex;
    var m: int := -(n as int);
    assert Format016x(n)[1..] == Pad(MinHex(m), 15);
    PadReads(m, 15);
    if m < Power(16, 15) {
      PadIsHex(m, 15);
    } else {
      MinHexLength(m, 15);
      assert m < Power(16, 16) by {
        HexPowers();
      }
      MinHexShort(m, 16);
    }
  }

  lemma {:induction false} MinHexShort(n: nat, k: nat)
    requires k > 0 && n < Power(16, k)
    ensures |MinHex(n)| <= k
    decreases k
  {
    if n >= 16 {
      QuotientBelow(16, n, Power(16, k - 1));
      MinHexShort(n / 16, k - 1);
    }
  }

  // Muxed accounts.

  lemma {:induction false} ShiftIsPower(k: nat)
    ensures Pow2(8 * k) == Power(256, k)
  {
    if k > 0 {
      ShiftIsPower(k - 1);
      var m := 8 * (k - 1);
      assert Pow2(m + 2) == 4 * Pow2(m);
      assert Pow2(m + 4) == 4 * Pow2(m + 2);
      assert Pow2(m + 6) == 4 * Pow2(m + 4);
      assert Pow2(m + 8) == 4 * Pow2(m + 6);
    }
  }

  /** What a muxed account packs: its key, then its id in eight big-endian bytes. */
  function Packed(key: seq<Byte>, id: Word): seq<int> {
    key + Expand(256, id, 8)
  }

  /** The packing of convertScAddress' muxed arm: a copy, then one shifted and truncated byte at a time. */
  method PackMuxed(key: seq<Byte>, id: Word) returns (data: array<int>)
    requires |key| == 32
    ensures fresh(data) && data[..] == Packed(key, id)
  {
    hide Expand, Pow2;
    data := new int[40];
    forall i | 0 <= i < 32 {
      data[i] := key[i];
    }
    for i := 0 to 8
      invariant data[..32] == key
      invariant forall j | 0 <= j < i :: data[32 + j] == Expand(256, id, 8)[j]
    {
      ShiftIsPower(7 - i);
      ExpandAt(id, 8, i);
      assert Pow2(56 - 8 * i) > 0;
      data[32 + i] := (id / Pow2(56 - 8 * i)) % 256;
    }
    assert data[32..] == Expand(256, id, 8);
    assert data[..] == data[..32] + data[32..];
  }

  /** Key and id are read back from the packed bytes, so packing is injective. */
  lemma PackedReads(key: seq<Byte>, id: Word)
    requires |key| == 32
    ensures |Packed(key, id)| == 40 && Packed(key, id)[..32] == key
    ensures forall i | 32 <= i < 40 :: 0 <= Packed(key, id)[i] < 256
    ensures Read(256, Expand(256, id, 8)) == id && Packed(key, id)[32..] == Expand(256, id, 8)
  {
    hide Expand, Read;
    assert Power(256, 8) == TWO64 by {
      assert Power(256, 4) == 0x1_0000_0000;
    }
    ReadExpand(256, id, 8);
    forall i | 32 <= i < 40 ensures 0 <= Packed(key, id)[i] < 256 {
      var ds := Expand(256, id, 8);
      assert Packed(key, id)[i] == ds[i - 32] && ds[i - 32] in ds;
    }
  }
}
