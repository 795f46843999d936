/**
 soroban.go: decodeLEB128, the signed decoder over int64 with its ten-byte cap, and what it makes
 of the unsigned encodings WebAssembly uses for sizes and counts.

 An int64 is held as its 64-bit pattern, a natural number below 2^64.
 */
module Leb128 {

  type Byte = b: int | 0 <= b < 256

  const TWO63: int := 0x8000_0000_0000_0000
  const TWO64: int := 0x1_0000_0000_0000_0000

  function Pow2(n: nat): nat {
    if n == 0 then 1 else 2 * Pow2(n - 1)
  }

  /** 128 to the k: the weight of the 7-bit group at position k. */
  function Weight(k: nat): (w: nat)
    ensures w >= 1
  {
    if k == 0 then 1 else 128 * Weight(k - 1)
  }

  lemma {:induction false} WeightIsPow2(k: nat)
    ensures Pow2(7 * k) == Weight(k)
    ensures k > 0 ==> Pow2(7 * k - 1) == 64 * Weight(k - 1)
  {
    if k > 0 {
      WeightIsPow2(k - 1);
      var m := 7 * (k - 1);
      assert Pow2(m + 2) == 4 * Pow2(m);
      assert Pow2(m + 4) == 4 * Pow2(m + 2);
      assert Pow2(m + 6) == 4 * Pow2(m + 4);
      assert 7 * k - 1 == m + 6;
    }
  }

  lemma WeightNine()
    ensures Weight(9) == TWO63 && Weight(10) == 64 * TWO64
  {
    assert Weight(3) == 0x20_0000;
    assert Weight(6) == 0x400_0000_0000;
    assert Weight(9) == TWO63;
  }

  lemma {:induction false} WeightMonotone(m: nat, n: nat)
    requires m <= n
    ensures Weight(m) <= Weight(n)
  {
    if m < n {
      WeightMonotone(m, n - 1);
    }
  }

  lemma ScaleMonotone(a: nat, b: nat, p: nat)
    requires a <= b
    ensures a * p <= b * p
  {
  }

  // Go's int64 operators on 64-bit patterns.

  /** `|` */
  function Or(x: nat, y: nat): nat
    decreases x + y
  {
    if x == 0 then y else if y == 0 then x else
      (if x % 2 == 1 || y % 2 == 1 then 1 else 0) + 2 * Or(x / 2, y / 2)
  }

  /** `<<`: bits pushed past bit 63 are lost. */
  function Shl(x: nat, n: nat): nat {
    (x * Pow2(n)) % TWO64
  }

  /** Unary minus. */
  function Neg(x: nat): nat {
    if x % TWO64 == 0 then 0 else TWO64 - x % TWO64
  }

  function AsInt64(u: nat): int {
    if u >= TWO63 then u - TWO64 else u
  }

  lemma Pow2Unfolds(k: nat)
    ensures Pow2(0) == 1 && Pow2(k) == if k == 0 then 1 else 2 * Pow2(k - 1)
  {
  }

  lemma DoubledFactor(a: nat, b: nat)
    ensures a * (2 * b) == 2 * (a * b) && (2 * a) * b == 2 * (a * b)
  {
  }

  lemma OrZero(x: nat)
    ensures Or(x, 0) == x == Or(0, x)
  {
  }

  lemma Halves(h: nat)
    ensures (2 * h) / 2 == h && (2 * h) % 2 == 0
  {
  }

  lemma Bits(x: nat)
    ensures x == 2 * (x / 2) + x % 2 && (x % 2 == 0 || x % 2 == 1)
  {
  }

  lemma OrEvenPositive(x: nat, h: nat, y: nat)
    requires x > 0 && y > 0 && y % 2 == 0 && y / 2 == h
    ensures Or(x, y) == x % 2 + 2 * Or(x / 2, h)
  {
    hide Or;
    OrUnfolds(x, y);
    Bits(x);
  }

  lemma OrEven(x: nat, h: nat)
    ensures Or(x, 2 * h) == x % 2 + 2 * Or(x / 2, h)
  {
    hide Or;
    Halves(h);
    if x == 0 {
      OrZero(2 * h);
      OrZero(h);
    } else if h == 0 {
      OrZero(x);
      OrZero(x / 2);
      Bits(x);
    } else {
      OrEvenPositive(x, h, 2 * h);
    }
  }

  lemma OrUnfolds(x: nat, y: nat)
    requires x > 0 && y > 0
    ensures Or(x, y) == (if x % 2 == 1 || y % 2 == 1 then 1 else 0) + 2 * Or(x / 2, y / 2)
  {
  }

  /** Where no bit is shared, `|` is addition. */
  lemma {:induction false} OrDisjoint(x: nat, q: nat, k: nat)
    requires x < Pow2(k)
    ensures Or(x, q * Pow2(k)) == x + q * Pow2(k)
    decreases k
  {
    hide Or, Pow2;
    Pow2Unfolds(k);
    if k == 0 {
      OrZero(q);
    } else {
      DoubledFactor(q, Pow2(k - 1));
      OrEven(x, q * Pow2(k - 1));
      OrDisjoint(x / 2, q, k - 1);
    }
  }

  // What a byte string encodes.

  /** Bytes up to and including the first with its high bit clear; 0 when there is none. */
  function EncodingLength(data: seq<Byte>): (k: nat)
    ensures k <= |data|
    ensures k > 0 ==> data[k - 1] < 128 && forall i | 0 <= i < k - 1 :: data[i] >= 128
    ensures k == 0 ==> forall i | 0 <= i < |data| :: data[i] >= 128
  {
    if data == [] then 0
    else if data[0] < 128 then 1
    else
      var r := EncodingLength(data[1..]);
      if r == 0 then 0 else r + 1
  }

  /** The 7-bit groups of the first `k` bytes read as a little-endian number: the unsigned reading. */
  function Groups(data: seq<Byte>, k: nat): nat
    requires k <= |data|
  {
    if k == 0 then 0 else Groups(data, k - 1) + (data[k - 1] % 128) * Weight(k - 1)
  }

  lemma {:induction false} GroupsBound(data: seq<Byte>, k: nat)
    requires k <= |data|
    ensures Groups(data, k) < Weight(k)
  {
    if k > 0 {
      GroupsBound(data, k - 1);
      ScaleMonotone(data[k - 1] % 128, 127, Weight(k - 1));
    }
  }

  /** The signed reading: the top group's bit 6 is the sign. */
  function Signed(data: seq<Byte>, k: nat): int
    requires 0 < k <= |data|
  {
    Groups(data, k) - if data[k - 1] % 128 >= 64 then Weight(k) else 0
  }

  /** decodeLEB128's answer: the value and the number of bytes read. */
  ghost function Decode(data: seq<Byte>): (r: (int, nat))
    ensures r.1 <= |data| && r.1 <= 10 && (data != [] ==> r.1 >= 1)
  {
    var k := EncodingLength(data);
    if k == 0 || k > 10 then (0, if |data| < 10 then |data| else 10)
    else if k < 10 then (Signed(data, k), k)
    else (AsInt64(Groups(data, 10) % TWO64), 10)
  }

  lemma GroupsStep(data: seq<Byte>, k: nat)
    requires k < |data|
    ensures Groups(data, 0) == 0 && Weight(0) == 1
    ensures Groups(data, k + 1) == Groups(data, k) + (data[k] % 128) * Weight(k)
    ensures k > 0 ==> Weight(k) == 128 * Weight(k - 1)
  {
  }

  lemma ShlSmall(g: nat, n: nat, p: int)
    requires p == g * Pow2(n) && 0 <= p < TWO64
    ensures Shl(g, n) == p
  {
  }

  /** The answer is an int64. */
  lemma DecodeIsInt64(data: seq<Byte>)
    ensures -TWO63 <= Decode(data).0 < TWO63
  {
    var k := EncodingLength(data);
    WeightNine();
    if 0 < k < 10 {
      GroupsBound(data, k);
      WeightMonotone(k, 9);
    }
  }

  /** One more of the first nine groups fits below bit 63. */
  lemma AccumulateLow(data: seq<Byte>, k: nat)
    requires k < |data| && k < 9
    ensures Or(Groups(data, k), Shl(data[k] % 128, 7 * k)) == Groups(data, k + 1) < TWO63
  {
    hide Or, Pow2, Weight, Shl, Groups;
    var g, w := data[k] % 128, Weight(k);
    var p := g * w;
    GroupsBound(data, k);
    GroupsBound(data, k + 1);
    WeightIsPow2(k);
    GroupsStep(data, k);
    assert Weight(k + 1) <= TWO63 by {
      WeightNine();
      WeightMonotone(k + 1, 9);
    }
    assert Shl(g, 7 * k) == p by {
      ShlSmall(g, 7 * k, p);
    }
    OrDisjoint(Groups(data, k), g, 7 * k);
  }

  lemma TenthGroup(r: nat, g: nat)
    requires r < TWO63 && g < 128
    ensures (g * TWO63) % TWO64 == (g % 2) * TWO63
    ensures (r + g * TWO63) % TWO64 == r + (g % 2) * TWO63
  {
    var h := g / 2;
    assert g * TWO63 == h * TWO64 + (g % 2) * TWO63;
  }

  /** The tenth group contributes its lowest bit, as bit 63. */
  lemma AccumulateTenth(data: seq<Byte>)
    requires 10 <= |data|
    ensures Or(Groups(data, 9), Shl(data[9] % 128, 63)) == Groups(data, 10) % TWO64
  {
    var r, g := Groups(data, 9), data[9] % 128;
    assert r < TWO63 && Pow2(63) == Weight(9) == TWO63 by {
      GroupsBound(data, 9);
      WeightIsPow2(9);
      WeightNine();
    }
    TenthGroup(r, g);
    OrDisjoint(r, g % 2, 63);
    assert Groups(data, 10) == r + g * TWO63;
  }

  lemma {:induction false} Pow2Add(m: nat, n: nat)
    ensures Pow2(m + n) == Pow2(m) * Pow2(n)
  {
    hide Pow2;
    Pow2Unfolds(m);
    Pow2Unfolds(m + n);
    if m > 0 {
      Pow2Add(m - 1, n);
      DoubledFactor(Pow2(m - 1), Pow2(n));
    }
  }

  /** A weight divides 2^64. */
  lemma WeightDivides(k: nat) returns (q: nat)
    requires k <= 9
    ensures q * Weight(k) == TWO64 && q >= 2
  {
    WeightNine();
    WeightIsPow2(k);
    WeightIsPow2(9);
    q := Pow2(63 - 7 * k) * 2;
    Pow2Add(63 - 7 * k, 7 * k);
    assert Pow2(63 - 7 * k) >= 1;
  }

  lemma ComplementOfMultiple(q: nat, w: nat)
    requires q >= 1
    ensures q * w - w == (q - 1) * w
  {
  }

  lemma SignExtend(n: nat, k: nat)
    requires 1 <= k <= 9 && n < Weight(k)
    ensures AsInt64(Or(n, Neg(Shl(1, 7 * k)))) == n - Weight(k)
  {
    hide Weight, Pow2, Or;
    var w := Weight(k);
    assert 1 <= w <= TWO63 && w == Pow2(7 * k) by {
      WeightNine();
      WeightMonotone(k, 9);
      WeightIsPow2(k);
    }
    var q := WeightDivides(k);
    ComplementOfMultiple(q, w);
    assert Neg(Shl(1, 7 * k)) == TWO64 - w;
    OrDisjoint(n, q - 1, 7 * k);
  }

  lemma NoExtensionPastBit63(u: nat)
    ensures Or(u, Neg(Shl(1, 70))) == u
  {
    WeightIsPow2(10);
    WeightNine();
  }

  /** decodeLEB128. */
  method DecodeLEB128(data: seq<Byte>) returns (value: int, bytesRead: nat)
    ensures (value, bytesRead) == Decode(data)
  {
    hide Or, Shl, Neg, Weight, Pow2;
    var result, shift := 0, 0;
    bytesRead := 0;
    while bytesRead < |data| && bytesRead < 10
      invariant bytesRead <= |data| && bytesRead <= 10 && shift == 7 * bytesRead
      invariant forall i | 0 <= i < bytesRead :: data[i] >= 128
      invariant result >= 0 && (bytesRead < 10 ==> result == Groups(data, bytesRead))
    {
      var b := data[bytesRead];
      if bytesRead < 9 {
        AccumulateLow(data, bytesRead);
      } else {
        AccumulateTenth(data);
      }
      result := Or(result, Shl(b % 128, shift));
      if b < 128 {
        assert EncodingLength(data) == bytesRead + 1;
        GroupsBound(data, bytesRead + 1);
        if shift < 64 && b % 128 >= 64 {
          if bytesRead < 9 {
            SignExtend(result, bytesRead + 1);
          } else {
            NoExtensionPastBit63(result);
          }
          result := Or(result, Neg(Shl(1, shift + 7)));
        }
        return AsInt64(result), bytesRead + 1;
      }
      shift := shift + 7;
      bytesRead := bytesRead + 1;
    }
    return 0, bytesRead;
  }

  // Prefixes: what follows a complete encoding does not matter.

  lemma {:induction false} EncodingLengthPrefix(a: seq<Byte>, b: seq<Byte>)
    requires EncodingLength(a) > 0
    ensures EncodingLength(a + b) == EncodingLength(a)
  {
    if a[0] >= 128 {
      assert (a + b)[1..] == a[1..] + b;
      EncodingLengthPrefix(a[1..], b);
    }
  }

  lemma {:induction false} GroupsPrefix(a: seq<Byte>, b: seq<Byte>, k: nat)
    requires k <= |a|
    ensures Groups(a + b, k) == Groups(a, k)
  {
    if k > 0 {
      GroupsPrefix(a, b, k - 1);
    }
  }

  lemma GroupedFactor(g: nat, p: nat)
    ensures g * (128 * p) == 128 * (g * p)
  {
  }

  lemma {:induction false} GroupsFromFront(data: seq<Byte>, k: nat)
    requires 0 < k <= |data|
    ensures Groups(data, k) == data[0] % 128 + 128 * Groups(data[1..], k - 1)
  {
    hide Groups, Weight;
    GroupsStep(data, k - 1);
    if k == 1 {
      GroupsNone(data[1..]);
    } else {
      GroupsFromFront(data, k - 1);
      GroupsStep(data[1..], k - 2);
      GroupedFactor(data[k - 1] % 128, Weight(k - 2));
      assert data[1..][k - 2] == data[k - 1];
    }
  }

  lemma GroupsNone(data: seq<Byte>)
    ensures Groups(data, 0) == 0
  {
  }

  // Signed encodings decode to what they encode.

  /** The shortest signed LEB128 encoding of any integer. */
  function EncodeSigned(v: int): (e: seq<Byte>)
    ensures e != [] && EncodingLength(e) == |e|
    decreases if v < 0 then -v else v
  {
    var group, rest := v % 128, v / 128;
    if (rest == 0 && group < 64) || (rest == -1 && group >= 64) then [group]
    else
      var tail := EncodeSigned(rest);
      assert ([group + 128] + tail)[1..] == tail;
      [group + 128] + tail
  }

  lemma SignedCons(group: nat, tail: seq<Byte>)
    requires group < 128 && tail != []
    ensures Signed([group + 128] + tail, |tail| + 1) == group + 128 * Signed(tail, |tail|)
  {
    var data: seq<Byte> := [group + 128] + tail;
    GroupsFromFront(data, |tail| + 1);
    assert data[1..] == tail;
  }

  lemma {:induction false} EncodeSignedValue(v: int)
    ensures Signed(EncodeSigned(v), |EncodeSigned(v)|) == v
    decreases if v < 0 then -v else v
  {
    var group, rest := v % 128, v / 128;
    if (rest == 0 && group < 64) || (rest == -1 && group >= 64) {
      assert Groups([group], 1) == group;
    } else {
      EncodeSignedValue(rest);
      SignedCons(group, EncodeSigned(rest));
    }
  }

  lemma EncodeSignedOnce(v: int)
    ensures -64 <= v < 64 ==> |EncodeSigned(v)| == 1
    ensures |EncodeSigned(v)| == 1 || |EncodeSigned(v)| == 1 + |EncodeSigned(v / 128)|
  {
  }

  lemma QuotientBound(v: int, b: int)
    requires 0 - 128 * b <= v < 128 * b
    ensures 0 - b <= v / 128 < b
  {
  }

  lemma {:induction false} EncodeSignedLength(v: int, k: nat)
    requires k >= 1 && 0 - 64 * Weight(k - 1) <= v < 64 * Weight(k - 1)
    ensures |EncodeSigned(v)| <= k
    decreases k
  {
    hide EncodeSigned;
    EncodeSignedOnce(v);
    if k > 1 {
      QuotientBound(v, 64 * Weight(k - 2));
      EncodeSignedLength(v / 128, k - 1);
    }
  }

  lemma TenByteValue(v: int, n: nat)
    requires -TWO63 <= v < TWO63 && (n == v || n == v + 64 * TWO64)
    ensures AsInt64(n % TWO64) == v
  {
  }

  /** For every int64, through shift 63 and the ten-byte cap, and whatever follows. */
  lemma SignedRoundTrip(v: int, suffix: seq<Byte>)
    requires -TWO63 <= v < TWO63
    ensures Decode(EncodeSigned(v) + suffix) == (v, |EncodeSigned(v)|)
  {
    hide EncodeSigned, Weight;
    var e := EncodeSigned(v);
    EncodeSignedValue(v);
    assert |e| <= 10 by {
      WeightNine();
      EncodeSignedLength(v, 10);
    }
    EncodingLengthPrefix(e, suffix);
    GroupsPrefix(e, suffix, |e|);
    if |e| == 10 {
      WeightNine();
      TenByteValue(v, Groups(e, 10));
    }
  }

  // Unsigned encodings.

  /** `e` is an unsigned LEB128 encoding of `n`, padded or not, in at most nine bytes. */
  ghost predicate IsUnsigned(e: seq<Byte>, n: nat) {
    0 < EncodingLength(e) == |e| <= 9 && Groups(e, |e|) == n
  }

  /** The shortest such encoding. */
  function EncodeUnsigned(n: nat): (e: seq<Byte>)
    ensures e != [] && EncodingLength(e) == |e|
  {
    if n < 128 then [n]
    else
      var tail := EncodeUnsigned(n / 128);
      assert ([n % 128 + 128] + tail)[1..] == tail;
      [n % 128 + 128] + tail
  }

  lemma UnsignedCons(group: nat, tail: seq<Byte>)
    requires group < 128
    ensures Groups([group + 128] + tail, |tail| + 1) == group + 128 * Groups(tail, |tail|)
  {
    var data: seq<Byte> := [group + 128] + tail;
    GroupsFromFront(data, |tail| + 1);
    assert data[1..] == tail;
  }

  lemma {:induction false} EncodeUnsignedValue(n: nat)
    ensures Groups(EncodeUnsigned(n), |EncodeUnsigned(n)|) == n
  {
    if n < 128 {
      assert Groups([n], 1) == n;
    } else {
      EncodeUnsignedValue(n / 128);
      UnsignedCons(n % 128, EncodeUnsigned(n / 128));
    }
  }

  lemma {:induction false} EncodeUnsignedLength(n: nat, k: nat)
    requires k >= 1 && n < Weight(k)
    ensures |EncodeUnsigned(n)| <= k
    decreases k
  {
    if n >= 128 {
      EncodeUnsignedLength(n / 128, k - 1);
    }
  }

  /** Every number below 2^63 has such an encoding. */
  lemma EncodeUnsignedIsUnsigned(n: nat)
    requires n < TWO63
    ensures IsUnsigned(EncodeUnsigned(n), n)
  {
    WeightNine();
    EncodeUnsignedValue(n);
    EncodeUnsignedLength(n, 9);
  }

  /** The top group reaches 64 exactly when bit 7k - 1 of the encoded number is set. */
  lemma TopGroupIsTopBit(data: seq<Byte>, k: nat)
    requires 0 < k <= |data|
    ensures data[k - 1] % 128 >= 64 <==> Groups(data, k) >= Pow2(7 * k - 1)
  {
    var g, w := data[k - 1] % 128, Weight(k - 1);
    GroupsBound(data, k - 1);
    WeightIsPow2(k);
    if g >= 64 {
      ScaleMonotone(64, g, w);
    } else {
      ScaleMonotone(g, 63, w);
    }
  }

  /** The signed decoder on an unsigned encoding: right when bit 7k - 1 is clear, 2^(7k) too low when set. */
  lemma UnsignedReading(e: seq<Byte>, n: nat, suffix: seq<Byte>)
    requires IsUnsigned(e, n)
    ensures Decode(e + suffix) == (if n < Pow2(7 * |e| - 1) then n else n - Pow2(7 * |e|), |e|)
    ensures Decode(e + suffix).0 == n <==> n < Pow2(7 * |e| - 1)
    ensures Decode(e + suffix).0 < 0 <==> n >= Pow2(7 * |e| - 1)
  {
    hide Pow2, Weight, Groups, EncodingLength;
    EncodingLengthPrefix(e, suffix);
    GroupsPrefix(e, suffix, |e|);
    TopGroupIsTopBit(e, |e|);
    GroupsBound(e, |e|);
    WeightIsPow2(|e|);
  }

  /** The smallest number misread: 64, encoded in one byte, decodes to -64. */
  lemma SixtyFourIsMisread()
    ensures IsUnsigned(EncodeUnsigned(64), 64) && Decode(EncodeUnsigned(64)).0 == -64
  {
    EncodeUnsignedIsUnsigned(64);
    assert EncodeUnsigned(64) == [64];
    assert Pow2(6) == 64 && Pow2(7) == 128;
    UnsignedReading([64], 64, []);
    assert [64] + [] == [64];
  }
}
