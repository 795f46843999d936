/**
 Strings as Go sees them here: bytewise ordering, and decimal rendering of integers.
 */
module Text {

  /** Go's string ordering: lexicographic by element. */
  predicate Leq(a: string, b: string) {
    a == [] || (b != [] && (a[0] < b[0] || (a[0] == b[0] && Leq(a[1..], b[1..]))))
  }

  lemma {:induction false} LeqAntisymmetric(a: string, b: string)
    requires Leq(a, b) && Leq(b, a)
    ensures a == b
  {
    if a != [] && b != [] {
      LeqAntisymmetric(a[1..], b[1..]);
      assert a == [a[0]] + a[1..] && b == [b[0]] + b[1..];
    }
  }

  lemma {:induction false} LeqTransitive(a: string, b: string, c: string)
    requires Leq(a, b) && Leq(b, c)
    ensures Leq(a, c)
  {
    if a != [] && b != [] && c != [] && a[0] == b[0] == c[0] {
      LeqTransitive(a[1..], b[1..], c[1..]);
    }
  }

  lemma {:induction false} LeqTotal(a: string, b: string)
    ensures Leq(a, b) || Leq(b, a)
  {
    if a != [] && b != [] && a[0] == b[0] {
      LeqTotal(a[1..], b[1..]);
    }
  }

  function Digit(d: nat): char
    requires d < 10
  {
    '0' + d as char
  }

  /** The `%d` rendering of a non-negative integer. */
  function Digits(n: nat): (s: string)
    ensures s != [] && forall c | c in s :: '0' <= c <= '9'
    ensures s[0] == '0' <==> n == 0
  {
    if n < 10 then [Digit(n)] else Digits(n / 10) + [Digit(n % 10)]
  }

  /** Reads decimal digits back. */
  function ParseDigits(s: string): int {
    if s == [] then 0 else ParseDigits(s[..|s| - 1]) * 10 + (s[|s| - 1] as int - '0' as int)
  }

  lemma {:induction false} DigitsRoundTrip(n: nat)
    ensures ParseDigits(Digits(n)) == n
  {
    if n < 10 {
      assert Digits(n)[..0] == [];
    } else {
      DigitsRoundTrip(n / 10);
      assert Digits(n)[..|Digits(n)| - 1] == Digits(n / 10);
    }
  }

  /** The `%d` rendering of any integer. */
  function Decimal(n: int): string {
    if n < 0 then "-" + Digits(-n) else Digits(n)
  }

  /** Reads a decimal rendering: a leading minus sign negates the number the rest spells. */
  function ReadDecimal(s: string): int {
    if s != [] && s[0] == '-' then -ParseDigits(s[1..]) else ParseDigits(s)
  }

  /** The rendering reads back as the integer, sign included. */
  lemma DecimalReads(n: int)
    ensures ReadDecimal(Decimal(n)) == n
  {
    if n < 0 {
      DigitsRoundTrip(-n);
      assert Decimal(n)[1..] == Digits(-n);
    } else {
      DigitsRoundTrip(n);
      assert Digits(n)[0] in Digits(n);
    }
  }

  /** Two integers with the same rendering are the same integer. */
  lemma DecimalInjective(a: int, b: int)
    requires Decimal(a) == Decimal(b)
    ensures a == b
  {
    hide Decimal, ReadDecimal;
    DecimalReads(a);
    DecimalReads(b);
  }

  /** Where two strings differ first: the lesser has the lesser element there, or has ended. */
  ghost predicate DiffersAt(a: string, b: string, i: nat) {
    i <= |a| && i < |b| && a[..i] == b[..i] && (i == |a| || a[i] < b[i])
  }

  lemma DiffersLater(a: string, b: string, i: nat)
    requires DiffersAt(a, b, i) && i > 0
    ensures a != [] && a[0] == b[0]
  {
    assert a[..i][0] == a[0] && b[..i][0] == b[0];
  }

  /** The order is the lexicographic one. */
  lemma {:induction false} LeqIsLexicographic(a: string, b: string)
    ensures Leq(a, b) <==> a == b || exists i :: DiffersAt(a, b, i)
  {
    if a == [] {
      if b != [] {
        assert DiffersAt(a, b, 0);
      }
    } else if b != [] && a[0] == b[0] {
      LeqIsLexicographic(a[1..], b[1..]);
      assert a == [a[0]] + a[1..] && b == [b[0]] + b[1..];
      if i: nat :| DiffersAt(a[1..], b[1..], i) {
        assert a[..i + 1] == [a[0]] + a[1..][..i] && b[..i + 1] == [b[0]] + b[1..][..i];
        assert DiffersAt(a, b, i + 1);
      }
      if i: nat :| DiffersAt(a, b, i) {
        if i == 0 {
          assert false;
        }
        assert a[1..][..i - 1] == a[..i][1..] && b[1..][..i - 1] == b[..i][1..];
        assert DiffersAt(a[1..], b[1..], i - 1);
      }
    } else if b != [] {
      if a[0] < b[0] {
        assert DiffersAt(a, b, 0);
      }
      if i: nat :| DiffersAt(a, b, i) && i > 0 {
        DiffersLater(a, b, i);
      }
    }
  }
}
