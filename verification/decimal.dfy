/**
 Decimal rendering of integers, as Python's `str(int)` (and an f-string
 placeholder holding an int) produces it: an optional leading '-', then the
 digits of the magnitude without leading zeros. The parser is the partner
 that shows the rendering loses no information.
 */
module Decimal {

  predicate IsDigit(c: char) {
    '0' <= c <= '9'
  }

  function DigitChar(d: nat): (c: char)
    requires d < 10
    ensures IsDigit(c)
  {
    ('0' as int + d) as char
  }

  function DigitValue(c: char): nat {
    if IsDigit(c) then c as int - '0' as int else 0
  }

  /** The decimal digits of `n`, most significant first. */
  function NatToString(n: nat): (s: string)
    ensures |s| > 0
    ensures forall i :: 0 <= i < |s| ==> IsDigit(s[i])
    decreases n
  {
    if n < 10 then [DigitChar(n)] else NatToString(n / 10) + [DigitChar(n % 10)]
  }

  /** `str(n)` for a Python int. */
  function IntToString(n: int): string {
    if n < 0 then "-" + NatToString(-n) else NatToString(n)
  }

  /** Reads a digit string back, most significant digit first. */
  function ParseNat(s: string): nat {
    if |s| == 0 then 0 else ParseNat(s[..|s| - 1]) * 10 + DigitValue(s[|s| - 1])
  }

  /** `int(s)` for the strings `IntToString` produces. */
  function ParseInt(s: string): int {
    if |s| > 0 && s[0] == '-' then -(ParseNat(s[1..]) as int) else ParseNat(s) as int
  }

  lemma {:induction false} ParseNatToString(n: nat)
    ensures ParseNat(NatToString(n)) == n
    decreases n
  {
    if n >= 10 {
      var s := NatToString(n / 10);
      var c := DigitChar(n % 10);
      assert (s + [c])[..|s + [c]| - 1] == s;
      ParseNatToString(n / 10);
    }
  }

  /** Round trip: the rendering of an int parses back to that int. */
  lemma ParseIntToString(n: int)
    ensures ParseInt(IntToString(n)) == n
  {
    if n < 0 {
      var s := NatToString(-n);
      assert ("-" + s)[1..] == s;
      ParseNatToString(-n);
    } else {
      var s := NatToString(n);
      assert s[0] != '-' by { assert IsDigit(s[0]); }
      ParseNatToString(n);
    }
  }

  /** Distinct ints render as distinct strings. */
  lemma IntToStringInjective(a: int, b: int)
    ensures IntToString(a) == IntToString(b) <==> a == b
  {
    ParseIntToString(a);
    ParseIntToString(b);
  }
}
