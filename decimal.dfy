/**
 * Decimal rendering and reading of integers, as Python's `f"{n}"` and
 * `int(digits)` do them for the integer fields of an artifact name.
 */
module Decimal {

  predicate IsDigit(c: char) { '0' <= c <= '9' }

  /** A non-empty run of ASCII digits: what the regex class `[0-9]+` accepts. */
  predicate IsDigits(s: string)
  {
    |s| > 0 && forall i :: 0 <= i < |s| ==> IsDigit(s[i])
  }

  /** Digits as Python's `str(n)` writes them: no leading zero unless the number is 0. */
  predicate IsCanonical(s: string)
  {
    IsDigits(s) && (|s| > 1 ==> s[0] != '0')
  }

  function DigitChar(d: nat): (c: char)
    requires d < 10
    ensures IsDigit(c) && c as int - '0' as int == d
  {
    ('0' as int + d) as char
  }

  function DigitValue(c: char): (d: nat)
    requires IsDigit(c)
    ensures d < 10 && DigitChar(d) == c
  {
    c as int - '0' as int
  }

  /** `str(n)` for a non-negative integer. */
  function NatToDec(n: nat): (s: string)
    ensures IsCanonical(s)
    ensures '_' !in s
  {
    if n < 10 then [DigitChar(n)] else NatToDec(n / 10) + [DigitChar(n % 10)]
  }

  /** `int(s)` for a string of ASCII digits; leading zeros are accepted. */
  function DecToNat(s: string): nat
    requires forall i :: 0 <= i < |s| ==> IsDigit(s[i])
  {
    if s == [] then 0 else 10 * DecToNat(s[..|s| - 1]) + DigitValue(s[|s| - 1])
  }

  /** `f"{i}"` for any integer: a minus sign, then the digits of the magnitude. */
  function IntToDec(i: int): (s: string)
    ensures |s| > 0 && '_' !in s
    ensures i >= 0 ==> IsCanonical(s)
    ensures i < 0 ==> s[0] == '-'
  {
    if i < 0 then "-" + NatToDec(-i) else NatToDec(i)
  }

  /** Reading back what was written gives the number written. */
  lemma {:induction false} NatToDecRoundTrip(n: nat)
    ensures DecToNat(NatToDec(n)) == n
  {
    var s := NatToDec(n);
    if n >= 10 {
      NatToDecRoundTrip(n / 10);
      assert s[..|s| - 1] == NatToDec(n / 10);
    }
  }

  /** Digits without a leading zero denote a positive number unless they are "0". */
  lemma {:induction false} CanonicalPositive(s: string)
    requires IsDigits(s) && s[0] != '0'
    ensures DecToNat(s) > 0
  {
    if |s| > 1 {
      var p := s[..|s| - 1];
      assert p[0] == s[0];
      CanonicalPositive(p);
    } else {
      assert s[..0] == [];
    }
  }

  /** Canonical digits are exactly what `str` writes for the number they denote. */
  lemma {:induction false} CanonicalRoundTrip(s: string)
    requires IsCanonical(s)
    ensures NatToDec(DecToNat(s)) == s
  {
    var p := s[..|s| - 1];
    var d := DigitValue(s[|s| - 1]);
    if |s| == 1 {
      assert p == [];
      assert s == [s[0]];
    } else {
      assert p[0] == s[0];
      CanonicalPositive(p);
      CanonicalRoundTrip(p);
      var n := DecToNat(s);
      assert n == 10 * DecToNat(p) + d;
      assert n / 10 == DecToNat(p) && n % 10 == d;
      assert s == p + [s[|s| - 1]];
    }
  }

  /** Different integers are written differently. */
  lemma IntToDecInjective(a: int, b: int)
    requires IntToDec(a) == IntToDec(b)
    ensures a == b
  {
    if a < 0 && b < 0 {
      assert NatToDec(-a) == IntToDec(a)[1..] == IntToDec(b)[1..] == NatToDec(-b);
      NatToDecRoundTrip(-a);
      NatToDecRoundTrip(-b);
    } else if a >= 0 && b >= 0 {
      NatToDecRoundTrip(a);
      NatToDecRoundTrip(b);
    }
  }
}
