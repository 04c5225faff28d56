/**
  Decimal strings of natural numbers: how a template literal renders a
  non-negative integer (`${n}`) and how unary plus reads a string of digits
  back (`+s`).
 */
module Decimal {
  import opened Wrappers

  predicate IsDigit(c: char) {
    '0' <= c <= '9'
  }

  predicate AllDigits(s: string) {
    forall i :: 0 <= i < |s| ==> IsDigit(s[i])
  }

  /** A string as a template literal writes a natural number: digits only, no leading zero. */
  predicate Canonical(s: string) {
    |s| >= 1 && AllDigits(s) && (|s| > 1 ==> s[0] != '0')
  }

  function DigitChar(d: nat): (c: char)
    requires d < 10
    ensures IsDigit(c)
  {
    ('0' as int + d) as char
  }

  function DigitValue(c: char): (d: nat)
    requires IsDigit(c)
    ensures d < 10
    ensures DigitChar(d) == c
  {
    c as int - '0' as int
  }

  /** `${n}` for a natural number n. */
  function ToDecimal(n: nat): (s: string)
    ensures Canonical(s)
    decreases n
  {
    if n < 10 then [DigitChar(n)] else ToDecimal(n / 10) + [DigitChar(n % 10)]
  }

  /** The number a string of decimal digits denotes; the empty string denotes 0. */
  function DigitsValue(s: string): nat
    requires AllDigits(s)
    decreases |s|
  {
    if s == [] then 0 else DigitsValue(s[..|s| - 1]) * 10 + DigitValue(s[|s| - 1])
  }

  /**
    Unary plus on a string, restricted to the strings this model can produce:
    a string of decimal digits (the empty one included, which JavaScript reads
    as 0) gives its value; any other string gives None, standing for NaN.
   */
  function ToNumber(s: string): (r: Option<nat>)
    ensures r.Some? <==> AllDigits(s)
    ensures s == "" ==> r == Some(0)
  {
    if AllDigits(s) then Some(DigitsValue(s)) else None
  }

  /** Reading back what `${n}` wrote gives n. */
  lemma {:induction false} ToNumberToDecimal(n: nat)
    ensures ToNumber(ToDecimal(n)) == Some(n)
    decreases n
  {
    var s := ToDecimal(n);
    if n < 10 {
      assert s[..|s| - 1] == [];
      assert DigitValue(s[0]) == n;
      assert DigitsValue(s) == n;
      assert AllDigits(s);
    } else {
      ToNumberToDecimal(n / 10);
      assert s[..|s| - 1] == ToDecimal(n / 10);
      assert DigitValue(s[|s| - 1]) == n % 10;
    }
  }

  /** A non-zero leading digit makes the value at least 1. */
  lemma {:induction false} LeadingDigitPositive(s: string)
    requires AllDigits(s) && |s| >= 1 && s[0] != '0'
    ensures DigitsValue(s) >= 1
    decreases |s|
  {
    if |s| > 1 {
      LeadingDigitPositive(s[..|s| - 1]);
    }
  }

  /** Conversely, writing out the value of a canonical digit string gives the string back. */
  lemma {:induction false} ToDecimalDigitsValue(s: string)
    requires Canonical(s)
    ensures ToDecimal(DigitsValue(s)) == s
    decreases |s|
  {
    var p := s[..|s| - 1];
    var last := s[|s| - 1];
    if |s| > 1 {
      assert Canonical(p);
      LeadingDigitPositive(p);
      ToDecimalDigitsValue(p);
      var n := DigitsValue(s);
      assert n / 10 == DigitsValue(p) && n % 10 == DigitValue(last);
      assert s == p + [last];
    }
  }
}
