/**
 * Decimal rendering of integers, as `std::to_string(int)` produces it
 * (an optional minus sign followed by the digits, no leading zeros), and a
 * parser that reads such a rendering back.
 */
module Decimal {
  import opened Wrappers

  predicate IsDigit(c: char) {
    '0' <= c <= '9'
  }

  predicate AllDigits(s: string) {
    forall i :: 0 <= i < |s| ==> IsDigit(s[i])
  }

  function DigitChar(d: nat): (c: char)
    requires d < 10
    ensures IsDigit(c)
    ensures DigitValue(c) == d
  {
    ['0', '1', '2', '3', '4', '5', '6', '7', '8', '9'][d]
  }

  function DigitValue(c: char): (d: nat)
    requires IsDigit(c)
    ensures d < 10
  {
    (c as int) - ('0' as int)
  }

  /** The digits of `n`, most significant first, without leading zeros. */
  function NatDigits(n: nat): (s: string)
    ensures 0 < |s|
    ensures AllDigits(s)
    ensures |s| > 1 ==> s[0] != '0'
    decreases n
  {
    if n < 10 then [DigitChar(n)]
    else NatDigits(n / 10) + [DigitChar(n % 10)]
  }

  /** The value of a string of digits, read most significant first. */
  function DigitsValue(s: string): nat
    requires AllDigits(s)
  {
    if |s| == 0 then 0
    else 10 * DigitsValue(s[..|s| - 1]) + DigitValue(s[|s| - 1])
  }

  /** No leading zero after the optional sign: "0" is allowed, "050", "-07" and "-0" are not. */
  predicate NoLeadingZero(s: string) {
    if 0 < |s| && s[0] == '-' then 1 < |s| && s[1] != '0'
    else 1 < |s| ==> s[0] != '0'
  }

  /** What `std::to_string` writes for an `int`. */
  function ToDecimal(n: int): (s: string)
    ensures 0 < |s|
    ensures n < 0 <==> s[0] == '-'
    ensures n < 0 ==> AllDigits(s[1..])
    ensures 0 <= n ==> AllDigits(s)
    ensures NoLeadingZero(s)
  {
    if n < 0 then "-" + NatDigits(-n) else NatDigits(n)
  }

  /** Reads an optional minus sign followed by at least one digit. */
  function ParseDecimal(s: string): (r: Option<int>)
    ensures r.Some? ==> 0 < |s|
  {
    if |s| > 0 && s[0] == '-' then
      if |s| > 1 && AllDigits(s[1..]) then Some(-(DigitsValue(s[1..]) as int)) else None
    else if |s| > 0 && AllDigits(s) then Some(DigitsValue(s))
    else None
  }

  lemma {:induction false} DigitsRoundTrip(n: nat)
    ensures DigitsValue(NatDigits(n)) == n
    decreases n
  {
    var s := NatDigits(n);
    if n >= 10 {
      DigitsRoundTrip(n / 10);
      assert s[..|s| - 1] == NatDigits(n / 10);
    }
  }

  /** Rendering then parsing gives the integer back. */
  lemma DecimalRoundTrip(n: int)
    ensures ParseDecimal(ToDecimal(n)) == Some(n)
  {
    if n < 0 {
      DigitsRoundTrip(-n);
      assert ToDecimal(n)[1..] == NatDigits(-n);
    } else {
      DigitsRoundTrip(n);
    }
  }

  /** Distinct integers have distinct renderings. */
  lemma DecimalInjective(m: int, n: int)
    requires ToDecimal(m) == ToDecimal(n)
    ensures m == n
  {
    DecimalRoundTrip(m);
    DecimalRoundTrip(n);
  }
}
