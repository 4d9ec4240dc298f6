/** Decimal rendering of integers, as std::to_string(int) produces it: an optional
    '-' followed by the digits of the magnitude, most significant first, with no
    leading zero.  ParseInt reads such a text back. */
module Decimal {

  predicate IsDigit(c: char) {
    '0' <= c <= '9'
  }

  predicate AllDigits(s: string) {
    forall i :: 0 <= i < |s| ==> IsDigit(s[i])
  }

  function DigitChar(d: nat): (c: char)
    requires d < 10
    ensures IsDigit(c) && DigitValue(c) == d
  {
    (('0' as int) + d) as char
  }

  function DigitValue(c: char): (d: nat)
    requires IsDigit(c)
  {
    (c as int) - ('0' as int)
  }

  /** The digits of n, most significant first. */
  function Digits(n: nat): (s: string)
    ensures 1 <= |s| && AllDigits(s)
    ensures |s| == 1 <==> n < 10
    ensures s[0] == '0' <==> n == 0
  {
    if n < 10 then [DigitChar(n)] else Digits(n / 10) + [DigitChar(n % 10)]
  }

  /** The number a string of digits denotes. */
  function DigitsValue(s: string): (n: nat)
    requires AllDigits(s)
  {
    if |s| == 0 then 0 else 10 * DigitsValue(s[..|s| - 1]) + DigitValue(s[|s| - 1])
  }

  /** A well-formed decimal integer text: digits, optionally after one '-'. */
  predicate IsDecimal(s: string) {
    if 0 < |s| && s[0] == '-' then 1 < |s| && AllDigits(s[1..]) else 0 < |s| && AllDigits(s)
  }

  function ParseInt(s: string): (n: int)
    requires IsDecimal(s)
  {
    if s[0] == '-' then -(DigitsValue(s[1..]) as int) else DigitsValue(s)
  }

  /** std::to_string(n) for an integer n. */
  function ToString(n: int): (s: string)
    ensures IsDecimal(s)
    ensures s[0] == '-' <==> n < 0
    ensures '\0' !in s
  {
    if n < 0 then "-" + Digits(-n) else Digits(n)
  }

  lemma {:induction false} DigitsRoundTrip(n: nat)
    ensures DigitsValue(Digits(n)) == n
  {
    if n >= 10 {
      DigitsRoundTrip(n / 10);
      var s := Digits(n);
      assert s[..|s| - 1] == Digits(n / 10);
    }
  }

  /** Reading the rendered text back gives the integer that was rendered. */
  lemma ToStringRoundTrip(n: int)
    ensures ParseInt(ToString(n)) == n
  {
    if n < 0 {
      DigitsRoundTrip(-n);
      assert ToString(n)[1..] == Digits(-n);
    } else {
      DigitsRoundTrip(n);
    }
  }

  /** Different integers are rendered as different texts. */
  lemma ToStringInjective(m: int, n: int)
    requires ToString(m) == ToString(n)
    ensures m == n
  {
    ToStringRoundTrip(m);
    ToStringRoundTrip(n);
  }
}
