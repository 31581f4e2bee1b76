/**
 * Swift's rendering of an `Int` in string interpolation (`"\(n)"`): an optional minus sign
 * and the decimal digits, most significant first, without leading zeros.
 */
module Decimal {

  /** The character of one decimal digit. */
  function DigitChar(d: nat): (c: char)
    requires d < 10
    ensures '0' <= c <= '9'
    ensures c as int - '0' as int == d
  {
    (d + '0' as int) as char
  }

  /** Every character is a decimal digit. */
  predicate AllDigits(s: string) {
    forall i :: 0 <= i < |s| ==> '0' <= s[i] <= '9'
  }

  /** The digits of `n`: one digit exactly when `n < 10`, and no leading zero. */
  function NatToString(n: nat): (s: string)
    ensures 1 <= |s| && AllDigits(s)
    ensures |s| == 1 <==> n < 10
    ensures |s| > 1 ==> s[0] != '0'
  {
    if n < 10 then [DigitChar(n)] else NatToString(n / 10) + [DigitChar(n % 10)]
  }

  /** The value of a string of digits, read most significant first. */
  function DigitsValue(s: string): (r: nat)
    requires AllDigits(s)
  {
    if s == [] then 0
    else DigitsValue(s[..|s| - 1]) * 10 + (s[|s| - 1] as int - '0' as int)
  }

  /** `"\(n)"` for a signed `n`. */
  function IntToString(n: int): (s: string)
    ensures 1 <= |s|
    ensures n < 0 <==> s[0] == '-'
    ensures n >= 0 ==> AllDigits(s)
    ensures n < 0 ==> AllDigits(s[1..]) && |s| >= 2
  {
    if n < 0 then "-" + NatToString(-n) else NatToString(n)
  }

  /** The value of an optional minus sign followed by digits. */
  function SignedValue(s: string): (r: int)
    requires (|s| > 0 && s[0] == '-' && AllDigits(s[1..])) || AllDigits(s)
  {
    if |s| > 0 && s[0] == '-' then 0 - DigitsValue(s[1..]) as int else DigitsValue(s)
  }

  /** Reading back the digits of `n` gives `n`. */
  lemma {:induction false} NatToStringRoundTrip(n: nat)
    ensures DigitsValue(NatToString(n)) == n
  {
    var s := NatToString(n);
    if n >= 10 {
      NatToStringRoundTrip(n / 10);
      assert s[..|s| - 1] == NatToString(n / 10);
    }
  }

  /** Reading back the rendering of `n` gives `n`, so distinct integers render differently. */
  lemma IntToStringRoundTrip(n: int)
    ensures SignedValue(IntToString(n)) == n
  {
    if n < 0 {
      NegativeRoundTrip(n);
    } else {
      NatToStringRoundTrip(n);
    }
  }

  /** The negative case of IntToStringRoundTrip: the sign, then the digits of `-n`. */
  lemma NegativeRoundTrip(n: int)
    requires n < 0
    ensures SignedValue(IntToString(n)) == n
  {
    var digits := NatToString(-n);
    var s := IntToString(n);
    assert s[1..] == digits;
    NatToStringRoundTrip(-n);
  }
}
