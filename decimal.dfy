/**
 * Decimal rendering of integers, as Go's `%d` verb prints them: an optional
 * minus sign followed by the digits, with no leading zeros.  Used by the
 * error messages of the API error type and of the dispatcher.
 */
module Decimal {

  predicate IsDigit(c: char) {
    '0' <= c <= '9'
  }

  function DigitChar(d: nat): (c: char)
    requires d < 10
    ensures IsDigit(c) && c as int - '0' as int == d
  {
    ['0', '1', '2', '3', '4', '5', '6', '7', '8', '9'][d]
  }

  /** The digits of `n`, most significant first. */
  function Digits(n: nat): (s: string)
    ensures |s| > 0
    ensures forall i :: 0 <= i < |s| ==> IsDigit(s[i])
    ensures s[0] == '0' ==> n == 0
  {
    if n < 10 then [DigitChar(n)] else Digits(n / 10) + [DigitChar(n % 10)]
  }

  /** `%d`: the sign, then the digits of the magnitude. */
  function Format(i: int): (s: string)
    ensures |s| > 0
    ensures s[0] == '-' <==> i < 0
    ensures forall k :: 0 <= k < |s| ==> IsDigit(s[k]) || (k == 0 && s[k] == '-')
  {
    if i < 0 then "-" + Digits(-i) else Digits(i)
  }

  /** Reads a run of digits back into the number it denotes. */
  function ParseDigits(s: string): nat
    requires forall i :: 0 <= i < |s| ==> IsDigit(s[i])
  {
    if s == [] then 0
    else assert IsDigit(s[|s| - 1]); ParseDigits(s[..|s| - 1]) * 10 + (s[|s| - 1] as int - '0' as int)
  }

  function Parse(s: string): int
    requires |s| > 0
    requires forall k :: 0 <= k < |s| ==> IsDigit(s[k]) || (k == 0 && s[k] == '-')
  {
    if s[0] == '-' then -(ParseDigits(s[1..]) as int) else ParseDigits(s)
  }

  lemma {:induction false} DigitsRoundTrip(n: nat)
    ensures ParseDigits(Digits(n)) == n
  {
    if n >= 10 {
      var s := Digits(n);
      assert s[..|s| - 1] == Digits(n / 10);
      DigitsRoundTrip(n / 10);
    }
  }

  /** Printing an integer with `%d` loses nothing: parsing gives it back. */
  lemma FormatRoundTrip(i: int)
    ensures Parse(Format(i)) == i
  {
    if i < 0 {
      NegativeRoundTrip(i);
    } else {
      DigitsRoundTrip(i);
    }
  }

  lemma NegativeRoundTrip(i: int)
    requires i < 0
    ensures Parse("-" + Digits(-i)) == i
  {
    var d := Digits(-i);
    DigitsRoundTrip(-i);
    var s := "-" + d;
    assert s[0] == '-' && s[1..] == d;
    assert forall k :: 0 <= k < |s| ==> IsDigit(s[k]) || (k == 0 && s[k] == '-');
    assert Parse(s) == -(ParseDigits(d) as int);
  }

  /** Distinct integers print differently. */
  lemma FormatInjective(i: int, j: int)
    requires Format(i) == Format(j)
    ensures i == j
  {
    FormatRoundTrip(i);
    FormatRoundTrip(j);
  }
}
