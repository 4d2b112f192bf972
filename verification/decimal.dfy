/**
  Decimal rendering of a time value, as the log entry constructor does with
  `std::to_string`: the digits of the magnitude, most significant first, with no
  leading zeros and a leading '-' for a negative value.  `ParseInt` is its inverse.
 */
module Decimal {
  import opened Wrappers

  predicate IsDigit(c: char) {
    '0' <= c <= '9'
  }

  predicate AllDigits(s: string) {
    forall i :: 0 <= i < |s| ==> IsDigit(s[i])
  }

  function DigitChar(d: nat): (c: char)
    requires d < 10
    ensures IsDigit(c)
  {
    ['0', '1', '2', '3', '4', '5', '6', '7', '8', '9'][d]
  }

  function DigitValue(c: char): (d: nat)
    requires IsDigit(c)
    ensures d < 10
  {
    (c as int - '0' as int) as nat
  }

  lemma DigitRoundTrip(d: nat)
    requires d < 10
    ensures DigitValue(DigitChar(d)) == d
  {
  }

  /** The decimal digits of `n`, most significant first. */
  function NatToString(n: nat): (s: string)
    ensures |s| > 0 && AllDigits(s)
    ensures |s| > 1 ==> s[0] != '0'
    decreases n
  {
    if n < 10 then [DigitChar(n)] else NatToString(n / 10) + [DigitChar(n % 10)]
  }

  /** A non-empty run of digits with no leading zero (a lone "0" is allowed). */
  predicate CanonicalDigits(s: string) {
    |s| > 0 && AllDigits(s) && (|s| > 1 ==> s[0] != '0')
  }

  /** `std::to_string` of a signed integer: the canonical digits of the magnitude,
      preceded by '-' exactly when the value is negative. */
  function IntToString(i: int): (s: string)
    ensures |s| > 0
    ensures forall k :: 0 <= k < |s| ==> IsDigit(s[k]) || s[k] == '-'
    ensures i < 0 <==> s[0] == '-'
    ensures i < 0 ==> CanonicalDigits(s[1..]) && s[1..] != "0"
    ensures i >= 0 ==> CanonicalDigits(s)
  {
    if i < 0 then
      NatRoundTrip(-i);
      assert DigitsValue("0") == 0;
      assert ("-" + NatToString(-i))[1..] == NatToString(-i);
      "-" + NatToString(-i)
    else NatToString(i)
  }

  /** The value of a string of decimal digits (the empty string reads as 0). */
  function DigitsValue(s: string): nat
    requires AllDigits(s)
    decreases |s|
  {
    if |s| == 0 then 0 else DigitsValue(s[..|s| - 1]) * 10 + DigitValue(s[|s| - 1])
  }

  /** Reads back exactly what `IntToString` writes: an optional '-' and canonical
      digits, with "-0" refused; `None` for anything else. */
  function ParseInt(s: string): Option<int> {
    if |s| > 0 && s[0] == '-' then
      if CanonicalDigits(s[1..]) && s[1..] != "0" then Some(-(DigitsValue(s[1..]) as int)) else None
    else if CanonicalDigits(s) then Some(DigitsValue(s) as int)
    else None
  }

  lemma DigitCharValue(c: char)
    requires IsDigit(c)
    ensures DigitChar(DigitValue(c)) == c
  {
  }

  /** A run of digits that does not start with '0' is worth at least 1. */
  lemma {:induction false} LeadingNonZeroPositive(s: string)
    requires |s| > 0 && AllDigits(s) && s[0] != '0'
    ensures DigitsValue(s) >= 1
    decreases |s|
  {
    if |s| > 1 {
      LeadingNonZeroPositive(s[..|s| - 1]);
    }
  }

  /** Canonical digits are the rendering of their own value. */
  lemma {:induction false} CanonicalDigitsRender(s: string)
    requires CanonicalDigits(s)
    ensures NatToString(DigitsValue(s)) == s
    decreases |s|
  {
    var last := s[|s| - 1];
    DigitCharValue(last);
    if |s| > 1 {
      var p := s[..|s| - 1];
      LeadingNonZeroPositive(p);
      CanonicalDigitsRender(p);
      var n := DigitsValue(s);
      assert n == DigitsValue(p) * 10 + DigitValue(last);
      assert n / 10 == DigitsValue(p) && n % 10 == DigitValue(last);
      assert s == p + [last];
    }
  }

  /** `ParseInt` and `IntToString` are exact inverses: a string parses to `i`
      exactly when it is the rendering of `i`. */
  lemma ParseIntInverse(s: string, i: int)
    ensures ParseInt(s) == Some(i) <==> s == IntToString(i)
  {
    IntRoundTrip(i);
    if ParseInt(s) == Some(i) {
      if s[0] == '-' {
        CanonicalDigitsRender(s[1..]);
        LeadingNonZeroPositiveOrZero(s[1..]);
        assert s == "-" + s[1..];
      } else {
        CanonicalDigitsRender(s);
      }
    }
  }

  lemma LeadingNonZeroPositiveOrZero(s: string)
    requires CanonicalDigits(s) && s != "0"
    ensures DigitsValue(s) >= 1
  {
    if |s| > 1 {
      LeadingNonZeroPositive(s);
    } else {
      assert s == [s[0]];
    }
  }

  lemma {:induction false} NatRoundTrip(n: nat)
    ensures DigitsValue(NatToString(n)) == n
    decreases n
  {
    if n < 10 {
      DigitRoundTrip(n);
    } else {
      var s := NatToString(n);
      var p := NatToString(n / 10);
      assert s == p + [DigitChar(n % 10)];
      assert s[..|s| - 1] == p;
      NatRoundTrip(n / 10);
      DigitRoundTrip(n % 10);
    }
  }

  /** Parsing undoes rendering for every integer. */
  lemma {:induction false} IntRoundTrip(i: int)
    ensures ParseInt(IntToString(i)) == Some(i)
  {
    var s := IntToString(i);
    if i < 0 {
      NatRoundTrip(-i);
      assert s[1..] == NatToString(-i);
    } else {
      NatRoundTrip(i);
    }
  }

  /** Distinct time values render as distinct strings. */
  lemma IntToStringInjective(a: int, b: int)
    ensures IntToString(a) == IntToString(b) <==> a == b
  {
    IntRoundTrip(a);
    IntRoundTrip(b);
  }
}
