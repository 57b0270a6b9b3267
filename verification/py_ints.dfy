/**
 * Python's `str(n)` for integers and `int(s)` for decimal text.
 */
module PyInts {
  import opened Wrappers
  import opened PyStrings

  predicate IsDigit(c: char) {
    '0' <= c <= '9'
  }

  predicate AllDigits(s: string) {
    forall i :: 0 <= i < |s| ==> IsDigit(s[i])
  }

  function DigitChar(d: nat): (c: char)
    requires d < 10
    ensures IsDigit(c)
  {
    ('0' as int + d) as char
  }

  function DigitValue(c: char): (d: nat)
    requires IsDigit(c)
    ensures d < 10 && DigitChar(d) == c
  {
    c as int - '0' as int
  }

  /** The decimal digits of `n`, most significant first, without leading zeros. */
  function NatToString(n: nat): (s: string)
    ensures s != [] && AllDigits(s)
    ensures s[0] == '0' ==> n == 0 && |s| == 1
  {
    if n < 10 then [DigitChar(n)] else NatToString(n / 10) + [DigitChar(n % 10)]
  }

  /** `str(n)`: an optional minus sign, then the digits of `|n|`. */
  function IntToString(n: int): (s: string)
    ensures s != [] && NoSpace(s)
  {
    if n < 0 then "-" + NatToString(-n) else NatToString(n)
  }

  /** The number a string of digits denotes (leading zeros allowed). */
  function DigitsValue(s: string): nat
    requires AllDigits(s)
  {
    if s == [] then 0 else DigitsValue(s[..|s| - 1]) * 10 + DigitValue(s[|s| - 1])
  }

  lemma {:induction false} DigitsOfNat(n: nat)
    ensures DigitsValue(NatToString(n)) == n
  {
    if n >= 10 {
      var s := NatToString(n);
      assert s[..|s| - 1] == NatToString(n / 10);
      DigitsOfNat(n / 10);
    }
  }

  /** The text `int` accepts once whitespace is stripped: an optional sign, then at least one ASCII digit. */
  predicate IntegerText(t: string) {
    (t != [] && AllDigits(t)) || (|t| > 1 && (t[0] == '-' || t[0] == '+') && AllDigits(t[1..]))
  }

  /**
   * Base-10 text with its surrounding whitespace already taken off: accepted
   * exactly when it is an `IntegerText`, and then worth its digits' value,
   * negated after a minus sign.
   */
  function ParseSigned(t: string): (r: Option<int>)
    ensures r.Some? <==> IntegerText(t)
    ensures r.Some? && AllDigits(t) ==> r.value == DigitsValue(t)
    ensures r.Some? && t[0] == '+' ==> r.value == DigitsValue(t[1..])
    ensures r.Some? && t[0] == '-' ==> r.value == -(DigitsValue(t[1..]) as int)
    ensures r.Some? ==> t != [] && (IsDigit(t[0]) || t[0] == '-' || t[0] == '+')
    ensures r.Some? && t[0] == '-' ==> r.value <= 0
    ensures r.Some? && t[0] != '-' ==> r.value >= 0
  {
    if t == [] then None
    else if t[0] == '-' || t[0] == '+' then
      var digits := t[1..];
      if digits != [] && AllDigits(digits) then
        var value: int := DigitsValue(digits);
        Some(if t[0] == '-' then -value else value)
      else None
    else if AllDigits(t) then Some(DigitsValue(t))
    else None
  }

  /**
   * `int(s)` for base-10 text: surrounding whitespace, an optional sign,
   * then at least one ASCII digit; anything else is rejected (a `ValueError`).
   */
  function ParseInt(s: string): Option<int>
  {
    ParseSigned(Strip(s))
  }

  lemma {:induction false} StripUnpadded(s: string)
    requires s != [] && NoSpace(s)
    ensures Strip(s) == s
  {
  }

  lemma {:induction false} DigitsRoundTrip(n: nat)
    ensures ParseSigned(NatToString(n)) == Some(n)
  {
    var s := NatToString(n);
    assert IsDigit(s[0]);
    DigitsOfNat(n);
  }

  /** A minus sign before digits reads as the digits' value, negated. */
  lemma ParseNegative(digits: string)
    requires digits != [] && AllDigits(digits)
    ensures ParseSigned("-" + digits) == Some(-(DigitsValue(digits) as int))
  {
    var s := "-" + digits;
    assert s[0] == '-' && s[1..] == digits;
  }

  lemma {:induction false} NegativeRoundTrip(n: int)
    requires n < 0
    ensures ParseSigned(IntToString(n)) == Some(n)
  {
    var digits := NatToString(-n);
    assert IntToString(n) == "-" + digits;
    ParseNegative(digits);
    DigitsOfNat(-n);
  }

  /** What `str` writes without padding, the sign and digits parse read back. */
  lemma {:induction false} SignedRoundTrip(n: int)
    ensures ParseSigned(IntToString(n)) == Some(n)
  {
    if n < 0 {
      NegativeRoundTrip(n);
    } else {
      DigitsRoundTrip(n);
    }
  }

  /** What `str` writes, `int` reads back. */
  lemma {:induction false} IntRoundTrip(n: int)
    ensures ParseInt(IntToString(n)) == Some(n)
  {
    StripUnpadded(IntToString(n));
    SignedRoundTrip(n);
  }
}
