/**
 * Decimal rendering of integers: what `std::to_string` produces for the
 * registry's counters and what `operator<<` writes for an `int` when an
 * expression captures it, with the matching parser as its inverse.
 */
module Decimal {
  import opened Wrappers

  predicate IsDigit(c: char) {
    '0' <= c <= '9'
  }

  predicate AllDigits(s: string) {
    forall i :: 0 <= i < |s| ==> IsDigit(s[i])
  }

  function DigitChar(d: nat): (c: char)
    requires d < 10
    ensures IsDigit(c)
  {
    ('0' as int + d) as char
  }

  function DigitValue(c: char): (d: nat)
    requires IsDigit(c)
    ensures d < 10 && DigitChar(d) == c
  {
    c as int - '0' as int
  }

  /** `std::to_string(n)` for an unsigned `n`: most significant digit first, no leading zeros. */
  function NatText(n: nat): string
    decreases n
  {
    if n < 10 then [DigitChar(n)] else NatText(n / 10) + [DigitChar(n % 10)]
  }

  /** `stream << i` for a signed `i`: a minus sign before the magnitude when negative. */
  function IntText(i: int): string {
    if i < 0 then "-" + NatText(-i) else NatText(i)
  }

  /** The number a non-empty run of digits denotes. */
  function DigitsValue(s: string): nat
    requires AllDigits(s)
    decreases |s|
  {
    if s == [] then 0 else DigitsValue(s[..|s| - 1]) * 10 + DigitValue(s[|s| - 1])
  }

  function ParseNat(s: string): Option<nat> {
    if s != [] && AllDigits(s) then Some(DigitsValue(s)) else None
  }

  function ParseInt(s: string): Option<int> {
    if |s| > 0 && s[0] == '-' then
      match ParseNat(s[1..])
      case Some(n) => Some(0 - n as int)
      case None => None
    else
      match ParseNat(s)
      case Some(n) => Some(n)
      case None => None
  }

  /** The rendering of a counter is a non-empty digit run without a leading zero. */
  lemma {:induction false} NatTextShape(n: nat)
    ensures |NatText(n)| > 0 && AllDigits(NatText(n))
    ensures NatText(n)[0] == '0' <==> n == 0
    decreases n
  {
    if n >= 10 {
      NatTextShape(n / 10);
    }
  }

  /** Reading back a rendered counter gives the counter. */
  lemma {:induction false} ParseNatText(n: nat)
    ensures ParseNat(NatText(n)) == Some(n)
    decreases n
  {
    NatTextShape(n);
    if n >= 10 {
      ParseNatText(n / 10);
      var s := NatText(n);
      assert s[..|s| - 1] == NatText(n / 10);
      assert s[|s| - 1] == DigitChar(n % 10);
      assert DigitValue(DigitChar(n % 10)) == n % 10;
      assert DigitsValue(s) == (n / 10) * 10 + n % 10;
    }
  }

  /** Rendering is the inverse of parsing on canonical digit runs. */
  lemma {:induction false} NatTextParse(s: string)
    requires s != [] && AllDigits(s) && (s[0] == '0' ==> |s| == 1)
    ensures NatText(DigitsValue(s)) == s
    decreases |s|
  {
    if |s| > 1 {
      var front := s[..|s| - 1];
      NatTextParse(front);
      NatTextShape(DigitsValue(front));
      assert DigitsValue(front) != 0;
      assert s == front + [s[|s| - 1]];
    }
  }

  /** Reading back a rendered `int` gives the `int`. */
  lemma ParseIntText(i: int)
    ensures ParseInt(IntText(i)) == Some(i)
  {
    if i < 0 {
      ParseNatText(-i);
      assert IntText(i)[1..] == NatText(-i);
    } else {
      ParseNatText(i);
      NatTextShape(i);
    }
  }

  /** A rendered `int` contains no character outside `-0123456789`. */
  lemma IntTextChars(i: int)
    ensures |IntText(i)| > 0
    ensures forall k :: 0 <= k < |IntText(i)| ==> IsDigit(IntText(i)[k]) || IntText(i)[k] == '-'
  {
    if i < 0 {
      NatTextShape(-i);
    } else {
      NatTextShape(i);
    }
  }

  /** The longest prefix of `s` made of digits. */
  function DigitRun(s: string): (d: string)
    ensures AllDigits(d) && d <= s
    decreases |s|
  {
    if s == [] || !IsDigit(s[0]) then [] else [s[0]] + DigitRun(s[1..])
  }

  /** A digit run followed by a non-digit is read up to that non-digit. */
  lemma {:induction false} DigitRunOf(d: string, rest: string)
    requires AllDigits(d)
    requires rest == [] || !IsDigit(rest[0])
    ensures DigitRun(d + rest) == d
    decreases |d|
  {
    if d != [] {
      assert (d + rest)[1..] == d[1..] + rest;
      DigitRunOf(d[1..], rest);
    } else {
      assert d + rest == rest;
    }
  }
}
