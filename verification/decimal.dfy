/**
 * Signed decimal rendering of integers, as Go's %d verb and image.Point's
 * String method print them, together with a parser that inverts it.
 */
module Decimal {
  import opened Wrappers

  predicate IsDigit(c: char) {
    '0' <= c <= '9'
  }

  predicate AllDigits(s: string) {
    forall i :: 0 <= i < |s| ==> IsDigit(s[i])
  }

  function DigitValue(c: char): (d: nat)
    requires IsDigit(c)
    ensures d < 10
  {
    c as int - '0' as int
  }

  function DigitChar(d: nat): (c: char)
    requires d < 10
    ensures IsDigit(c) && DigitValue(c) == d
  {
    "0123456789"[d]
  }

  /** The decimal digits of n, most significant first, with no leading zero. */
  function NatToString(n: nat): (s: string)
    ensures 1 <= |s| && AllDigits(s)
    ensures s[0] == '0' ==> s == "0"
  {
    if n < 10 then [DigitChar(n)] else NatToString(n / 10) + [DigitChar(n % 10)]
  }

  /** The number a string of decimal digits denotes. */
  function DigitsValue(s: string): nat
    requires AllDigits(s)
  {
    if s == [] then 0 else 10 * DigitsValue(s[..|s| - 1]) + DigitValue(s[|s| - 1])
  }

  /** %d of an int: a minus sign for negative values, then the digits of the magnitude. */
  function IntToString(n: int): (s: string)
    ensures |s| >= 1 && (s[0] == '-' <==> n < 0)
    ensures n >= 0 ==> AllDigits(s)
  {
    if n < 0 then "-" + NatToString(-n) else NatToString(n)
  }

  /** Reading the digits back gives the number. */
  lemma {:induction false} NatToStringRoundTrip(n: nat)
    ensures DigitsValue(NatToString(n)) == n
  {
    if n >= 10 {
      var s := NatToString(n);
      assert s[..|s| - 1] == NatToString(n / 10);
      NatToStringRoundTrip(n / 10);
    }
  }

  /** The length of the run of digits at the front of s. */
  function DigitRun(s: string): (k: nat)
    ensures k <= |s| && AllDigits(s[..k])
    ensures k < |s| ==> !IsDigit(s[k])
  {
    if s == [] || !IsDigit(s[0]) then 0
    else
      var k := 1 + DigitRun(s[1..]);
      assert s[..k] == [s[0]] + s[1..][..k - 1];
      k
  }

  /** Reads a non-empty run of digits; returns the value and what follows. */
  function ParseNat(s: string): Option<(nat, string)>
  {
    var k := DigitRun(s);
    if k == 0 then None else Some((DigitsValue(s[..k]), s[k..]))
  }

  /** Reads an optional minus sign and a run of digits; returns the value and what follows. */
  function ParseInt(s: string): Option<(int, string)>
  {
    if |s| > 0 && s[0] == '-' then
      var r := ParseNat(s[1..]);
      if r.None? then None else Some((0 - r.value.0, r.value.1))
    else
      var r := ParseNat(s);
      if r.None? then None else Some((r.value.0 as int, r.value.1))
  }

  /** The digit run of a digit string followed by a non-digit ends at that non-digit. */
  lemma {:induction false} DigitRunOfDigits(d: string, rest: string)
    requires AllDigits(d)
    requires rest == [] || !IsDigit(rest[0])
    ensures DigitRun(d + rest) == |d|
  {
    if d != [] {
      assert (d + rest)[1..] == d[1..] + rest;
      DigitRunOfDigits(d[1..], rest);
    }
  }

  /** Parsing rendered digits followed by a non-digit gives back the number and the rest. */
  lemma NatToStringParse(m: nat, rest: string)
    requires rest == [] || !IsDigit(rest[0])
    ensures ParseNat(NatToString(m) + rest) == Some((m, rest))
  {
    var d := NatToString(m);
    DigitRunOfDigits(d, rest);
    NatToStringRoundTrip(m);
    assert (d + rest)[..|d|] == d && (d + rest)[|d|..] == rest;
  }

  /** Parsing a rendered integer followed by a non-digit gives back the integer and the rest. */
  lemma IntToStringRoundTrip(n: int, rest: string)
    requires rest == [] || !IsDigit(rest[0])
    ensures ParseInt(IntToString(n) + rest) == Some((n, rest))
  {
    var m: nat := if n < 0 then -n else n;
    NatToStringParse(m, rest);
    if n < 0 {
      NegativeRoundTrip(n, rest);
    } else {
      NonNegativeRoundTrip(n, rest);
    }
  }

  /** Concatenation regroups freely; the round trips use it to peel one piece off the front. */
  lemma Assoc(a: string, b: string, c: string)
    ensures a + b + c == a + (b + c)
  {
  }

  lemma NonNegativeRoundTrip(n: int, rest: string)
    requires n >= 0
    requires ParseNat(NatToString(n) + rest) == Some((n, rest))
    ensures ParseInt(IntToString(n) + rest) == Some((n, rest))
  {
    assert IsDigit((NatToString(n) + rest)[0]);
  }

  lemma ParseIntNegative(d: string, m: nat, rest: string)
    requires ParseNat(d + rest) == Some((m, rest))
    ensures ParseInt("-" + d + rest) == Some((-(m as int), rest))
  {
    assert ("-" + d + rest)[1..] == d + rest;
  }

  lemma NegativeRoundTrip(n: int, rest: string)
    requires n < 0
    requires ParseNat(NatToString(-n) + rest) == Some((-n, rest))
    ensures ParseInt(IntToString(n) + rest) == Some((n, rest))
  {
    ParseIntNegative(NatToString(-n), -n, rest);
  }

  /** Different integers render differently. */
  lemma IntToStringInjective(a: int, b: int)
    requires IntToString(a) == IntToString(b)
    ensures a == b
  {
    IntToStringRoundTrip(a, []);
    IntToStringRoundTrip(b, []);
    assert IntToString(a) + [] == IntToString(a);
    assert IntToString(b) + [] == IntToString(b);
  }
}
