/** Decimal rendering of integers, as Python's `str` applied to an `int`. */
module Decimal {

  predicate IsDigit(c: char) {
    '0' <= c <= '9'
  }

  predicate AllDigits(s: string) {
    forall i :: 0 <= i < |s| ==> IsDigit(s[i])
  }

  function DigitValue(c: char): (d: nat)
    requires IsDigit(c)
    ensures d < 10
  {
    c as int - '0' as int
  }

  function DigitChar(d: nat): (c: char)
    requires d < 10
    ensures IsDigit(c) && DigitValue(c) == d
  {
    ('0' as int + d) as char
  }

  /** Shortest decimal spelling of `n`: digits only, no leading zero. */
  function NatToString(n: nat): (s: string)
    ensures AllDigits(s)
    ensures 1 <= |s|
    ensures |s| == 1 <==> n < 10
    ensures 1 < |s| ==> s[0] != '0'
    decreases n
  {
    if n < 10 then [DigitChar(n)] else NatToString(n / 10) + [DigitChar(n % 10)]
  }

  /** Reads a run of decimal digits back as a number (the inverse of `NatToString`). */
  function ParseDigits(s: string): nat
    requires AllDigits(s)
    decreases |s|
  {
    if |s| == 0 then 0 else 10 * ParseDigits(s[..|s| - 1]) + DigitValue(s[|s| - 1])
  }

  /** Python's `str(i)` for an integer: a minus sign in front of the magnitude when negative. */
  function IntToString(i: int): (s: string)
    ensures 1 <= |s|
    ensures i >= 0 <==> AllDigits(s)
    ensures i < 0 ==> s[0] == '-' && AllDigits(s[1..])
  {
    if i >= 0 then NatToString(i)
    else
      var t := "-" + NatToString(-i);
      assert !IsDigit(t[0]);
      assert t[1..] == NatToString(-i);
      t
  }

  /** Reads Python's `str(i)` back. */
  function ParseInt(s: string): int
    requires 1 <= |s|
    requires AllDigits(s) || (s[0] == '-' && AllDigits(s[1..]))
  {
    if s[0] == '-' then 0 - ParseDigits(s[1..]) as int else ParseDigits(s)
  }

  lemma {:induction false} ParseNatToString(n: nat)
    ensures ParseDigits(NatToString(n)) == n
    decreases n
  {
    var s := NatToString(n);
    if n >= 10 {
      ParseNatToString(n / 10);
      assert s[..|s| - 1] == NatToString(n / 10);
    }
  }

  lemma ParseIntToString(i: int)
    ensures ParseInt(IntToString(i)) == i
  {
    if i >= 0 {
      ParseNatToString(i);
    } else {
      ParseNatToString(-i);
      assert IntToString(i)[1..] == NatToString(-i);
    }
  }

  /** Distinct integers print differently. */
  lemma IntToStringInjective(i: int, j: int)
    requires IntToString(i) == IntToString(j)
    ensures i == j
  {
    ParseIntToString(i);
    ParseIntToString(j);
  }

  /** A character that can occur in the spelling of an integer. */
  predicate IsNumberChar(c: char) {
    IsDigit(c) || c == '-'
  }

  lemma IntToStringChars(i: int, k: nat)
    requires k < |IntToString(i)|
    ensures IsNumberChar(IntToString(i)[k])
  {
    var s := IntToString(i);
    if i < 0 && k > 0 {
      assert s[k] == s[1..][k - 1];
    }
  }

  /** A number followed by text that does not start like a number can be read
      back unambiguously: both the number and the text after it are determined. */
  lemma NumberThenTextDetermined(i: int, j: int, rest: string, rest': string)
    requires 0 < |rest| && !IsNumberChar(rest[0])
    requires 0 < |rest'| && !IsNumberChar(rest'[0])
    requires IntToString(i) + rest == IntToString(j) + rest'
    ensures i == j && rest == rest'
  {
    var a, b := IntToString(i), IntToString(j);
    if |a| < |b| {
      assert (a + rest)[|a|] == rest[0];
      IntToStringChars(j, |a|);
    } else if |b| < |a| {
      assert (b + rest')[|b|] == rest'[0];
      IntToStringChars(i, |b|);
    } else {
      assert a == (a + rest)[..|a|];
      assert b == (b + rest')[..|b|];
      IntToStringInjective(i, j);
      assert rest == (a + rest)[|a|..];
      assert rest' == (b + rest')[|b|..];
    }
  }
}
