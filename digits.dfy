/** Decimal digit strings: what parsing reads and what display writes. */
module Digits {

  predicate IsDigit(c: char) { '0' <= c <= '9' }

  predicate AllDigits(s: string) { forall i :: 0 <= i < |s| ==> IsDigit(s[i]) }

  predicate HasDigit(s: string) { exists i :: 0 <= i < |s| && IsDigit(s[i]) }

  /** A digit in a suffix is a digit of the whole text. */
  lemma HasDigitSuffix(s: string, k: nat)
    requires k <= |s|
    ensures HasDigit(s[k..]) ==> HasDigit(s)
  {
    if HasDigit(s[k..]) {
      var i :| 0 <= i < |s[k..]| && IsDigit(s[k..][i]);
      assert s[k + i] == s[k..][i];
    }
  }

  function DigitValue(c: char): (d: nat)
    requires IsDigit(c)
    ensures d < 10
  {
    c as int - '0' as int
  }

  function DigitChar(d: nat): (c: char)
    requires d < 10
    ensures IsDigit(c) && DigitValue(c) == d
  {
    ('0' as int + d) as char
  }

  function Pow10(n: nat): (p: nat)
    ensures p >= 1
  {
    if n == 0 then 1 else 10 * Pow10(n - 1)
  }

  /** The value of a digit string read most significant digit first. */
  function DigitsValue(s: string): (n: nat)
    requires AllDigits(s)
    ensures n < Pow10(|s|)
  {
    if s == "" then 0 else DigitsValue(s[..|s| - 1]) * 10 + DigitValue(s[|s| - 1])
  }

  /** The shortest decimal spelling of n: no leading zero except for n == 0 itself. */
  function DecimalString(n: nat): (s: string)
    ensures |s| >= 1 && AllDigits(s)
    ensures DigitsValue(s) == n
    ensures s[0] == '0' <==> n == 0
  {
    if n < 10 then [DigitChar(n)]
    else
      var front := DecimalString(n / 10);
      var s := front + [DigitChar(n % 10)];
      assert s[..|s| - 1] == front;
      s
  }

  /** The longest prefix of s made of digits. */
  function LeadingDigits(s: string): (p: string)
    ensures p <= s && AllDigits(p)
    ensures |p| == |s| || !IsDigit(s[|p|])
  {
    if s != "" && IsDigit(s[0]) then [s[0]] + LeadingDigits(s[1..]) else ""
  }

  lemma AllDigitsConcat(a: string, b: string)
    requires AllDigits(a) && AllDigits(b)
    ensures AllDigits(a + b)
  {
    forall i | 0 <= i < |a + b| ensures IsDigit((a + b)[i]) {
      if i < |a| { assert (a + b)[i] == a[i]; } else { assert (a + b)[i] == b[i - |a|]; }
    }
  }

  /**
   * A digit string without a leading zero (except "0" itself) is the decimal
   * spelling of its own value.
   */
  lemma {:induction false} DecimalStringOfDigits(s: string)
    requires AllDigits(s) && s != ""
    requires s[0] != '0' || |s| == 1
    ensures DecimalString(DigitsValue(s)) == s
    decreases |s|
  {
    var front, d := s[..|s| - 1], DigitValue(s[|s| - 1]);
    assert DigitChar(d) == s[|s| - 1];
    if |s| == 1 {
      assert front == "";
      assert s == [s[0]];
    } else {
      assert front[0] == s[0];
      DecimalStringOfDigits(front);
      var m := DigitsValue(front);
      assert m != 0;
      var n := DigitsValue(s);
      assert n == m * 10 + d;
      assert n / 10 == m && n % 10 == d;
      assert s == front + [s[|s| - 1]];
    }
  }

  /** A digit block followed by anything that does not start with a digit is read back whole. */
  lemma {:induction false} LeadingDigitsOfDigits(w: string, rest: string)
    requires AllDigits(w)
    requires rest == "" || !IsDigit(rest[0])
    ensures LeadingDigits(w + rest) == w
  {
    if w == "" {
      assert w + rest == rest;
    } else {
      assert (w + rest)[1..] == w[1..] + rest;
      LeadingDigitsOfDigits(w[1..], rest);
    }
  }
}
