/**
 * The host's parseFloat: skip leading white space, then read the longest prefix
 * that is a decimal literal (an optional sign, then "Infinity" or digits with an
 * optional fraction and an optional exponent); NaN when there is none.
 */
module Parsing {
  import opened Digits
  import opened JsNumber
  import opened Options

  /** The white space and line terminators that parseFloat skips. */
  predicate IsWhiteSpace(c: char)
  {
    c == ' ' || c == '\t' || c == '\n' || c == '\r' || c == '\U{000B}' || c == '\U{000C}' ||
    c == '\U{00A0}' || c == '\U{1680}' || ('\U{2000}' <= c <= '\U{200A}') ||
    c == '\U{2028}' || c == '\U{2029}' || c == '\U{202F}' || c == '\U{205F}' ||
    c == '\U{3000}' || c == '\U{FEFF}'
  }

  function TrimStart(s: string): (t: string)
    ensures |t| <= |s| && t == s[|s| - |t|..]
    ensures t == "" || !IsWhiteSpace(t[0])
    ensures forall i :: 0 <= i < |s| - |t| ==> IsWhiteSpace(s[i])
  {
    if s != "" && IsWhiteSpace(s[0]) then
      var t := TrimStart(s[1..]);
      assert forall i :: 1 <= i < |s| - |t| ==> s[i] == s[1..][i - 1];
      t
    else s
  }

  /** 10^e as a real, for a possibly negative exponent. */
  function Scale(e: int): (f: real)
    ensures f > 0.0
  {
    if e >= 0 then Pow10(e) as real else 1.0 / Pow10(-e) as real
  }

  /** The exponent written at the start of s ("e" or "E", an optional sign, one or more digits), 0 when there is none. */
  function ExponentOf(s: string): int
  {
    if |s| >= 2 && (s[0] == 'e' || s[0] == 'E') then
      var signed := s[1] == '+' || s[1] == '-';
      var ds := LeadingDigits(if signed then s[2..] else s[1..]);
      if ds == "" then 0
      else if s[1] == '-' then -(DigitsValue(ds) as int)
      else DigitsValue(ds)
    else 0
  }

  /** The blocks of a decimal literal: digits before the point, digits after it, and the exponent. */
  datatype Literal = Literal(whole: string, fraction: string, exponent: int)

  /** The value a text of digits with an optional decimal point denotes. */
  function DecimalValue(whole: string, fraction: string): (v: real)
    requires AllDigits(whole) && AllDigits(fraction)
    ensures v >= 0.0
  {
    var q := DigitsValue(fraction) as real / Pow10(|fraction|) as real;
    NonNegativeQuotient(DigitsValue(fraction) as real, Pow10(|fraction|) as real);
    DigitsValue(whole) as real + q
  }

  lemma NonNegativeQuotient(a: real, b: real)
    requires a >= 0.0 && b > 0.0
    ensures a / b >= 0.0
  {
  }

  /** A literal's value is never negative: the sign is read before it. */
  function LiteralValue(lit: Literal): (v: real)
    requires AllDigits(lit.whole) && AllDigits(lit.fraction)
    ensures v >= 0.0
  {
    var d, f := DecimalValue(lit.whole, lit.fraction), Scale(lit.exponent);
    NonNegativeProduct(d, f);
    d * f
  }

  lemma NonNegativeProduct(d: real, f: real)
    requires d >= 0.0 && f > 0.0
    ensures d * f >= 0.0
  {
  }

  /**
   * The longest prefix of body of the form digits, an optional point and digits, an optional
   * exponent, with at least one digit before or after the point; None when there is none.
   */
  function ScanDecimal(body: string): (r: Option<Literal>)
    ensures r.Some? ==> AllDigits(r.value.whole) && AllDigits(r.value.fraction)
    ensures r.Some? ==> HasDigit(body)
  {
    var whole := LeadingDigits(body);
    var rest := body[|whole|..];
    var hasPoint := rest != "" && rest[0] == '.';
    var fraction := if hasPoint then LeadingDigits(rest[1..]) else "";
    if whole == "" && fraction == "" then None
    else
      assert HasDigit(body) by {
        if whole != "" {
          assert body[0] == whole[0];
        } else {
          assert rest == body && body[1..][0] == fraction[0];
        }
      }
      var tail := if hasPoint then rest[1 + |fraction|..] else rest;
      Some(Literal(whole, fraction, ExponentOf(tail)))
  }

  /** A literal without its sign: "Infinity" or a decimal. */
  function ParseUnsigned(body: string): (v: Num)
    ensures v.Finite? ==> HasDigit(body)
    ensures body == "" ==> v.NaN?
    ensures (v.Finite? ==> v.r >= 0.0) && v != Infinity(true)
  {
    if "Infinity" <= body then Infinity(false)
    else match ScanDecimal(body)
      case None => NaN
      case Some(lit) => Finite(LiteralValue(lit))
  }

  /** The text, once its leading white space is skipped, starts with a minus sign. */
  predicate MinusSigned(input: string)
  {
    var s := TrimStart(input);
    s != "" && s[0] == '-'
  }

  /** parseFloat(input): NaN for blank text, and a finite number only when the text holds a digit. */
  function ParseFloat(input: string): (v: Num)
    ensures TrimStart(input) == "" ==> v.NaN?
    ensures v.Finite? ==> HasDigit(input)
  {
    var s := TrimStart(input);
    HasDigitSuffix(input, |input| - |s|);
    HasDigitSuffix(s, if s == "" then 0 else 1);
    if s != "" && s[0] == '-' then Negate(ParseUnsigned(s[1..]))
    else if s != "" && s[0] == '+' then ParseUnsigned(s[1..])
    else ParseUnsigned(s)
  }

  /** Text that does not start with white space is left as it is. */
  lemma TrimStartNone(s: string)
    requires s != "" && !IsWhiteSpace(s[0])
    ensures TrimStart(s) == s
  {
  }

  /** "-0" is read as a zero after a minus sign. */
  lemma ParseMinusZero(t: string)
    requires t == "-" + [DigitChar(0)]
    ensures MinusSigned(t) && ParseFloat(t) == Finite(0.0)
  {
    var z := [DigitChar(0)];
    assert t[0] == '-' && t[1..] == z;
    TrimStartNone(t);
    assert ParseUnsigned(z) == Finite(0.0) by {
      ParseDigits(z);
      ParseUnsignedText(z);
      assert DigitsValue(z) == 0;
    }
    assert ParseFloat(t) == Negate(ParseUnsigned(z));
  }

  /** A value below zero is read only after a minus sign, and one above zero only without it. */
  lemma ParseFloatSign(input: string)
    ensures var v := ParseFloat(input);
      && (!MinusSigned(input) ==> (v.Finite? ==> v.r >= 0.0) && v != Infinity(true))
      && (MinusSigned(input) ==> (v.Finite? ==> v.r <= 0.0) && v != Infinity(false))
  {
    var s := TrimStart(input);
    if s != "" && s[0] == '-' {
      var u := ParseUnsigned(s[1..]);
      assert ParseFloat(input) == Negate(u);
    } else if s != "" && s[0] == '+' {
      assert ParseFloat(input) == ParseUnsigned(s[1..]);
    } else {
      assert ParseFloat(input) == ParseUnsigned(s);
    }
  }

  /** Text that starts with a digit or a point is taken as it stands: no white space, no sign, not "Infinity". */
  lemma ParseUnsignedText(s: string)
    requires s != "" && (IsDigit(s[0]) || s[0] == '.')
    ensures ParseFloat(s) == ParseUnsigned(s)
    ensures !("Infinity" <= s)
  {
    assert TrimStart(s) == s;
    assert !("Infinity" <= s) by { assert s[0] != 'I'; }
  }

  /** How ScanDecimal splits a text into its blocks. */
  lemma ScanDecimalParts(whole: string, fraction: string, tail: string)
    requires AllDigits(whole) && AllDigits(fraction) && (whole != "" || fraction != "")
    requires tail == "" || !IsDigit(tail[0])
    ensures ScanDecimal(whole + ("." + (fraction + tail))) == Some(Literal(whole, fraction, ExponentOf(tail)))
  {
    var body := whole + ("." + (fraction + tail));
    LeadingDigitsOfDigits(whole, "." + (fraction + tail));
    assert body[|whole|..] == "." + (fraction + tail);
    assert ("." + (fraction + tail))[1..] == fraction + tail;
    LeadingDigitsOfDigits(fraction, tail);
    assert (fraction + tail)[|fraction|..] == tail;
  }

  lemma LiteralWithoutExponent(whole: string, fraction: string)
    requires AllDigits(whole) && AllDigits(fraction)
    ensures LiteralValue(Literal(whole, fraction, 0)) == DecimalValue(whole, fraction)
  {
    assert Scale(0) == 1.0;
  }

  lemma ScanDigits(w: string)
    requires AllDigits(w) && w != ""
    ensures ScanDecimal(w) == Some(Literal(w, "", 0))
  {
    LeadingDigitsOfDigits(w, "");
    assert w + "" == w;
    assert w[|w|..] == "";
    assert ExponentOf("") == 0;
  }

  lemma LiteralOfDigits(w: string)
    requires AllDigits(w)
    ensures LiteralValue(Literal(w, "", 0)) == DigitsValue(w) as real
  {
    LiteralWithoutExponent(w, "");
    assert Pow10(0) == 1;
  }

  /** A plain digit string is read as its decimal value; the empty string is NaN. */
  lemma ParseDigits(w: string)
    requires AllDigits(w)
    ensures ParseFloat(w) == if w == "" then NaN else Finite(DigitsValue(w) as real)
  {
    if w != "" {
      ParseUnsignedText(w);
      ScanDigits(w);
      LiteralOfDigits(w);
    }
  }

  /** Digits, a point and digits are read as the decimal they spell; "." alone is NaN. */
  lemma ParseDigitsWithPoint(w: string, f: string)
    requires AllDigits(w) && AllDigits(f)
    ensures ParseFloat(w + "." + f) == if w == "" && f == "" then NaN else Finite(DecimalValue(w, f))
  {
    var s := w + "." + f;
    if w != "" || f != "" {
      assert s[0] == if w == "" then '.' else w[0];
      ParseUnsignedText(s);
      ScanPoint(w, f);
      LiteralWithoutExponent(w, f);
      assert ParseUnsigned(s) == Finite(DecimalValue(w, f));
    } else {
      assert s == ".";
      ParseLonePoint();
    }
  }

  lemma ParseLonePoint()
    ensures ParseFloat(".") == NaN
  {
    ParseUnsignedText(".");
    assert LeadingDigits(".") == "";
    assert ScanDecimal(".") == None;
  }

  lemma ScanPoint(w: string, f: string)
    requires AllDigits(w) && AllDigits(f) && (w != "" || f != "")
    ensures ScanDecimal(w + "." + f) == Some(Literal(w, f, 0))
  {
    assert w + "." + f == w + ("." + (f + ""));
    ScanDecimalParts(w, f, "");
    assert ExponentOf("") == 0;
  }
}
