/**
 * getDisplayNumber: the integer part of an operand's text is parsed and
 * printed the way toLocaleString('en', { maximumFractionDigits: 0 }) prints it;
 * the text between the first point and the next one (or the end) is put back
 * unchanged, and anything after a second point is dropped.
 */
module Display {
  import opened Digits
  import opened Strings
  import opened JsNumber
  import opened Parsing

  /** A digit string with a comma before every group of three digits counted from the right. */
  function GroupDigits(ds: string): (g: string)
    ensures forall i :: 0 <= i < |g| ==> g[i] == ',' || g[i] in ds
    ensures |g| >= |ds|
  {
    if |ds| <= 3 then ds
    else
      var front := ds[..|ds| - 3];
      var g := GroupDigits(front) + "," + ds[|ds| - 3..];
      assert forall c :: c in front ==> c in ds;
      g
  }

  /** The text with its grouping commas taken out. */
  function Ungroup(g: string): string
  {
    if g == "" then "" else (if g[0] == ',' then "" else [g[0]]) + Ungroup(g[1..])
  }

  /** Rounding to the nearest integer, halves away from zero (the locale format's default). */
  function RoundHalfExpand(x: real): (n: nat)
    requires x >= 0.0
    ensures n as real - 0.5 <= x < n as real + 0.5
  {
    (x + 0.5).Floor
  }

  /** Grouped digits hold neither a point nor a minus sign. */
  lemma GroupedDigitsPlain(ds: string)
    requires AllDigits(ds)
    ensures '.' !in GroupDigits(ds) && '-' !in GroupDigits(ds)
  {
    var g := GroupDigits(ds);
    forall i | 0 <= i < |g| ensures g[i] != '.' && g[i] != '-' {
      if g[i] != ',' {
        var j :| 0 <= j < |ds| && ds[j] == g[i];
        assert IsDigit(ds[j]);
      }
    }
  }

  /**
   * toLocaleString('en', { maximumFractionDigits: 0 }) of a number that is not NaN:
   * never empty, never a point, and a leading minus exactly for a negative number.
   */
  function FormatInteger(v: Num): (r: string)
    requires !v.NaN?
    ensures |r| >= 1 && '.' !in r
    ensures r[0] == '-' <==> (v.Finite? && v.r < 0.0) || v == Infinity(true)
  {
    match v
    case Finite(r) =>
      var ds := DecimalString(RoundHalfExpand(if r < 0.0 then -r else r));
      GroupedDigitsPlain(ds);
      (if r < 0.0 then "-" else "") + GroupDigits(ds)
    case Infinity(negative) => (if negative then "-" else "") + "∞"
  }

  /**
   * The display of the text before the point: empty exactly when it does not parse,
   * and never a point. parseFloat gives negative zero for a zero after a minus ("-0"),
   * and the en format writes it "-0"; the model's numbers have no signed zero, so that
   * case is written here.
   */
  function IntegerDisplay(whole: string): (r: string)
    ensures r == "" <==> ParseFloat(whole).NaN?
    ensures '.' !in r
  {
    var v := ParseFloat(whole);
    if v.NaN? then ""
    else if v == Finite(0.0) && MinusSigned(whole) then "-0"
    else FormatInteger(v)
  }

  /** getDisplayNumber applied to the text form of an operand: it shows one point exactly when the text has one. */
  function GetDisplayNumber(number: string): (r: string)
    ensures Dots(r) == if '.' in number then 1 else 0
  {
    var parts := Split(number);
    var integerDisplay := IntegerDisplay(parts[0]);
    DotsZero(number);
    DotsZero(integerDisplay);
    if |parts| > 1 then
      DotsZero(parts[1]);
      DotsConcat(integerDisplay + ".", parts[1]);
      DotsConcat(integerDisplay, ".");
      integerDisplay + "." + parts[1]
    else integerDisplay
  }

  lemma {:induction false} UngroupConcat(a: string, b: string)
    ensures Ungroup(a + b) == Ungroup(a) + Ungroup(b)
  {
    if a == "" {
      assert a + b == b;
    } else {
      assert (a + b)[1..] == a[1..] + b;
      UngroupConcat(a[1..], b);
    }
  }

  lemma {:induction false} UngroupPlain(s: string)
    requires ',' !in s
    ensures Ungroup(s) == s
  {
    if s != "" {
      UngroupPlain(s[1..]);
      assert s == [s[0]] + s[1..];
    }
  }

  /** A comma stands exactly where the number of characters from it to the end is a multiple of four. */
  predicate CommasEveryThree(g: string)
  {
    forall i :: 0 <= i < |g| ==> (g[i] == ',' <==> (|g| - i) % 4 == 0)
  }

  /** Taking the commas out again gives back the digits. */
  lemma {:induction false} UngroupGroup(ds: string)
    requires ',' !in ds
    ensures Ungroup(GroupDigits(ds)) == ds
    decreases |ds|
  {
    if |ds| <= 3 {
      UngroupPlain(ds);
    } else {
      var front, back := ds[..|ds| - 3], ds[|ds| - 3..];
      assert ',' !in front && ',' !in back;
      UngroupGroup(front);
      UngroupAppend(GroupDigits(front), back);
      assert front + back == ds;
    }
  }

  /** The comma put before a new group of three digits is taken out again. */
  lemma UngroupAppend(h: string, back: string)
    requires ',' !in back
    ensures Ungroup(h + "," + back) == Ungroup(h) + back
  {
    var u := Ungroup(h);
    calc {
      Ungroup(h + "," + back);
      { UngroupConcat(h + ",", back); }
      Ungroup(h + ",") + Ungroup(back);
      { UngroupConcat(h, ","); UngroupComma(); }
      (u + "") + Ungroup(back);
      { UngroupPlain(back); assert u + "" == u; }
      u + back;
    }
  }

  lemma UngroupComma()
    ensures Ungroup(",") == ""
  {
    assert ","[1..] == "";
  }

  lemma ModFourShift(k: int)
    ensures (k + 4) % 4 == k % 4
  {
  }

  /** Putting a comma and three more digits after a well-grouped text keeps it well grouped. */
  lemma CommasExtend(h: string, back: string)
    requires CommasEveryThree(h)
    requires |back| == 3 && ',' !in back
    ensures CommasEveryThree(h + "," + back)
  {
    var g := h + "," + back;
    forall i | 0 <= i < |g| ensures g[i] == ',' <==> (|g| - i) % 4 == 0 {
      if i < |h| {
        assert g[i] == h[i];
        ModFourShift(|h| - i);
      } else if i > |h| {
        assert g[i] == back[i - |h| - 1];
      }
    }
  }

  /** Grouping puts the commas every three digits from the right, and nowhere else. */
  lemma {:induction false} GroupCommaPositions(ds: string)
    requires ',' !in ds
    ensures CommasEveryThree(GroupDigits(ds))
    decreases |ds|
  {
    var g := GroupDigits(ds);
    if |ds| <= 3 {
      forall i | 0 <= i < |g| ensures g[i] == ',' <==> (|g| - i) % 4 == 0 {
        assert g[i] in ds;
      }
    } else {
      var front, back := ds[..|ds| - 3], ds[|ds| - 3..];
      assert ',' !in front && ',' !in back;
      GroupCommaPositions(front);
      CommasExtend(GroupDigits(front), back);
    }
  }

  /**
   * With a point in the text, the display is the integer display of the text before the
   * first point, a point, and the text between the first and the second point as written.
   */
  lemma DisplayWithPoint(a: string, b: string, rest: string)
    requires '.' !in a && '.' !in b
    requires rest == "" || rest[0] == '.'
    ensures GetDisplayNumber(a + "." + b + rest) == IntegerDisplay(a) + "." + b
  {
    SplitAtPoint(a, b, rest);
  }

  /** Without a point in the text there is none in the display. */
  lemma DisplayWithoutPoint(s: string)
    requires '.' !in s
    ensures GetDisplayNumber(s) == IntegerDisplay(s)
    ensures '.' !in GetDisplayNumber(s)
  {
    SplitNoPoint(s);
  }

  /** An empty integer part displays as nothing: ".5" shows as ".5" and "" as "". */
  lemma DisplayEmptyWhole(f: string)
    requires '.' !in f
    ensures GetDisplayNumber("." + f) == "." + f
    ensures GetDisplayNumber("") == ""
  {
    assert "." + f == "" + "." + f + "";
    DisplayWithPoint("", f, "");
    assert ParseFloat("") == NaN by { ParseDigits(""); }
  }

  /** The integer display starts with a minus exactly when parseFloat read a minus sign, negative zero included. */
  lemma IntegerDisplaySign(whole: string)
    ensures var r := IntegerDisplay(whole);
      r != "" ==> (r[0] == '-' <==> MinusSigned(whole))
  {
    ParseFloatSign(whole);
  }

  /** Zero read after a minus sign shows as "-0". */
  lemma SignedZeroDisplay(whole: string)
    ensures MinusSigned(whole) && ParseFloat(whole) == Finite(0.0) ==> IntegerDisplay(whole) == "-0"
  {
  }

  /** Without a minus sign, the integer display is the locale format of the parsed value. */
  lemma IntegerDisplayUnsigned(whole: string)
    requires !MinusSigned(whole) && !ParseFloat(whole).NaN?
    ensures IntegerDisplay(whole) == FormatInteger(ParseFloat(whole))
  {
  }

  /** A fraction of magnitude below one after a minus keeps its sign: "-0.5" shows as "-0.5". */
  lemma DisplayNegativeFraction(f: string)
    requires '.' !in f
    ensures GetDisplayNumber("-0." + f) == "-0." + f
  {
    var t := "-" + [DigitChar(0)];
    assert t == "-0" by { assert DigitChar(0) == '0'; }
    calc {
      GetDisplayNumber("-0." + f);
      { assert "-0." + f == t + "." + f + ""; }
      GetDisplayNumber(t + "." + f + "");
      { DisplayWithPoint(t, f, ""); }
      IntegerDisplay(t) + "." + f;
      { ParseMinusZero(t); SignedZeroDisplay(t); }
      "-0" + "." + f;
      { assert "-0" + "." + f == "-0." + f; }
      "-0." + f;
    }
  }

  /** A whole number is shown as its grouped decimal digits. */
  lemma FormatWhole(n: nat)
    ensures FormatInteger(Finite(n as real)) == GroupDigits(DecimalString(n))
  {
    var x := n as real;
    assert x >= 0.0;
    var k := RoundHalfExpand(x);
    assert k == n by { RoundWhole(n); }
  }

  lemma RoundWhole(n: nat)
    ensures RoundHalfExpand(n as real) == n
  {
  }

  /**
   * The integer part of a keypad text is its value with leading zeros dropped,
   * split by commas into groups of three digits from the right.
   */
  lemma IntegerDisplayOfDigits(s: string)
    requires AllDigits(s) && s != ""
    ensures IntegerDisplay(s) == GroupDigits(DecimalString(DigitsValue(s)))
    ensures Ungroup(IntegerDisplay(s)) == DecimalString(DigitsValue(s))
    ensures CommasEveryThree(IntegerDisplay(s))
  {
    ParseDigits(s);
    assert !MinusSigned(s) by { assert IsDigit(s[0]); TrimStartNone(s); }
    IntegerDisplayUnsigned(s);
    var n := DigitsValue(s);
    FormatWhole(n);
    var ds := DecimalString(n);
    assert ',' !in ds by {
      forall j | 0 <= j < |ds| ensures ds[j] != ',' { assert IsDigit(ds[j]); }
    }
    UngroupGroup(ds);
    GroupCommaPositions(ds);
  }
}
