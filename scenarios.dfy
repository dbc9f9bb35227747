/** Sessions worked through end to end: the behaviour a user of the calculator sees. */
module Scenarios {
  import opened Options
  import opened Digits
  import opened JsNumber
  import opened Parsing
  import opened Accumulator
  import opened AccumulatorProperties
  import opened Display
  import opened Calculator

  /** The text a digit key types. */
  function Key(d: nat): (k: string)
    requires d < 10
    ensures |k| == 1 && IsDigit(k[0]) && DigitValue(k[0]) == d
  {
    [DigitChar(d)]
  }

  lemma ParseKey(d: nat)
    requires d < 10
    ensures ParseFloat(Key(d)) == Finite(d as real)
    ensures ParseOperand(Text(Key(d))) == Finite(d as real)
  {
    ParseDigits(Key(d));
    assert Key(d)[..0] == "";
  }

  lemma RunCons(s: State, a: Action, rest: seq<Action>, render: Num -> string)
    ensures Run(s, [a] + rest, render) == Run(Step(s, a, render), rest, render)
  {
    assert ([a] + rest)[1..] == rest;
  }

  /** Running one more action after a session is taking one more step from where it ended. */
  lemma {:induction false} RunSnoc(s: State, actions: seq<Action>, a: Action, render: Num -> string)
    ensures Run(s, actions + [a], render) == Step(Run(s, actions, render), a, render)
    decreases |actions|
  {
    if actions == [] {
      assert actions + [a] == [a] + [];
      RunCons(s, a, [], render);
    } else {
      assert actions + [a] == [actions[0]] + (actions[1..] + [a]);
      RunCons(s, actions[0], actions[1..] + [a], render);
      assert actions == [actions[0]] + actions[1..];
      RunCons(s, actions[0], actions[1..], render);
      RunSnoc(Step(s, actions[0], render), actions[1..], a, render);
    }
  }

  lemma TypeInto(s: State, t: string, render: Num -> string)
    requires s.current == Empty && t != "."
    ensures Step(s, PressNumber(t), render) == s.(current := Text(t))
  {
    assert "" + t == t;
  }

  /** The state once d, op and e have been pressed on a cleared calculator. */
  lemma TypeTwoOperands(d: nat, op: string, e: nat, render: Num -> string)
    requires d < 10 && e < 10
    ensures Run(Cleared, [PressNumber(Key(d)), PressOperation(op), PressNumber(Key(e))], render)
         == State(Text(Key(e)), Text(Key(d)), Some(op))
  {
    var s1 := State(Text(Key(d)), Empty, None);
    var s2 := State(Empty, Text(Key(d)), Some(op));
    var s3 := State(Text(Key(e)), Text(Key(d)), Some(op));
    TypeInto(Cleared, Key(d), render);
    TypeInto(s2, Key(e), render);
    calc {
      Run(Cleared, [PressNumber(Key(d)), PressOperation(op), PressNumber(Key(e))], render);
      { RunCons(Cleared, PressNumber(Key(d)), [PressOperation(op), PressNumber(Key(e))], render); }
      Run(s1, [PressOperation(op), PressNumber(Key(e))], render);
      { RunCons(s1, PressOperation(op), [PressNumber(Key(e))], render); }
      Run(s2, [PressNumber(Key(e))], render);
      { RunCons(s2, PressNumber(Key(e)), [], render); }
      Run(s3, [], render);
    }
  }

  /** Computing d op e with both typed as single digits. */
  lemma ComputeKeys(d: nat, op: string, e: nat)
    requires d < 10 && e < 10 && IsOperator(op)
    ensures AfterCompute(State(Text(Key(e)), Text(Key(d)), Some(op)))
         == State(Computed(Apply(op, Finite(d as real), Finite(e as real)).value), Empty, None)
  {
    ParseKey(d);
    ParseKey(e);
  }

  /** d op e = leaves the result of the operation in current and nothing pending. */
  lemma DigitOperatorDigitEquals(d: nat, op: string, e: nat, render: Num -> string)
    requires d < 10 && e < 10 && IsOperator(op)
    ensures Run(Cleared, [PressNumber(Key(d)), PressOperation(op), PressNumber(Key(e)), PressEquals], render)
         == State(Computed(Apply(op, Finite(d as real), Finite(e as real)).value), Empty, None)
  {
    var typed := [PressNumber(Key(d)), PressOperation(op), PressNumber(Key(e))];
    var s3 := State(Text(Key(e)), Text(Key(d)), Some(op));
    calc {
      Run(Cleared, [PressNumber(Key(d)), PressOperation(op), PressNumber(Key(e)), PressEquals], render);
      { assert typed + [PressEquals] == [PressNumber(Key(d)), PressOperation(op), PressNumber(Key(e)), PressEquals]; }
      Run(Cleared, typed + [PressEquals], render);
      { RunSnoc(Cleared, typed, PressEquals, render); }
      Step(Run(Cleared, typed, render), PressEquals, render);
      { TypeTwoOperands(d, op, e, render); }
      Step(s3, PressEquals, render);
      AfterCompute(s3);
      { ComputeKeys(d, op, e); }
      State(Computed(Apply(op, Finite(d as real), Finite(e as real)).value), Empty, None);
    }
  }

  /** The four keys' results as numbers: d + e, d - e, d * e, and d / e for e other than 0. */
  lemma DigitArithmetic(d: nat, e: nat, render: Num -> string)
    requires d < 10 && e < 10
    ensures Run(Cleared, [PressNumber(Key(d)), PressOperation("+"), PressNumber(Key(e)), PressEquals], render)
         == State(Computed(Finite(d as real + e as real)), Empty, None)
    ensures Run(Cleared, [PressNumber(Key(d)), PressOperation("-"), PressNumber(Key(e)), PressEquals], render)
         == State(Computed(Finite(d as real - e as real)), Empty, None)
    ensures Run(Cleared, [PressNumber(Key(d)), PressOperation("*"), PressNumber(Key(e)), PressEquals], render)
         == State(Computed(Finite(d as real * e as real)), Empty, None)
    ensures e != 0 ==>
      Run(Cleared, [PressNumber(Key(d)), PressOperation("÷"), PressNumber(Key(e)), PressEquals], render)
        == State(Computed(Finite(d as real / e as real)), Empty, None)
  {
    FiniteArithmetic(d as real, e as real);
    DigitOperatorDigitEquals(d, "+", e, render);
    DigitOperatorDigitEquals(d, "-", e, render);
    DigitOperatorDigitEquals(d, "*", e, render);
    DigitOperatorDigitEquals(d, "÷", e, render);
  }

  /** d op e followed by a second operator computes d op e first and leaves it pending under the new operator. */
  lemma ChainedOperations(d: nat, op: string, e: nat, op2: string, render: Num -> string)
    requires d < 10 && e < 10 && IsOperator(op)
    ensures Run(Cleared, [PressNumber(Key(d)), PressOperation(op), PressNumber(Key(e)), PressOperation(op2)], render)
         == State(Empty, Computed(Apply(op, Finite(d as real), Finite(e as real)).value), Some(op2))
  {
    var typed := [PressNumber(Key(d)), PressOperation(op), PressNumber(Key(e))];
    var s3 := State(Text(Key(e)), Text(Key(d)), Some(op));
    var result := Computed(Apply(op, Finite(d as real), Finite(e as real)).value);
    calc {
      Run(Cleared, [PressNumber(Key(d)), PressOperation(op), PressNumber(Key(e)), PressOperation(op2)], render);
      { assert typed + [PressOperation(op2)] == [PressNumber(Key(d)), PressOperation(op), PressNumber(Key(e)), PressOperation(op2)]; }
      Run(Cleared, typed + [PressOperation(op2)], render);
      { RunSnoc(Cleared, typed, PressOperation(op2), render); }
      Step(Run(Cleared, typed, render), PressOperation(op2), render);
      { TypeTwoOperands(d, op, e, render); }
      Step(s3, PressOperation(op2), render);
      AfterChoose(s3, op2);
      { ComputeKeys(d, op, e); }
      State(Empty, result, Some(op2));
    }
  }

  /** d ÷ 0 = stores an infinity, or NaN when d is 0 too; nothing fails. */
  lemma DivideByZeroKey(d: nat, render: Num -> string)
    requires d < 10
    ensures Run(Cleared, [PressNumber(Key(d)), PressOperation("÷"), PressNumber(Key(0)), PressEquals], render)
         == State(Computed(if d == 0 then NaN else Infinity(false)), Empty, None)
  {
    DigitOperatorDigitEquals(d, "÷", 0, render);
  }

  /** A point typed right after d op e = throws, and the session carries on with the result in current. */
  lemma PointAfterResult(d: nat, op: string, e: nat, render: Num -> string)
    requires d < 10 && e < 10 && IsOperator(op)
    ensures var result := State(Computed(Apply(op, Finite(d as real), Finite(e as real)).value), Empty, None);
      AfterAppend(result, ".", render) == TypeError &&
      Run(Cleared, [PressNumber(Key(d)), PressOperation(op), PressNumber(Key(e)), PressEquals, PressNumber(".")], render)
        == result
  {
    var first := [PressNumber(Key(d)), PressOperation(op), PressNumber(Key(e)), PressEquals];
    DigitOperatorDigitEquals(d, op, e, render);
    RunSnoc(Cleared, first, PressNumber("."), render);
    assert first + [PressNumber(".")]
        == [PressNumber(Key(d)), PressOperation(op), PressNumber(Key(e)), PressEquals, PressNumber(".")];
  }

  /** d op . op2: the implicit compute finds "." unparsable, so "." replaces d as the pending operand. */
  lemma PendingOperandOverwritten(d: nat, op: string, op2: string, render: Num -> string)
    requires d < 10
    ensures Run(Cleared, [PressNumber(Key(d)), PressOperation(op), PressNumber("."), PressOperation(op2)], render)
         == State(Empty, Text("."), Some(op2))
  {
    var s1 := State(Text(Key(d)), Empty, None);
    var s2 := State(Empty, Text(Key(d)), Some(op));
    var s3 := State(Text("."), Text(Key(d)), Some(op));
    var s4 := State(Empty, Text("."), Some(op2));
    TypeInto(Cleared, Key(d), render);
    assert Step(s2, PressNumber("."), render) == s3 by { assert "" + "." == "."; }
    assert ParseFloat(".") == NaN by {
      ParseDigitsWithPoint("", "");
      assert "" + "." + "" == ".";
    }
    assert AfterCompute(s3) == s3;
    calc {
      Run(Cleared, [PressNumber(Key(d)), PressOperation(op), PressNumber("."), PressOperation(op2)], render);
      { RunCons(Cleared, PressNumber(Key(d)), [PressOperation(op), PressNumber("."), PressOperation(op2)], render); }
      Run(s1, [PressOperation(op), PressNumber("."), PressOperation(op2)], render);
      { RunCons(s1, PressOperation(op), [PressNumber("."), PressOperation(op2)], render); }
      Run(s2, [PressNumber("."), PressOperation(op2)], render);
      { RunCons(s2, PressNumber("."), [PressOperation(op2)], render); }
      Run(s3, [PressOperation(op2)], render);
      { RunCons(s3, PressOperation(op2), [], render); }
      Run(s4, [], render);
    }
  }

  /** A digit string without a leading zero shows as itself with commas every three digits. */
  lemma DisplayCanonicalDigits(s: string)
    requires AllDigits(s) && s != "" && (s[0] != '0' || |s| == 1)
    ensures GetDisplayNumber(s) == GroupDigits(s)
  {
    assert '.' !in s by {
      forall i | 0 <= i < |s| ensures s[i] != '.' { assert IsDigit(s[i]); }
    }
    DisplayWithoutPoint(s);
    IntegerDisplayOfDigits(s);
    DecimalStringOfDigits(s);
  }

  /** Seven digits are grouped as 1,234,567. */
  lemma GroupSeven()
    ensures GroupDigits("1234567") == "1,234,567"
  {
    assert "1234567"[..4] == "1234";
    assert "1234"[..1] == "1";
    assert "1234567"[4..] == "567";
    assert "1234"[1..] == "234";
  }

  /** The session of DigitOperatorDigitEquals, driven through the class. */
  method ClassSession(d: nat, op: string, e: nat, render: Num -> string) returns (result: Operand, pending: Option<string>)
    requires d < 10 && e < 10 && IsOperator(op)
    ensures result == Computed(Apply(op, Finite(d as real), Finite(e as real)).value) && pending == None
  {
    var c := new Calculadora(render);
    var threw := c.AppendNumber(Key(d));
    assert c.Snapshot() == State(Text(Key(d)), Empty, None) by { assert "" + Key(d) == Key(d); }
    c.ChooseOperation(op);
    assert c.Snapshot() == State(Empty, Text(Key(d)), Some(op));
    threw := c.AppendNumber(Key(e));
    assert c.Snapshot() == State(Text(Key(e)), Text(Key(d)), Some(op)) by { assert "" + Key(e) == Key(e); }
    ComputeKeys(d, op, e);
    c.Compute();
    result, pending := c.currentOperand, c.operation;
  }
}
