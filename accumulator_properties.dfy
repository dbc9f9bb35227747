/** What the five operations guarantee, call by call and over a whole session. */
module AccumulatorProperties {
  import opened Options
  import opened Digits
  import opened JsNumber
  import opened Parsing
  import opened Strings
  import opened Accumulator

  // ----- appendNumber -----

  /** A token the keypad can send: the point itself, or text without a point. */
  predicate IsKey(number: string)
  {
    number == "." || '.' !in number
  }

  /** The tokens typed one after the other. */
  function Typed(tokens: seq<string>): string
  {
    if tokens == [] then "" else tokens[0] + Typed(tokens[1..])
  }

  /** appendNumber called once per token; a throw ends the sequence. */
  function AppendAll(s: State, tokens: seq<string>, render: Num -> string): Completion
    decreases |tokens|
  {
    if tokens == [] then Normal(s)
    else
      match AfterAppend(s, tokens[0], render)
      case TypeError => TypeError
      case Normal(s') => AppendAll(s', tokens[1..], render)
  }

  /** A second point is refused and nothing changes; everything else is appended after the text. */
  lemma AppendNumberOnText(s: State, number: string, render: Num -> string)
    requires s.current.Text?
    ensures number == "." && '.' in s.current.chars ==> AfterAppend(s, number, render) == Normal(s)
    ensures !(number == "." && '.' in s.current.chars) ==>
      AfterAppend(s, number, render) == Normal(State(Text(s.current.chars + number), s.previous, s.operation))
  {
  }

  /**
   * Any token but the point is appended to the text form of current, whether current
   * is text or a computed number (which is spelled by the host first).
   */
  lemma AppendNonPoint(s: State, number: string, render: Num -> string)
    requires number != "."
    ensures AfterAppend(s, number, render) == Normal(s.(current := Text(TextOf(s.current, render) + number)))
    ensures s.current.Computed? ==> AfterAppend(s, number, render).state.current == Text(render(s.current.value) + number)
  {
  }

  /** After a computation current holds a number, and typing a point throws instead of being refused. */
  lemma AppendPointOnResultThrows(s: State, render: Num -> string)
    requires s.current.Computed?
    ensures AfterAppend(s, ".", render) == TypeError
  {
  }

  /**
   * Typing keypad tokens into a text with at most one point never throws and leaves
   * at most one point; the only tokens dropped are points, and when the tokens bring
   * no second point the text is exactly the old text followed by the tokens.
   */
  lemma {:induction false} TypedText(s: State, tokens: seq<string>, render: Num -> string)
    requires s.current.Text? && Dots(s.current.chars) <= 1
    requires forall i :: 0 <= i < |tokens| ==> IsKey(tokens[i])
    ensures AppendAll(s, tokens, render).Normal?
    ensures var r := AppendAll(s, tokens, render).state;
      var all := s.current.chars + Typed(tokens);
      r.previous == s.previous && r.operation == s.operation &&
      r.current.Text? && Dots(r.current.chars) <= 1 &&
      WithoutPoints(r.current.chars) == WithoutPoints(all) &&
      (Dots(all) <= 1 ==> r.current.chars == all)
    decreases |tokens|
  {
    var t := s.current.chars;
    if tokens == [] {
      assert t + Typed(tokens) == t;
    } else {
      var k, rest := tokens[0], tokens[1..];
      assert Typed(tokens) == k + Typed(rest);
      assert t + Typed(tokens) == (t + k) + Typed(rest);
      DotsConcat(t + k, Typed(rest));
      DotsConcat(t, k);
      WithoutPointsConcat(t + k, Typed(rest));
      WithoutPointsConcat(t, k);
      var s' := AfterAppend(s, k, render).state;
      if k == "." && '.' in t {
        assert s' == s;
        DotsZero(t);
        assert Dots(k) == 1;
        assert WithoutPoints(k) == "";
        TypedText(s, rest, render);
        WithoutPointsConcat(t, Typed(rest));
        DotsConcat(t, Typed(rest));
      } else {
        assert s'.current == Text(t + k);
        if k == "." {
          DotsZero(t);
          assert Dots(k) == 1;
        } else {
          DotsZero(k);
        }
        TypedText(s', rest, render);
      }
    }
  }

  // ----- delete -----

  /** delete changes nothing exactly when current is empty text: there is no underflow, and anything else loses a character or becomes text. */
  lemma DeleteOnEmpty(s: State, render: Num -> string)
    ensures AfterDelete(s, render) == s <==> s.current == Empty
  {
  }

  /** delete takes back a one-character token that appendNumber accepted into a text. */
  lemma DeleteUndoesAppend(s: State, number: string, render: Num -> string)
    requires s.current.Text? && |number| == 1
    requires !(number == "." && '.' in s.current.chars)
    ensures AfterAppend(s, number, render).Normal?
    ensures AfterDelete(AfterAppend(s, number, render).state, render) == s
  {
    var t := s.current.chars;
    assert (t + number)[..|t + number| - 1] == t;
  }

  // ----- chooseOperation -----

  /** chooseOperation changes nothing exactly when current is empty text. */
  lemma ChooseOnEmptyIgnored(s: State, op: string)
    ensures AfterChoose(s, op) == s <==> s.current == Empty
  {
  }

  /**
   * With something in current, op becomes the pending operation and current is
   * emptied. previous receives current as it stands after the implicit compute:
   * the result when that compute succeeds, the old current when it does nothing
   * (the old previous is then lost).
   */
  lemma ChooseOperationCases(s: State, op: string)
    requires s.current != Empty
    ensures AfterChoose(s, op).operation == Some(op)
    ensures AfterChoose(s, op).current == Empty
    ensures s.previous == Empty ==> AfterChoose(s, op).previous == s.current
    ensures s.previous != Empty && AfterCompute(s) == s ==> AfterChoose(s, op).previous == s.current
    ensures s.previous != Empty && AfterCompute(s) != s ==>
      AfterChoose(s, op).previous == AfterCompute(s).current && AfterCompute(s).current.Computed?
  {
  }

  // ----- compute -----

  /** compute changes nothing exactly when an operand does not parse or there is no known operator pending. */
  lemma ComputeNoOpIff(s: State)
    ensures AfterCompute(s) == s <==>
      ParseOperand(s.previous).NaN? || ParseOperand(s.current).NaN? ||
      s.operation.None? || !IsOperator(s.operation.value)
  {
  }

  /** A successful compute stores prev op current, in that order, and clears the pending operation. */
  lemma ComputeResult(s: State)
    requires !ParseOperand(s.previous).NaN? && !ParseOperand(s.current).NaN?
    requires s.operation.Some? && IsOperator(s.operation.value)
    ensures var prev, current := ParseOperand(s.previous), ParseOperand(s.current);
      var v := match s.operation.value
        case "+" => Add(prev, current)
        case "-" => Sub(prev, current)
        case "*" => Mul(prev, current)
        case _ => Div(prev, current);
      AfterCompute(s) == State(Computed(v), Empty, None)
  {
  }

  /** An empty operand never parses, so compute does nothing with either one empty. */
  lemma ComputeWithEmptyOperand(s: State)
    requires s.previous == Empty || s.current == Empty
    ensures AfterCompute(s) == s
  {
    ParseDigits("");
  }

  /** Dividing a non-zero number by zero gives an infinity of its sign; 0 / 0 gives NaN. */
  lemma DivisionByZero(a: real)
    ensures Div(Finite(a), Finite(0.0)) == if a == 0.0 then NaN else Infinity(a < 0.0)
  {
  }

  // ----- text the keypad produces -----

  /** Digits and at most one point: what appendNumber builds from the keypad's keys. */
  predicate KeypadText(s: string)
  {
    (forall i :: 0 <= i < |s| ==> IsDigit(s[i]) || s[i] == '.') && Dots(s) <= 1
  }

  /** A keypad text is a digit block, or two digit blocks around its one point. */
  lemma KeypadParts(s: string) returns (w: string, f: string, hasPoint: bool)
    requires KeypadText(s)
    ensures AllDigits(w) && AllDigits(f)
    ensures s == if hasPoint then w + "." + f else w
    ensures !hasPoint ==> f == ""
    ensures (forall i :: 0 <= i < |s| ==> !IsDigit(s[i])) <==> w == "" && f == ""
  {
    hasPoint := '.' in s;
    if hasPoint {
      var k :| 0 <= k < |s| && s[k] == '.';
      w, f := s[..k], s[k + 1..];
      assert s == w + "." + f;
      DotsConcat(w + ".", f);
      DotsConcat(w, ".");
      DotsZero(w);
      DotsZero(f);
      assert AllDigits(w) by {
        forall i | 0 <= i < |w| ensures IsDigit(w[i]) { assert w[i] == s[i]; assert s[i] != '.'; }
      }
      assert AllDigits(f) by {
        forall i | 0 <= i < |f| ensures IsDigit(f[i]) { assert f[i] == s[k + 1 + i]; assert s[k + 1 + i] != '.'; }
      }
      if w != "" {
        assert IsDigit(s[0]);
      } else if f != "" {
        assert IsDigit(s[k + 1]);
      } else {
        assert s == ".";
        assert !IsDigit(s[0]);
      }
    } else {
      w, f := s, "";
      assert AllDigits(s);
    }
  }

  /** A keypad text parses exactly when it has a digit, and then to a finite number that is not negative. */
  lemma KeypadTextParses(s: string)
    requires KeypadText(s)
    ensures ParseFloat(s).NaN? <==> (forall i :: 0 <= i < |s| ==> !IsDigit(s[i]))
    ensures !ParseFloat(s).NaN? ==> ParseFloat(s).Finite? && ParseFloat(s).r >= 0.0
  {
    var w, f, hasPoint := KeypadParts(s);
    if hasPoint {
      ParseDigitsWithPoint(w, f);
    } else {
      ParseDigits(w);
    }
  }

  // ----- the state invariant -----

  predicate AtMostOnePoint(x: Operand)
  {
    x.Text? ==> Dots(x.chars) <= 1
  }

  /**
   * An operation is pending exactly when previous is not empty text, and no
   * operand text holds two points.
   */
  predicate Consistent(s: State)
  {
    (s.operation.None? <==> s.previous == Empty) &&
    AtMostOnePoint(s.current) && AtMostOnePoint(s.previous)
  }

  /**
   * parseFloat of an operand is parseFloat of its text form, as JavaScript converts a
   * number to text first, whenever the host's spelling of a stored number reads back as it.
   */
  lemma ParseOperandOfText(x: Operand, render: Num -> string)
    requires x.Computed? ==> ParseFloat(render(x.value)) == x.value
    ensures ParseOperand(x) == ParseFloat(TextOf(x, render))
  {
  }

  /** The host never spells a number with two points. */
  ghost predicate RendersAtMostOnePoint(render: Num -> string)
  {
    forall v :: Dots(render(v)) <= 1
  }

  /** The user actions of a session, each forwarded to one operation. */
  datatype Action = PressNumber(number: string) | PressOperation(op: string) | PressEquals | PressDelete | PressAllClear

  /** One action; a call that throws leaves the state as it was, and the session goes on. */
  function Step(s: State, a: Action, render: Num -> string): (t: State)
    ensures (a.PressNumber? || a.PressDelete?) ==> t.previous == s.previous && t.operation == s.operation
    ensures a.PressOperation? && s.current != Empty ==> t.current == Empty && t.operation == Some(a.op)
    ensures a == PressNumber(".") && s.current.Computed? ==> t == s
  {
    match a
    case PressNumber(number) =>
      (match AfterAppend(s, number, render) case Normal(s') => s' case TypeError => s)
    case PressOperation(op) => AfterChoose(s, op)
    case PressEquals => AfterCompute(s)
    case PressDelete => AfterDelete(s, render)
    case PressAllClear => Cleared
  }

  /** The actions one after the other, from s. */
  function Run(s: State, actions: seq<Action>, render: Num -> string): (t: State)
    ensures (forall i :: 0 <= i < |actions| ==> actions[i].PressNumber? || actions[i].PressDelete?) ==>
      t.previous == s.previous && t.operation == s.operation
    ensures |actions| > 0 && actions[|actions| - 1].PressAllClear? ==> t == Cleared
    decreases |actions|
  {
    if actions == [] then s
    else
      assert forall i :: 0 <= i < |actions| - 1 ==> actions[1..][i] == actions[i + 1];
      Run(Step(s, actions[0], render), actions[1..], render)
  }

  predicate KeyActions(actions: seq<Action>)
  {
    forall i :: 0 <= i < |actions| ==> actions[i].PressNumber? ==> IsKey(actions[i].number)
  }

  lemma ClearedConsistent()
    ensures Consistent(Cleared)
  {
    assert Dots("") == 0;
  }

  lemma ComputeKeepsConsistent(s: State)
    requires Consistent(s)
    ensures Consistent(AfterCompute(s))
  {
  }

  lemma StepKeepsConsistent(s: State, a: Action, render: Num -> string)
    requires Consistent(s) && RendersAtMostOnePoint(render)
    requires a.PressNumber? ==> IsKey(a.number)
    ensures Consistent(Step(s, a, render))
  {
    match a
    case PressNumber(number) =>
      AppendKeepsConsistent(s, number, render);
    case PressOperation(op) =>
      if s.current != Empty && s.previous != Empty {
        ComputeKeepsConsistent(s);
      }
    case PressEquals =>
      ComputeKeepsConsistent(s);
    case PressDelete =>
      var t := TextOf(s.current, render);
      DotsPrefix(DropLast(t), t);
    case PressAllClear =>
      ClearedConsistent();
  }

  /** appendNumber with a keypad key keeps the invariant, whether it appends, refuses or throws. */
  lemma AppendKeepsConsistent(s: State, number: string, render: Num -> string)
    requires Consistent(s) && RendersAtMostOnePoint(render) && IsKey(number)
    ensures AfterAppend(s, number, render).Normal? ==> Consistent(AfterAppend(s, number, render).state)
  {
    var c := AfterAppend(s, number, render);
    if c.Normal? && c.state != s {
      var t := TextOf(s.current, render);
      assert c.state.current == Text(t + number);
      DotsConcat(t, number);
      if number == "." {
        DotsZero(t);
      } else {
        DotsZero(number);
      }
    }
  }

  /** Every state a session reaches from a consistent one is consistent. */
  lemma {:induction false} RunKeepsConsistent(s: State, actions: seq<Action>, render: Num -> string)
    requires Consistent(s) && RendersAtMostOnePoint(render) && KeyActions(actions)
    ensures Consistent(Run(s, actions, render))
    decreases |actions|
  {
    if actions != [] {
      StepKeepsConsistent(s, actions[0], render);
      assert KeyActions(actions[1..]) by {
        forall i | 0 <= i < |actions[1..]| ensures actions[1..][i].PressNumber? ==> IsKey(actions[1..][i].number) {
          assert actions[1..][i] == actions[i + 1];
        }
      }
      RunKeepsConsistent(Step(s, actions[0], render), actions[1..], render);
    }
  }
}
