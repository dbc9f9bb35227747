/**
 * The calculator's state and what each of its five operations does to it, as
 * functions of the state before the call. The class in calculadora.dfy
 * updates its fields exactly as these functions say.
 */
module Accumulator {
  import opened Options
  import opened JsNumber
  import opened Parsing
  import opened Strings

  /**
   * An operand field holds text while digits are typed and a number right after
   * a computation: compute stores its result without converting it.
   */
  datatype Operand = Text(chars: string) | Computed(value: Num)

  /** The three fields currentOperand, previousOperand and operation. */
  datatype State = State(current: Operand, previous: Operand, operation: Option<string>)

  /** How a call ends: normally with a new state, or by throwing a TypeError. */
  datatype Completion = Normal(state: State) | TypeError

  const Empty: Operand := Text("")

  /** The state after construction and after clear. */
  const Cleared: State := State(Empty, Empty, None)

  /** operand.toString(): the text itself, or the host's spelling of the number. */
  function TextOf(x: Operand, render: Num -> string): (t: string)
    ensures x.Text? ==> t == x.chars
  {
    match x
    case Text(t) => t
    case Computed(v) => render(v)
  }

  /**
   * parseFloat(operand). A stored number reads back as itself, since the host
   * spells every number so that parseFloat gives it back.
   */
  function ParseOperand(x: Operand): (v: Num)
    ensures x == Empty ==> v.NaN?
  {
    match x
    case Text(t) => ParseFloat(t)
    case Computed(v) => v
  }

  /** The four operator symbols compute knows. */
  predicate IsOperator(op: string)
  {
    op == "+" || op == "-" || op == "*" || op == "÷"
  }

  /** The switch in compute: the result of prev op current, or None for any other symbol. */
  function Apply(op: string, prev: Num, current: Num): (r: Option<Num>)
    ensures r.Some? <==> IsOperator(op)
  {
    if op == "+" then Some(Add(prev, current))
    else if op == "-" then Some(Sub(prev, current))
    else if op == "*" then Some(Mul(prev, current))
    else if op == "÷" then Some(Div(prev, current))
    else None
  }

  /** delete: the text form of current without its last character. */
  function AfterDelete(s: State, render: Num -> string): (t: State)
    ensures t.previous == s.previous && t.operation == s.operation
    ensures t.current.Text? && t.current.chars <= TextOf(s.current, render)
    ensures |t.current.chars| == if TextOf(s.current, render) == "" then 0 else |TextOf(s.current, render)| - 1
  {
    s.(current := Text(DropLast(TextOf(s.current, render))))
  }

  /**
   * appendNumber: a point is refused when current already has one; otherwise the
   * token is appended to the text form of current. Asking a stored number whether
   * it includes a point throws.
   */
  function AfterAppend(s: State, number: string, render: Num -> string): (c: Completion)
    ensures c.TypeError? <==> number == "." && s.current.Computed?
    ensures c.Normal? ==> c.state.previous == s.previous && c.state.operation == s.operation
    ensures c.Normal? ==> c.state == s || c.state.current == Text(TextOf(s.current, render) + number)
  {
    if number == "." then
      match s.current
      case Computed(_) => TypeError
      case Text(t) => if '.' in t then Normal(s) else Normal(s.(current := Text(t + number)))
    else Normal(s.(current := Text(TextOf(s.current, render) + number)))
  }

  /**
   * compute: nothing happens when either operand does not parse or the operation
   * is not one of the four; otherwise the result becomes current and the pending
   * operation is cleared.
   */
  function AfterCompute(s: State): (t: State)
    ensures t == s || (t.current.Computed? && t.previous == Empty && t.operation == None)
    ensures t != s ==> s.operation.Some? && IsOperator(s.operation.value)
  {
    var prev := ParseOperand(s.previous);
    var current := ParseOperand(s.current);
    if prev.NaN? || current.NaN? then s
    else
      match s.operation
      case None => s
      case Some(op) =>
        match Apply(op, prev, current)
        case None => s
        case Some(v) => State(Computed(v), Empty, None)
  }

  /**
   * chooseOperation: ignored while current is empty text; otherwise a pending
   * operation is computed first, then current moves to previous.
   */
  function AfterChoose(s: State, op: string): (t: State)
    ensures s.current == Empty ==> t == s
    ensures s.current != Empty ==> t.current == Empty && t.operation == Some(op)
    ensures s.current != Empty ==> t.previous == s.current || t.previous == AfterCompute(s).current
  {
    if s.current == Empty then s
    else
      var t := if s.previous != Empty then AfterCompute(s) else s;
      State(Empty, t.current, Some(op))
  }
}
