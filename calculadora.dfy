/** The Calculadora class: three fields that its five methods update in place. */
module Calculator {
  import opened Options
  import opened JsNumber
  import opened Accumulator
  import opened Strings

  class Calculadora {
    var currentOperand: Operand
    var previousOperand: Operand
    var operation: Option<string>

    /** The host's number-to-string conversion, used by toString on a stored number. */
    const render: Num -> string

    function Snapshot(): State
      reads this
    {
      State(currentOperand, previousOperand, operation)
    }

    constructor (render: Num -> string)
      ensures this.render == render
      ensures Snapshot() == Cleared
    {
      this.render := render;
      new;
      Clear();
    }

    method Clear()
      modifies this
      ensures Snapshot() == Cleared
    {
      currentOperand := Empty;
      previousOperand := Empty;
      operation := None;
    }

    method Delete()
      modifies this
      ensures Snapshot() == AfterDelete(old(Snapshot()), render)
      ensures previousOperand == old(previousOperand) && operation == old(operation)
    {
      var t := TextOf(currentOperand, render);
      currentOperand := Text(DropLast(t));
    }

    /** Returns true when the call throws (a point typed after a computation); the fields are then untouched. */
    method AppendNumber(number: string) returns (threw: bool)
      modifies this
      ensures AfterAppend(old(Snapshot()), number, render) == if threw then TypeError else Normal(Snapshot())
      ensures threw ==> Snapshot() == old(Snapshot())
    {
      if number == "." {
        match currentOperand
        case Computed(_) =>
          return true;
        case Text(t) =>
          if '.' in t {
            return false;
          }
      }
      currentOperand := Text(TextOf(currentOperand, render) + number);
      return false;
    }

    method ChooseOperation(op: string)
      modifies this
      ensures Snapshot() == AfterChoose(old(Snapshot()), op)
    {
      if currentOperand == Empty {
        return;
      }
      if previousOperand != Empty {
        Compute();
      }
      operation := Some(op);
      previousOperand := currentOperand;
      currentOperand := Empty;
    }

    method Compute()
      modifies this
      ensures Snapshot() == AfterCompute(old(Snapshot()))
    {
      var prev := ParseOperand(previousOperand);
      var current := ParseOperand(currentOperand);
      if prev.NaN? || current.NaN? {
        return;
      }
      var computation: Num;
      if operation == Some("+") {
        computation := Add(prev, current);
      } else if operation == Some("-") {
        computation := Sub(prev, current);
      } else if operation == Some("*") {
        computation := Mul(prev, current);
      } else if operation == Some("÷") {
        computation := Div(prev, current);
      } else {
        return;
      }
      currentOperand := Computed(computation);
      operation := None;
      previousOperand := Empty;
    }
  }
}
