/**
 * JavaScript numbers as the calculator sees them: an exact real, a signed
 * infinity or NaN. Rounding to binary64 and the sign of zero are not modelled;
 * the four operations follow IEEE 754 on the non-finite cases.
 */
module JsNumber {

  datatype Num = Finite(r: real) | Infinity(negative: bool) | NaN

  function Negate(x: Num): Num
  {
    match x
    case Finite(r) => Finite(-r)
    case Infinity(n) => Infinity(!n)
    case NaN => NaN
  }

  function Add(x: Num, y: Num): (z: Num)
    ensures x.NaN? || y.NaN? ==> z.NaN?
  {
    match (x, y)
    case (NaN, _) => NaN
    case (_, NaN) => NaN
    case (Infinity(m), Infinity(n)) => if m == n then Infinity(m) else NaN
    case (Infinity(m), Finite(_)) => Infinity(m)
    case (Finite(_), Infinity(n)) => Infinity(n)
    case (Finite(a), Finite(b)) => Finite(a + b)
  }

  /** x - y is x + (-y). */
  function Sub(x: Num, y: Num): (z: Num)
    ensures x.NaN? || y.NaN? ==> z.NaN?
  {
    Add(x, Negate(y))
  }

  function Mul(x: Num, y: Num): (z: Num)
    ensures x.NaN? || y.NaN? ==> z.NaN?
  {
    match (x, y)
    case (NaN, _) => NaN
    case (_, NaN) => NaN
    case (Infinity(m), Infinity(n)) => Infinity(m != n)
    case (Infinity(m), Finite(b)) => if b == 0.0 then NaN else Infinity(m != (b < 0.0))
    case (Finite(a), Infinity(n)) => if a == 0.0 then NaN else Infinity((a < 0.0) != n)
    case (Finite(a), Finite(b)) => Finite(a * b)
  }

  /** Division by zero is not an error: it gives a signed infinity, or NaN for 0 / 0 (zero counts as +0). */
  function Div(x: Num, y: Num): (z: Num)
    ensures x.NaN? || y.NaN? ==> z.NaN?
  {
    match (x, y)
    case (NaN, _) => NaN
    case (_, NaN) => NaN
    case (Infinity(_), Infinity(_)) => NaN
    case (Infinity(m), Finite(b)) => Infinity(m != (b < 0.0))
    case (Finite(_), Infinity(_)) => Finite(0.0)
    case (Finite(a), Finite(b)) =>
      if b != 0.0 then Finite(a / b)
      else if a == 0.0 then NaN
      else Infinity(a < 0.0)
  }

  /** On two finite operands the four operations are the real ones. */
  lemma FiniteArithmetic(a: real, b: real)
    ensures Add(Finite(a), Finite(b)) == Finite(a + b)
    ensures Sub(Finite(a), Finite(b)) == Finite(a - b)
    ensures Mul(Finite(a), Finite(b)) == Finite(a * b)
    ensures b != 0.0 ==> Div(Finite(a), Finite(b)) == Finite(a / b)
  {
  }

  /** The IEEE 754 rules for an infinite operand. */
  lemma InfinityRules(m: bool, n: bool, b: real)
    ensures Add(Infinity(m), Infinity(!m)).NaN? && Add(Infinity(m), Infinity(m)) == Infinity(m)
    ensures Add(Infinity(m), Finite(b)) == Infinity(m) && Add(Finite(b), Infinity(m)) == Infinity(m)
    ensures Sub(Infinity(m), Infinity(m)).NaN? && Sub(Finite(b), Infinity(m)) == Infinity(!m)
    ensures Mul(Infinity(m), Finite(0.0)).NaN? && Mul(Finite(0.0), Infinity(m)).NaN?
    ensures b != 0.0 ==> Mul(Infinity(m), Finite(b)) == Infinity(m != (b < 0.0))
    ensures Mul(Infinity(m), Infinity(n)) == Infinity(m != n)
    ensures Div(Infinity(m), Infinity(n)).NaN? && Div(Finite(b), Infinity(m)) == Finite(0.0)
    ensures Div(Infinity(m), Finite(b)) == Infinity(m != (b < 0.0))
  {
  }

  /** Addition and multiplication do not depend on the order of the operands; subtraction flips the sign. */
  lemma OperandOrder(x: Num, y: Num)
    ensures Add(x, y) == Add(y, x)
    ensures Mul(x, y) == Mul(y, x)
    ensures Sub(x, y) == Negate(Sub(y, x))
  {
  }
}
