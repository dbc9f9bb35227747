# Calculadora: a verified model of the calculator's accumulator

The calculator in `script.js` keeps its state in one object of the class
`Calculadora`, which has three fields:

- `currentOperand`: the number being typed;
- `previousOperand`: the number typed before the pending operator;
- `operation`: the pending operator.

Five methods change these fields:

- `clear` resets all three.
- `delete` drops the last character of the current operand.
- `appendNumber` appends a key's text, refusing a second decimal point.
- `chooseOperation` ignores an empty operand. Otherwise it first computes any pending operation, then moves current to previous under the new operator.
- `compute` parses both operands and applies `+`, `-`, `*` or `÷`. It does nothing when an operand does not parse or the operator is unknown.

A sixth method, `getDisplayNumber`, is pure. It formats an operand for the screen: the integer part gets comma grouping, the text between the first point and the next one (or the end) is kept verbatim, and anything after a second point is dropped: `1.2.3` shows as `1.2`.

## How the model is built

- **`options.dfy`**: `Option`. `None` stands for the source's `undefined` operation.
- **`numbers.dfy`**: the values a JavaScript number can take here.
  - The type is `Num = Finite(real) | Infinity(negative) | NaN`.
  - `+ - * /` follow the IEEE-754 rules for infinities and NaN. For example, a/0 is an infinity of the sign of a, and 0/0 is NaN.
  - There is no rounding.
- **`digits.dfy`, `strings.dfy`**: digit strings and their values, and splitting at `.`.
- **`parsing.dfy`**: `parseFloat`. It skips leading white space, then reads an optional sign, then `Infinity` or the longest decimal literal prefix (digits, point, digits, exponent). Anything else gives NaN.
- **`display.dfy`**: `getDisplayNumber`, with `toLocaleString('en', { maximumFractionDigits: 0 })` written out.
  - A minus sign, also for a zero read after a minus: `parseFloat('-0')` is negative zero and shows as `-0`, so `-0.5` shows as `-0.5`.
  - Rounding half away from zero.
  - A comma before every group of three digits from the right.
  - `∞` for infinities.
- **`accumulator.dfy`**: the state as a value, and one function per mutating method that gives the state after the call from the state before it.
  - `Operand = Text(string) | Computed(Num)`. After `compute`, `currentOperand` holds a number, not text.
  - `appendNumber` returns a `Completion`: `Normal(state)`, or `TypeError` when `'.'` is pressed while current holds a number. A number has no `includes` method.
- **`calculadora.dfy`**: the class itself. It has the three fields and imperative methods with `modifies this`. Each method's postcondition ties its new fields to the function in `accumulator.dfy`. `ChooseOperation` calls the mutating `Compute`, as the source does.
- **`accumulator_properties.dfy`**: what the operations guarantee.
  - Call by call: the no-op conditions of `delete`, `chooseOperation` and `compute`, and `appendNumber`'s refusal of a second point, stated as if-and-only-if; the order of the operands, what `delete` takes back, and how text is built from typed keys.
  - Over a whole session: `Step` and `Run` on user actions, and an invariant that every reachable state keeps. The invariant is: an operator is pending exactly when previous is non-empty, and no text operand holds two points.
- **`scenarios.dfy`**: sessions a user would type, proved for every digit and operator, including one driven through the class.

Number-to-string conversion (`toString` on a computed number) is a host routine. The class takes it as a constant `render` given to its constructor. `compute` reads a stored number with `parseFloat`, which JavaScript applies to the number's `toString`. The model takes the number itself instead. The lemma `ParseOperandOfText` states the condition under which the two agree: the stored number's spelling reads back as that number.

Three behaviours of `script.js` follow from the code as written:

- `compute` stores its numeric result directly (script.js:130), so `currentOperand` can hold a number. Two consequences:
  - `chooseOperation`'s `=== ''` guard never stops on a number.
  - Typing `.` while current holds a number throws a `TypeError` (script.js:47), since a number has no `includes` method.
- The keyboard handler calls `apagar` on Backspace (script.js:205), and the class defines no such method. The keyboard handler is not part of this model.
- `compute` leaves its result, including an infinity or NaN, as a number. It becomes text only through `toString`: when it is displayed, when DEL is pressed (script.js:24), or when a digit is typed after it (script.js:50).

## Model

| member | source | states |
|---|---|---|
| Calculator.Calculadora.constructor | script.js:14-19 | a new calculator starts cleared: both operands empty text, no operation |
| Calculator.Calculadora.Clear | script.js:28-32 | whatever the prior state, afterwards both operands are empty text and no operation is pending |
| Calculator.Calculadora.Delete | script.js:22-25 | current becomes its text form without the last character; previous and operation never change |
| Calculator.Calculadora.AppendNumber | script.js:45-51 | the new fields are those AfterAppend gives for the old ones; a throw (point after a result) leaves every field unchanged |
| Calculator.Calculadora.ChooseOperation | script.js:89-101 | the new fields are those AfterChoose gives, which includes the effect of the implicit compute |
| Calculator.Calculadora.Compute | script.js:104-133 | the new fields are those AfterCompute gives for the old ones |
| Accumulator.Apply | script.js:113-128 | the switch gives a result exactly for the four symbols + - * ÷ |
| Accumulator.TextOf | script.js:24 | `toString` of an operand: a text operand is its own text |
| Accumulator.ParseOperand | script.js:106-107 | `parseFloat` of an operand: empty text gives NaN |
| Accumulator.AfterDelete | script.js:22-25 | the new current is text, a prefix of the old text form, one character shorter or empty; previous and operation never change |
| Accumulator.AfterAppend | script.js:45-51 | throws exactly for a point typed while current holds a number; otherwise previous and operation are kept and current is either unchanged or the old text form followed by the key |
| Accumulator.AfterCompute | script.js:104-133 | either nothing changes, or a pending operator was one of the four, current holds a number, previous is empty and no operation is pending |
| Accumulator.AfterChoose | script.js:89-101 | with current empty nothing changes; otherwise current is empty, the new operator is pending, and previous is the old current or the result of the implicit compute |
| AccumulatorProperties.AppendNumberOnText | script.js:45-51 | on text, a point is refused (state unchanged) exactly when the text already has one; every other token is appended at the end, and nothing else changes |
| AccumulatorProperties.AppendPointOnResultThrows | script.js:47 | a point typed while current holds a computed number throws |
| AccumulatorProperties.TypedText | script.js:45-51 | typing keypad keys into text never throws and never produces two points; only points are dropped; without a second point the text is the old text followed by the keys |
| AccumulatorProperties.DeleteOnEmpty | script.js:22-25 | delete changes nothing exactly when current is empty text (no underflow) |
| AccumulatorProperties.DeleteUndoesAppend | script.js:22-25 | delete takes back any one-character key that appendNumber accepted into text |
| AccumulatorProperties.ChooseOnEmptyIgnored | script.js:91 | choosing an operator changes nothing exactly when current is empty text |
| AccumulatorProperties.ChooseOperationCases | script.js:94-100 | otherwise the operator is pending and current is empty; previous is the old current when nothing was pending or the implicit compute did nothing (overwriting the old previous), else the computed number |
| AccumulatorProperties.ComputeNoOpIff | script.js:106-128 | compute leaves the state as it was if and only if an operand does not parse, no operation is pending, or the operation is not one of the four |
| AccumulatorProperties.ComputeResult | script.js:113-132 | a successful compute stores prev + current, prev - current, prev * current or prev / current, in that order, clears previous and the operation |
| AccumulatorProperties.ComputeWithEmptyOperand | script.js:106-110 | with either operand empty, compute does nothing |
| AccumulatorProperties.DivisionByZero | script.js:123-125 | dividing by zero gives an infinity of the dividend's sign, or NaN for 0 / 0, never a failure |
| AccumulatorProperties.KeypadParts | script.js:45-51 | a text of digits and at most one point is one digit block, or two digit blocks around the point |
| AccumulatorProperties.KeypadTextParses | script.js:106-110 | such a text fails to parse exactly when it holds no digit; otherwise it parses to a finite number that is not negative |
| AccumulatorProperties.ClearedConsistent | script.js:28-32 | the cleared state satisfies the invariant |
| AccumulatorProperties.ComputeKeepsConsistent | script.js:104-133 | compute preserves the invariant |
| AccumulatorProperties.StepKeepsConsistent | script.js:22-133 | each of the five operations preserves the invariant, including a throwing appendNumber |
| AccumulatorProperties.AppendNonPoint | script.js:50 | any key other than a point is appended to the operand's text form, also right after a result, with nothing else changed |
| AccumulatorProperties.ParseOperandOfText | script.js:106-107 | when the stored number's spelling reads back as that number, parsing an operand is `parseFloat` of its `toString` |
| AccumulatorProperties.AppendKeepsConsistent | script.js:45-51 | appendNumber preserves the invariant whenever it completes |
| AccumulatorProperties.Step | script.js:22-133 | a key press: digits and delete never touch previous or the operation; an operator on a non-empty current leaves it empty with the operator pending; a point after a result keeps the state |
| AccumulatorProperties.Run | script.js:22-133 | a session of only digit and delete presses keeps previous and the operation; a session ending in all-clear ends cleared |
| AccumulatorProperties.RunKeepsConsistent | script.js:12-133 | every state a session of key presses reaches from a consistent state is consistent |
| JsNumber.Add | script.js:115 | addition gives NaN whenever an operand is NaN |
| JsNumber.Sub | script.js:118 | subtraction gives NaN whenever an operand is NaN |
| JsNumber.Mul | script.js:121 | multiplication gives NaN whenever an operand is NaN |
| JsNumber.Div | script.js:124 | division gives NaN whenever an operand is NaN |
| JsNumber.FiniteArithmetic | script.js:113-125 | on finite numbers the four operations give the exact sum, difference, product and quotient (for a non-zero divisor) |
| JsNumber.InfinityRules | script.js:113-125 | the IEEE-754 cases for infinities: ∞ - ∞, ∞ · 0 and ∞ / ∞ are NaN; otherwise an infinity wins with the sign rule; a finite number over an infinity is 0 |
| JsNumber.OperandOrder | script.js:115-124 | addition and multiplication do not depend on operand order; swapping the operands of a subtraction negates it |
| Parsing.TrimStart | script.js:106-107 | parseFloat skips exactly the leading white space: what it drops is all white space and what is left is empty or starts with something else |
| Parsing.ParseUnsignedText | script.js:106-107 | text starting with a digit or a point is read with no sign and is not the word Infinity |
| Parsing.ScanDecimalParts | script.js:106-107 | a digit block, a point and a digit block are read as the literal they spell, with the exponent read from what follows |
| Parsing.ScanDecimal | script.js:106-107 | a decimal literal is found only in text holding a digit |
| Parsing.ParseUnsigned | script.js:106-107 | a finite value is read only from text holding a digit; empty text is NaN |
| Parsing.ParseFloat | script.js:106-107 | text that is empty after white space parses to NaN, and a finite result needs a digit in the text |
| Parsing.DecimalValue | script.js:106-107 | the value digits, a point and digits spell is never negative |
| Parsing.LiteralValue | script.js:106-107 | an unsigned decimal literal is never negative |
| Parsing.ParseFloatSign | script.js:55 | a value below zero is read only after a minus sign, and one above zero or +∞ only without it |
| Parsing.ParseMinusZero | script.js:55 | "-0" is read as zero after a minus sign, the case parseFloat turns into negative zero |
| Parsing.ParseLonePoint | script.js:106-110 | a lone point parses to NaN |
| Parsing.ParseDigits | script.js:55 | a digit string parses to its decimal value, and the empty string to NaN |
| Parsing.ParseDigitsWithPoint | script.js:106-107 | digits, a point and digits parse to the decimal they spell; a lone point parses to NaN |
| Digits.DecimalString | script.js:63 | the digits written for a whole number spell that number and have no leading zero |
| Digits.DecimalStringOfDigits | script.js:63 | a digit string without a leading zero is written back exactly as it was |
| Digits.LeadingDigits | script.js:55 | the longest prefix of digits: it is a prefix and the next character is not a digit |
| Digits.LeadingDigitsOfDigits | script.js:55 | a digit block followed by a non-digit is read as exactly that block |
| Strings.DropLast | script.js:24 | slice(0, -1): a prefix one character shorter, or empty from empty |
| Strings.DotsZero | script.js:47 | includes('.') holds exactly when the text has at least one point |
| Strings.Split | script.js:55-56 | split('.') gives one more part than there are points, no part holds a point, and joining with points gives the text back |
| Strings.SplitAtPoint | script.js:55-56 | the first two parts are the text before the first point and the text between the first and second points |
| Strings.SplitNoPoint | script.js:55-56 | a text without a point splits into itself alone |
| Display.GetDisplayNumber | script.js:53-71 | the display shows exactly one point when the text has a point, and none otherwise |
| Display.IntegerDisplay | script.js:59-64 | the integer display is empty exactly when the integer part does not parse, and it never holds a point |
| Display.IntegerDisplaySign | script.js:55-63 | a non-empty integer display starts with a minus exactly when the integer part carries a minus sign, negative zero included |
| Display.SignedZeroDisplay | script.js:55-63 | a zero read after a minus sign shows as "-0", as the en format writes negative zero |
| Display.IntegerDisplayUnsigned | script.js:59-64 | without a minus sign, a parsed integer part shows as its en format |
| Display.DisplayNegativeFraction | script.js:53-71 | "-0." followed by any text without a point shows as itself: "-0.5" keeps its sign |
| Display.FormatInteger | script.js:63 | the locale format is never empty, never holds a point, and starts with a minus exactly for a negative number or negative infinity |
| Display.GroupDigits | script.js:63 | grouping adds only commas to the digits |
| Display.UngroupGroup | script.js:63 | taking the commas out of a grouped string gives back the digits |
| Display.GroupCommaPositions | script.js:63 | commas stand exactly every three digits counted from the right |
| Display.RoundHalfExpand | script.js:63 | maximumFractionDigits 0 rounds to the nearest whole number, halves upward in magnitude |
| Display.DisplayWithPoint | script.js:53-71 | with a point in the text, the display is the integer display of the part before it, a point, and the part up to the next point verbatim |
| Display.DisplayWithoutPoint | script.js:66-70 | without a point in the text the display is the integer display and has no point |
| Display.DisplayEmptyWhole | script.js:59-60 | an empty integer part shows as nothing: ".5" shows as ".5" and "" as "" |
| Display.FormatWhole | script.js:63 | a whole number is shown as its grouped decimal digits |
| Display.IntegerDisplayOfDigits | script.js:55-63 | the integer display of digits is their value without leading zeros, grouped by threes from the right |
| Scenarios.DigitOperatorDigitEquals | script.js:89-133 | pressing d, op, e, = leaves d op e in current and nothing pending |
| Scenarios.DigitArithmetic | script.js:113-132 | d + e, d - e, d * e and d ÷ e (e not 0) pressed on the keys leave exactly that number in current |
| Scenarios.ChainedOperations | script.js:94-100 | pressing d, op, e, op2 computes d op e and leaves it pending under op2 |
| Scenarios.DivideByZeroKey | script.js:123-125 | d ÷ 0 = stores an infinity, or NaN when d is 0 |
| Scenarios.PointAfterResult | script.js:47 | a point pressed after a result throws and the session keeps the result |
| Scenarios.PendingOperandOverwritten | script.js:94-100 | d op . op2 leaves "." pending under op2: the earlier operand is lost |
| Scenarios.DisplayCanonicalDigits | script.js:53-71 | a digit string without a leading zero shows as itself, grouped by threes |
| Scenarios.GroupSeven | script.js:63 | 1234567 is grouped as 1,234,567 |
| Scenarios.ClassSession | script.js:12-133 | the class, driven through d, op, e and compute, holds d op e with nothing pending |

## Left out

- DOM selection, event listeners, the keyboard handler and both `updateDisplay` definitions (script.js:1-9, 35-43, 74-86, 137-213) are screen and input glue. `Step` and `Run` stand in for a user's presses.
- The keyboard handler's call to the undefined `apagar` (script.js:205) is part of that glue and is not modelled.
- JsNumber.Add: the arithmetic has no IEEE-754 rounding, no signed zero and no overflow to infinity. Only the display distinguishes negative zero, and only where it is read from text with a minus sign; a computed -0 is spelled "0" by `toString` anyway. Finite results are exact reals. The same holds for JsNumber.Sub, JsNumber.Mul and JsNumber.Div.
- Calculator.Calculadora.constructor: the two screen elements it stores are not modelled; the constructor takes the host's number-to-string routine instead.
- Accumulator.TextOf: `toString` of a stored number is the parameter `render`, not JavaScript's shortest round-trip spelling.
- Accumulator.ParseOperand: `parseFloat` of a stored number is taken to be the number itself. `ParseOperandOfText` shows this agrees with parsing the stored number's spelling only when that spelling reads back exactly.
- AccumulatorProperties.ParseOperandOfText: an exact quotient such as 1/3 has no finite decimal spelling, so for it the requirement cannot hold. JavaScript stores a rounded binary64 value whose shortest spelling does read back; rounding is not modelled.
- AccumulatorProperties.RunKeepsConsistent: assumes that `render` never writes two points. JavaScript's spelling of a number guarantees this, but the model does not derive it.
- Display.FormatInteger: only the `en` locale with `maximumFractionDigits: 0` is modelled, and every locale internal beyond sign, rounding, grouping and the infinity sign is left out.
- `getDisplayNumber` receives the operand's text form. A stored number reaches it through `render`, as `toString` does.
- Strings are sequences of characters, not UTF-16 code units. This makes no difference for the keys and symbols the calculator uses.
