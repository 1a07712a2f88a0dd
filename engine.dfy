/**
 * The calculator engine of calculator/js/calculator.js: the shared
 * `CalculatorState` record and the `Calculator` methods that update it.
 *
 * Each method of class `Calculator` is proved to move the state exactly as
 * the transition function of the same name (`AfterClear`, `AfterInputNumber`,
 * ...) says; the lemmas in module `EngineProperties` are about those
 * functions.
 */
module Engine {
  import opened Wrappers
  import opened Numbers
  import opened Evaluator

  /** A snapshot of `CalculatorState` (what `getState` copies). */
  datatype CalculatorState = CalculatorState(
    currentInput: string,       // the operand being typed, as text
    expression: string,         // the expression line of the display
    fullExpression: seq<string>, // committed operands and operators
    operator: Option<string>,   // the last operator pressed
    waitingForNewInput: bool,
    hasError: bool)

  // --- string helpers (JavaScript's `join`, `endsWith`, `startsWith`) ---

  /** `xs.join(sep)`. */
  function Join(xs: seq<string>, sep: string): string {
    if |xs| == 0 then ""
    else if |xs| == 1 then xs[0]
    else Join(xs[..|xs| - 1], sep) + sep + xs[|xs| - 1]
  }

  predicate EndsWith(s: string, suffix: string) {
    |suffix| <= |s| && s[|s| - |suffix|..] == suffix
  }

  predicate StartsWith(s: string, prefix: string) {
    |prefix| <= |s| && s[..|prefix|] == prefix
  }

  /** `['+', '-', '×', '÷'].includes(t)`. */
  predicate IsOperatorText(t: string) {
    t == "+" || t == "-" || t == "×" || t == "÷"
  }

  /** A completed calculation leaves this marker at the end of the expression. */
  const ResultMarker: string := " = "

  // --- transition functions, one per method ---

  /** The state after `clear()`. */
  function AfterClear(): CalculatorState {
    CalculatorState("0", "", [], None, false, false)
  }

  /** The state after `clearEntry()`. */
  function AfterClearEntry(s: CalculatorState): CalculatorState {
    var tokens := if s.waitingForNewInput && |s.fullExpression| > 0
                  then s.fullExpression[..|s.fullExpression| - 1] else s.fullExpression;
    s.(fullExpression := tokens, currentInput := "0", waitingForNewInput := false,
       hasError := false, expression := Join(tokens, " "))
  }

  /** The expression line while an operand is being typed. */
  function EntryText(tokens: seq<string>, currentInput: string): string {
    if |tokens| == 0 then currentInput else Join(tokens + [currentInput], " ")
  }

  /** The state after `inputNumber(number)`. */
  function AfterInputNumber(s: CalculatorState, number: string): CalculatorState {
    var s1 := if s.hasError then AfterClear() else s;
    var s2 := if EndsWith(s1.expression, ResultMarker) then AfterClear() else s1;
    if number == "." && '.' in s2.currentInput then s2
    else if number == "." && s2.waitingForNewInput then
      s2.(currentInput := "0.", waitingForNewInput := false)
    else
      var s3 := if s2.waitingForNewInput || s2.currentInput == "0"
                then s2.(currentInput := if number == "." then "0." else number, waitingForNewInput := false)
                else s2.(currentInput := s2.currentInput + number);
      s3.(expression := EntryText(s3.fullExpression, s3.currentInput))
  }

  /** The state after `inputOperator(op)`. */
  function AfterInputOperator(s: CalculatorState, op: string): CalculatorState {
    if s.hasError then s
    else
      var tokens :=
        if EndsWith(s.expression, ResultMarker) then [s.currentInput]
        else if !s.waitingForNewInput then s.fullExpression + [s.currentInput]
        else s.fullExpression;
      var tokens' :=
        if s.waitingForNewInput && |tokens| > 0 && IsOperatorText(tokens[|tokens| - 1])
        then tokens[..|tokens| - 1] + [op]
        else tokens + [op];
      s.(fullExpression := tokens', expression := Join(tokens', " "),
         waitingForNewInput := true, operator := Some(op))
  }

  /** The state after `setError(message)`. */
  function AfterSetError(s: CalculatorState, message: string): CalculatorState {
    s.(hasError := true, currentInput := message, expression := "Error")
  }

  /** The working copy `calculate` reduces: the tokens, then the operand unless an operator is pending. */
  function FinalExpression(s: CalculatorState): seq<string> {
    s.fullExpression + (if s.waitingForNewInput then [] else [s.currentInput])
  }

  function Cells(ts: seq<string>): (cs: seq<Cell>)
    ensures |cs| == |ts| && forall i :: 0 <= i < |ts| ==> cs[i] == Text(ts[i])
  {
    seq(|ts|, i requires 0 <= i < |ts| => Text(ts[i]))
  }

  /** The state after `calculate()`, and what it returns (`None` for `null`). */
  function AfterCalculate(s: CalculatorState): (CalculatorState, Option<Decimal>) {
    if |s.fullExpression| == 0 then (s, Some(ParseFloat(s.currentInput)))
    else
      var final := FinalExpression(s);
      match Evaluate(ReadFloat, Cells(final))
      case Err(e) => (AfterSetError(s, Message(e)), None)
      case Ok(x) =>
        var r := Round8(x);
        (s.(currentInput := Show(r), expression := Join(final, " ") + ResultMarker,
            fullExpression := [], operator := None, waitingForNewInput := true), Some(r))
  }

  /** The state after `toggleSign()`. */
  function AfterToggleSign(s: CalculatorState): CalculatorState {
    if s.hasError || s.currentInput == "0" || s.currentInput == "0." then s
    else
      var c := if StartsWith(s.currentInput, "-") then s.currentInput[1..] else "-" + s.currentInput;
      s.(currentInput := c, expression := RewrittenExpression(s, c))
  }

  /** How `toggleSign` and `percentage` redraw the expression around a new operand `c`. */
  function RewrittenExpression(s: CalculatorState, c: string): string {
    if |s.fullExpression| > 0 && !s.waitingForNewInput then Join(s.fullExpression + [c], " ")
    else if |s.fullExpression| == 0 then c
    else s.expression
  }

  /** The state after `percentage()`. */
  function AfterPercentage(s: CalculatorState): CalculatorState {
    if s.hasError then s
    else
      var d := ParseFloat(s.currentInput);
      if d.DecNaN? then s
      else
        var c := PercentText(d);
        s.(currentInput := c, expression := RewrittenExpression(s, c))
  }

  /** `getDisplayExpression()`. */
  function DisplayExpression(s: CalculatorState): string {
    if s.hasError then "Error" else s.expression
  }

  /** `getDisplayResult()`. */
  function DisplayResult(s: CalculatorState): string {
    s.currentInput
  }

  /** One input of `testCalculation`'s sequence, dispatched as that method does. */
  function Press(s: CalculatorState, input: string): CalculatorState {
    if IsOperatorText(input) then AfterInputOperator(s, input)
    else if input == "=" then AfterCalculate(s).0
    else if input == "+/-" then AfterToggleSign(s)
    else if input == "%" then AfterPercentage(s)
    else AfterInputNumber(s, input)
  }

  /** The state after pressing `inputs` in order, starting from `s`. */
  function Run(s: CalculatorState, inputs: seq<string>): CalculatorState {
    if |inputs| == 0 then s else Press(Run(s, inputs[..|inputs| - 1]), inputs[|inputs| - 1])
  }

  /** What `testCalculation` returns. */
  datatype TestReport = TestReport(
    sequence: seq<string>, expectedExpression: string, expectedResult: string,
    actualExpression: string, actualResult: string,
    expressionMatch: bool, resultMatch: bool, success: bool)

  /** The engine object: the fields of `CalculatorState`, updated in place. */
  class Calculator {
    var currentInput: string
    var expression: string
    var fullExpression: seq<string>
    var operator: Option<string>
    var waitingForNewInput: bool
    var hasError: bool

    /** `getState()`: a copy of every field. */
    function GetState(): CalculatorState
      reads this
    {
      CalculatorState(currentInput, expression, fullExpression, operator, waitingForNewInput, hasError)
    }

    constructor ()
      ensures GetState() == AfterClear()
    {
      currentInput, expression, fullExpression := "0", "", [];
      operator, waitingForNewInput, hasError := None, false, false;
    }

    method Clear()
      modifies this
      ensures GetState() == AfterClear()
    {
      currentInput := "0";
      expression := "";
      fullExpression := [];
      operator := None;
      waitingForNewInput := false;
      hasError := false;
    }

    method ClearEntry()
      modifies this
      ensures GetState() == AfterClearEntry(old(GetState()))
    {
      if waitingForNewInput {
        if |fullExpression| > 0 {
          fullExpression := fullExpression[..|fullExpression| - 1];
        }
      }
      currentInput := "0";
      waitingForNewInput := false;
      hasError := false;
      expression := Join(fullExpression, " ");
    }

    method InputNumber(number: string)
      modifies this
      ensures GetState() == AfterInputNumber(old(GetState()), number)
    {
      if hasError {
        Clear();
      }
      if EndsWith(expression, ResultMarker) {
        Clear();
      }
      if number == "." {
        if '.' in currentInput {
          return;
        }
        if waitingForNewInput {
          currentInput := "0.";
          waitingForNewInput := false;
          return;
        }
      }
      if waitingForNewInput || currentInput == "0" {
        currentInput := if number == "." then "0." else number;
        waitingForNewInput := false;
      } else {
        currentInput := currentInput + number;
      }
      if |fullExpression| == 0 {
        expression := currentInput;
      } else {
        expression := Join(fullExpression + [currentInput], " ");
      }
    }

    method InputOperator(op: string)
      modifies this
      ensures GetState() == AfterInputOperator(old(GetState()), op)
    {
      if hasError {
        return;
      }
      if EndsWith(expression, ResultMarker) {
        fullExpression := [currentInput];
        expression := currentInput;
      } else if !waitingForNewInput {
        fullExpression := fullExpression + [currentInput];
      }
      if waitingForNewInput && |fullExpression| > 0 && IsOperatorText(fullExpression[|fullExpression| - 1]) {
        fullExpression := fullExpression[|fullExpression| - 1 := op];
      } else {
        fullExpression := fullExpression + [op];
      }
      expression := Join(fullExpression, " ");
      waitingForNewInput := true;
      operator := Some(op);
    }

    method Calculate() returns (result: Option<Decimal>)
      modifies this
      ensures (GetState(), result) == AfterCalculate(old(GetState()))
    {
      if |fullExpression| == 0 {
        return Some(ParseFloat(currentInput));
      }
      ghost var s := GetState();
      var finalExpression := fullExpression;
      if !waitingForNewInput {
        finalExpression := finalExpression + [currentInput];
      }
      assert finalExpression == FinalExpression(s);
      var value := EvaluateInPlace(ReadFloat, Cells(finalExpression));
      if value.Err? {
        SetError(Message(value.error));
        return None;
      }
      var rounded := Round8(value.value);
      var displayExpression := fullExpression;
      if !waitingForNewInput {
        displayExpression := displayExpression + [currentInput];
      }
      var shown := Show(rounded);
      currentInput := shown;
      expression := Join(displayExpression, " ") + ResultMarker;
      fullExpression := [];
      operator := None;
      waitingForNewInput := true;
      return Some(rounded);
    }

    method SetError(message: string)
      modifies this
      ensures GetState() == AfterSetError(old(GetState()), message)
    {
      hasError := true;
      currentInput := message;
      expression := "Error";
    }

    function GetDisplayExpression(): (e: string)
      reads this
      ensures e == DisplayExpression(GetState())
    {
      if hasError then "Error" else if expression == "" then "" else expression
    }

    function GetDisplayResult(): (r: string)
      reads this
      ensures r == DisplayResult(GetState())
    {
      currentInput
    }

    method ToggleSign()
      modifies this
      ensures GetState() == AfterToggleSign(old(GetState()))
    {
      if hasError {
        return;
      }
      if currentInput == "0" || currentInput == "0." {
        return;
      }
      if StartsWith(currentInput, "-") {
        currentInput := currentInput[1..];
      } else {
        currentInput := "-" + currentInput;
      }
      if |fullExpression| > 0 && !waitingForNewInput {
        expression := Join(fullExpression + [currentInput], " ");
      } else if |fullExpression| == 0 {
        expression := currentInput;
      }
    }

    method Percentage()
      modifies this
      ensures GetState() == AfterPercentage(old(GetState()))
    {
      if hasError {
        return;
      }
      var currentNumber := ParseFloat(currentInput);
      if currentNumber.DecNaN? {
        return;
      }
      currentInput := PercentText(currentNumber);
      if |fullExpression| > 0 && !waitingForNewInput {
        expression := Join(fullExpression + [currentInput], " ");
      } else if |fullExpression| == 0 {
        expression := currentInput;
      }
    }

    /**
     * `testCalculation`: clear, press every input of `sequence` in turn, and
     * compare the two display lines with the expected texts.
     */
    method TestCalculation(sequence: seq<string>, expectedExpression: string, expectedResult: string)
      returns (report: TestReport)
      modifies this
      ensures GetState() == Run(AfterClear(), sequence)
      ensures report.actualExpression == DisplayExpression(GetState())
      ensures report.actualResult == DisplayResult(GetState())
      ensures report.success <==>
        DisplayExpression(GetState()) == expectedExpression && DisplayResult(GetState()) == expectedResult
    {
      Clear();
      for i := 0 to |sequence|
        invariant GetState() == Run(AfterClear(), sequence[..i])
      {
        var input := sequence[i];
        assert sequence[..i + 1][..i] == sequence[..i];
        if IsOperatorText(input) {
          InputOperator(input);
        } else if input == "=" {
          var _ := Calculate();
        } else if input == "+/-" {
          ToggleSign();
        } else if input == "%" {
          Percentage();
        } else {
          InputNumber(input);
        }
      }
      assert sequence[..|sequence|] == sequence;
      var actualExpression := GetDisplayExpression();
      var actualResult := GetDisplayResult();
      report := TestReport(sequence, expectedExpression, expectedResult, actualExpression, actualResult,
        actualExpression == expectedExpression, actualResult == expectedResult,
        actualExpression == expectedExpression && actualResult == expectedResult);
    }
  }
}
