/**
 * The controller of calculator/js/app.js: the keyboard mapping, the routing
 * of button clicks, and the action dispatch that ties the engine to the
 * history (a calculation goes into the history only when it produced a
 * result, the expression line was not empty and no error is showing).
 *
 * `AppState` is what the app's `getState()` gathers: the engine state, the
 * history and the panel flag.  `AfterCommand` says what one routed input
 * does to it; the methods of `CalculatorApp` are proved to follow it.
 */
module App {
  import opened Wrappers
  import opened Numbers
  import opened Engine
  import opened Memory
  import opened Evaluator
  import NumberFacts

  /** What a key press or a button click is routed to. */
  datatype Command =
    | NumberInput(number: string)
    | OperatorInput(op: string)
    | ActionInput(action: string)
    | Ignored

  /** The keys whose browser default `handleKeyboardInput` suppresses. */
  const CalculatorKeys: seq<string> :=
    ["0", "1", "2", "3", "4", "5", "6", "7", "8", "9",
     ".", "+", "-", "*", "/", "=", "Enter", "Escape", "Backspace", "F9", "%"]

  /** The action names `handleActionInput` knows. */
  const KnownActions: set<string> :=
    {"clear-all", "clear-entry", "calculate", "toggle-memory", "clear-memory", "toggle-sign", "percentage"}

  /** The `switch (key)` of `handleKeyboardInput`. */
  function KeyCommand(key: string): Command {
    if key in {"0", "1", "2", "3", "4", "5", "6", "7", "8", "9", "."} then NumberInput(key)
    else if key == "+" then OperatorInput("+")
    else if key == "-" then OperatorInput("-")
    else if key == "*" then OperatorInput("×")
    else if key == "/" then OperatorInput("÷")
    else if key == "=" || key == "Enter" then ActionInput("calculate")
    else if key == "Escape" then ActionInput("clear-all")
    else if key == "Backspace" then ActionInput("clear-entry")
    else if key == "m" || key == "M" then ActionInput("toggle-memory")
    else if key == "F9" then ActionInput("toggle-sign")
    else if key == "%" then ActionInput("percentage")
    else Ignored
  }

  /**
   * The routing of `handleButtonClick` on the button's `data-number`,
   * `data-operator` and `data-action` attributes (`None` for a missing one):
   * a number attribute wins even when empty, the other two only when non-empty.
   */
  function ButtonCommand(number: Option<string>, operator: Option<string>, action: Option<string>): Command {
    if number.Some? then NumberInput(number.value)
    else if operator.Some? && operator.value != "" then OperatorInput(operator.value)
    else if action.Some? && action.value != "" then ActionInput(action.value)
    else Ignored
  }

  /** The app's `getState()`: engine state, history, cap and panel flag. */
  datatype AppState = AppState(engine: CalculatorState, history: seq<HistoryItem>, maxHistoryItems: nat, memoryVisible: bool)

  /**
   * The entry `calculate` hands to the history, if any: the expression line
   * read before evaluating and the returned number, kept only when the
   * number is not `null`, the line is not empty and no error is set afterwards.
   */
  function Recorded(s: CalculatorState): Option<(string, Decimal)> {
    var expression := DisplayExpression(s);
    var (s', result) := AfterCalculate(s);
    if result.Some? && expression != "" && !s'.hasError then Some((expression, result.value)) else None
  }

  /**
   * The state after `handleActionInput(action)`.  `panelFound` is whether the
   * page has the history panel; `id` and `timestamp` are the clock readings a
   * new history entry takes.
   */
  function AfterAction(st: AppState, action: string, panelFound: bool, id: int, timestamp: string): AppState {
    if action == "clear-all" then st.(engine := AfterClear())
    else if action == "clear-entry" then st.(engine := AfterClearEntry(st.engine))
    else if action == "calculate" then
      var history :=
        match Recorded(st.engine)
        case Some((expression, result)) =>
          Added(st.history, HistoryItem(id, expression, result, timestamp), st.maxHistoryItems)
        case None => st.history;
      st.(engine := AfterCalculate(st.engine).0, history := history)
    else if action == "toggle-memory" then st.(memoryVisible := if panelFound then !st.memoryVisible else st.memoryVisible)
    else if action == "clear-memory" then st.(history := [])
    else if action == "toggle-sign" then st.(engine := AfterToggleSign(st.engine))
    else if action == "percentage" then st.(engine := AfterPercentage(st.engine))
    else st
  }

  /** The state after a routed command. */
  function AfterCommand(st: AppState, c: Command, panelFound: bool, id: int, timestamp: string): AppState {
    match c
    case NumberInput(number) => st.(engine := AfterInputNumber(st.engine, number))
    case OperatorInput(op) => st.(engine := AfterInputOperator(st.engine, op))
    case ActionInput(action) => AfterAction(st, action, panelFound, id, timestamp)
    case Ignored => st
  }

  // --- the keyboard mapping ---

  /**
   * A key does something exactly when it is one of the calculator keys or
   * the history key `m`/`M`; the history key is the only handled key whose
   * browser default is left alone.
   */
  lemma HandledKeys(key: string)
    ensures KeyCommand(key) != Ignored <==> key in CalculatorKeys || key == "m" || key == "M"
  {
  }

  /**
   * Every key is routed to something the engine takes: a digit or the point
   * as itself, an operator key to one of the four operator symbols, an
   * action key to an action `handleActionInput` knows.
   */
  lemma KeyCommandTargets(key: string)
    ensures KeyCommand(key).NumberInput? ==>
      |key| == 1 && (IsDigit(key[0]) || key == ".") && KeyCommand(key).number == key
    ensures KeyCommand(key).OperatorInput? ==> IsOperatorText(KeyCommand(key).op)
    ensures KeyCommand(key).ActionInput? ==> KeyCommand(key).action in KnownActions
  {
  }

  // --- when `calculate` records a history entry ---

  /**
   * The history guard: an entry is recorded exactly when no error was showing
   * before, the expression line was not empty and `calculate` returned a
   * number; the entry is that line and that number.
   */
  lemma RecordedIff(s: CalculatorState)
    ensures Recorded(s).Some? <==> !s.hasError && s.expression != "" && AfterCalculate(s).1.Some?
    ensures Recorded(s).Some? ==> Recorded(s).value == (s.expression, AfterCalculate(s).1.value)
  {
    if |s.fullExpression| > 0 {
      var final := FinalExpression(s);
      match Evaluate(ReadFloat, Cells(final))
      case Err(e) =>
      case Ok(x) =>
    }
  }

  /**
   * `=` on a lone number (no tokens, expression line not empty) records the
   * line and the number `parseFloat` reads from the operand.
   */
  lemma LoneNumberRecorded(s: CalculatorState)
    requires !s.hasError && |s.fullExpression| == 0 && s.expression != ""
    ensures Recorded(s) == Some((s.expression, ParseFloat(s.currentInput)))
  {
  }

  /**
   * A repeated `=`: after a calculation that succeeded, pressing `=` again
   * records a second entry, the finished expression line with the same
   * value as the first.
   */
  lemma RepeatedEqualsRecorded(s: CalculatorState)
    requires !s.hasError && |s.fullExpression| > 0 && AfterCalculate(s).1.Some?
    ensures var (s', r) := AfterCalculate(s);
      Recorded(s').Some? && Recorded(s').value.0 == s'.expression &&
      Val(Recorded(s').value.1) == Val(r.value)
  {
    var (s', r) := AfterCalculate(s);
    assert EndsWith(s'.expression, ResultMarker);
    NumberFacts.ShowRoundTrip(r.value);
  }

  /** An unknown action changes nothing. */
  lemma UnknownActionIgnored(st: AppState, action: string, panelFound: bool, id: int, timestamp: string)
    requires action !in KnownActions
    ensures AfterAction(st, action, panelFound, id, timestamp) == st
  {
  }

  /** The controller object: its init flag, and the engine and history it drives. */
  class CalculatorApp {
    var isInitialized: bool
    const calculator: Calculator
    const memory: MemoryManager

    constructor (calculator: Calculator, memory: MemoryManager)
      ensures !isInitialized && this.calculator == calculator && this.memory == memory
    {
      isInitialized := false;
      this.calculator := calculator;
      this.memory := memory;
    }

    /** The engine state and the history state together. */
    function GetState(): AppState
      reads this, calculator, memory
    {
      AppState(calculator.GetState(), memory.history, memory.maxHistoryItems, memory.isVisible)
    }

    /** `init()`; `modulesReady` is whether the display and history modules found their page elements. */
    method Init(modulesReady: bool) returns (ok: bool)
      modifies this
      ensures ok == modulesReady
      ensures isInitialized == (modulesReady || old(isInitialized))
    {
      if !modulesReady {
        return false;
      }
      isInitialized := true;
      return true;
    }

    method HandleNumberInput(number: string)
      modifies calculator
      ensures GetState() == old(GetState()).(engine := AfterInputNumber(old(calculator.GetState()), number))
    {
      calculator.InputNumber(number);
    }

    method HandleOperatorInput(op: string)
      modifies calculator
      ensures GetState() == old(GetState()).(engine := AfterInputOperator(old(calculator.GetState()), op))
    {
      calculator.InputOperator(op);
    }

    /** `handleActionInput(action)`. */
    method HandleActionInput(action: string, panelFound: bool, id: int, timestamp: string)
      modifies calculator, memory
      ensures GetState() == AfterAction(old(GetState()), action, panelFound, id, timestamp)
    {
      if action == "clear-all" {
        calculator.Clear();
      } else if action == "clear-entry" {
        calculator.ClearEntry();
      } else if action == "calculate" {
        var expression := calculator.GetDisplayExpression();
        var result := calculator.Calculate();
        if result.Some? && expression != "" && !calculator.hasError {
          memory.AddCalculation(expression, result.value, id, timestamp);
        }
      } else if action == "toggle-memory" {
        memory.TogglePanel(panelFound);
      } else if action == "clear-memory" {
        memory.ClearHistory();
      } else if action == "toggle-sign" {
        calculator.ToggleSign();
      } else if action == "percentage" {
        calculator.Percentage();
      }
    }

    /**
     * `handleKeyboardInput(event)`: returns whether the browser default was
     * suppressed and whether the display was refreshed.
     */
    method HandleKeyboardInput(key: string, panelFound: bool, id: int, timestamp: string)
      returns (preventDefault: bool, refreshed: bool)
      modifies calculator, memory
      ensures preventDefault <==> key in CalculatorKeys
      ensures refreshed <==> KeyCommand(key) != Ignored
      ensures GetState() == AfterCommand(old(GetState()), KeyCommand(key), panelFound, id, timestamp)
    {
      var command := KeyCommand(key);
      preventDefault := key in CalculatorKeys;
      refreshed := command != Ignored;
      match command
      case NumberInput(number) =>
        HandleNumberInput(number);
      case OperatorInput(op) =>
        HandleOperatorInput(op);
      case ActionInput(action) =>
        HandleActionInput(action, panelFound, id, timestamp);
      case Ignored =>
    }

    /**
     * `handleButtonClick(button)`: nothing happens before `init` has
     * succeeded; afterwards the click is routed by `ButtonCommand` and the
     * display is refreshed.
     */
    method HandleButtonClick(number: Option<string>, operator: Option<string>, action: Option<string>,
                             panelFound: bool, id: int, timestamp: string)
      returns (refreshed: bool)
      modifies calculator, memory
      ensures !isInitialized ==> GetState() == old(GetState()) && !refreshed
      ensures isInitialized ==> refreshed
      ensures isInitialized ==>
        GetState() == AfterCommand(old(GetState()), ButtonCommand(number, operator, action), panelFound, id, timestamp)
    {
      if !isInitialized {
        return false;
      }
      if number.Some? {
        HandleNumberInput(number.value);
      } else if operator.Some? && operator.value != "" {
        HandleOperatorInput(operator.value);
      } else if action.Some? && action.value != "" {
        HandleActionInput(action.value, panelFound, id, timestamp);
      }
      refreshed := true;
    }
  }
}
