# Calculator engine, history and key dispatch — a Dafny model

This project models the logic of a browser calculator:

- **The expression engine** (`calculator/js/calculator.js`). It is one mutable state record: the operand being typed, the expression line, the committed token list, the last operator, a "waiting for a new operand" flag and an error flag. The `Calculator` methods update that record in place: `clear`, `clearEntry`, `inputNumber`, `inputOperator`, `calculate`, `setError`, `toggleSign` and `percentage`, plus the display getters. `calculate` copies the token list and reduces it with two `while` loops that splice the array in place: first every `×`/`÷` triple, then every `+`/`-` triple. Each loop restarts its index at 1 after every reduction. A division by zero throws, and the error is shown instead of a result.
- **The calculation history** (`calculator/js/memory.js`). New entries go to the front, the list is capped at 10, and there are clear, panel toggle, recall and read-out operations. A recall re-enters the engine through `clear` and `inputNumber`.
- **The controller** (`calculator/js/app.js`). It maps keyboard keys to engine inputs, routes button clicks (ignored before `init` succeeds) and dispatches actions. It applies the rule for when a finished calculation is handed to the history.

## Modules

| file | module | what it holds |
|---|---|---|
| `wrappers.dfy` | `Wrappers` | `Option`, `Result` |
| `numbers.dfy` | `Numbers` | JavaScript numbers: `parseFloat`, `toString`, the 8-place rounding, `toFixed(10)` with the trailing-zero trim |
| `number_facts.dfy` | `NumberFacts` | reading back what `toString` writes; the lemmas about parsing |
| `percent_facts.dfy` | `PercentFacts` | the value `percentage` stores: the input divided by 100, through `toFixed(10)` and the trim |
| `evaluator.dfy` | `Evaluator` | the two splice loops, as functions and as an imperative method, and a one-pass reference evaluator proved equal to them |
| `engine.dfy` | `Engine` | `CalculatorState`, one transition function per method, and the class `Calculator` whose methods are proved to follow those functions |
| `engine_properties.dfy` | `EngineProperties` | what the transitions promise, and where the code breaks its own invariant |
| `memory.dfy` | `Memory` | `MemoryState` as the class `MemoryManager`, and the history lemmas |
| `app.dfy` | `App` | key mapping, button routing, action dispatch and the history guard, with the class `CalculatorApp` |
| `scenarios.dfy` | `Scenarios` | the scenario table of `runCalculatorTests`, each row proved key by key |

Numbers are exact. A parsed or printed number is a `Decimal`, `k / 10^m` or NaN. Arithmetic during evaluation is on `real`. `Round8`, `Show`, `ParseFloat` and `PercentText` are defined functions, not assumptions. For every decimal the engine stores as text, the round trip `parseFloat(x.toString()) == x` is proved (`NumberFacts.ShowRoundTrip`). An intermediate result of `calculate` is any real, such as 1 ÷ 3, and it goes back into the working array through `toString`. The model keeps it as a number cell, which relies on JavaScript's own round trip for doubles (see "## Left out").

### Behaviour worth knowing

The model follows the code in each case below.

- **The token list does not always alternate operand and operator.**
  - `5 + CE 3 +` leaves the tokens `5 3 +`. `clearEntry` pops the pending `+` (calculator.js:87-94), and `inputOperator` then pushes the typed `3` after the `5` (calculator.js:189-191). `=` then calls the `undefined` operation that the token `3` looks up (calculator.js:278-279), which throws "operation is not a function" (`EngineProperties.ClearEntryThenOperator`).
  - `+/-` right after a result rewrites the expression line without the `" = "` marker (calculator.js:409-411). The next operator then does not seed the tokens with the result (calculator.js:184-188), so the tokens are `[op]`, and `=` gives NaN (`EngineProperties.ToggleAfterResultDropsResult`).
- **`calculate` can fail in two ways:** division by zero (calculator.js:43-46), and the not-a-function call above. The model names the second error `NotAFunction`.
- **The error path keeps the tokens.** `setError` sets only the flag, the operand and the expression line (calculator.js:329-334).
- **The error flag is cleared by `clearEntry` (calculator.js:95), and `=` is not blocked while it is set.** `calculate` has no error guard (calculator.js:231-251), so `=` reads the error message as an operand. The result is NaN with the error flag still set (`EngineProperties.EqualsAfterDivisionError`).
- **The history records `=` on a lone number and a repeated `=`.** The guard at app.js:185-192 checks only the error flag, the expression line and the return value (`App.LoneNumberRecorded`, `App.RepeatedEqualsRecorded`).
- **The chain-addition row of the test table expects `5 + 4 = `** (calculator.js:613-618). The code shows `2 + 3 + 4 = ` over `9`, because it evaluates only on `=`. `Scenarios.ChainAddition` proves what the code shows.

## Model

| member | source | states |
|---|---|---|
| Engine.Calculator.constructor | calculator/js/calculator.js:20-28 | the initial `CalculatorState` is the cleared state |
| Engine.Calculator.Clear | calculator/js/calculator.js:68-78 | operand "0", empty expression and tokens, no operator, both flags false |
| Engine.Calculator.ClearEntry | calculator/js/calculator.js:85-101 | with an operator pending, the last token is popped; the operand becomes "0", both flags are cleared and the expression is redrawn from the tokens |
| Engine.Calculator.InputNumber | calculator/js/calculator.js:109-158 | the new state is `AfterInputNumber` of the old one: clear on error or after a result, a second point ignored, a point after an operator starts "0.", otherwise replace or append, then redraw the expression |
| Engine.Calculator.InputOperator | calculator/js/calculator.js:166-223 | the new state is `AfterInputOperator` of the old one: ignored on error, a result seeds the tokens, a typed operand is pushed, a pending operator is replaced |
| Engine.Calculator.Calculate | calculator/js/calculator.js:231-322 | state and return value are `AfterCalculate` of the old state; the two loops run through `Evaluator.EvaluateInPlace` |
| Engine.Calculator.SetError | calculator/js/calculator.js:329-334 | error flag set, operand is the message, expression "Error", tokens untouched |
| Engine.Calculator.GetDisplayExpression | calculator/js/calculator.js:350-360 | "Error" while an error is set, the expression line otherwise |
| Engine.Calculator.GetDisplayResult | calculator/js/calculator.js:367-369 | the operand text |
| Engine.Calculator.ToggleSign | calculator/js/calculator.js:381-418 | the new state is `AfterToggleSign` of the old one |
| Engine.Calculator.Percentage | calculator/js/calculator.js:432-480 | the new state is `AfterPercentage` of the old one; its value is stated by `EngineProperties.PercentageValue` |
| Engine.Calculator.TestCalculation | calculator/js/calculator.js:488-545 | the final state is `Run` of the inputs from a cleared engine; `success` holds exactly when both display lines match the expected texts |
| Engine.Cells | calculator/js/calculator.js:245-249 | the working array holds the tokens in order |
| EngineProperties.ClearIsConsistent | calculator/js/calculator.js:68-78 | the cleared state is consistent: tokens alternate, the operand is a numeral, nothing pending |
| EngineProperties.InputNumberKeepsConsistent | calculator/js/calculator.js:109-158 | a digit or point key keeps the engine consistent, and leads out of the error state |
| EngineProperties.InputNumberKeepsOnePoint | calculator/js/calculator.js:123-128 | the operand never gets a second point; a point on an operand that has one changes nothing |
| EngineProperties.DigitShowsEntry | calculator/js/calculator.js:139-155 | after a digit the expression shows the tokens and the operand, which ends with that digit; nothing is pending |
| EngineProperties.PointAfterOperatorKeepsExpression | calculator/js/calculator.js:130-135 | a point after an operator sets "0." and leaves the expression line as it was |
| EngineProperties.OperatorAfterResult | calculator/js/calculator.js:184-212 | after a result the tokens become the result and the operator |
| EngineProperties.OperatorAfterOperand | calculator/js/calculator.js:189-212 | while typing, the operand and the operator are appended |
| EngineProperties.OperatorReplacesOperator | calculator/js/calculator.js:195-212 | with an operator pending, that operator is replaced |
| EngineProperties.InputOperatorEffect | calculator/js/calculator.js:178-211 | all three operator cases together; the result is consistent, waiting, with expression = join(tokens) |
| EngineProperties.FinalExpressionEvaluates | calculator/js/calculator.js:246-249 | the working list is well formed, and a pending operator at its end does not change the value |
| EngineProperties.CalculateWithoutTokens | calculator/js/calculator.js:242-244 | with no tokens, `=` changes nothing and returns the parsed operand |
| EngineProperties.CalculateFailsIff | calculator/js/calculator.js:43-46 | `=` fails exactly when some `÷` has a right operand that reads as zero; then only the error fields change |
| EngineProperties.CalculateSucceeds | calculator/js/calculator.js:286-306 | otherwise the result is the two-tier, left-associative value rounded to 8 places; tokens empty, no operator, waiting for a new operand, error flag unchanged, result shown, expression = join + " = " |
| EngineProperties.ClearEntryDropsPendingOperator | calculator/js/calculator.js:87-101 | CE with an operator pending pops it; the list then ends with an operand and the engine is no longer consistent |
| EngineProperties.ClearEntryWhileTyping | calculator/js/calculator.js:85-101 | CE while typing resets only the operand and keeps the engine consistent |
| EngineProperties.ClearEntryThenOperator | calculator/js/calculator.js:87-94 | CE after an operator, a digit and an operator leave two adjacent operands; with one operand before, `=` throws "operation is not a function" |
| EngineProperties.AdjacentOperandsThrow | calculator/js/calculator.js:274-280 | a three-token list whose middle token is a numeral throws the not-a-function error |
| EngineProperties.ToggleSignNegates | calculator/js/calculator.js:396-403 | `+/-` negates the number the operand reads as |
| EngineProperties.ToggleSignTwice | calculator/js/calculator.js:381-418 | `+/-` twice restores the operand and every field but the expression line (except on "-0", "-0." and "--") |
| EngineProperties.ToggleSignNegativeZero | calculator/js/calculator.js:390-403 | `+/-` on "-0" gives "0", and a second press on "0" is refused, so two presses do not restore "-0" |
| EngineProperties.PercentageValue | calculator/js/calculator.js:441-462 | `%` on an operand that reads as NaN changes nothing; otherwise the stored text reads within 5e-11 of the operand divided by 100, and exactly as it when the operand has at most 8 decimal places |
| EngineProperties.UnaryKeepsConsistent | calculator/js/calculator.js:381-480 | `+/-` and `%` touch neither tokens nor the pending flag, and keep the engine consistent |
| EngineProperties.ToggleAfterResultDropsResult | calculator/js/calculator.js:405-411 | `+/-` right after a result, then an operator, gives the tokens `[op]`, and `=` then yields NaN |
| EngineProperties.ErrorStateKeys | calculator/js/calculator.js:85-480 | in error, operators, `+/-` and `%` do nothing; a digit starts afresh; CE clears the error |
| EngineProperties.MessageReadsNaN | calculator/js/calculator.js:329-334 | the error messages never read as a number |
| EngineProperties.EqualsOnNaNOperand | calculator/js/calculator.js:231-322 | `=` on an operand that reads as NaN gives NaN, unless a zero divisor raises the error |
| EngineProperties.AlternatingWellFormed | calculator/js/calculator.js:246-249 | a list of alternating tokens plus the operand is a well-formed working array of odd length |
| EngineProperties.NaNOperandEvaluates | calculator/js/calculator.js:246-289 | with a typed operand that reads as NaN, `=` fails exactly on a zero divisor and otherwise yields NaN |
| EngineProperties.EqualsAfterDivisionError | calculator/js/calculator.js:231-334 | `=` while the error shows gives NaN and keeps the error flag, or raises the error again |
| Evaluator.Apply | calculator/js/calculator.js:39-48 | an operation fails exactly on `÷` with a zero divisor, and then with the division error |
| Evaluator.FirstMulDiv | calculator/js/calculator.js:256-270 | the first `×`/`÷` the scan from index 1 finds, and none before it |
| Evaluator.MulPass | calculator/js/calculator.js:255-270 | the first loop leaves no `×`/`÷`; every reduction shortens the list by 2 |
| Evaluator.AddPass | calculator/js/calculator.js:273-286 | the second loop leaves at most two cells; every reduction shortens the list by 2 |
| Evaluator.EvaluateInPlace | calculator/js/calculator.js:246-289 | the two in-place loops compute `Evaluate` |
| Evaluator.MulPassKeepsReference | calculator/js/calculator.js:255-270 | the first loop keeps the reference value, or throws what the reference throws |
| Evaluator.AddPassKeepsReference | calculator/js/calculator.js:273-286 | the second loop succeeds and keeps the reference value |
| Evaluator.EvaluateMatchesReference | calculator/js/calculator.js:246-289 | on a well-formed list, the loops agree with the reference evaluator |
| Evaluator.MulPassThrowsIff | calculator/js/calculator.js:255-270 | the first loop throws exactly when some `÷` has a zero right operand |
| Evaluator.EvaluateThrowsIff | calculator/js/calculator.js:43-46 | on a well-formed list, evaluation fails exactly on a zero divisor, with the division error |
| Evaluator.SpliceZeroDivisor | calculator/js/calculator.js:258-265 | reducing the first `×`/`÷` keeps the set of zero divisors that remain |
| Evaluator.SpliceWellFormed | calculator/js/calculator.js:265 | splicing a triple keeps the list well formed |
| Evaluator.TrailingOperatorIgnored | calculator/js/calculator.js:273-286 | an operator after the last operand does not change the value |
| Evaluator.NaNLastOperand | calculator/js/calculator.js:276-281 | a last operand that reads as NaN makes the value NaN |
| Numbers.Round8 | calculator/js/calculator.js:292 | NaN stays NaN; otherwise an 8-place decimal within half a unit of the value |
| Numbers.TrailingZerosRun | calculator/js/calculator.js:455 | the counted characters at the end of the text are all '0', and the character before them is not: the run of zeros is the longest one |
| Numbers.TrimmedLengthIsLeftmostMatch | calculator/js/calculator.js:455 | the cut point is where the leftmost match of `/\.?0+$/` starts (a suffix that is an optional point and then one or more zeros), and no earlier suffix matches; with no match the text is kept whole |
| Numbers.ShowPositiveShape | calculator/js/calculator.js:301 | `toString` of a positive number starts with a digit and uses only numeral characters |
| Numbers.ShowIsNumeral | calculator/js/calculator.js:301 | every text `toString` writes is a numeral |
| Numbers.ToFixed10Shape | calculator/js/calculator.js:455 | `toFixed(10)` writes an optional sign, digits, a point and ten digits |
| Numbers.TrimmedFixedIsNumeral | calculator/js/calculator.js:455 | the trimmed `toFixed(10)` text is a numeral |
| Numbers.PercentTextIsNumeral | calculator/js/calculator.js:451-460 | `percentage` always stores a numeral |
| Numbers.ParseNegated | calculator/js/calculator.js:397-403 | a leading '-' negates what `parseFloat` reads |
| Numbers.NegatedTwice | calculator/js/calculator.js:397-403 | negating twice gives the same number |
| Numbers.OperatorReadsNaN | calculator/js/calculator.js:276-277 | an operator symbol never reads as a number |
| NumberFacts.ParseInteger | calculator/js/calculator.js:258-259 | `parseFloat` of a digit string is its value |
| NumberFacts.ParsePointed | calculator/js/calculator.js:258-259 | `parseFloat` of `i.f` is `if / 10^|f|` |
| NumberFacts.ReadShowPositive | calculator/js/calculator.js:265 | what `parseFloat` reads from `toString` of a positive number, in normal form |
| NumberFacts.ShowPositiveRoundTrip | calculator/js/calculator.js:265 | `parseFloat(toString(x)) == x` for positive `x` |
| NumberFacts.ShowNegativeRoundTrip | calculator/js/calculator.js:265 | the same for negative `x` |
| NumberFacts.ShowRoundTrip | calculator/js/calculator.js:265 | `parseFloat(x.toString())` gives back `x` for every decimal and for NaN |
| NumberFacts.NegatedReads | calculator/js/calculator.js:397-403 | negating a decimal negates its value |
| PercentFacts.ReadTrimmedFixed | calculator/js/calculator.js:455 | `parseFloat` of `toFixed(10)` with the trailing zeros trimmed reads as the `toFixed(10)` units over 10^10, with the sign of the input |
| PercentFacts.FixedUnitsExact | calculator/js/calculator.js:455 | up to ten places `toFixed(10)` keeps the value exactly |
| PercentFacts.FixedUnitsNear | calculator/js/calculator.js:455 | beyond ten places `toFixed(10)` is off by at most half a unit of the tenth place |
| PercentFacts.PercentReads | calculator/js/calculator.js:451-460 | the stored text reads as the `toFixed(10)` value, unless that text is "0" for a value that is not zero; then the `toString` fallback stores the exact quotient |
| PercentFacts.PercentExact | calculator/js/calculator.js:451-460 | with at most 8 places in the input, the stored text reads exactly as the input divided by 100 |
| PercentFacts.PercentNear | calculator/js/calculator.js:451-460 | the stored text reads as a number within 5e-11 of the input divided by 100 |
| PercentFacts.PercentValue | calculator/js/calculator.js:451-460 | both together, with the quotient written as the input's value divided by 100 |
| Memory.AddedHistory | calculator/js/memory.js:77-99 | the new entry is first, the length is `min(old + 1, cap)`, and the old entries follow in order, cut only at the old end |
| Memory.FindByIdFirst | calculator/js/memory.js:143-144 | `find` returns an entry with the id, and no earlier entry has it |
| Memory.FindByIdAbsent | calculator/js/memory.js:143-148 | `find` comes back empty exactly when no entry has the id |
| Memory.ShowIsNotPoint | calculator/js/memory.js:151-152 | the recalled text is never a lone point |
| Memory.RecalledState | calculator/js/memory.js:151-152 | after a recall the engine holds the result text as operand and expression, nothing else, and that text reads back as the result |
| Memory.MemoryManager.constructor | calculator/js/memory.js:20-24 | empty history, cap 10, panel hidden |
| Memory.MemoryManager.AddCalculation | calculator/js/memory.js:77-99 | history becomes `Added(old, item, cap)`; cap and panel flag untouched |
| Memory.MemoryManager.ClearHistory | calculator/js/memory.js:107-113 | history empty; cap and panel flag untouched |
| Memory.MemoryManager.TogglePanel | calculator/js/memory.js:121-135 | the panel flag flips when the panel exists; history and cap untouched |
| Memory.MemoryManager.RecallCalculation | calculator/js/memory.js:143-159 | an unknown id changes nothing; a known id leaves the engine in `Recalled(result)` |
| Memory.MemoryManager.GetHistory | calculator/js/memory.js:166-168 | a copy with the same entries in the same order |
| Memory.MemoryManager.IsVisible | calculator/js/memory.js:175-177 | the panel flag |
| App.HandledKeys | calculator/js/app.js:261-319 | a key does something exactly when it is a calculator key or `m`/`M` |
| App.KeyCommandTargets | calculator/js/app.js:269-315 | digits and '.' go to number input as themselves, operator keys to the four symbols, action keys to known actions |
| App.RecordedIff | calculator/js/app.js:185-192 | an entry is recorded exactly when there was no error, the line was not empty and `calculate` returned a number; the entry is that line and that number |
| App.LoneNumberRecorded | calculator/js/app.js:185-192 | `=` on a lone number records the line and the parsed operand |
| App.RepeatedEqualsRecorded | calculator/js/app.js:185-192 | a repeated `=` records a second entry, the finished line with the same value |
| App.UnknownActionIgnored | calculator/js/app.js:216-218 | an unknown action changes nothing |
| App.CalculatorApp.constructor | calculator/js/app.js:37-59 | not initialized yet |
| App.CalculatorApp.Init | calculator/js/app.js:37-59 | succeeds exactly when the modules are ready, and only then sets the init flag |
| App.CalculatorApp.HandleNumberInput | calculator/js/app.js:151-154 | only the engine changes, as `inputNumber` says |
| App.CalculatorApp.HandleOperatorInput | calculator/js/app.js:161-164 | only the engine changes, as `inputOperator` says |
| App.CalculatorApp.HandleActionInput | calculator/js/app.js:172-219 | engine and history change as `AfterAction` says, including the history guard |
| App.CalculatorApp.HandleKeyboardInput | calculator/js/app.js:257-326 | default suppressed exactly for calculator keys; display refreshed exactly for handled keys; state as `KeyCommand` routes |
| App.CalculatorApp.HandleButtonClick | calculator/js/app.js:122-144 | nothing happens before init; afterwards the click is routed by its attributes and the display refreshed |
| Scenarios.OriginalBugCase | calculator/js/calculator.js:583-588 | `2 + 1 =` shows `2 + 1 = ` over `3` |
| Scenarios.SimpleSubtraction | calculator/js/calculator.js:591-596 | `8 - 5 =` shows `8 - 5 = ` over `3` |
| Scenarios.SimpleMultiplication | calculator/js/calculator.js:598-603 | `6 × 2 =` shows `6 × 2 = ` over `12` |
| Scenarios.SimpleDivision | calculator/js/calculator.js:605-610 | `9 ÷ 3 =` shows `9 ÷ 3 = ` over `3` |
| Scenarios.ChainAddition | calculator/js/calculator.js:613-618 | `2 + 3 + 4 =` shows `2 + 3 + 4 = ` over `9` (not the `5 + 4 = ` the table expects) |
| Scenarios.MultiDigit | calculator/js/calculator.js:621-626 | `1 5 + 2 7 =` shows `15 + 27 = ` over `42` |
| Scenarios.DecimalCalculation | calculator/js/calculator.js:629-634 | `3 . 5 + 1 . 5 =` shows `3.5 + 1.5 = ` over `5` |
| Scenarios.TogglePositiveToNegative | calculator/js/calculator.js:637-642 | `2 5 +/-` shows `-25` over `-25` |
| Scenarios.DoubleToggle | calculator/js/calculator.js:644-649 | `1 0 +/- +/-` shows `10` over `10` |
| Scenarios.NegativeNumberInCalculation | calculator/js/calculator.js:651-656 | `3 +/- + 2 =` shows `-3 + 2 = ` over `-1` |
| Scenarios.ToggleSignDuringExpression | calculator/js/calculator.js:658-663 | `8 - 5 +/- =` shows `8 - -5 = ` over `13` |
| Scenarios.BasicPercentage | calculator/js/calculator.js:666-671 | `5 0 %` shows `0.5` over `0.5` |
| Scenarios.PercentageConversion | calculator/js/calculator.js:673-678 | `2 5 %` shows `0.25` over `0.25` |
| Scenarios.PercentageInCalculation | calculator/js/calculator.js:680-685 | `2 0 0 × 2 5 % =` shows `200 × 0.25 = ` over `50` |
| Scenarios.PercentageOver100 | calculator/js/calculator.js:687-692 | `1 5 0 %` shows `1.5` over `1.5` |
| Scenarios.PercentageThenToggleSign | calculator/js/calculator.js:695-700 | `7 5 % +/-` shows `-0.75` over `-0.75` |

## Left out

- Floating point. Numbers are exact decimals and reals: no binary rounding, no `Infinity`, no `-0`, and no loss of digits beyond 17. `Infinity` from overflow is not modelled: a value above about 1.8e300 overflows in `Round8`'s ×1e8 (calculator.js:292), and so does a large product. For example, a 302-digit operand followed by `+ 0 =` stores "Infinity" in JavaScript, while the model keeps its digits. `calculate` writes each intermediate result back with `toString` and reads it with `parseFloat` (calculator.js:258-265). The model keeps that result as a number cell, which relies on JavaScript's round trip for doubles. `NumberFacts.ShowRoundTrip` proves the round trip only for the decimals the engine stores as text.
- Numbers.Round8: the `+ Number.EPSILON` inside `Math.round` is not modelled. With exact arithmetic it could only move a value lying within about 2.2e-16 below a rounding half.
- Numbers.ShowPositive: `toString` switches to exponent form from 1e21 upwards and rounds to 17 significant digits. The model writes such numbers in plain digits.
- Numbers.ToFixed10: from 1e21 upwards `toFixed` returns the `toString` text (calculator.js:455), so `1` followed by 23 zeros and then `%` stores "1e+21" in JavaScript. The model writes plain digits.
- Numbers.ParseFloat: leading white space, "Infinity" and hexadecimal-looking prefixes are not read. The engine only stores texts made of digits, '.', '-', 'e' and "NaN".
- The `previousValue` field: no code path sets it to anything but `null`.
- Console logging, `DisplayManager` updates, button animations, `alert`-based errors and injected CSS. These are output only.
- The page elements: whether the history panel and the modules' elements exist is a parameter (`panelFound`, `modulesReady`).
- `Date.now()` and `toLocaleTimeString()` for a history entry's id and timestamp. They are parameters of `AddCalculation` and `HandleActionInput`.
- `localStorage` saving and loading of the history (memory.js:290-326), and the history list rendering and its click delegation (memory.js:186-282). Loading does not enforce the cap, so the cap is stated only after `AddCalculation`.
- The service worker (`sw.js`) and `display.js`: caching and presentation.
- The check that ignores key presses in text inputs (app.js:241-243). It runs before `handleKeyboardInput` is called.
- `runCalculatorTests` and `testNewFeatures` themselves: they only loop over the table. Each row is a lemma in `Scenarios`, and the `testNewFeatures` rows repeat rows of that table.
