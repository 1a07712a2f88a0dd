/**
 * What the engine's transitions promise.  The central notion is
 * `Consistent`: the token list alternates operand and operator, the operand
 * being typed is a numeral, and an operator is only pending when there is a
 * token list to hold it.  Digit, point, operator and `=` keys keep it; `CE`
 * and the unary keys right after a result break it, and the lemmas at the
 * end show what then goes wrong.
 */
module EngineProperties {
  import opened Wrappers
  import opened Numbers
  import opened Evaluator
  import opened Engine
  import PercentFacts

  /** Operand, operator, operand, operator, ...: always ending with an operator. */
  predicate Alternating(ts: seq<string>) {
    |ts| % 2 == 0 &&
    forall i :: 0 <= i < |ts| ==> if i % 2 == 0 then Numeral(ts[i]) else IsOperatorText(ts[i])
  }

  /** The states the number, operator and `=` keys move between. */
  predicate Consistent(s: CalculatorState) {
    !s.hasError && Alternating(s.fullExpression) && Numeral(s.currentInput) &&
    (s.waitingForNewInput ==> |s.fullExpression| > 0 || EndsWith(s.expression, ResultMarker))
  }

  /** What a number button or key sends: one digit or the point. */
  predicate IsNumberKey(n: string) {
    n == "." || (|n| == 1 && IsDigit(n[0]))
  }

  /** The operand list `calculate` evaluates, without a pending operator. */
  function Operands(s: CalculatorState): seq<string>
    requires |s.fullExpression| > 0
  {
    if s.waitingForNewInput then s.fullExpression[..|s.fullExpression| - 1]
    else s.fullExpression + [s.currentInput]
  }

  lemma NumeralIsNotOperator(t: string)
    requires Numeral(t)
    ensures !IsOperatorText(t)
  {
  }

  /** The engine starts, and `C` puts it, in a consistent state. */
  lemma ClearIsConsistent()
    ensures Consistent(AfterClear())
  {
    assert IsDigit(AfterClear().currentInput[0]);
  }

  /** Appending a digit or point to a numeral gives a numeral. */
  lemma NumeralAppend(t: string, n: string)
    requires Numeral(t) && IsNumberKey(n)
    ensures Numeral(t + n)
  {
    assert forall i :: 0 <= i < |t + n| ==> (t + n)[i] == if i < |t| then t[i] else n[i - |t|];
  }

  /**
   * A number key keeps the engine consistent, and takes it out of an
   * error state.
   */
  lemma InputNumberKeepsConsistent(s: CalculatorState, n: string)
    requires Consistent(s) || s.hasError
    requires IsNumberKey(n)
    ensures Consistent(AfterInputNumber(s, n))
  {
    ClearIsConsistent();
    var s1 := if s.hasError then AfterClear() else s;
    var s2 := if EndsWith(s1.expression, ResultMarker) then AfterClear() else s1;
    assert Consistent(s2);
    if n == "." && '.' in s2.currentInput {
    } else if n == "." && s2.waitingForNewInput {
      assert IsDigit("0."[0]);
    } else if s2.waitingForNewInput || s2.currentInput == "0" {
      assert IsDigit("0."[0]);
    } else {
      NumeralAppend(s2.currentInput, n);
    }
  }

  /** An operator key right after a result starts a new list from the result. */
  lemma OperatorAfterResult(s: CalculatorState, op: string)
    requires Consistent(s) && IsOperatorText(op) && EndsWith(s.expression, ResultMarker)
    ensures AfterInputOperator(s, op).fullExpression == [s.currentInput, op]
  {
    NumeralIsNotOperator(s.currentInput);
  }

  /** An operator key while an operand is typed appends the operand and the operator. */
  lemma OperatorAfterOperand(s: CalculatorState, op: string)
    requires Consistent(s) && IsOperatorText(op)
    requires !EndsWith(s.expression, ResultMarker) && !s.waitingForNewInput
    ensures AfterInputOperator(s, op).fullExpression == s.fullExpression + [s.currentInput, op]
  {
    NumeralIsNotOperator(s.currentInput);
  }

  /** An operator key while an operator is pending replaces that operator. */
  lemma OperatorReplacesOperator(s: CalculatorState, op: string)
    requires Consistent(s) && IsOperatorText(op)
    requires !EndsWith(s.expression, ResultMarker) && s.waitingForNewInput
    ensures AfterInputOperator(s, op).fullExpression == s.fullExpression[..|s.fullExpression| - 1] + [op]
  {
    var ts := s.fullExpression;
    assert IsOperatorText(ts[|ts| - 1]);
  }

  /** Alternation survives appending an operand and an operator. */
  lemma AlternatingAppend(ts: seq<string>, x: string, op: string)
    requires Alternating(ts) && Numeral(x) && IsOperatorText(op)
    ensures Alternating(ts + [x, op])
  {
    var u := ts + [x, op];
    assert forall i :: 0 <= i < |u| ==> u[i] == if i < |ts| then ts[i] else if i == |ts| then x else op;
  }

  /** Alternation survives replacing the final operator. */
  lemma AlternatingReplace(ts: seq<string>, op: string)
    requires Alternating(ts) && |ts| > 0 && IsOperatorText(op)
    ensures Alternating(ts[..|ts| - 1] + [op])
  {
    var u := ts[..|ts| - 1] + [op];
    assert forall i :: 0 <= i < |u| ==> u[i] == if i < |ts| - 1 then ts[i] else op;
  }

  /**
   * An operator key: after a result the result becomes the first operand;
   * while typing an operand, the operand and the operator are appended; with
   * an operator already pending, the operator is replaced.  The engine stays
   * consistent.
   */
  lemma InputOperatorEffect(s: CalculatorState, op: string)
    requires Consistent(s) && IsOperatorText(op)
    ensures var t := AfterInputOperator(s, op);
      Consistent(t) && t.waitingForNewInput && t.operator == Some(op) &&
      t.expression == Join(t.fullExpression, " ") &&
      t.fullExpression ==
        (if EndsWith(s.expression, ResultMarker) then [s.currentInput, op]
         else if !s.waitingForNewInput then s.fullExpression + [s.currentInput, op]
         else s.fullExpression[..|s.fullExpression| - 1] + [op])
  {
    if EndsWith(s.expression, ResultMarker) {
      OperatorAfterResult(s, op);
      AlternatingAppend([], s.currentInput, op);
    } else if !s.waitingForNewInput {
      OperatorAfterOperand(s, op);
      AlternatingAppend(s.fullExpression, s.currentInput, op);
    } else {
      OperatorReplacesOperator(s, op);
      AlternatingReplace(s.fullExpression, op);
    }
  }

  /**
   * On a consistent state with tokens, `calculate` reduces a well-formed
   * list whose value is that of the operands alone: a pending operator is
   * ignored.
   */
  lemma FinalExpressionEvaluates(s: CalculatorState)
    requires Consistent(s) && |s.fullExpression| > 0
    ensures WellFormed(Cells(Operands(s))) && |Operands(s)| % 2 == 1
    ensures Evaluate(ReadFloat, Cells(FinalExpression(s))) == Evaluate(ReadFloat, Cells(Operands(s)))
  {
    var ops := Operands(s);
    var w := Cells(ops);
    assert forall k :: 1 <= k < |w| - 1 && k % 2 == 1 ==> w[k] == Text(s.fullExpression[k]);
    if s.waitingForNewInput {
      var last := s.fullExpression[|s.fullExpression| - 1];
      assert FinalExpression(s) == ops + [last];
      assert Cells(FinalExpression(s)) == w + [Text(last)];
      TrailingOperatorIgnored(ReadFloat, w, Text(last));
    }
  }

  /** `=` with no token list changes nothing and yields the parsed input. */
  lemma CalculateWithoutTokens(s: CalculatorState)
    requires |s.fullExpression| == 0
    ensures AfterCalculate(s) == (s, Some(ParseFloat(s.currentInput)))
  {
  }

  /**
   * `=` on a consistent state with tokens fails exactly when some `÷` has a
   * right operand that reads as zero, and then only the error fields change.
   */
  lemma CalculateFailsIff(s: CalculatorState)
    requires Consistent(s) && |s.fullExpression| > 0
    ensures AfterCalculate(s).1.None? <==> HasZeroDivisor(ReadFloat, Cells(Operands(s)))
    ensures AfterCalculate(s).1.None? ==> AfterCalculate(s).0 == AfterSetError(s, "Cannot divide by zero")
  {
    var w := Cells(Operands(s));
    FinalExpressionEvaluates(s);
    EvaluateThrowsIff(ReadFloat, w);
  }

  /**
   * Otherwise it yields the reference value of the operands (a pending
   * operator ignored) rounded to 8 places, shows it, and leaves a
   * consistent state that holds the result, no tokens and no operator,
   * waiting for a new operand.
   */
  lemma CalculateSucceeds(s: CalculatorState)
    requires Consistent(s) && |s.fullExpression| > 0
    requires AfterCalculate(s).1.Some?
    ensures var (t, r) := AfterCalculate(s);
      var w := Cells(Operands(s));
      Reference(ReadFloat, w).Ok? && r.value == Round8(Reference(ReadFloat, w).value) &&
      Consistent(t) && t.fullExpression == [] && t.currentInput == Show(r.value) &&
      t.expression == Join(FinalExpression(s), " ") + ResultMarker &&
      t.waitingForNewInput && t.operator.None? && t.hasError == s.hasError
  {
    var w := Cells(Operands(s));
    FinalExpressionEvaluates(s);
    EvaluateMatchesReference(ReadFloat, w);
    var v := Evaluate(ReadFloat, Cells(FinalExpression(s)));
    var r := Round8(v.value);
    ShowIsNumeral(r);
    var e := Join(FinalExpression(s), " ") + ResultMarker;
    assert e[|e| - 3..] == ResultMarker;
  }

  // --- number entry ---

  /** At most one decimal point. */
  predicate AtMostOnePoint(t: string) {
    forall i, j :: 0 <= i < j < |t| && t[i] == '.' ==> t[j] != '.'
  }

  /**
   * Number keys never put a second point into the operand, and a point key
   * on an operand that already has one changes nothing (unless the key
   * first clears an error or a finished calculation).
   */
  lemma InputNumberKeepsOnePoint(s: CalculatorState, n: string)
    requires IsNumberKey(n)
    requires AtMostOnePoint(s.currentInput) || s.hasError || EndsWith(s.expression, ResultMarker)
    ensures AtMostOnePoint(AfterInputNumber(s, n).currentInput)
    ensures n == "." && !s.hasError && !EndsWith(s.expression, ResultMarker) && '.' in s.currentInput ==>
      AfterInputNumber(s, n) == s
  {
    var s1 := if s.hasError then AfterClear() else s;
    var s2 := if EndsWith(s1.expression, ResultMarker) then AfterClear() else s1;
    assert AtMostOnePoint(s2.currentInput);
    if !(n == "." && '.' in s2.currentInput) && !(n == "." && s2.waitingForNewInput) &&
       !(s2.waitingForNewInput || s2.currentInput == "0") {
      var c := s2.currentInput + n;
      assert forall i :: 0 <= i < |c| ==> c[i] == if i < |s2.currentInput| then s2.currentInput[i] else n[0];
      assert forall i :: 0 <= i < |s2.currentInput| ==> s2.currentInput[i] in s2.currentInput;
    }
  }

  /**
   * After a digit key the expression line shows the committed tokens and the
   * operand being typed, and the engine waits for nothing.
   */
  lemma DigitShowsEntry(s: CalculatorState, n: string)
    requires |n| == 1 && IsDigit(n[0])
    ensures var t := AfterInputNumber(s, n);
      t.expression == EntryText(t.fullExpression, t.currentInput) &&
      !t.waitingForNewInput && !t.hasError &&
      EndsWith(t.currentInput, n)
  {
    var s1 := if s.hasError then AfterClear() else s;
    var s2 := if EndsWith(s1.expression, ResultMarker) then AfterClear() else s1;
    assert n != "." by { assert n[0] != '.'; }
    var c := if s2.waitingForNewInput || s2.currentInput == "0" then n else s2.currentInput + n;
    assert AfterInputNumber(s, n).currentInput == c;
    assert c[|c| - 1..] == n;
  }

  /**
   * A point key right after an operator starts the operand "0." but leaves
   * the expression line as it was: the new operand is not shown there until
   * the next digit.
   */
  lemma PointAfterOperatorKeepsExpression(s: CalculatorState)
    requires !s.hasError && !EndsWith(s.expression, ResultMarker)
    requires s.waitingForNewInput && '.' !in s.currentInput
    ensures var t := AfterInputNumber(s, ".");
      t.currentInput == "0." && !t.waitingForNewInput && t.expression == s.expression &&
      t.fullExpression == s.fullExpression
  {
  }

  // --- CE ---

  /**
   * `CE` with an operator pending removes that operator as well as the
   * operand: the token list then ends with an operand, and the engine is
   * no longer consistent although no error is shown.
   */
  lemma ClearEntryDropsPendingOperator(s: CalculatorState)
    requires Consistent(s) && s.waitingForNewInput && |s.fullExpression| > 0
    ensures var t := AfterClearEntry(s);
      t.fullExpression == s.fullExpression[..|s.fullExpression| - 1] &&
      t.currentInput == "0" && !t.waitingForNewInput && !t.hasError &&
      t.expression == Join(t.fullExpression, " ") &&
      !Consistent(t)
  {
    var t := AfterClearEntry(s);
    assert |t.fullExpression| % 2 == 1;
  }

  /**
   * `CE` while an operand is typed resets only the operand: the token list
   * is kept and the engine stays consistent.
   */
  lemma ClearEntryWhileTyping(s: CalculatorState)
    requires Consistent(s) && !s.waitingForNewInput
    ensures var t := AfterClearEntry(s);
      t.fullExpression == s.fullExpression && t.currentInput == "0" && Consistent(t)
  {
    assert IsDigit(AfterClearEntry(s).currentInput[0]);
  }

  /** The expression line of a token list ends with the last character of its last token. */
  lemma JoinEndsWithLast(xs: seq<string>)
    requires |xs| > 0 && |xs[|xs| - 1]| > 0
    ensures var j := Join(xs, " "); var x := xs[|xs| - 1];
      |j| >= |x| && j[|j| - 1] == x[|x| - 1]
  {
  }

  /** A line that ends with a numeral character is not a finished calculation. */
  lemma NoMarkerAfterNumeral(xs: seq<string>)
    requires |xs| > 0 && Numeral(xs[|xs| - 1])
    ensures !EndsWith(Join(xs, " "), ResultMarker)
  {
    JoinEndsWithLast(xs);
    var x := xs[|xs| - 1];
    assert NumeralChar(x[|x| - 1]);
  }

  /** `CE` with an operator pending leaves the list ending with an operand, and no marker. */
  lemma ClearEntryLeavesOperand(s: CalculatorState)
    requires Consistent(s) && s.waitingForNewInput && |s.fullExpression| > 0
    ensures var t := AfterClearEntry(s); var ts := s.fullExpression;
      t.fullExpression == ts[..|ts| - 1] && |t.fullExpression| % 2 == 1 &&
      Numeral(ts[|ts| - 2]) && t.currentInput == "0" && !t.hasError && !t.waitingForNewInput &&
      !EndsWith(t.expression, ResultMarker)
  {
    var ts := s.fullExpression;
    var pre := ts[..|ts| - 1];
    assert pre[|pre| - 1] == ts[|ts| - 2];
    NoMarkerAfterNumeral(pre);
  }

  /** A digit on the operand "0" after a list ending with an operand replaces it. */
  lemma DigitAfterOperand(t: CalculatorState, n: string)
    requires !t.hasError && !t.waitingForNewInput && !EndsWith(t.expression, ResultMarker)
    requires t.currentInput == "0" && |t.fullExpression| > 0 && |n| == 1 && IsDigit(n[0])
    ensures var v := AfterInputNumber(t, n);
      v.currentInput == n && v.fullExpression == t.fullExpression && !v.hasError &&
      !v.waitingForNewInput && !EndsWith(v.expression, ResultMarker)
  {
    var xs := t.fullExpression + [n];
    assert Numeral(n) by {
      assert NumeralChar(n[0]);
    }
    NoMarkerAfterNumeral(xs);
  }

  /**
   * `CE` with an operator pending, then a digit and an operator: the list
   * holds two operands side by side (`5 + CE 3 +` gives `5 3 +`), and when
   * the list held one operand before, `=` throws "operation is not a
   * function", because the second operand is looked up as an operation.
   */
  lemma ClearEntryThenOperator(s: CalculatorState, n: string, op: string)
    requires Consistent(s) && s.waitingForNewInput && |s.fullExpression| > 0
    requires |n| == 1 && IsDigit(n[0]) && IsOperatorText(op)
    ensures var u := AfterInputOperator(AfterInputNumber(AfterClearEntry(s), n), op);
      var ts := s.fullExpression;
      u.fullExpression == ts[..|ts| - 1] + [n, op] && !Alternating(u.fullExpression) &&
      (|ts| == 2 ==> AfterCalculate(u) == (AfterSetError(u, Message(NotAFunction)), None))
  {
    var ts := s.fullExpression;
    var t := AfterClearEntry(s);
    ClearEntryLeavesOperand(s);
    var v := AfterInputNumber(t, n);
    DigitAfterOperand(t, n);
    var u := AfterInputOperator(v, op);
    var pre := ts[..|ts| - 1];
    assert u.fullExpression == pre + [n, op];
    assert u.fullExpression[|pre|] == n && |pre| % 2 == 1;
    if |ts| == 2 {
      assert u.fullExpression[1] == n && NumeralChar(n[0]);
      AdjacentOperandsThrow(u);
    }
  }

  /** A list that starts with two operands throws when `=` reaches the second. */
  lemma AdjacentOperandsThrow(u: CalculatorState)
    requires |u.fullExpression| == 3 && u.waitingForNewInput
    requires Numeral(u.fullExpression[1])
    ensures AfterCalculate(u) == (AfterSetError(u, Message(NotAFunction)), None)
  {
    var w := Cells(FinalExpression(u));
    NumeralIsNotOperator(u.fullExpression[1]);
    assert |w| == 3 && w[1] == Text(u.fullExpression[1]);
    assert FirstMulDiv(w, 1) == FirstMulDiv(w, 3) == 3;
    assert MulPass(ReadFloat, w) == Ok(w);
    assert AddPass(ReadFloat, w) == Err(NotAFunction);
  }

  // --- +/- and % ---

  /** `+/-` negates the number the operand reads as. */
  lemma ToggleSignNegates(s: CalculatorState)
    requires !s.hasError && Numeral(s.currentInput)
    requires s.currentInput != "0" && s.currentInput != "0."
    ensures ParseFloat(AfterToggleSign(s).currentInput) == Negated(ParseFloat(s.currentInput))
  {
    var c := s.currentInput;
    if StartsWith(c, "-") {
      var x := c[1..];
      assert c == "-" + x;
      ParseNegated(x);
    } else {
      assert c[0] != '-' && NumeralChar(c[0]);
      ParseNegated(c);
    }
  }

  /**
   * `+/-` twice restores the operand and every other field but the
   * expression line, except on the operands "-0" and "-0." and on a doubled
   * minus sign.
   */
  lemma ToggleSignTwice(s: CalculatorState)
    requires s.currentInput != "-0" && s.currentInput != "-0." && !StartsWith(s.currentInput, "--")
    ensures var t := AfterToggleSign(AfterToggleSign(s));
      t.currentInput == s.currentInput && t == s.(expression := t.expression)
  {
    var t1 := AfterToggleSign(s);
    if t1 != s {
      var c := s.currentInput;
      if StartsWith(c, "-") {
        assert c == "-" + c[1..];
      } else {
        var x := "-" + c;
        assert t1.currentInput == x && !t1.hasError;
        assert StartsWith(x, "-") && x[1..] == c && x[0] == '-';
        assert x != "0" && x != "0.";
        assert AfterToggleSign(t1).currentInput == c;
      }
    }
  }

  /** "-0" is where `+/-` twice does not come back: the second press is refused. */
  lemma ToggleSignNegativeZero(s: CalculatorState)
    requires !s.hasError && s.currentInput == "-0"
    ensures AfterToggleSign(s).currentInput == "0"
    ensures AfterToggleSign(AfterToggleSign(s)).currentInput == "0"
  {
    assert StartsWith("-0", "-");
    assert "-0"[1..] == "0";
  }

  /** The token list, the pending state and the operator survive `+/-` and `%`. */
  predicate SameEntryContext(s: CalculatorState, t: CalculatorState) {
    t.fullExpression == s.fullExpression && t.waitingForNewInput == s.waitingForNewInput &&
    t.operator == s.operator && t.hasError == s.hasError
  }

  /**
   * `%` divides the operand by 100: the stored text reads as the quotient,
   * exactly when the operand has at most 8 decimal places and within 5e-11
   * (half a unit of `toFixed(10)`) otherwise.  An operand that does not
   * read as a number leaves the engine unchanged.
   */
  lemma PercentageValue(s: CalculatorState)
    requires !s.hasError
    ensures ParseFloat(s.currentInput).DecNaN? ==> AfterPercentage(s) == s
    ensures ParseFloat(s.currentInput).Dec? ==>
      var x := ReadFloat(s.currentInput).r / 100.0;
      var y := ReadFloat(AfterPercentage(s).currentInput);
      y.Fin? && x - 0.00000000005 <= y.r <= x + 0.00000000005 &&
      (ParseFloat(s.currentInput).scale <= 8 ==> y.r == x)
  {
    var d := ParseFloat(s.currentInput);
    if d.Dec? {
      PercentFacts.PercentValue(d.digits, d.scale);
    }
  }

  /**
   * `+/-` and `%` replace the operand with a numeral and touch neither the
   * token list nor the pending state; they keep the engine consistent except
   * right after a result.
   */
  lemma UnaryKeepsConsistent(s: CalculatorState)
    requires Consistent(s) && (!s.waitingForNewInput || |s.fullExpression| > 0)
    ensures SameEntryContext(s, AfterToggleSign(s)) && Consistent(AfterToggleSign(s))
    ensures SameEntryContext(s, AfterPercentage(s)) && Consistent(AfterPercentage(s))
  {
    var c := s.currentInput;
    if StartsWith(c, "-") {
      var x := c[1..];
      assert forall i :: 0 <= i < |x| ==> x[i] == c[i + 1];
      assert Numeral(x);
    } else {
      var x := "-" + c;
      assert forall i :: 1 <= i < |x| ==> x[i] == c[i - 1];
      assert Numeral(x);
    }
    var d := ParseFloat(c);
    PercentTextIsNumeral(d);
  }

  /**
   * `+/-` right after a result rewrites the expression line, so the next
   * operator no longer sees a finished calculation: the result is dropped
   * from the token list, which holds only the operator, and `=` then
   * evaluates that operator alone to NaN.
   */
  lemma ToggleAfterResultDropsResult(s: CalculatorState, op: string)
    requires Consistent(s) && EndsWith(s.expression, ResultMarker)
    requires s.waitingForNewInput && |s.fullExpression| == 0
    requires s.currentInput != "0" && s.currentInput != "0."
    requires IsOperatorText(op)
    ensures var u := AfterInputOperator(AfterToggleSign(s), op);
      u.fullExpression == [op] &&
      AfterCalculate(u).1 == Some(DecNaN) && AfterCalculate(u).0.currentInput == "NaN"
  {
    var t := AfterToggleSign(s);
    UnaryKeepsConsistentText(s);
    assert !EndsWith(t.expression, ResultMarker) by {
      var c := t.currentInput;
      assert t.expression == c;
      assert NumeralChar(c[|c| - 1]);
    }
    var u := AfterInputOperator(t, op);
    assert u.fullExpression == [op];
    OperatorReadsNaN(op);
    assert FinalExpression(u) == [op];
    assert Evaluate(ReadFloat, Cells([op])) == Ok(NaN);
  }

  /** The operand `+/-` writes is a numeral. */
  lemma UnaryKeepsConsistentText(s: CalculatorState)
    requires Numeral(s.currentInput)
    ensures Numeral(AfterToggleSign(s).currentInput)
  {
    var c := s.currentInput;
    if StartsWith(c, "-") {
      var x := c[1..];
      assert forall i :: 0 <= i < |x| ==> x[i] == c[i + 1];
    } else {
      var x := "-" + c;
      assert forall i :: 1 <= i < |x| ==> x[i] == c[i - 1];
    }
  }

  // --- the error state ---

  /**
   * While an error is shown, operators, `+/-` and `%` are ignored, a number
   * key starts afresh, `CE` clears the error, and the expression line reads
   * "Error".
   */
  lemma ErrorStateKeys(s: CalculatorState, op: string, n: string)
    requires s.hasError
    ensures AfterInputOperator(s, op) == s && AfterToggleSign(s) == s && AfterPercentage(s) == s
    ensures AfterInputNumber(s, n) == AfterInputNumber(AfterClear(), n)
    ensures !AfterClearEntry(s).hasError && DisplayExpression(s) == "Error"
  {
  }

  /** An error message never reads as a number. */
  lemma MessageReadsNaN(e: CalcError)
    ensures ParseFloat(Message(e)) == DecNaN
  {
    var msg := Message(e);
    assert msg[0] == 'C' || msg[0] == 'o';
    assert DigitRun(msg) == 0;
  }

  /** An alternating list followed by an operand is well formed. */
  lemma AlternatingWellFormed(ts: seq<string>, x: string)
    requires Alternating(ts)
    ensures WellFormed(Cells(ts + [x])) && |ts + [x]| % 2 == 1
  {
    var w := Cells(ts + [x]);
    forall k | 1 <= k < |w| - 1 && k % 2 == 1
      ensures OperatorOf(w[k]).Some?
    {
      assert w[k] == Text(ts[k]);
    }
  }

  /**
   * A token list ending in an operand that reads as NaN fails exactly when
   * some `÷` has a zero right operand, and otherwise evaluates to NaN.
   */
  lemma NaNOperandEvaluates(s: CalculatorState)
    requires !s.waitingForNewInput && ReadFloat(s.currentInput) == NaN
    requires Alternating(s.fullExpression) && |s.fullExpression| > 0
    ensures var v := Evaluate(ReadFloat, Cells(FinalExpression(s)));
      (v.Err? <==> HasZeroDivisor(ReadFloat, Cells(FinalExpression(s)))) && (v.Ok? ==> v.value == NaN)
  {
    var ts := s.fullExpression;
    var w := Cells(ts + [s.currentInput]);
    assert FinalExpression(s) == ts + [s.currentInput];
    AlternatingWellFormed(ts, s.currentInput);
    EvaluateMatchesReference(ReadFloat, w);
    EvaluateThrowsIff(ReadFloat, w);
    assert w[|w| - 1] == Text(s.currentInput);
    NaNLastOperand(ReadFloat, w);
  }

  /**
   * `=` on an operand that reads as NaN after an alternating token list
   * gives NaN, unless a division by zero among the tokens raises the error
   * again.
   */
  lemma EqualsOnNaNOperand(s: CalculatorState)
    requires !s.waitingForNewInput && ReadFloat(s.currentInput) == NaN
    requires Alternating(s.fullExpression) && |s.fullExpression| > 0
    ensures var (t, r) := AfterCalculate(s);
      (r.None? <==> HasZeroDivisor(ReadFloat, Cells(FinalExpression(s)))) &&
      (r.Some? ==> r == Some(DecNaN) && t.hasError == s.hasError && t.currentInput == "NaN" && t.fullExpression == [])
  {
    NaNOperandEvaluates(s);
  }

  /**
   * `=` while the division error is shown evaluates the message text as the
   * last operand: the result is NaN and the error flag stays set (or, when
   * the tokens themselves divide by zero, the error is raised again).
   */
  lemma EqualsAfterDivisionError(s: CalculatorState)
    requires s.hasError && s.currentInput == Message(DivideByZero) && !s.waitingForNewInput
    requires Alternating(s.fullExpression) && |s.fullExpression| > 0
    ensures var (t, r) := AfterCalculate(s);
      (r.None? <==> HasZeroDivisor(ReadFloat, Cells(FinalExpression(s)))) &&
      (r.Some? ==> r == Some(DecNaN) && t.hasError && t.currentInput == "NaN" && t.fullExpression == [])
  {
    MessageReadsNaN(DivideByZero);
    EqualsOnNaNOperand(s);
  }
}
