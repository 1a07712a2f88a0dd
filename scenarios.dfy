/**
 * The self-test table of `Calculator.testCalculation` in
 * calculator/js/calculator.js: each scenario presses its inputs from a
 * cleared engine and states the expression line and the result it ends
 * with.  Every step is its own lemma, so the literal states stay small for
 * the solver; the values come from the reading and printing lemmas of
 * `NumberFacts`.
 */
module Scenarios {
  import opened Wrappers
  import opened Numbers
  import opened Evaluator
  import opened Engine
  import NumberFacts

  // --- the digits of the table ---

  lemma DigitsValueOne(t: string)
    requires |t| == 1 && AllDigits(t)
    ensures DigitsValue(t) == t[0] as int - '0' as int
  {
    assert t[..0] == [];
  }

  lemma DigitsValueTwo(t: string)
    requires |t| == 2 && AllDigits(t)
    ensures DigitsValue(t) == 10 * (t[0] as int - '0' as int) + (t[1] as int - '0' as int)
  {
    DigitsValueOne(t[..1]);
  }

  lemma DigitsValueThree(t: string)
    requires |t| == 3 && AllDigits(t)
    ensures DigitsValue(t) == 100 * (t[0] as int - '0' as int) + 10 * (t[1] as int - '0' as int) + (t[2] as int - '0' as int)
  {
    DigitsValueTwo(t[..2]);
  }

  // --- reading the operands of the table ---

  /** A run of digits reads as the whole number it spells. */
  lemma ReadNatural(i: string)
    requires AllDigits(i) && |i| >= 1
    ensures ReadFloat(i) == Fin(DigitsValue(i) as real)
  {
    NumberFacts.ParseInteger(i);
    assert Pow10(0) == 1;
  }

  /** A minus sign and one digit read as the negated digit. */
  lemma ReadNegativeDigit(t: string)
    requires |t| == 2 && t[0] == '-' && IsDigit(t[1])
    ensures ReadFloat(t) == Fin(-((t[1] as int - '0' as int) as real))
  {
    var i := t[1..];
    assert ParseFloat(t) == Negated(ParseUnsigned(i));
    assert ParseUnsigned(i) == ParseFloat(i) by {
      assert i[0] != '-' && i[0] != '+';
    }
    DigitsValueOne(i);
    ReadNatural(i);
  }

  /** A digit, a point and `f`'s digits read as the decimal they spell. */
  lemma ReadOneDigitPointed(t: string, f: string, v: nat)
    requires |t| >= 3 && IsDigit(t[0]) && t[1] == '.' && f == t[2..] && AllDigits(f)
    requires AllDigits(t[..1] + f) && DigitsValue(t[..1] + f) == v
    ensures ReadFloat(t) == Fin(v as real / Pow10(|f|) as real)
  {
    assert t == t[..1] + ("." + f);
    NumberFacts.ParsePointed(t[..1], f);
  }

  /** `d.e` reads as `(10d + e) / 10`. */
  lemma ReadOnePlace(t: string)
    requires |t| == 3 && IsDigit(t[0]) && t[1] == '.' && IsDigit(t[2])
    ensures ReadFloat(t) == Fin((10 * (t[0] as int - '0' as int) + (t[2] as int - '0' as int)) as real / 10.0)
  {
    var ds := t[..1] + t[2..];
    DigitsValueTwo(ds);
    ReadOneDigitPointed(t, t[2..], DigitsValue(ds));
    assert Pow10(1) == 10;
  }

  /** `d.ef` reads as `(100d + 10e + f) / 100`. */
  lemma ReadTwoPlaces(t: string)
    requires |t| == 4 && IsDigit(t[0]) && t[1] == '.' && IsDigit(t[2]) && IsDigit(t[3])
    ensures ReadFloat(t) ==
      Fin((100 * (t[0] as int - '0' as int) + 10 * (t[2] as int - '0' as int) + (t[3] as int - '0' as int)) as real / 100.0)
  {
    var ds := t[..1] + t[2..];
    DigitsValueThree(ds);
    ReadOneDigitPointed(t, t[2..], DigitsValue(ds));
    assert Pow10(2) == 100;
  }

  // --- printing the results of the table ---

  /** Moving trailing zeros of the digits into the exponent does not change `Normalize`. */
  lemma {:induction false} NormalizeShift(n: nat, j: nat, e: int)
    requires n > 0
    ensures Normalize(n * Pow10(j), e) == Normalize(n, e + j)
    decreases j
  {
    if j > 0 {
      var q := Pow10(j - 1);
      var p := n * q;
      assert Pow10(j) == 10 * q;
      NumberFacts.TimesTen(n, q);
      NormalizeTen(p, e);
      NormalizeShift(n, j - 1, e + 1);
    }
  }

  /** One trailing zero moves into the exponent. */
  lemma NormalizeTen(p: nat, e: int)
    requires p > 0
    ensures Normalize(p * 10, e) == Normalize(p, e + 1)
  {
    assert (p * 10) % 10 == 0 && (p * 10) / 10 == p;
  }

  /** A positive whole number prints as its digits. */
  lemma ShowInteger(n: nat)
    requires n > 0
    ensures ShowPositive(n, 0) == NatToDigits(n)
  {
    NumberFacts.NormalizeValue(n, 0);
    var (k', e') := Normalize(n, 0);
    NumberFacts.NatToDigitsZeros(k', e');
  }

  /** `toString` depends only on the normal form of the digits and the exponent. */
  lemma SameNormalForm(k1: nat, e1: int, k2: nat, e2: int)
    requires k1 > 0 && k2 > 0 && Normalize(k1, e1) == Normalize(k2, e2)
    ensures ShowPositive(k1, e1) == ShowPositive(k2, e2)
  {
  }

  /** A non-zero whole number survives the rounding to 8 places and prints as its digits. */
  lemma ShowRoundedInteger(n: int)
    requires n != 0
    ensures Show(Round8(Fin(n as real))) == (if n < 0 then "-" + NatToDigits(-n) else NatToDigits(n))
  {
    var a: nat := if n < 0 then -n else n;
    var k: nat := a * 100000000;
    assert Pow10(8) == 100000000;
    NormalizeShift(a, 8, -8);
    SameNormalForm(k, -8, a, 0);
    ShowInteger(a);
    var d := Round8(Fin(n as real));
    assert d == Dec(n * 100000000, 8);
    if n < 0 {
      assert -(n * 100000000) == k;
      assert Show(d) == "-" + ShowPositive(k, -8);
    } else {
      assert Show(d) == ShowPositive(k, -8);
    }
  }

  /** A whole number from 1 to 9 prints as its digit. */
  lemma ShowsDigit(x: Num, n: int, text: string)
    requires 0 < n < 10 && x == Fin(n as real) && |text| == 1 && text[0] as int == '0' as int + n
    ensures Show(Round8(x)) == text
  {
    ShowRoundedInteger(n);
  }

  /** A whole number from 10 to 99 prints as its two digits. */
  lemma ShowsTwoDigits(x: Num, n: int, text: string)
    requires 10 <= n < 100 && x == Fin(n as real) && |text| == 2
    requires text[0] as int == '0' as int + n / 10 && text[1] as int == '0' as int + n % 10
    ensures Show(Round8(x)) == text
  {
    ShowRoundedInteger(n);
    assert NatToDigits(n) == NatToDigits(n / 10) + [('0' as int + n % 10) as char];
  }

  /** A whole number from -9 to -1 prints as a minus sign and its digit. */
  lemma ShowsNegativeDigit(x: Num, n: int, text: string)
    requires -10 < n < 0 && x == Fin(n as real) && |text| == 2 && text[0] == '-' && text[1] as int == '0' as int - n
    ensures Show(Round8(x)) == text
  {
    ShowRoundedInteger(n);
  }

  // --- evaluating the token lists of the table ---

  /** A token list of one binary operation evaluates to that operation on the two operands. */
  lemma EvaluateTriple(read: string -> Num, a: string, o: string, b: string)
    requires IsOperatorText(o)
    ensures Evaluate(read, [Text(a), Text(o), Text(b)]) == Apply(OperatorOf(Text(o)).value, read(a), read(b))
  {
    var w := [Text(a), Text(o), Text(b)];
    var op := OperatorOf(Text(o)).value;
    var r := Apply(op, read(a), read(b));
    if r.Ok? {
      var v := [Value(r.value)];
      assert Splice(w, 1, r.value) == v;
      assert FirstMulDiv(v, 1) == 1;
      assert MulPass(read, v) == Ok(v);
      assert AddPass(read, v) == Ok(v);
    }
    if IsMulDiv(w[1]) {
      assert FirstMulDiv(w, 1) == 1;
    } else {
      assert FirstMulDiv(w, 1) == 3 by {
        assert FirstMulDiv(w, 3) == 3;
      }
      assert MulPass(read, w) == Ok(w);
    }
  }

  /** Two additions in a row add up left to right. */
  lemma EvaluateTwoSums(read: string -> Num, a: string, b: string, c: string)
    requires read(a).Fin? && read(b).Fin? && read(c).Fin?
    ensures Evaluate(read, [Text(a), Text("+"), Text(b), Text("+"), Text(c)]) ==
      Ok(Fin(read(a).r + read(b).r + read(c).r))
  {
    var w := [Text(a), Text("+"), Text(b), Text("+"), Text(c)];
    EvaluateMatchesReference(read, w);
    var a0 := Acc(Fin(0.0), false, read(a));
    var a1 := Acc(Fin(0.0 + read(a).r), false, read(b));
    var a2 := Acc(Fin(0.0 + read(a).r + read(b).r), false, read(c));
    var rest := [Text("+"), Text(c)];
    assert w[1..] == [Text("+"), Text(b)] + rest;
    assert Fold(read, a2, rest[2..]) == Ok(a2);
    assert Fold(read, a1, rest) == Ok(a2);
    assert Fold(read, a0, w[1..]) == Ok(a2) by {
      assert w[1..][2..] == rest;
    }
  }

  // --- the percentages of the table ---

  /** `p` followed by `n` zeros ends in exactly `n` zeros when `p` does not end in one. */
  lemma {:induction false} TrailingZerosAfter(p: string, n: nat)
    requires |p| > 0 && p[|p| - 1] != '0'
    ensures TrailingZeros(p + Zeros(n)) == n
    decreases n
  {
    if n > 0 {
      NumberFacts.ZerosSplit(n);
      assert p + Zeros(n) == (p + Zeros(n - 1)) + "0";
      assert (p + Zeros(n))[..|p + Zeros(n)| - 1] == p + Zeros(n - 1);
      TrailingZerosAfter(p, n - 1);
    } else {
      assert p + Zeros(0) == p;
    }
  }

  /**
   * When `toFixed(10)` of the hundredth of `n` is `head` and then zeros, and
   * `head` ends in a digit other than zero, the percentage prints as `head`.
   */
  lemma PercentTrimmed(n: nat, head: string, j: nat)
    requires |head| > 1 && IsDigit(head[|head| - 1]) && head[|head| - 1] != '0'
    requires ToFixed10(n, 2) == head + Zeros(j)
    ensures PercentText(Dec(n, 0)) == head
  {
    TrailingZerosAfter(head, j);
    assert (head + Zeros(j))[..|head|] == head;
  }

  /** The last digit of `q`. */
  lemma LastDigit(q: nat)
    ensures NatToDigits(q)[|NatToDigits(q)| - 1] as int == '0' as int + q % 10
  {
  }

  /** `toFixed(10)` of the hundredth of a whole number below 100, whose digits there are `q`. */
  lemma FixedBelowHundred(n: nat, q: nat, j: nat)
    requires q > 0 && n * Pow10(8) == q * Pow10(j) && |NatToDigits(q)| + j == 10
    ensures ToFixed10(n, 2) == "0." + NatToDigits(q) + Zeros(j)
  {
    NumberFacts.NatToDigitsZeros(q, j);
    var ds := NatToDigits(q) + Zeros(j);
    assert Zeros(1) == "0";
    assert (Zeros(1) + ds)[..1] == "0" && (Zeros(1) + ds)[1..] == ds;
  }

  /** `toFixed(10)` of the hundredth of a whole number from 100 to 999, whose digits there are `q`. */
  lemma FixedAboveHundred(n: nat, q: nat, j: nat)
    requires q > 0 && n * Pow10(8) == q * Pow10(j) && |NatToDigits(q)| + j == 11
    ensures ToFixed10(n, 2) == NatToDigits(q)[..1] + "." + NatToDigits(q)[1..] + Zeros(j)
  {
    NumberFacts.NatToDigitsZeros(q, j);
    assert FixedUnits(n, 2) == q * Pow10(j);
    var d := NatToDigits(q);
    var ds := d + Zeros(j);
    assert NatToDigits(FixedUnits(n, 2)) == ds && |ds| == 11;
    assert ds[..1] == d[..1];
    assert ds[1..] == d[1..] + Zeros(j);
  }

  /**
   * A whole number `t` below 100 whose hundredth is `0.` and the digits of
   * `q`: `percentage` stores `0.` and those digits.
   */
  lemma PercentBelowHundred(t: string, q: nat, j: nat, head: string)
    requires AllDigits(t) && |t| >= 1 && q > 0 && q % 10 != 0
    requires DigitsValue(t) * Pow10(8) == q * Pow10(j) && |NatToDigits(q)| + j == 10
    requires head == "0." + NatToDigits(q)
    ensures ParseFloat(t) == Dec(DigitsValue(t), 0) && PercentText(ParseFloat(t)) == head
  {
    NumberFacts.ParseInteger(t);
    FixedBelowHundred(DigitsValue(t), q, j);
    LastDigit(q);
    PercentTrimmed(DigitsValue(t), head, j);
  }

  /**
   * A whole number `t` from 100 to 999 whose hundredth has the digits of
   * `q`, the first before the point: `percentage` stores them with the point.
   */
  lemma PercentAboveHundred(t: string, q: nat, j: nat, head: string)
    requires AllDigits(t) && |t| >= 1 && q > 0 && q % 10 != 0
    requires DigitsValue(t) * Pow10(8) == q * Pow10(j) && |NatToDigits(q)| + j == 11 && |NatToDigits(q)| >= 2
    requires head == NatToDigits(q)[..1] + "." + NatToDigits(q)[1..]
    ensures ParseFloat(t) == Dec(DigitsValue(t), 0) && PercentText(ParseFloat(t)) == head
  {
    NumberFacts.ParseInteger(t);
    FixedAboveHundred(DigitsValue(t), q, j);
    LastDigit(q);
    PercentTrimmed(DigitsValue(t), head, j);
  }

  // --- one input at a time ---

  /** A digit or the point typed while an operand is open: the operand grows or restarts. */
  lemma TypeStep(s: CalculatorState, n: string, c: string, line: string)
    requires !s.hasError && !EndsWith(s.expression, ResultMarker)
    requires !IsOperatorText(n) && n != "=" && n != "+/-" && n != "%"
    requires n == "." ==> '.' !in s.currentInput && !s.waitingForNewInput
    requires c == if s.waitingForNewInput || s.currentInput == "0" then (if n == "." then "0." else n) else s.currentInput + n
    requires line == EntryText(s.fullExpression, c)
    ensures Press(s, n) == s.(currentInput := c, waitingForNewInput := false, expression := line)
  {
  }

  /** An operator after a typed operand: the operand and the operator join the tokens. */
  lemma OperatorStep(s: CalculatorState, op: string, line: string)
    requires !s.hasError && !EndsWith(s.expression, ResultMarker) && !s.waitingForNewInput && IsOperatorText(op)
    requires Join(s.fullExpression + [s.currentInput, op], " ") == line
    ensures Press(s, op) == s.(fullExpression := s.fullExpression + [s.currentInput, op], expression := line,
                               waitingForNewInput := true, operator := Some(op))
  {
    assert s.fullExpression + [s.currentInput] + [op] == s.fullExpression + [s.currentInput, op];
  }

  /** `+/-` on an operand that is not zero. */
  lemma ToggleStep(s: CalculatorState, c: string, line: string)
    requires !s.hasError && s.currentInput != "0" && s.currentInput != "0."
    requires c == if StartsWith(s.currentInput, "-") then s.currentInput[1..] else "-" + s.currentInput
    requires line == RewrittenExpression(s, c)
    ensures Press(s, "+/-") == s.(currentInput := c, expression := line)
  {
  }

  /** `%` on a lone operand. */
  lemma PercentStep(s: CalculatorState, text: string)
    requires !s.hasError && |s.fullExpression| == 0
    requires ParseFloat(s.currentInput).Dec? && PercentText(ParseFloat(s.currentInput)) == text
    ensures Press(s, "%") == s.(currentInput := text, expression := text)
  {
  }

  /** An expression line that does not end with the result marker. */
  lemma OpenLine(e: string)
    requires |e| < 2 || e[|e| - 2] != '='
    ensures !EndsWith(e, ResultMarker)
  {
    if |e| >= 3 {
      assert e[|e| - 3..][1] == e[|e| - 2];
    }
  }

  lemma CellsOfThree(xs: seq<string>)
    requires |xs| == 3
    ensures Cells(xs) == [Text(xs[0]), Text(xs[1]), Text(xs[2])]
  {
  }

  lemma CellsOfFive(xs: seq<string>)
    requires |xs| == 5
    ensures Cells(xs) == [Text(xs[0]), Text(xs[1]), Text(xs[2]), Text(xs[3]), Text(xs[4])]
  {
  }

  /** `=` after any operand: the result text, the finished line, nothing pending. */
  lemma EqualsAfter(s: CalculatorState, x: Num, text: string, line: string)
    requires |s.fullExpression| > 0 && !s.waitingForNewInput
    requires Evaluate(ReadFloat, Cells(s.fullExpression + [s.currentInput])) == Ok(x)
    requires Show(Round8(x)) == text
    requires Join(s.fullExpression + [s.currentInput], " ") == line
    ensures Press(s, "=") == CalculatorState(text, line + ResultMarker, [], None, true, s.hasError)
  {
  }

  /** `%` on the operand after one binary operator, when `percentage` turns it into `text`. */
  lemma PercentAfterOperator(s: CalculatorState, text: string)
    requires |s.fullExpression| == 2 && !s.waitingForNewInput && !s.hasError
    requires ParseFloat(s.currentInput).Dec? && PercentText(ParseFloat(s.currentInput)) == text
    ensures Press(s, "%") == s.(currentInput := text, expression := s.fullExpression[0] + " " + s.fullExpression[1] + " " + text)
  {
    var xs := s.fullExpression + [text];
    assert xs[..2][..1] == [xs[0]];
    assert xs[..2] == s.fullExpression;
    assert Join(xs[..2], " ") == xs[0] + " " + xs[1];
  }

  // --- runs ---

  // --- the expression line of a token list ---

  lemma JoinTwo(a: string, b: string)
    ensures Join([a, b], " ") == a + " " + b
  {
    assert [a, b][..1] == [a];
  }

  lemma JoinThree(a: string, b: string, c: string)
    ensures Join([a, b, c], " ") == a + " " + b + " " + c
  {
    assert [a, b, c][..2] == [a, b];
    JoinTwo(a, b);
  }

  lemma JoinFour(a: string, b: string, c: string, d: string)
    ensures Join([a, b, c, d], " ") == a + " " + b + " " + c + " " + d
  {
    assert [a, b, c, d][..3] == [a, b, c];
    JoinThree(a, b, c);
  }

  lemma JoinFive(a: string, b: string, c: string, d: string, e: string)
    ensures Join([a, b, c, d, e], " ") == a + " " + b + " " + c + " " + d + " " + e
  {
    assert [a, b, c, d, e][..4] == [a, b, c, d];
    JoinFour(a, b, c, d);
  }

  lemma RunSnoc(s: CalculatorState, xs: seq<string>, x: string)
    ensures Run(s, xs + [x]) == Press(Run(s, xs), x)
  {
    assert (xs + [x])[..|xs|] == xs;
  }

  lemma RunNext(s0: CalculatorState, keys: seq<string>, j: nat)
    requires j < |keys|
    ensures Run(s0, keys[..j + 1]) == Press(Run(s0, keys[..j]), keys[j])
  {
    assert keys[..j + 1] == keys[..j] + [keys[j]];
    RunSnoc(s0, keys[..j], keys[j]);
  }

  // --- the table, step by step ---

  lemma OriginalBugCaseStep1(s: CalculatorState)
    requires s.currentInput == "0" && s.expression == "" && s.fullExpression == []
    requires s.operator == None && !s.waitingForNewInput && !s.hasError
    ensures Press(s, "2") == CalculatorState("2", "2", [], None, false, false)
  {
    OpenLine(s.expression);
    TypeStep(s, "2", "2", "2");
  }

  lemma OriginalBugCaseStep2(s: CalculatorState)
    requires s.currentInput == "2" && s.expression == "2" && s.fullExpression == []
    requires s.operator == None && !s.waitingForNewInput && !s.hasError
    ensures Press(s, "+") == CalculatorState("2", "2 +", ["2", "+"], Some("+"), true, false)
  {
    OpenLine(s.expression);
    assert s.fullExpression + [s.currentInput, "+"] == ["2", "+"];
    JoinTwo("2", "+");
    assert "2" + " " + "+" == "2 +";
    OperatorStep(s, "+", "2 +");
  }

  lemma OriginalBugCaseStep3(s: CalculatorState)
    requires s.currentInput == "2" && s.expression == "2 +" && s.fullExpression == ["2", "+"]
    requires s.operator == Some("+") && s.waitingForNewInput && !s.hasError
    ensures Press(s, "1") == CalculatorState("1", "2 + 1", ["2", "+"], Some("+"), false, false)
  {
    OpenLine(s.expression);
    assert s.fullExpression + ["1"] == ["2", "+", "1"];
    JoinThree("2", "+", "1");
    assert "2" + " " + "+" + " " + "1" == "2 + 1";
    TypeStep(s, "1", "1", "2 + 1");
  }

  lemma TwoPlusOne(a: string, o: string, b: string)
    requires a == "2" && o == "+" && b == "1"
    ensures var r := Evaluate(ReadFloat, [Text(a), Text(o), Text(b)]);
      r == Ok(Fin(3.0)) && Show(Round8(r.value)) == "3"
  {
    ReadNatural(a);
    DigitsValueOne(a);
    assert ReadFloat(a) == Fin(2.0);
    ReadNatural(b);
    DigitsValueOne(b);
    assert ReadFloat(b) == Fin(1.0);
    EvaluateTriple(ReadFloat, a, o, b);
    assert Evaluate(ReadFloat, [Text(a), Text(o), Text(b)]) == Ok(Fin(3.0));
    ShowsDigit(Evaluate(ReadFloat, [Text(a), Text(o), Text(b)]).value, 3, "3");
  }

  lemma OriginalBugCaseStep4(s: CalculatorState)
    requires s.currentInput == "1" && s.expression == "2 + 1" && s.fullExpression == ["2", "+"]
    requires s.operator == Some("+") && !s.waitingForNewInput && !s.hasError
    ensures Press(s, "=") == CalculatorState("3", "2 + 1 = ", [], None, true, false)
  {
    assert "2 + 1" + ResultMarker == "2 + 1 = ";
    assert s.fullExpression + [s.currentInput] == ["2", "+", "1"];
    JoinThree("2", "+", "1");
    assert "2" + " " + "+" + " " + "1" == "2 + 1";
    CellsOfThree(s.fullExpression + [s.currentInput]);
    TwoPlusOne((s.fullExpression + [s.currentInput])[0], (s.fullExpression + [s.currentInput])[1], (s.fullExpression + [s.currentInput])[2]);
    EqualsAfter(s, Evaluate(ReadFloat, Cells(s.fullExpression + [s.currentInput])).value, "3", "2 + 1");
  }

  lemma OriginalBugCaseUpTo1(keys: seq<string>)
    requires keys == ["2"]
    ensures Run(AfterClear(), keys) == CalculatorState("2", "2", [], None, false, false)
  {
    RunNext(AfterClear(), keys, 0);
    OriginalBugCaseStep1(Run(AfterClear(), keys[..0]));
    assert keys[..1] == keys;
  }

  lemma OriginalBugCaseUpTo2(keys: seq<string>)
    requires keys == ["2", "+"]
    ensures Run(AfterClear(), keys) == CalculatorState("2", "2 +", ["2", "+"], Some("+"), true, false)
  {
    OriginalBugCaseUpTo1(keys[..1]);
    RunNext(AfterClear(), keys, 1);
    OriginalBugCaseStep2(Run(AfterClear(), keys[..1]));
    assert keys[..2] == keys;
  }

  lemma OriginalBugCaseUpTo3(keys: seq<string>)
    requires keys == ["2", "+", "1"]
    ensures Run(AfterClear(), keys) == CalculatorState("1", "2 + 1", ["2", "+"], Some("+"), false, false)
  {
    OriginalBugCaseUpTo2(keys[..2]);
    RunNext(AfterClear(), keys, 2);
    OriginalBugCaseStep3(Run(AfterClear(), keys[..2]));
    assert keys[..3] == keys;
  }

  lemma OriginalBugCaseUpTo4(keys: seq<string>)
    requires keys == ["2", "+", "1", "="]
    ensures Run(AfterClear(), keys) == CalculatorState("3", "2 + 1 = ", [], None, true, false)
  {
    OriginalBugCaseUpTo3(keys[..3]);
    RunNext(AfterClear(), keys, 3);
    OriginalBugCaseStep4(Run(AfterClear(), keys[..3]));
    assert keys[..4] == keys;
  }

  /** `2 + 1 =` from a cleared engine ends with `2 + 1 = ` over `3`. */
  lemma OriginalBugCase(keys: seq<string>)
    requires keys == ["2", "+", "1", "="]
    ensures DisplayExpression(Run(AfterClear(), keys)) == "2 + 1 = "
    ensures DisplayResult(Run(AfterClear(), keys)) == "3"
  {
    OriginalBugCaseUpTo4(keys);
  }

  lemma SimpleSubtractionStep1(s: CalculatorState)
    requires s.currentInput == "0" && s.expression == "" && s.fullExpression == []
    requires s.operator == None && !s.waitingForNewInput && !s.hasError
    ensures Press(s, "8") == CalculatorState("8", "8", [], None, false, false)
  {
    OpenLine(s.expression);
    TypeStep(s, "8", "8", "8");
  }

  lemma SimpleSubtractionStep2(s: CalculatorState)
    requires s.currentInput == "8" && s.expression == "8" && s.fullExpression == []
    requires s.operator == None && !s.waitingForNewInput && !s.hasError
    ensures Press(s, "-") == CalculatorState("8", "8 -", ["8", "-"], Some("-"), true, false)
  {
    OpenLine(s.expression);
    assert s.fullExpression + [s.currentInput, "-"] == ["8", "-"];
    JoinTwo("8", "-");
    assert "8" + " " + "-" == "8 -";
    OperatorStep(s, "-", "8 -");
  }

  lemma SimpleSubtractionStep3(s: CalculatorState)
    requires s.currentInput == "8" && s.expression == "8 -" && s.fullExpression == ["8", "-"]
    requires s.operator == Some("-") && s.waitingForNewInput && !s.hasError
    ensures Press(s, "5") == CalculatorState("5", "8 - 5", ["8", "-"], Some("-"), false, false)
  {
    OpenLine(s.expression);
    assert s.fullExpression + ["5"] == ["8", "-", "5"];
    JoinThree("8", "-", "5");
    assert "8" + " " + "-" + " " + "5" == "8 - 5";
    TypeStep(s, "5", "5", "8 - 5");
  }

  lemma EightMinusFive(a: string, o: string, b: string)
    requires a == "8" && o == "-" && b == "5"
    ensures var r := Evaluate(ReadFloat, [Text(a), Text(o), Text(b)]);
      r == Ok(Fin(3.0)) && Show(Round8(r.value)) == "3"
  {
    ReadNatural(a);
    DigitsValueOne(a);
    assert ReadFloat(a) == Fin(8.0);
    ReadNatural(b);
    DigitsValueOne(b);
    assert ReadFloat(b) == Fin(5.0);
    EvaluateTriple(ReadFloat, a, o, b);
    assert Evaluate(ReadFloat, [Text(a), Text(o), Text(b)]) == Ok(Fin(3.0));
    ShowsDigit(Evaluate(ReadFloat, [Text(a), Text(o), Text(b)]).value, 3, "3");
  }

  lemma SimpleSubtractionStep4(s: CalculatorState)
    requires s.currentInput == "5" && s.expression == "8 - 5" && s.fullExpression == ["8", "-"]
    requires s.operator == Some("-") && !s.waitingForNewInput && !s.hasError
    ensures Press(s, "=") == CalculatorState("3", "8 - 5 = ", [], None, true, false)
  {
    assert "8 - 5" + ResultMarker == "8 - 5 = ";
    assert s.fullExpression + [s.currentInput] == ["8", "-", "5"];
    JoinThree("8", "-", "5");
    assert "8" + " " + "-" + " " + "5" == "8 - 5";
    CellsOfThree(s.fullExpression + [s.currentInput]);
    EightMinusFive((s.fullExpression + [s.currentInput])[0], (s.fullExpression + [s.currentInput])[1], (s.fullExpression + [s.currentInput])[2]);
    EqualsAfter(s, Evaluate(ReadFloat, Cells(s.fullExpression + [s.currentInput])).value, "3", "8 - 5");
  }

  lemma SimpleSubtractionUpTo1(keys: seq<string>)
    requires keys == ["8"]
    ensures Run(AfterClear(), keys) == CalculatorState("8", "8", [], None, false, false)
  {
    RunNext(AfterClear(), keys, 0);
    SimpleSubtractionStep1(Run(AfterClear(), keys[..0]));
    assert keys[..1] == keys;
  }

  lemma SimpleSubtractionUpTo2(keys: seq<string>)
    requires keys == ["8", "-"]
    ensures Run(AfterClear(), keys) == CalculatorState("8", "8 -", ["8", "-"], Some("-"), true, false)
  {
    SimpleSubtractionUpTo1(keys[..1]);
    RunNext(AfterClear(), keys, 1);
    SimpleSubtractionStep2(Run(AfterClear(), keys[..1]));
    assert keys[..2] == keys;
  }

  lemma SimpleSubtractionUpTo3(keys: seq<string>)
    requires keys == ["8", "-", "5"]
    ensures Run(AfterClear(), keys) == CalculatorState("5", "8 - 5", ["8", "-"], Some("-"), false, false)
  {
    SimpleSubtractionUpTo2(keys[..2]);
    RunNext(AfterClear(), keys, 2);
    SimpleSubtractionStep3(Run(AfterClear(), keys[..2]));
    assert keys[..3] == keys;
  }

  lemma SimpleSubtractionUpTo4(keys: seq<string>)
    requires keys == ["8", "-", "5", "="]
    ensures Run(AfterClear(), keys) == CalculatorState("3", "8 - 5 = ", [], None, true, false)
  {
    SimpleSubtractionUpTo3(keys[..3]);
    RunNext(AfterClear(), keys, 3);
    SimpleSubtractionStep4(Run(AfterClear(), keys[..3]));
    assert keys[..4] == keys;
  }

  /** `8 - 5 =` from a cleared engine ends with `8 - 5 = ` over `3`. */
  lemma SimpleSubtraction(keys: seq<string>)
    requires keys == ["8", "-", "5", "="]
    ensures DisplayExpression(Run(AfterClear(), keys)) == "8 - 5 = "
    ensures DisplayResult(Run(AfterClear(), keys)) == "3"
  {
    SimpleSubtractionUpTo4(keys);
  }

  lemma SimpleMultiplicationStep1(s: CalculatorState)
    requires s.currentInput == "0" && s.expression == "" && s.fullExpression == []
    requires s.operator == None && !s.waitingForNewInput && !s.hasError
    ensures Press(s, "6") == CalculatorState("6", "6", [], None, false, false)
  {
    OpenLine(s.expression);
    TypeStep(s, "6", "6", "6");
  }

  lemma SimpleMultiplicationStep2(s: CalculatorState)
    requires s.currentInput == "6" && s.expression == "6" && s.fullExpression == []
    requires s.operator == None && !s.waitingForNewInput && !s.hasError
    ensures Press(s, "×") == CalculatorState("6", "6 ×", ["6", "×"], Some("×"), true, false)
  {
    OpenLine(s.expression);
    assert s.fullExpression + [s.currentInput, "×"] == ["6", "×"];
    JoinTwo("6", "×");
    assert "6" + " " + "×" == "6 ×";
    OperatorStep(s, "×", "6 ×");
  }

  lemma SimpleMultiplicationStep3(s: CalculatorState)
    requires s.currentInput == "6" && s.expression == "6 ×" && s.fullExpression == ["6", "×"]
    requires s.operator == Some("×") && s.waitingForNewInput && !s.hasError
    ensures Press(s, "2") == CalculatorState("2", "6 × 2", ["6", "×"], Some("×"), false, false)
  {
    OpenLine(s.expression);
    assert s.fullExpression + ["2"] == ["6", "×", "2"];
    JoinThree("6", "×", "2");
    assert "6" + " " + "×" + " " + "2" == "6 × 2";
    TypeStep(s, "2", "2", "6 × 2");
  }

  lemma SixTimesTwo(a: string, o: string, b: string)
    requires a == "6" && o == "×" && b == "2"
    ensures var r := Evaluate(ReadFloat, [Text(a), Text(o), Text(b)]);
      r == Ok(Fin(12.0)) && Show(Round8(r.value)) == "12"
  {
    ReadNatural(a);
    DigitsValueOne(a);
    assert ReadFloat(a) == Fin(6.0);
    ReadNatural(b);
    DigitsValueOne(b);
    assert ReadFloat(b) == Fin(2.0);
    EvaluateTriple(ReadFloat, a, o, b);
    assert Evaluate(ReadFloat, [Text(a), Text(o), Text(b)]) == Ok(Fin(12.0));
    ShowsTwoDigits(Evaluate(ReadFloat, [Text(a), Text(o), Text(b)]).value, 12, "12");
  }

  lemma SimpleMultiplicationStep4(s: CalculatorState)
    requires s.currentInput == "2" && s.expression == "6 × 2" && s.fullExpression == ["6", "×"]
    requires s.operator == Some("×") && !s.waitingForNewInput && !s.hasError
    ensures Press(s, "=") == CalculatorState("12", "6 × 2 = ", [], None, true, false)
  {
    assert "6 × 2" + ResultMarker == "6 × 2 = ";
    assert s.fullExpression + [s.currentInput] == ["6", "×", "2"];
    JoinThree("6", "×", "2");
    assert "6" + " " + "×" + " " + "2" == "6 × 2";
    CellsOfThree(s.fullExpression + [s.currentInput]);
    SixTimesTwo((s.fullExpression + [s.currentInput])[0], (s.fullExpression + [s.currentInput])[1], (s.fullExpression + [s.currentInput])[2]);
    EqualsAfter(s, Evaluate(ReadFloat, Cells(s.fullExpression + [s.currentInput])).value, "12", "6 × 2");
  }

  lemma SimpleMultiplicationUpTo1(keys: seq<string>)
    requires keys == ["6"]
    ensures Run(AfterClear(), keys) == CalculatorState("6", "6", [], None, false, false)
  {
    RunNext(AfterClear(), keys, 0);
    SimpleMultiplicationStep1(Run(AfterClear(), keys[..0]));
    assert keys[..1] == keys;
  }

  lemma SimpleMultiplicationUpTo2(keys: seq<string>)
    requires keys == ["6", "×"]
    ensures Run(AfterClear(), keys) == CalculatorState("6", "6 ×", ["6", "×"], Some("×"), true, false)
  {
    SimpleMultiplicationUpTo1(keys[..1]);
    RunNext(AfterClear(), keys, 1);
    SimpleMultiplicationStep2(Run(AfterClear(), keys[..1]));
    assert keys[..2] == keys;
  }

  lemma SimpleMultiplicationUpTo3(keys: seq<string>)
    requires keys == ["6", "×", "2"]
    ensures Run(AfterClear(), keys) == CalculatorState("2", "6 × 2", ["6", "×"], Some("×"), false, false)
  {
    SimpleMultiplicationUpTo2(keys[..2]);
    RunNext(AfterClear(), keys, 2);
    SimpleMultiplicationStep3(Run(AfterClear(), keys[..2]));
    assert keys[..3] == keys;
  }

  lemma SimpleMultiplicationUpTo4(keys: seq<string>)
    requires keys == ["6", "×", "2", "="]
    ensures Run(AfterClear(), keys) == CalculatorState("12", "6 × 2 = ", [], None, true, false)
  {
    SimpleMultiplicationUpTo3(keys[..3]);
    RunNext(AfterClear(), keys, 3);
    SimpleMultiplicationStep4(Run(AfterClear(), keys[..3]));
    assert keys[..4] == keys;
  }

  /** `6 × 2 =` from a cleared engine ends with `6 × 2 = ` over `12`. */
  lemma SimpleMultiplication(keys: seq<string>)
    requires keys == ["6", "×", "2", "="]
    ensures DisplayExpression(Run(AfterClear(), keys)) == "6 × 2 = "
    ensures DisplayResult(Run(AfterClear(), keys)) == "12"
  {
    SimpleMultiplicationUpTo4(keys);
  }

  lemma SimpleDivisionStep1(s: CalculatorState)
    requires s.currentInput == "0" && s.expression == "" && s.fullExpression == []
    requires s.operator == None && !s.waitingForNewInput && !s.hasError
    ensures Press(s, "9") == CalculatorState("9", "9", [], None, false, false)
  {
    OpenLine(s.expression);
    TypeStep(s, "9", "9", "9");
  }

  lemma SimpleDivisionStep2(s: CalculatorState)
    requires s.currentInput == "9" && s.expression == "9" && s.fullExpression == []
    requires s.operator == None && !s.waitingForNewInput && !s.hasError
    ensures Press(s, "÷") == CalculatorState("9", "9 ÷", ["9", "÷"], Some("÷"), true, false)
  {
    OpenLine(s.expression);
    assert s.fullExpression + [s.currentInput, "÷"] == ["9", "÷"];
    JoinTwo("9", "÷");
    assert "9" + " " + "÷" == "9 ÷";
    OperatorStep(s, "÷", "9 ÷");
  }

  lemma SimpleDivisionStep3(s: CalculatorState)
    requires s.currentInput == "9" && s.expression == "9 ÷" && s.fullExpression == ["9", "÷"]
    requires s.operator == Some("÷") && s.waitingForNewInput && !s.hasError
    ensures Press(s, "3") == CalculatorState("3", "9 ÷ 3", ["9", "÷"], Some("÷"), false, false)
  {
    OpenLine(s.expression);
    assert s.fullExpression + ["3"] == ["9", "÷", "3"];
    JoinThree("9", "÷", "3");
    assert "9" + " " + "÷" + " " + "3" == "9 ÷ 3";
    TypeStep(s, "3", "3", "9 ÷ 3");
  }

  lemma NineOverThree(a: string, o: string, b: string)
    requires a == "9" && o == "÷" && b == "3"
    ensures var r := Evaluate(ReadFloat, [Text(a), Text(o), Text(b)]);
      r == Ok(Fin(3.0)) && Show(Round8(r.value)) == "3"
  {
    ReadNatural(a);
    DigitsValueOne(a);
    assert ReadFloat(a) == Fin(9.0);
    ReadNatural(b);
    DigitsValueOne(b);
    assert ReadFloat(b) == Fin(3.0);
    EvaluateTriple(ReadFloat, a, o, b);
    assert Evaluate(ReadFloat, [Text(a), Text(o), Text(b)]) == Ok(Fin(3.0));
    ShowsDigit(Evaluate(ReadFloat, [Text(a), Text(o), Text(b)]).value, 3, "3");
  }

  lemma SimpleDivisionStep4(s: CalculatorState)
    requires s.currentInput == "3" && s.expression == "9 ÷ 3" && s.fullExpression == ["9", "÷"]
    requires s.operator == Some("÷") && !s.waitingForNewInput && !s.hasError
    ensures Press(s, "=") == CalculatorState("3", "9 ÷ 3 = ", [], None, true, false)
  {
    assert "9 ÷ 3" + ResultMarker == "9 ÷ 3 = ";
    assert s.fullExpression + [s.currentInput] == ["9", "÷", "3"];
    JoinThree("9", "÷", "3");
    assert "9" + " " + "÷" + " " + "3" == "9 ÷ 3";
    CellsOfThree(s.fullExpression + [s.currentInput]);
    NineOverThree((s.fullExpression + [s.currentInput])[0], (s.fullExpression + [s.currentInput])[1], (s.fullExpression + [s.currentInput])[2]);
    EqualsAfter(s, Evaluate(ReadFloat, Cells(s.fullExpression + [s.currentInput])).value, "3", "9 ÷ 3");
  }

  lemma SimpleDivisionUpTo1(keys: seq<string>)
    requires keys == ["9"]
    ensures Run(AfterClear(), keys) == CalculatorState("9", "9", [], None, false, false)
  {
    RunNext(AfterClear(), keys, 0);
    SimpleDivisionStep1(Run(AfterClear(), keys[..0]));
    assert keys[..1] == keys;
  }

  lemma SimpleDivisionUpTo2(keys: seq<string>)
    requires keys == ["9", "÷"]
    ensures Run(AfterClear(), keys) == CalculatorState("9", "9 ÷", ["9", "÷"], Some("÷"), true, false)
  {
    SimpleDivisionUpTo1(keys[..1]);
    RunNext(AfterClear(), keys, 1);
    SimpleDivisionStep2(Run(AfterClear(), keys[..1]));
    assert keys[..2] == keys;
  }

  lemma SimpleDivisionUpTo3(keys: seq<string>)
    requires keys == ["9", "÷", "3"]
    ensures Run(AfterClear(), keys) == CalculatorState("3", "9 ÷ 3", ["9", "÷"], Some("÷"), false, false)
  {
    SimpleDivisionUpTo2(keys[..2]);
    RunNext(AfterClear(), keys, 2);
    SimpleDivisionStep3(Run(AfterClear(), keys[..2]));
    assert keys[..3] == keys;
  }

  lemma SimpleDivisionUpTo4(keys: seq<string>)
    requires keys == ["9", "÷", "3", "="]
    ensures Run(AfterClear(), keys) == CalculatorState("3", "9 ÷ 3 = ", [], None, true, false)
  {
    SimpleDivisionUpTo3(keys[..3]);
    RunNext(AfterClear(), keys, 3);
    SimpleDivisionStep4(Run(AfterClear(), keys[..3]));
    assert keys[..4] == keys;
  }

  /** `9 ÷ 3 =` from a cleared engine ends with `9 ÷ 3 = ` over `3`. */
  lemma SimpleDivision(keys: seq<string>)
    requires keys == ["9", "÷", "3", "="]
    ensures DisplayExpression(Run(AfterClear(), keys)) == "9 ÷ 3 = "
    ensures DisplayResult(Run(AfterClear(), keys)) == "3"
  {
    SimpleDivisionUpTo4(keys);
  }

  lemma ChainAdditionStep1(s: CalculatorState)
    requires s.currentInput == "0" && s.expression == "" && s.fullExpression == []
    requires s.operator == None && !s.waitingForNewInput && !s.hasError
    ensures Press(s, "2") == CalculatorState("2", "2", [], None, false, false)
  {
    OpenLine(s.expression);
    TypeStep(s, "2", "2", "2");
  }

  lemma ChainAdditionStep2(s: CalculatorState)
    requires s.currentInput == "2" && s.expression == "2" && s.fullExpression == []
    requires s.operator == None && !s.waitingForNewInput && !s.hasError
    ensures Press(s, "+") == CalculatorState("2", "2 +", ["2", "+"], Some("+"), true, false)
  {
    OpenLine(s.expression);
    assert s.fullExpression + [s.currentInput, "+"] == ["2", "+"];
    JoinTwo("2", "+");
    assert "2" + " " + "+" == "2 +";
    OperatorStep(s, "+", "2 +");
  }

  lemma ChainAdditionStep3(s: CalculatorState)
    requires s.currentInput == "2" && s.expression == "2 +" && s.fullExpression == ["2", "+"]
    requires s.operator == Some("+") && s.waitingForNewInput && !s.hasError
    ensures Press(s, "3") == CalculatorState("3", "2 + 3", ["2", "+"], Some("+"), false, false)
  {
    OpenLine(s.expression);
    assert s.fullExpression + ["3"] == ["2", "+", "3"];
    JoinThree("2", "+", "3");
    assert "2" + " " + "+" + " " + "3" == "2 + 3";
    TypeStep(s, "3", "3", "2 + 3");
  }

  lemma ChainAdditionStep4(s: CalculatorState)
    requires s.currentInput == "3" && s.expression == "2 + 3" && s.fullExpression == ["2", "+"]
    requires s.operator == Some("+") && !s.waitingForNewInput && !s.hasError
    ensures Press(s, "+") == CalculatorState("3", "2 + 3 +", ["2", "+", "3", "+"], Some("+"), true, false)
  {
    OpenLine(s.expression);
    assert s.fullExpression + [s.currentInput, "+"] == ["2", "+", "3", "+"];
    JoinFour("2", "+", "3", "+");
    assert "2" + " " + "+" + " " + "3" + " " + "+" == "2 + 3 +";
    OperatorStep(s, "+", "2 + 3 +");
  }

  lemma ChainAdditionStep5(s: CalculatorState)
    requires s.currentInput == "3" && s.expression == "2 + 3 +" && s.fullExpression == ["2", "+", "3", "+"]
    requires s.operator == Some("+") && s.waitingForNewInput && !s.hasError
    ensures Press(s, "4") == CalculatorState("4", "2 + 3 + 4", ["2", "+", "3", "+"], Some("+"), false, false)
  {
    OpenLine(s.expression);
    assert s.fullExpression + ["4"] == ["2", "+", "3", "+", "4"];
    JoinFive("2", "+", "3", "+", "4");
    assert "2" + " " + "+" + " " + "3" + " " + "+" + " " + "4" == "2 + 3 + 4";
    TypeStep(s, "4", "4", "2 + 3 + 4");
  }

  lemma TwoPlusThreePlusFour(a: string, o: string, b: string, p: string, c: string)
    requires a == "2" && o == "+" && b == "3" && p == "+" && c == "4"
    ensures var r := Evaluate(ReadFloat, [Text(a), Text(o), Text(b), Text(p), Text(c)]);
      r == Ok(Fin(9.0)) && Show(Round8(r.value)) == "9"
  {
    ReadNatural(a);
    DigitsValueOne(a);
    assert ReadFloat(a) == Fin(2.0);
    ReadNatural(b);
    DigitsValueOne(b);
    assert ReadFloat(b) == Fin(3.0);
    ReadNatural(c);
    DigitsValueOne(c);
    assert ReadFloat(c) == Fin(4.0);
    EvaluateTwoSums(ReadFloat, a, b, c);
    assert Evaluate(ReadFloat, [Text(a), Text(o), Text(b), Text(p), Text(c)]) == Ok(Fin(9.0));
    ShowsDigit(Evaluate(ReadFloat, [Text(a), Text(o), Text(b), Text(p), Text(c)]).value, 9, "9");
  }

  lemma ChainAdditionStep6(s: CalculatorState)
    requires s.currentInput == "4" && s.expression == "2 + 3 + 4" && s.fullExpression == ["2", "+", "3", "+"]
    requires s.operator == Some("+") && !s.waitingForNewInput && !s.hasError
    ensures Press(s, "=") == CalculatorState("9", "2 + 3 + 4 = ", [], None, true, false)
  {
    assert "2 + 3 + 4" + ResultMarker == "2 + 3 + 4 = ";
    assert s.fullExpression + [s.currentInput] == ["2", "+", "3", "+", "4"];
    JoinFive("2", "+", "3", "+", "4");
    assert "2" + " " + "+" + " " + "3" + " " + "+" + " " + "4" == "2 + 3 + 4";
    CellsOfFive(s.fullExpression + [s.currentInput]);
    TwoPlusThreePlusFour((s.fullExpression + [s.currentInput])[0], (s.fullExpression + [s.currentInput])[1], (s.fullExpression + [s.currentInput])[2], (s.fullExpression + [s.currentInput])[3], (s.fullExpression + [s.currentInput])[4]);
    EqualsAfter(s, Evaluate(ReadFloat, Cells(s.fullExpression + [s.currentInput])).value, "9", "2 + 3 + 4");
  }

  lemma ChainAdditionUpTo1(keys: seq<string>)
    requires keys == ["2"]
    ensures Run(AfterClear(), keys) == CalculatorState("2", "2", [], None, false, false)
  {
    RunNext(AfterClear(), keys, 0);
    ChainAdditionStep1(Run(AfterClear(), keys[..0]));
    assert keys[..1] == keys;
  }

  lemma ChainAdditionUpTo2(keys: seq<string>)
    requires keys == ["2", "+"]
    ensures Run(AfterClear(), keys) == CalculatorState("2", "2 +", ["2", "+"], Some("+"), true, false)
  {
    ChainAdditionUpTo1(keys[..1]);
    RunNext(AfterClear(), keys, 1);
    ChainAdditionStep2(Run(AfterClear(), keys[..1]));
    assert keys[..2] == keys;
  }

  lemma ChainAdditionUpTo3(keys: seq<string>)
    requires keys == ["2", "+", "3"]
    ensures Run(AfterClear(), keys) == CalculatorState("3", "2 + 3", ["2", "+"], Some("+"), false, false)
  {
    ChainAdditionUpTo2(keys[..2]);
    RunNext(AfterClear(), keys, 2);
    ChainAdditionStep3(Run(AfterClear(), keys[..2]));
    assert keys[..3] == keys;
  }

  lemma ChainAdditionUpTo4(keys: seq<string>)
    requires keys == ["2", "+", "3", "+"]
    ensures Run(AfterClear(), keys) == CalculatorState("3", "2 + 3 +", ["2", "+", "3", "+"], Some("+"), true, false)
  {
    ChainAdditionUpTo3(keys[..3]);
    RunNext(AfterClear(), keys, 3);
    ChainAdditionStep4(Run(AfterClear(), keys[..3]));
    assert keys[..4] == keys;
  }

  lemma ChainAdditionUpTo5(keys: seq<string>)
    requires keys == ["2", "+", "3", "+", "4"]
    ensures Run(AfterClear(), keys) == CalculatorState("4", "2 + 3 + 4", ["2", "+", "3", "+"], Some("+"), false, false)
  {
    ChainAdditionUpTo4(keys[..4]);
    RunNext(AfterClear(), keys, 4);
    ChainAdditionStep5(Run(AfterClear(), keys[..4]));
    assert keys[..5] == keys;
  }

  lemma ChainAdditionUpTo6(keys: seq<string>)
    requires keys == ["2", "+", "3", "+", "4", "="]
    ensures Run(AfterClear(), keys) == CalculatorState("9", "2 + 3 + 4 = ", [], None, true, false)
  {
    ChainAdditionUpTo5(keys[..5]);
    RunNext(AfterClear(), keys, 5);
    ChainAdditionStep6(Run(AfterClear(), keys[..5]));
    assert keys[..6] == keys;
  }

  /** `2 + 3 + 4 =` from a cleared engine ends with `2 + 3 + 4 = ` over `9`. */
  lemma ChainAddition(keys: seq<string>)
    requires keys == ["2", "+", "3", "+", "4", "="]
    ensures DisplayExpression(Run(AfterClear(), keys)) == "2 + 3 + 4 = "
    ensures DisplayResult(Run(AfterClear(), keys)) == "9"
  {
    ChainAdditionUpTo6(keys);
  }

  lemma MultiDigitStep1(s: CalculatorState)
    requires s.currentInput == "0" && s.expression == "" && s.fullExpression == []
    requires s.operator == None && !s.waitingForNewInput && !s.hasError
    ensures Press(s, "1") == CalculatorState("1", "1", [], None, false, false)
  {
    OpenLine(s.expression);
    TypeStep(s, "1", "1", "1");
  }

  lemma MultiDigitStep2(s: CalculatorState)
    requires s.currentInput == "1" && s.expression == "1" && s.fullExpression == []
    requires s.operator == None && !s.waitingForNewInput && !s.hasError
    ensures Press(s, "5") == CalculatorState("15", "15", [], None, false, false)
  {
    OpenLine(s.expression);
    assert s.currentInput + "5" == "15";
    TypeStep(s, "5", "15", "15");
  }

  lemma MultiDigitStep3(s: CalculatorState)
    requires s.currentInput == "15" && s.expression == "15" && s.fullExpression == []
    requires s.operator == None && !s.waitingForNewInput && !s.hasError
    ensures Press(s, "+") == CalculatorState("15", "15 +", ["15", "+"], Some("+"), true, false)
  {
    OpenLine(s.expression);
    assert s.fullExpression + [s.currentInput, "+"] == ["15", "+"];
    JoinTwo("15", "+");
    assert "15" + " " + "+" == "15 +";
    OperatorStep(s, "+", "15 +");
  }

  lemma MultiDigitStep4(s: CalculatorState)
    requires s.currentInput == "15" && s.expression == "15 +" && s.fullExpression == ["15", "+"]
    requires s.operator == Some("+") && s.waitingForNewInput && !s.hasError
    ensures Press(s, "2") == CalculatorState("2", "15 + 2", ["15", "+"], Some("+"), false, false)
  {
    OpenLine(s.expression);
    assert s.fullExpression + ["2"] == ["15", "+", "2"];
    JoinThree("15", "+", "2");
    assert "15" + " " + "+" + " " + "2" == "15 + 2";
    TypeStep(s, "2", "2", "15 + 2");
  }

  lemma MultiDigitStep5(s: CalculatorState)
    requires s.currentInput == "2" && s.expression == "15 + 2" && s.fullExpression == ["15", "+"]
    requires s.operator == Some("+") && !s.waitingForNewInput && !s.hasError
    ensures Press(s, "7") == CalculatorState("27", "15 + 27", ["15", "+"], Some("+"), false, false)
  {
    OpenLine(s.expression);
    assert s.fullExpression + ["27"] == ["15", "+", "27"];
    JoinThree("15", "+", "27");
    assert "15" + " " + "+" + " " + "27" == "15 + 27";
    assert s.currentInput + "7" == "27";
    TypeStep(s, "7", "27", "15 + 27");
  }

  lemma FifteenPlusTwentySeven(a: string, o: string, b: string)
    requires a == "15" && o == "+" && b == "27"
    ensures var r := Evaluate(ReadFloat, [Text(a), Text(o), Text(b)]);
      r == Ok(Fin(42.0)) && Show(Round8(r.value)) == "42"
  {
    ReadNatural(a);
    DigitsValueTwo(a);
    assert ReadFloat(a) == Fin(15.0);
    ReadNatural(b);
    DigitsValueTwo(b);
    assert ReadFloat(b) == Fin(27.0);
    EvaluateTriple(ReadFloat, a, o, b);
    assert Evaluate(ReadFloat, [Text(a), Text(o), Text(b)]) == Ok(Fin(42.0));
    ShowsTwoDigits(Evaluate(ReadFloat, [Text(a), Text(o), Text(b)]).value, 42, "42");
  }

  lemma MultiDigitStep6(s: CalculatorState)
    requires s.currentInput == "27" && s.expression == "15 + 27" && s.fullExpression == ["15", "+"]
    requires s.operator == Some("+") && !s.waitingForNewInput && !s.hasError
    ensures Press(s, "=") == CalculatorState("42", "15 + 27 = ", [], None, true, false)
  {
    assert "15 + 27" + ResultMarker == "15 + 27 = ";
    assert s.fullExpression + [s.currentInput] == ["15", "+", "27"];
    JoinThree("15", "+", "27");
    assert "15" + " " + "+" + " " + "27" == "15 + 27";
    CellsOfThree(s.fullExpression + [s.currentInput]);
    FifteenPlusTwentySeven((s.fullExpression + [s.currentInput])[0], (s.fullExpression + [s.currentInput])[1], (s.fullExpression + [s.currentInput])[2]);
    EqualsAfter(s, Evaluate(ReadFloat, Cells(s.fullExpression + [s.currentInput])).value, "42", "15 + 27");
  }

  lemma MultiDigitUpTo1(keys: seq<string>)
    requires keys == ["1"]
    ensures Run(AfterClear(), keys) == CalculatorState("1", "1", [], None, false, false)
  {
    RunNext(AfterClear(), keys, 0);
    MultiDigitStep1(Run(AfterClear(), keys[..0]));
    assert keys[..1] == keys;
  }

  lemma MultiDigitUpTo2(keys: seq<string>)
    requires keys == ["1", "5"]
    ensures Run(AfterClear(), keys) == CalculatorState("15", "15", [], None, false, false)
  {
    MultiDigitUpTo1(keys[..1]);
    RunNext(AfterClear(), keys, 1);
    MultiDigitStep2(Run(AfterClear(), keys[..1]));
    assert keys[..2] == keys;
  }

  lemma MultiDigitUpTo3(keys: seq<string>)
    requires keys == ["1", "5", "+"]
    ensures Run(AfterClear(), keys) == CalculatorState("15", "15 +", ["15", "+"], Some("+"), true, false)
  {
    MultiDigitUpTo2(keys[..2]);
    RunNext(AfterClear(), keys, 2);
    MultiDigitStep3(Run(AfterClear(), keys[..2]));
    assert keys[..3] == keys;
  }

  lemma MultiDigitUpTo4(keys: seq<string>)
    requires keys == ["1", "5", "+", "2"]
    ensures Run(AfterClear(), keys) == CalculatorState("2", "15 + 2", ["15", "+"], Some("+"), false, false)
  {
    MultiDigitUpTo3(keys[..3]);
    RunNext(AfterClear(), keys, 3);
    MultiDigitStep4(Run(AfterClear(), keys[..3]));
    assert keys[..4] == keys;
  }

  lemma MultiDigitUpTo5(keys: seq<string>)
    requires keys == ["1", "5", "+", "2", "7"]
    ensures Run(AfterClear(), keys) == CalculatorState("27", "15 + 27", ["15", "+"], Some("+"), false, false)
  {
    MultiDigitUpTo4(keys[..4]);
    RunNext(AfterClear(), keys, 4);
    MultiDigitStep5(Run(AfterClear(), keys[..4]));
    assert keys[..5] == keys;
  }

  lemma MultiDigitUpTo6(keys: seq<string>)
    requires keys == ["1", "5", "+", "2", "7", "="]
    ensures Run(AfterClear(), keys) == CalculatorState("42", "15 + 27 = ", [], None, true, false)
  {
    MultiDigitUpTo5(keys[..5]);
    RunNext(AfterClear(), keys, 5);
    MultiDigitStep6(Run(AfterClear(), keys[..5]));
    assert keys[..6] == keys;
  }

  /** `1 5 + 2 7 =` from a cleared engine ends with `15 + 27 = ` over `42`. */
  lemma MultiDigit(keys: seq<string>)
    requires keys == ["1", "5", "+", "2", "7", "="]
    ensures DisplayExpression(Run(AfterClear(), keys)) == "15 + 27 = "
    ensures DisplayResult(Run(AfterClear(), keys)) == "42"
  {
    MultiDigitUpTo6(keys);
  }

  lemma DecimalCalculationStep1(s: CalculatorState)
    requires s.currentInput == "0" && s.expression == "" && s.fullExpression == []
    requires s.operator == None && !s.waitingForNewInput && !s.hasError
    ensures Press(s, "3") == CalculatorState("3", "3", [], None, false, false)
  {
    OpenLine(s.expression);
    TypeStep(s, "3", "3", "3");
  }

  lemma DecimalCalculationStep2(s: CalculatorState)
    requires s.currentInput == "3" && s.expression == "3" && s.fullExpression == []
    requires s.operator == None && !s.waitingForNewInput && !s.hasError
    ensures Press(s, ".") == CalculatorState("3.", "3.", [], None, false, false)
  {
    OpenLine(s.expression);
    assert s.currentInput + "." == "3.";
    TypeStep(s, ".", "3.", "3.");
  }

  lemma DecimalCalculationStep3(s: CalculatorState)
    requires s.currentInput == "3." && s.expression == "3." && s.fullExpression == []
    requires s.operator == None && !s.waitingForNewInput && !s.hasError
    ensures Press(s, "5") == CalculatorState("3.5", "3.5", [], None, false, false)
  {
    OpenLine(s.expression);
    assert s.currentInput + "5" == "3.5";
    TypeStep(s, "5", "3.5", "3.5");
  }

  lemma DecimalCalculationStep4(s: CalculatorState)
    requires s.currentInput == "3.5" && s.expression == "3.5" && s.fullExpression == []
    requires s.operator == None && !s.waitingForNewInput && !s.hasError
    ensures Press(s, "+") == CalculatorState("3.5", "3.5 +", ["3.5", "+"], Some("+"), true, false)
  {
    OpenLine(s.expression);
    assert s.fullExpression + [s.currentInput, "+"] == ["3.5", "+"];
    JoinTwo("3.5", "+");
    assert "3.5" + " " + "+" == "3.5 +";
    OperatorStep(s, "+", "3.5 +");
  }

  lemma DecimalCalculationStep5(s: CalculatorState)
    requires s.currentInput == "3.5" && s.expression == "3.5 +" && s.fullExpression == ["3.5", "+"]
    requires s.operator == Some("+") && s.waitingForNewInput && !s.hasError
    ensures Press(s, "1") == CalculatorState("1", "3.5 + 1", ["3.5", "+"], Some("+"), false, false)
  {
    OpenLine(s.expression);
    assert s.fullExpression + ["1"] == ["3.5", "+", "1"];
    JoinThree("3.5", "+", "1");
    assert "3.5" + " " + "+" + " " + "1" == "3.5 + 1";
    TypeStep(s, "1", "1", "3.5 + 1");
  }

  lemma DecimalCalculationStep6(s: CalculatorState)
    requires s.currentInput == "1" && s.expression == "3.5 + 1" && s.fullExpression == ["3.5", "+"]
    requires s.operator == Some("+") && !s.waitingForNewInput && !s.hasError
    ensures Press(s, ".") == CalculatorState("1.", "3.5 + 1.", ["3.5", "+"], Some("+"), false, false)
  {
    OpenLine(s.expression);
    assert s.fullExpression + ["1."] == ["3.5", "+", "1."];
    JoinThree("3.5", "+", "1.");
    assert "3.5" + " " + "+" + " " + "1." == "3.5 + 1.";
    assert s.currentInput + "." == "1.";
    TypeStep(s, ".", "1.", "3.5 + 1.");
  }

  lemma DecimalCalculationStep7(s: CalculatorState)
    requires s.currentInput == "1." && s.expression == "3.5 + 1." && s.fullExpression == ["3.5", "+"]
    requires s.operator == Some("+") && !s.waitingForNewInput && !s.hasError
    ensures Press(s, "5") == CalculatorState("1.5", "3.5 + 1.5", ["3.5", "+"], Some("+"), false, false)
  {
    OpenLine(s.expression);
    assert s.fullExpression + ["1.5"] == ["3.5", "+", "1.5"];
    JoinThree("3.5", "+", "1.5");
    assert "3.5" + " " + "+" + " " + "1.5" == "3.5 + 1.5";
    assert s.currentInput + "5" == "1.5";
    TypeStep(s, "5", "1.5", "3.5 + 1.5");
  }

  lemma ThreeHalvesSum(a: string, o: string, b: string)
    requires a == "3.5" && o == "+" && b == "1.5"
    ensures var r := Evaluate(ReadFloat, [Text(a), Text(o), Text(b)]);
      r == Ok(Fin(5.0)) && Show(Round8(r.value)) == "5"
  {
    ReadOnePlace(a);
    assert ReadFloat(a) == Fin(3.5);
    ReadOnePlace(b);
    assert ReadFloat(b) == Fin(1.5);
    EvaluateTriple(ReadFloat, a, o, b);
    assert Evaluate(ReadFloat, [Text(a), Text(o), Text(b)]) == Ok(Fin(5.0));
    ShowsDigit(Evaluate(ReadFloat, [Text(a), Text(o), Text(b)]).value, 5, "5");
  }

  lemma DecimalCalculationStep8(s: CalculatorState)
    requires s.currentInput == "1.5" && s.expression == "3.5 + 1.5" && s.fullExpression == ["3.5", "+"]
    requires s.operator == Some("+") && !s.waitingForNewInput && !s.hasError
    ensures Press(s, "=") == CalculatorState("5", "3.5 + 1.5 = ", [], None, true, false)
  {
    assert "3.5 + 1.5" + ResultMarker == "3.5 + 1.5 = ";
    assert s.fullExpression + [s.currentInput] == ["3.5", "+", "1.5"];
    JoinThree("3.5", "+", "1.5");
    assert "3.5" + " " + "+" + " " + "1.5" == "3.5 + 1.5";
    CellsOfThree(s.fullExpression + [s.currentInput]);
    ThreeHalvesSum((s.fullExpression + [s.currentInput])[0], (s.fullExpression + [s.currentInput])[1], (s.fullExpression + [s.currentInput])[2]);
    EqualsAfter(s, Evaluate(ReadFloat, Cells(s.fullExpression + [s.currentInput])).value, "5", "3.5 + 1.5");
  }

  lemma DecimalCalculationUpTo1(keys: seq<string>)
    requires keys == ["3"]
    ensures Run(AfterClear(), keys) == CalculatorState("3", "3", [], None, false, false)
  {
    RunNext(AfterClear(), keys, 0);
    DecimalCalculationStep1(Run(AfterClear(), keys[..0]));
    assert keys[..1] == keys;
  }

  lemma DecimalCalculationUpTo2(keys: seq<string>)
    requires keys == ["3", "."]
    ensures Run(AfterClear(), keys) == CalculatorState("3.", "3.", [], None, false, false)
  {
    DecimalCalculationUpTo1(keys[..1]);
    RunNext(AfterClear(), keys, 1);
    DecimalCalculationStep2(Run(AfterClear(), keys[..1]));
    assert keys[..2] == keys;
  }

  lemma DecimalCalculationUpTo3(keys: seq<string>)
    requires keys == ["3", ".", "5"]
    ensures Run(AfterClear(), keys) == CalculatorState("3.5", "3.5", [], None, false, false)
  {
    DecimalCalculationUpTo2(keys[..2]);
    RunNext(AfterClear(), keys, 2);
    DecimalCalculationStep3(Run(AfterClear(), keys[..2]));
    assert keys[..3] == keys;
  }

  lemma DecimalCalculationUpTo4(keys: seq<string>)
    requires keys == ["3", ".", "5", "+"]
    ensures Run(AfterClear(), keys) == CalculatorState("3.5", "3.5 +", ["3.5", "+"], Some("+"), true, false)
  {
    DecimalCalculationUpTo3(keys[..3]);
    RunNext(AfterClear(), keys, 3);
    DecimalCalculationStep4(Run(AfterClear(), keys[..3]));
    assert keys[..4] == keys;
  }

  lemma DecimalCalculationUpTo5(keys: seq<string>)
    requires keys == ["3", ".", "5", "+", "1"]
    ensures Run(AfterClear(), keys) == CalculatorState("1", "3.5 + 1", ["3.5", "+"], Some("+"), false, false)
  {
    DecimalCalculationUpTo4(keys[..4]);
    RunNext(AfterClear(), keys, 4);
    DecimalCalculationStep5(Run(AfterClear(), keys[..4]));
    assert keys[..5] == keys;
  }

  lemma DecimalCalculationUpTo6(keys: seq<string>)
    requires keys == ["3", ".", "5", "+", "1", "."]
    ensures Run(AfterClear(), keys) == CalculatorState("1.", "3.5 + 1.", ["3.5", "+"], Some("+"), false, false)
  {
    DecimalCalculationUpTo5(keys[..5]);
    RunNext(AfterClear(), keys, 5);
    DecimalCalculationStep6(Run(AfterClear(), keys[..5]));
    assert keys[..6] == keys;
  }

  lemma DecimalCalculationUpTo7(keys: seq<string>)
    requires keys == ["3", ".", "5", "+", "1", ".", "5"]
    ensures Run(AfterClear(), keys) == CalculatorState("1.5", "3.5 + 1.5", ["3.5", "+"], Some("+"), false, false)
  {
    DecimalCalculationUpTo6(keys[..6]);
    RunNext(AfterClear(), keys, 6);
    DecimalCalculationStep7(Run(AfterClear(), keys[..6]));
    assert keys[..7] == keys;
  }

  lemma DecimalCalculationUpTo8(keys: seq<string>)
    requires keys == ["3", ".", "5", "+", "1", ".", "5", "="]
    ensures Run(AfterClear(), keys) == CalculatorState("5", "3.5 + 1.5 = ", [], None, true, false)
  {
    DecimalCalculationUpTo7(keys[..7]);
    RunNext(AfterClear(), keys, 7);
    DecimalCalculationStep8(Run(AfterClear(), keys[..7]));
    assert keys[..8] == keys;
  }

  /** `3 . 5 + 1 . 5 =` from a cleared engine ends with `3.5 + 1.5 = ` over `5`. */
  lemma DecimalCalculation(keys: seq<string>)
    requires keys == ["3", ".", "5", "+", "1", ".", "5", "="]
    ensures DisplayExpression(Run(AfterClear(), keys)) == "3.5 + 1.5 = "
    ensures DisplayResult(Run(AfterClear(), keys)) == "5"
  {
    DecimalCalculationUpTo8(keys);
  }

  lemma TogglePositiveToNegativeStep1(s: CalculatorState)
    requires s.currentInput == "0" && s.expression == "" && s.fullExpression == []
    requires s.operator == None && !s.waitingForNewInput && !s.hasError
    ensures Press(s, "2") == CalculatorState("2", "2", [], None, false, false)
  {
    OpenLine(s.expression);
    TypeStep(s, "2", "2", "2");
  }

  lemma TogglePositiveToNegativeStep2(s: CalculatorState)
    requires s.currentInput == "2" && s.expression == "2" && s.fullExpression == []
    requires s.operator == None && !s.waitingForNewInput && !s.hasError
    ensures Press(s, "5") == CalculatorState("25", "25", [], None, false, false)
  {
    OpenLine(s.expression);
    assert s.currentInput + "5" == "25";
    TypeStep(s, "5", "25", "25");
  }

  lemma TogglePositiveToNegativeStep3(s: CalculatorState)
    requires s.currentInput == "25" && s.expression == "25" && s.fullExpression == []
    requires s.operator == None && !s.waitingForNewInput && !s.hasError
    ensures Press(s, "+/-") == CalculatorState("-25", "-25", [], None, false, false)
  {
    assert !StartsWith(s.currentInput, "-") by {
      assert s.currentInput[..1][0] != '-';
    }
    assert "-" + s.currentInput == "-25";
    ToggleStep(s, "-25", "-25");
  }

  lemma TogglePositiveToNegativeUpTo1(keys: seq<string>)
    requires keys == ["2"]
    ensures Run(AfterClear(), keys) == CalculatorState("2", "2", [], None, false, false)
  {
    RunNext(AfterClear(), keys, 0);
    TogglePositiveToNegativeStep1(Run(AfterClear(), keys[..0]));
    assert keys[..1] == keys;
  }

  lemma TogglePositiveToNegativeUpTo2(keys: seq<string>)
    requires keys == ["2", "5"]
    ensures Run(AfterClear(), keys) == CalculatorState("25", "25", [], None, false, false)
  {
    TogglePositiveToNegativeUpTo1(keys[..1]);
    RunNext(AfterClear(), keys, 1);
    TogglePositiveToNegativeStep2(Run(AfterClear(), keys[..1]));
    assert keys[..2] == keys;
  }

  lemma TogglePositiveToNegativeUpTo3(keys: seq<string>)
    requires keys == ["2", "5", "+/-"]
    ensures Run(AfterClear(), keys) == CalculatorState("-25", "-25", [], None, false, false)
  {
    TogglePositiveToNegativeUpTo2(keys[..2]);
    RunNext(AfterClear(), keys, 2);
    TogglePositiveToNegativeStep3(Run(AfterClear(), keys[..2]));
    assert keys[..3] == keys;
  }

  /** `2 5 +/-` from a cleared engine ends with `-25` over `-25`. */
  lemma TogglePositiveToNegative(keys: seq<string>)
    requires keys == ["2", "5", "+/-"]
    ensures DisplayExpression(Run(AfterClear(), keys)) == "-25"
    ensures DisplayResult(Run(AfterClear(), keys)) == "-25"
  {
    TogglePositiveToNegativeUpTo3(keys);
  }

  lemma DoubleToggleStep1(s: CalculatorState)
    requires s.currentInput == "0" && s.expression == "" && s.fullExpression == []
    requires s.operator == None && !s.waitingForNewInput && !s.hasError
    ensures Press(s, "1") == CalculatorState("1", "1", [], None, false, false)
  {
    OpenLine(s.expression);
    TypeStep(s, "1", "1", "1");
  }

  lemma DoubleToggleStep2(s: CalculatorState)
    requires s.currentInput == "1" && s.expression == "1" && s.fullExpression == []
    requires s.operator == None && !s.waitingForNewInput && !s.hasError
    ensures Press(s, "0") == CalculatorState("10", "10", [], None, false, false)
  {
    OpenLine(s.expression);
    assert s.currentInput + "0" == "10";
    TypeStep(s, "0", "10", "10");
  }

  lemma DoubleToggleStep3(s: CalculatorState)
    requires s.currentInput == "10" && s.expression == "10" && s.fullExpression == []
    requires s.operator == None && !s.waitingForNewInput && !s.hasError
    ensures Press(s, "+/-") == CalculatorState("-10", "-10", [], None, false, false)
  {
    assert !StartsWith(s.currentInput, "-") by {
      assert s.currentInput[..1][0] != '-';
    }
    assert "-" + s.currentInput == "-10";
    ToggleStep(s, "-10", "-10");
  }

  lemma DoubleToggleStep4(s: CalculatorState)
    requires s.currentInput == "-10" && s.expression == "-10" && s.fullExpression == []
    requires s.operator == None && !s.waitingForNewInput && !s.hasError
    ensures Press(s, "+/-") == CalculatorState("10", "10", [], None, false, false)
  {
    assert StartsWith(s.currentInput, "-");
    assert s.currentInput[1..] == "10";
    ToggleStep(s, "10", "10");
  }

  lemma DoubleToggleUpTo1(keys: seq<string>)
    requires keys == ["1"]
    ensures Run(AfterClear(), keys) == CalculatorState("1", "1", [], None, false, false)
  {
    RunNext(AfterClear(), keys, 0);
    DoubleToggleStep1(Run(AfterClear(), keys[..0]));
    assert keys[..1] == keys;
  }

  lemma DoubleToggleUpTo2(keys: seq<string>)
    requires keys == ["1", "0"]
    ensures Run(AfterClear(), keys) == CalculatorState("10", "10", [], None, false, false)
  {
    DoubleToggleUpTo1(keys[..1]);
    RunNext(AfterClear(), keys, 1);
    DoubleToggleStep2(Run(AfterClear(), keys[..1]));
    assert keys[..2] == keys;
  }

  lemma DoubleToggleUpTo3(keys: seq<string>)
    requires keys == ["1", "0", "+/-"]
    ensures Run(AfterClear(), keys) == CalculatorState("-10", "-10", [], None, false, false)
  {
    DoubleToggleUpTo2(keys[..2]);
    RunNext(AfterClear(), keys, 2);
    DoubleToggleStep3(Run(AfterClear(), keys[..2]));
    assert keys[..3] == keys;
  }

  lemma DoubleToggleUpTo4(keys: seq<string>)
    requires keys == ["1", "0", "+/-", "+/-"]
    ensures Run(AfterClear(), keys) == CalculatorState("10", "10", [], None, false, false)
  {
    DoubleToggleUpTo3(keys[..3]);
    RunNext(AfterClear(), keys, 3);
    DoubleToggleStep4(Run(AfterClear(), keys[..3]));
    assert keys[..4] == keys;
  }

  /** `1 0 +/- +/-` from a cleared engine ends with `10` over `10`. */
  lemma DoubleToggle(keys: seq<string>)
    requires keys == ["1", "0", "+/-", "+/-"]
    ensures DisplayExpression(Run(AfterClear(), keys)) == "10"
    ensures DisplayResult(Run(AfterClear(), keys)) == "10"
  {
    DoubleToggleUpTo4(keys);
  }

  lemma NegativeNumberInCalculationStep1(s: CalculatorState)
    requires s.currentInput == "0" && s.expression == "" && s.fullExpression == []
    requires s.operator == None && !s.waitingForNewInput && !s.hasError
    ensures Press(s, "3") == CalculatorState("3", "3", [], None, false, false)
  {
    OpenLine(s.expression);
    TypeStep(s, "3", "3", "3");
  }

  lemma NegativeNumberInCalculationStep2(s: CalculatorState)
    requires s.currentInput == "3" && s.expression == "3" && s.fullExpression == []
    requires s.operator == None && !s.waitingForNewInput && !s.hasError
    ensures Press(s, "+/-") == CalculatorState("-3", "-3", [], None, false, false)
  {
    assert !StartsWith(s.currentInput, "-") by {
      assert s.currentInput[..1][0] != '-';
    }
    assert "-" + s.currentInput == "-3";
    ToggleStep(s, "-3", "-3");
  }

  lemma NegativeNumberInCalculationStep3(s: CalculatorState)
    requires s.currentInput == "-3" && s.expression == "-3" && s.fullExpression == []
    requires s.operator == None && !s.waitingForNewInput && !s.hasError
    ensures Press(s, "+") == CalculatorState("-3", "-3 +", ["-3", "+"], Some("+"), true, false)
  {
    OpenLine(s.expression);
    assert s.fullExpression + [s.currentInput, "+"] == ["-3", "+"];
    JoinTwo("-3", "+");
    assert "-3" + " " + "+" == "-3 +";
    OperatorStep(s, "+", "-3 +");
  }

  lemma NegativeNumberInCalculationStep4(s: CalculatorState)
    requires s.currentInput == "-3" && s.expression == "-3 +" && s.fullExpression == ["-3", "+"]
    requires s.operator == Some("+") && s.waitingForNewInput && !s.hasError
    ensures Press(s, "2") == CalculatorState("2", "-3 + 2", ["-3", "+"], Some("+"), false, false)
  {
    OpenLine(s.expression);
    assert s.fullExpression + ["2"] == ["-3", "+", "2"];
    JoinThree("-3", "+", "2");
    assert "-3" + " " + "+" + " " + "2" == "-3 + 2";
    TypeStep(s, "2", "2", "-3 + 2");
  }

  lemma MinusThreePlusTwo(a: string, o: string, b: string)
    requires a == "-3" && o == "+" && b == "2"
    ensures var r := Evaluate(ReadFloat, [Text(a), Text(o), Text(b)]);
      r == Ok(Fin(-1.0)) && Show(Round8(r.value)) == "-1"
  {
    ReadNegativeDigit(a);
    assert ReadFloat(a) == Fin((-3.0));
    ReadNatural(b);
    DigitsValueOne(b);
    assert ReadFloat(b) == Fin(2.0);
    EvaluateTriple(ReadFloat, a, o, b);
    assert Evaluate(ReadFloat, [Text(a), Text(o), Text(b)]) == Ok(Fin(-1.0));
    ShowsNegativeDigit(Evaluate(ReadFloat, [Text(a), Text(o), Text(b)]).value, -1, "-1");
  }

  lemma NegativeNumberInCalculationStep5(s: CalculatorState)
    requires s.currentInput == "2" && s.expression == "-3 + 2" && s.fullExpression == ["-3", "+"]
    requires s.operator == Some("+") && !s.waitingForNewInput && !s.hasError
    ensures Press(s, "=") == CalculatorState("-1", "-3 + 2 = ", [], None, true, false)
  {
    assert "-3 + 2" + ResultMarker == "-3 + 2 = ";
    assert s.fullExpression + [s.currentInput] == ["-3", "+", "2"];
    JoinThree("-3", "+", "2");
    assert "-3" + " " + "+" + " " + "2" == "-3 + 2";
    CellsOfThree(s.fullExpression + [s.currentInput]);
    MinusThreePlusTwo((s.fullExpression + [s.currentInput])[0], (s.fullExpression + [s.currentInput])[1], (s.fullExpression + [s.currentInput])[2]);
    EqualsAfter(s, Evaluate(ReadFloat, Cells(s.fullExpression + [s.currentInput])).value, "-1", "-3 + 2");
  }

  lemma NegativeNumberInCalculationUpTo1(keys: seq<string>)
    requires keys == ["3"]
    ensures Run(AfterClear(), keys) == CalculatorState("3", "3", [], None, false, false)
  {
    RunNext(AfterClear(), keys, 0);
    NegativeNumberInCalculationStep1(Run(AfterClear(), keys[..0]));
    assert keys[..1] == keys;
  }

  lemma NegativeNumberInCalculationUpTo2(keys: seq<string>)
    requires keys == ["3", "+/-"]
    ensures Run(AfterClear(), keys) == CalculatorState("-3", "-3", [], None, false, false)
  {
    NegativeNumberInCalculationUpTo1(keys[..1]);
    RunNext(AfterClear(), keys, 1);
    NegativeNumberInCalculationStep2(Run(AfterClear(), keys[..1]));
    assert keys[..2] == keys;
  }

  lemma NegativeNumberInCalculationUpTo3(keys: seq<string>)
    requires keys == ["3", "+/-", "+"]
    ensures Run(AfterClear(), keys) == CalculatorState("-3", "-3 +", ["-3", "+"], Some("+"), true, false)
  {
    NegativeNumberInCalculationUpTo2(keys[..2]);
    RunNext(AfterClear(), keys, 2);
    NegativeNumberInCalculationStep3(Run(AfterClear(), keys[..2]));
    assert keys[..3] == keys;
  }

  lemma NegativeNumberInCalculationUpTo4(keys: seq<string>)
    requires keys == ["3", "+/-", "+", "2"]
    ensures Run(AfterClear(), keys) == CalculatorState("2", "-3 + 2", ["-3", "+"], Some("+"), false, false)
  {
    NegativeNumberInCalculationUpTo3(keys[..3]);
    RunNext(AfterClear(), keys, 3);
    NegativeNumberInCalculationStep4(Run(AfterClear(), keys[..3]));
    assert keys[..4] == keys;
  }

  lemma NegativeNumberInCalculationUpTo5(keys: seq<string>)
    requires keys == ["3", "+/-", "+", "2", "="]
    ensures Run(AfterClear(), keys) == CalculatorState("-1", "-3 + 2 = ", [], None, true, false)
  {
    NegativeNumberInCalculationUpTo4(keys[..4]);
    RunNext(AfterClear(), keys, 4);
    NegativeNumberInCalculationStep5(Run(AfterClear(), keys[..4]));
    assert keys[..5] == keys;
  }

  /** `3 +/- + 2 =` from a cleared engine ends with `-3 + 2 = ` over `-1`. */
  lemma NegativeNumberInCalculation(keys: seq<string>)
    requires keys == ["3", "+/-", "+", "2", "="]
    ensures DisplayExpression(Run(AfterClear(), keys)) == "-3 + 2 = "
    ensures DisplayResult(Run(AfterClear(), keys)) == "-1"
  {
    NegativeNumberInCalculationUpTo5(keys);
  }

  lemma ToggleSignDuringExpressionStep1(s: CalculatorState)
    requires s.currentInput == "0" && s.expression == "" && s.fullExpression == []
    requires s.operator == None && !s.waitingForNewInput && !s.hasError
    ensures Press(s, "8") == CalculatorState("8", "8", [], None, false, false)
  {
    OpenLine(s.expression);
    TypeStep(s, "8", "8", "8");
  }

  lemma ToggleSignDuringExpressionStep2(s: CalculatorState)
    requires s.currentInput == "8" && s.expression == "8" && s.fullExpression == []
    requires s.operator == None && !s.waitingForNewInput && !s.hasError
    ensures Press(s, "-") == CalculatorState("8", "8 -", ["8", "-"], Some("-"), true, false)
  {
    OpenLine(s.expression);
    assert s.fullExpression + [s.currentInput, "-"] == ["8", "-"];
    JoinTwo("8", "-");
    assert "8" + " " + "-" == "8 -";
    OperatorStep(s, "-", "8 -");
  }

  lemma ToggleSignDuringExpressionStep3(s: CalculatorState)
    requires s.currentInput == "8" && s.expression == "8 -" && s.fullExpression == ["8", "-"]
    requires s.operator == Some("-") && s.waitingForNewInput && !s.hasError
    ensures Press(s, "5") == CalculatorState("5", "8 - 5", ["8", "-"], Some("-"), false, false)
  {
    OpenLine(s.expression);
    assert s.fullExpression + ["5"] == ["8", "-", "5"];
    JoinThree("8", "-", "5");
    assert "8" + " " + "-" + " " + "5" == "8 - 5";
    TypeStep(s, "5", "5", "8 - 5");
  }

  lemma ToggleSignDuringExpressionStep4(s: CalculatorState)
    requires s.currentInput == "5" && s.expression == "8 - 5" && s.fullExpression == ["8", "-"]
    requires s.operator == Some("-") && !s.waitingForNewInput && !s.hasError
    ensures Press(s, "+/-") == CalculatorState("-5", "8 - -5", ["8", "-"], Some("-"), false, false)
  {
    assert s.fullExpression + ["-5"] == ["8", "-", "-5"];
    JoinThree("8", "-", "-5");
    assert "8" + " " + "-" + " " + "-5" == "8 - -5";
    assert !StartsWith(s.currentInput, "-") by {
      assert s.currentInput[..1][0] != '-';
    }
    assert "-" + s.currentInput == "-5";
    ToggleStep(s, "-5", "8 - -5");
  }

  lemma EightMinusMinusFive(a: string, o: string, b: string)
    requires a == "8" && o == "-" && b == "-5"
    ensures var r := Evaluate(ReadFloat, [Text(a), Text(o), Text(b)]);
      r == Ok(Fin(13.0)) && Show(Round8(r.value)) == "13"
  {
    ReadNatural(a);
    DigitsValueOne(a);
    assert ReadFloat(a) == Fin(8.0);
    ReadNegativeDigit(b);
    assert ReadFloat(b) == Fin((-5.0));
    EvaluateTriple(ReadFloat, a, o, b);
    assert Evaluate(ReadFloat, [Text(a), Text(o), Text(b)]) == Ok(Fin(13.0));
    ShowsTwoDigits(Evaluate(ReadFloat, [Text(a), Text(o), Text(b)]).value, 13, "13");
  }

  lemma ToggleSignDuringExpressionStep5(s: CalculatorState)
    requires s.currentInput == "-5" && s.expression == "8 - -5" && s.fullExpression == ["8", "-"]
    requires s.operator == Some("-") && !s.waitingForNewInput && !s.hasError
    ensures Press(s, "=") == CalculatorState("13", "8 - -5 = ", [], None, true, false)
  {
    assert "8 - -5" + ResultMarker == "8 - -5 = ";
    assert s.fullExpression + [s.currentInput] == ["8", "-", "-5"];
    JoinThree("8", "-", "-5");
    assert "8" + " " + "-" + " " + "-5" == "8 - -5";
    CellsOfThree(s.fullExpression + [s.currentInput]);
    EightMinusMinusFive((s.fullExpression + [s.currentInput])[0], (s.fullExpression + [s.currentInput])[1], (s.fullExpression + [s.currentInput])[2]);
    EqualsAfter(s, Evaluate(ReadFloat, Cells(s.fullExpression + [s.currentInput])).value, "13", "8 - -5");
  }

  lemma ToggleSignDuringExpressionUpTo1(keys: seq<string>)
    requires keys == ["8"]
    ensures Run(AfterClear(), keys) == CalculatorState("8", "8", [], None, false, false)
  {
    RunNext(AfterClear(), keys, 0);
    ToggleSignDuringExpressionStep1(Run(AfterClear(), keys[..0]));
    assert keys[..1] == keys;
  }

  lemma ToggleSignDuringExpressionUpTo2(keys: seq<string>)
    requires keys == ["8", "-"]
    ensures Run(AfterClear(), keys) == CalculatorState("8", "8 -", ["8", "-"], Some("-"), true, false)
  {
    ToggleSignDuringExpressionUpTo1(keys[..1]);
    RunNext(AfterClear(), keys, 1);
    ToggleSignDuringExpressionStep2(Run(AfterClear(), keys[..1]));
    assert keys[..2] == keys;
  }

  lemma ToggleSignDuringExpressionUpTo3(keys: seq<string>)
    requires keys == ["8", "-", "5"]
    ensures Run(AfterClear(), keys) == CalculatorState("5", "8 - 5", ["8", "-"], Some("-"), false, false)
  {
    ToggleSignDuringExpressionUpTo2(keys[..2]);
    RunNext(AfterClear(), keys, 2);
    ToggleSignDuringExpressionStep3(Run(AfterClear(), keys[..2]));
    assert keys[..3] == keys;
  }

  lemma ToggleSignDuringExpressionUpTo4(keys: seq<string>)
    requires keys == ["8", "-", "5", "+/-"]
    ensures Run(AfterClear(), keys) == CalculatorState("-5", "8 - -5", ["8", "-"], Some("-"), false, false)
  {
    ToggleSignDuringExpressionUpTo3(keys[..3]);
    RunNext(AfterClear(), keys, 3);
    ToggleSignDuringExpressionStep4(Run(AfterClear(), keys[..3]));
    assert keys[..4] == keys;
  }

  lemma ToggleSignDuringExpressionUpTo5(keys: seq<string>)
    requires keys == ["8", "-", "5", "+/-", "="]
    ensures Run(AfterClear(), keys) == CalculatorState("13", "8 - -5 = ", [], None, true, false)
  {
    ToggleSignDuringExpressionUpTo4(keys[..4]);
    RunNext(AfterClear(), keys, 4);
    ToggleSignDuringExpressionStep5(Run(AfterClear(), keys[..4]));
    assert keys[..5] == keys;
  }

  /** `8 - 5 +/- =` from a cleared engine ends with `8 - -5 = ` over `13`. */
  lemma ToggleSignDuringExpression(keys: seq<string>)
    requires keys == ["8", "-", "5", "+/-", "="]
    ensures DisplayExpression(Run(AfterClear(), keys)) == "8 - -5 = "
    ensures DisplayResult(Run(AfterClear(), keys)) == "13"
  {
    ToggleSignDuringExpressionUpTo5(keys);
  }

  lemma BasicPercentageStep1(s: CalculatorState)
    requires s.currentInput == "0" && s.expression == "" && s.fullExpression == []
    requires s.operator == None && !s.waitingForNewInput && !s.hasError
    ensures Press(s, "5") == CalculatorState("5", "5", [], None, false, false)
  {
    OpenLine(s.expression);
    TypeStep(s, "5", "5", "5");
  }

  lemma BasicPercentageStep2(s: CalculatorState)
    requires s.currentInput == "5" && s.expression == "5" && s.fullExpression == []
    requires s.operator == None && !s.waitingForNewInput && !s.hasError
    ensures Press(s, "0") == CalculatorState("50", "50", [], None, false, false)
  {
    OpenLine(s.expression);
    assert s.currentInput + "0" == "50";
    TypeStep(s, "0", "50", "50");
  }

  lemma PercentOf50(t: string)
    requires t == "50"
    ensures ParseFloat(t) == Dec(50, 0) && PercentText(ParseFloat(t)) == "0.5"
  {
    DigitsValueTwo(t);
    assert Pow10(8) == 100000000 && Pow10(9) == 1000000000;
    PercentBelowHundred(t, 5, 9, "0.5");
  }

  lemma BasicPercentageStep3(s: CalculatorState)
    requires s.currentInput == "50" && s.expression == "50" && s.fullExpression == []
    requires s.operator == None && !s.waitingForNewInput && !s.hasError
    ensures Press(s, "%") == CalculatorState("0.5", "0.5", [], None, false, false)
  {
    PercentOf50(s.currentInput);
    PercentStep(s, "0.5");
  }

  lemma BasicPercentageUpTo1(keys: seq<string>)
    requires keys == ["5"]
    ensures Run(AfterClear(), keys) == CalculatorState("5", "5", [], None, false, false)
  {
    RunNext(AfterClear(), keys, 0);
    BasicPercentageStep1(Run(AfterClear(), keys[..0]));
    assert keys[..1] == keys;
  }

  lemma BasicPercentageUpTo2(keys: seq<string>)
    requires keys == ["5", "0"]
    ensures Run(AfterClear(), keys) == CalculatorState("50", "50", [], None, false, false)
  {
    BasicPercentageUpTo1(keys[..1]);
    RunNext(AfterClear(), keys, 1);
    BasicPercentageStep2(Run(AfterClear(), keys[..1]));
    assert keys[..2] == keys;
  }

  lemma BasicPercentageUpTo3(keys: seq<string>)
    requires keys == ["5", "0", "%"]
    ensures Run(AfterClear(), keys) == CalculatorState("0.5", "0.5", [], None, false, false)
  {
    BasicPercentageUpTo2(keys[..2]);
    RunNext(AfterClear(), keys, 2);
    BasicPercentageStep3(Run(AfterClear(), keys[..2]));
    assert keys[..3] == keys;
  }

  /** `5 0 %` from a cleared engine ends with `0.5` over `0.5`. */
  lemma BasicPercentage(keys: seq<string>)
    requires keys == ["5", "0", "%"]
    ensures DisplayExpression(Run(AfterClear(), keys)) == "0.5"
    ensures DisplayResult(Run(AfterClear(), keys)) == "0.5"
  {
    BasicPercentageUpTo3(keys);
  }

  lemma PercentageConversionStep1(s: CalculatorState)
    requires s.currentInput == "0" && s.expression == "" && s.fullExpression == []
    requires s.operator == None && !s.waitingForNewInput && !s.hasError
    ensures Press(s, "2") == CalculatorState("2", "2", [], None, false, false)
  {
    OpenLine(s.expression);
    TypeStep(s, "2", "2", "2");
  }

  lemma PercentageConversionStep2(s: CalculatorState)
    requires s.currentInput == "2" && s.expression == "2" && s.fullExpression == []
    requires s.operator == None && !s.waitingForNewInput && !s.hasError
    ensures Press(s, "5") == CalculatorState("25", "25", [], None, false, false)
  {
    OpenLine(s.expression);
    assert s.currentInput + "5" == "25";
    TypeStep(s, "5", "25", "25");
  }

  lemma PercentOf25(t: string)
    requires t == "25"
    ensures ParseFloat(t) == Dec(25, 0) && PercentText(ParseFloat(t)) == "0.25"
  {
    DigitsValueTwo(t);
    assert Pow10(8) == 100000000;
    PercentBelowHundred(t, 25, 8, "0.25");
  }

  lemma PercentageConversionStep3(s: CalculatorState)
    requires s.currentInput == "25" && s.expression == "25" && s.fullExpression == []
    requires s.operator == None && !s.waitingForNewInput && !s.hasError
    ensures Press(s, "%") == CalculatorState("0.25", "0.25", [], None, false, false)
  {
    PercentOf25(s.currentInput);
    PercentStep(s, "0.25");
  }

  lemma PercentageConversionUpTo1(keys: seq<string>)
    requires keys == ["2"]
    ensures Run(AfterClear(), keys) == CalculatorState("2", "2", [], None, false, false)
  {
    RunNext(AfterClear(), keys, 0);
    PercentageConversionStep1(Run(AfterClear(), keys[..0]));
    assert keys[..1] == keys;
  }

  lemma PercentageConversionUpTo2(keys: seq<string>)
    requires keys == ["2", "5"]
    ensures Run(AfterClear(), keys) == CalculatorState("25", "25", [], None, false, false)
  {
    PercentageConversionUpTo1(keys[..1]);
    RunNext(AfterClear(), keys, 1);
    PercentageConversionStep2(Run(AfterClear(), keys[..1]));
    assert keys[..2] == keys;
  }

  lemma PercentageConversionUpTo3(keys: seq<string>)
    requires keys == ["2", "5", "%"]
    ensures Run(AfterClear(), keys) == CalculatorState("0.25", "0.25", [], None, false, false)
  {
    PercentageConversionUpTo2(keys[..2]);
    RunNext(AfterClear(), keys, 2);
    PercentageConversionStep3(Run(AfterClear(), keys[..2]));
    assert keys[..3] == keys;
  }

  /** `2 5 %` from a cleared engine ends with `0.25` over `0.25`. */
  lemma PercentageConversion(keys: seq<string>)
    requires keys == ["2", "5", "%"]
    ensures DisplayExpression(Run(AfterClear(), keys)) == "0.25"
    ensures DisplayResult(Run(AfterClear(), keys)) == "0.25"
  {
    PercentageConversionUpTo3(keys);
  }

  lemma PercentageInCalculationStep1(s: CalculatorState)
    requires s.currentInput == "0" && s.expression == "" && s.fullExpression == []
    requires s.operator == None && !s.waitingForNewInput && !s.hasError
    ensures Press(s, "2") == CalculatorState("2", "2", [], None, false, false)
  {
    OpenLine(s.expression);
    TypeStep(s, "2", "2", "2");
  }

  lemma PercentageInCalculationStep2(s: CalculatorState)
    requires s.currentInput == "2" && s.expression == "2" && s.fullExpression == []
    requires s.operator == None && !s.waitingForNewInput && !s.hasError
    ensures Press(s, "0") == CalculatorState("20", "20", [], None, false, false)
  {
    OpenLine(s.expression);
    assert s.currentInput + "0" == "20";
    TypeStep(s, "0", "20", "20");
  }

  lemma PercentageInCalculationStep3(s: CalculatorState)
    requires s.currentInput == "20" && s.expression == "20" && s.fullExpression == []
    requires s.operator == None && !s.waitingForNewInput && !s.hasError
    ensures Press(s, "0") == CalculatorState("200", "200", [], None, false, false)
  {
    OpenLine(s.expression);
    assert s.currentInput + "0" == "200";
    TypeStep(s, "0", "200", "200");
  }

  lemma PercentageInCalculationStep4(s: CalculatorState)
    requires s.currentInput == "200" && s.expression == "200" && s.fullExpression == []
    requires s.operator == None && !s.waitingForNewInput && !s.hasError
    ensures Press(s, "×") == CalculatorState("200", "200 ×", ["200", "×"], Some("×"), true, false)
  {
    OpenLine(s.expression);
    assert s.fullExpression + [s.currentInput, "×"] == ["200", "×"];
    JoinTwo("200", "×");
    assert "200" + " " + "×" == "200 ×";
    OperatorStep(s, "×", "200 ×");
  }

  lemma PercentageInCalculationStep5(s: CalculatorState)
    requires s.currentInput == "200" && s.expression == "200 ×" && s.fullExpression == ["200", "×"]
    requires s.operator == Some("×") && s.waitingForNewInput && !s.hasError
    ensures Press(s, "2") == CalculatorState("2", "200 × 2", ["200", "×"], Some("×"), false, false)
  {
    OpenLine(s.expression);
    assert s.fullExpression + ["2"] == ["200", "×", "2"];
    JoinThree("200", "×", "2");
    assert "200" + " " + "×" + " " + "2" == "200 × 2";
    TypeStep(s, "2", "2", "200 × 2");
  }

  lemma PercentageInCalculationStep6(s: CalculatorState)
    requires s.currentInput == "2" && s.expression == "200 × 2" && s.fullExpression == ["200", "×"]
    requires s.operator == Some("×") && !s.waitingForNewInput && !s.hasError
    ensures Press(s, "5") == CalculatorState("25", "200 × 25", ["200", "×"], Some("×"), false, false)
  {
    OpenLine(s.expression);
    assert s.fullExpression + ["25"] == ["200", "×", "25"];
    JoinThree("200", "×", "25");
    assert "200" + " " + "×" + " " + "25" == "200 × 25";
    assert s.currentInput + "5" == "25";
    TypeStep(s, "5", "25", "200 × 25");
  }

  lemma PercentageInCalculationStep7(s: CalculatorState)
    requires s.currentInput == "25" && s.expression == "200 × 25" && s.fullExpression == ["200", "×"]
    requires s.operator == Some("×") && !s.waitingForNewInput && !s.hasError
    ensures Press(s, "%") == CalculatorState("0.25", "200 × 0.25", ["200", "×"], Some("×"), false, false)
  {
    assert "200" + " " + "×" + " " + "0.25" == "200 × 0.25";
    PercentOf25(s.currentInput);
    PercentAfterOperator(s, "0.25");
  }

  lemma TwoHundredTimesQuarter(a: string, o: string, b: string)
    requires a == "200" && o == "×" && b == "0.25"
    ensures var r := Evaluate(ReadFloat, [Text(a), Text(o), Text(b)]);
      r == Ok(Fin(50.0)) && Show(Round8(r.value)) == "50"
  {
    ReadNatural(a);
    DigitsValueThree(a);
    assert ReadFloat(a) == Fin(200.0);
    ReadTwoPlaces(b);
    assert ReadFloat(b) == Fin(0.25);
    EvaluateTriple(ReadFloat, a, o, b);
    assert Evaluate(ReadFloat, [Text(a), Text(o), Text(b)]) == Ok(Fin(50.0));
    ShowsTwoDigits(Evaluate(ReadFloat, [Text(a), Text(o), Text(b)]).value, 50, "50");
  }

  lemma PercentageInCalculationStep8(s: CalculatorState)
    requires s.currentInput == "0.25" && s.expression == "200 × 0.25" && s.fullExpression == ["200", "×"]
    requires s.operator == Some("×") && !s.waitingForNewInput && !s.hasError
    ensures Press(s, "=") == CalculatorState("50", "200 × 0.25 = ", [], None, true, false)
  {
    assert "200 × 0.25" + ResultMarker == "200 × 0.25 = ";
    assert s.fullExpression + [s.currentInput] == ["200", "×", "0.25"];
    JoinThree("200", "×", "0.25");
    assert "200" + " " + "×" + " " + "0.25" == "200 × 0.25";
    CellsOfThree(s.fullExpression + [s.currentInput]);
    TwoHundredTimesQuarter((s.fullExpression + [s.currentInput])[0], (s.fullExpression + [s.currentInput])[1], (s.fullExpression + [s.currentInput])[2]);
    EqualsAfter(s, Evaluate(ReadFloat, Cells(s.fullExpression + [s.currentInput])).value, "50", "200 × 0.25");
  }

  lemma PercentageInCalculationUpTo1(keys: seq<string>)
    requires keys == ["2"]
    ensures Run(AfterClear(), keys) == CalculatorState("2", "2", [], None, false, false)
  {
    RunNext(AfterClear(), keys, 0);
    PercentageInCalculationStep1(Run(AfterClear(), keys[..0]));
    assert keys[..1] == keys;
  }

  lemma PercentageInCalculationUpTo2(keys: seq<string>)
    requires keys == ["2", "0"]
    ensures Run(AfterClear(), keys) == CalculatorState("20", "20", [], None, false, false)
  {
    PercentageInCalculationUpTo1(keys[..1]);
    RunNext(AfterClear(), keys, 1);
    PercentageInCalculationStep2(Run(AfterClear(), keys[..1]));
    assert keys[..2] == keys;
  }

  lemma PercentageInCalculationUpTo3(keys: seq<string>)
    requires keys == ["2", "0", "0"]
    ensures Run(AfterClear(), keys) == CalculatorState("200", "200", [], None, false, false)
  {
    PercentageInCalculationUpTo2(keys[..2]);
    RunNext(AfterClear(), keys, 2);
    PercentageInCalculationStep3(Run(AfterClear(), keys[..2]));
    assert keys[..3] == keys;
  }

  lemma PercentageInCalculationUpTo4(keys: seq<string>)
    requires keys == ["2", "0", "0", "×"]
    ensures Run(AfterClear(), keys) == CalculatorState("200", "200 ×", ["200", "×"], Some("×"), true, false)
  {
    PercentageInCalculationUpTo3(keys[..3]);
    RunNext(AfterClear(), keys, 3);
    PercentageInCalculationStep4(Run(AfterClear(), keys[..3]));
    assert keys[..4] == keys;
  }

  lemma PercentageInCalculationUpTo5(keys: seq<string>)
    requires keys == ["2", "0", "0", "×", "2"]
    ensures Run(AfterClear(), keys) == CalculatorState("2", "200 × 2", ["200", "×"], Some("×"), false, false)
  {
    PercentageInCalculationUpTo4(keys[..4]);
    RunNext(AfterClear(), keys, 4);
    PercentageInCalculationStep5(Run(AfterClear(), keys[..4]));
    assert keys[..5] == keys;
  }

  lemma PercentageInCalculationUpTo6(keys: seq<string>)
    requires keys == ["2", "0", "0", "×", "2", "5"]
    ensures Run(AfterClear(), keys) == CalculatorState("25", "200 × 25", ["200", "×"], Some("×"), false, false)
  {
    PercentageInCalculationUpTo5(keys[..5]);
    RunNext(AfterClear(), keys, 5);
    PercentageInCalculationStep6(Run(AfterClear(), keys[..5]));
    assert keys[..6] == keys;
  }

  lemma PercentageInCalculationUpTo7(keys: seq<string>)
    requires keys == ["2", "0", "0", "×", "2", "5", "%"]
    ensures Run(AfterClear(), keys) == CalculatorState("0.25", "200 × 0.25", ["200", "×"], Some("×"), false, false)
  {
    PercentageInCalculationUpTo6(keys[..6]);
    RunNext(AfterClear(), keys, 6);
    PercentageInCalculationStep7(Run(AfterClear(), keys[..6]));
    assert keys[..7] == keys;
  }

  lemma PercentageInCalculationUpTo8(keys: seq<string>)
    requires keys == ["2", "0", "0", "×", "2", "5", "%", "="]
    ensures Run(AfterClear(), keys) == CalculatorState("50", "200 × 0.25 = ", [], None, true, false)
  {
    PercentageInCalculationUpTo7(keys[..7]);
    RunNext(AfterClear(), keys, 7);
    PercentageInCalculationStep8(Run(AfterClear(), keys[..7]));
    assert keys[..8] == keys;
  }

  /** `2 0 0 × 2 5 % =` from a cleared engine ends with `200 × 0.25 = ` over `50`. */
  lemma PercentageInCalculation(keys: seq<string>)
    requires keys == ["2", "0", "0", "×", "2", "5", "%", "="]
    ensures DisplayExpression(Run(AfterClear(), keys)) == "200 × 0.25 = "
    ensures DisplayResult(Run(AfterClear(), keys)) == "50"
  {
    PercentageInCalculationUpTo8(keys);
  }

  lemma PercentageOver100Step1(s: CalculatorState)
    requires s.currentInput == "0" && s.expression == "" && s.fullExpression == []
    requires s.operator == None && !s.waitingForNewInput && !s.hasError
    ensures Press(s, "1") == CalculatorState("1", "1", [], None, false, false)
  {
    OpenLine(s.expression);
    TypeStep(s, "1", "1", "1");
  }

  lemma PercentageOver100Step2(s: CalculatorState)
    requires s.currentInput == "1" && s.expression == "1" && s.fullExpression == []
    requires s.operator == None && !s.waitingForNewInput && !s.hasError
    ensures Press(s, "5") == CalculatorState("15", "15", [], None, false, false)
  {
    OpenLine(s.expression);
    assert s.currentInput + "5" == "15";
    TypeStep(s, "5", "15", "15");
  }

  lemma PercentageOver100Step3(s: CalculatorState)
    requires s.currentInput == "15" && s.expression == "15" && s.fullExpression == []
    requires s.operator == None && !s.waitingForNewInput && !s.hasError
    ensures Press(s, "0") == CalculatorState("150", "150", [], None, false, false)
  {
    OpenLine(s.expression);
    assert s.currentInput + "0" == "150";
    TypeStep(s, "0", "150", "150");
  }

  lemma PercentOf150(t: string)
    requires t == "150"
    ensures ParseFloat(t) == Dec(150, 0) && PercentText(ParseFloat(t)) == "1.5"
  {
    DigitsValueThree(t);
    assert Pow10(8) == 100000000 && Pow10(9) == 1000000000;
    PercentAboveHundred(t, 15, 9, "1.5");
  }

  lemma PercentageOver100Step4(s: CalculatorState)
    requires s.currentInput == "150" && s.expression == "150" && s.fullExpression == []
    requires s.operator == None && !s.waitingForNewInput && !s.hasError
    ensures Press(s, "%") == CalculatorState("1.5", "1.5", [], None, false, false)
  {
    PercentOf150(s.currentInput);
    PercentStep(s, "1.5");
  }

  lemma PercentageOver100UpTo1(keys: seq<string>)
    requires keys == ["1"]
    ensures Run(AfterClear(), keys) == CalculatorState("1", "1", [], None, false, false)
  {
    RunNext(AfterClear(), keys, 0);
    PercentageOver100Step1(Run(AfterClear(), keys[..0]));
    assert keys[..1] == keys;
  }

  lemma PercentageOver100UpTo2(keys: seq<string>)
    requires keys == ["1", "5"]
    ensures Run(AfterClear(), keys) == CalculatorState("15", "15", [], None, false, false)
  {
    PercentageOver100UpTo1(keys[..1]);
    RunNext(AfterClear(), keys, 1);
    PercentageOver100Step2(Run(AfterClear(), keys[..1]));
    assert keys[..2] == keys;
  }

  lemma PercentageOver100UpTo3(keys: seq<string>)
    requires keys == ["1", "5", "0"]
    ensures Run(AfterClear(), keys) == CalculatorState("150", "150", [], None, false, false)
  {
    PercentageOver100UpTo2(keys[..2]);
    RunNext(AfterClear(), keys, 2);
    PercentageOver100Step3(Run(AfterClear(), keys[..2]));
    assert keys[..3] == keys;
  }

  lemma PercentageOver100UpTo4(keys: seq<string>)
    requires keys == ["1", "5", "0", "%"]
    ensures Run(AfterClear(), keys) == CalculatorState("1.5", "1.5", [], None, false, false)
  {
    PercentageOver100UpTo3(keys[..3]);
    RunNext(AfterClear(), keys, 3);
    PercentageOver100Step4(Run(AfterClear(), keys[..3]));
    assert keys[..4] == keys;
  }

  /** `1 5 0 %` from a cleared engine ends with `1.5` over `1.5`. */
  lemma PercentageOver100(keys: seq<string>)
    requires keys == ["1", "5", "0", "%"]
    ensures DisplayExpression(Run(AfterClear(), keys)) == "1.5"
    ensures DisplayResult(Run(AfterClear(), keys)) == "1.5"
  {
    PercentageOver100UpTo4(keys);
  }

  lemma PercentageThenToggleSignStep1(s: CalculatorState)
    requires s.currentInput == "0" && s.expression == "" && s.fullExpression == []
    requires s.operator == None && !s.waitingForNewInput && !s.hasError
    ensures Press(s, "7") == CalculatorState("7", "7", [], None, false, false)
  {
    OpenLine(s.expression);
    TypeStep(s, "7", "7", "7");
  }

  lemma PercentageThenToggleSignStep2(s: CalculatorState)
    requires s.currentInput == "7" && s.expression == "7" && s.fullExpression == []
    requires s.operator == None && !s.waitingForNewInput && !s.hasError
    ensures Press(s, "5") == CalculatorState("75", "75", [], None, false, false)
  {
    OpenLine(s.expression);
    assert s.currentInput + "5" == "75";
    TypeStep(s, "5", "75", "75");
  }

  lemma PercentOf75(t: string)
    requires t == "75"
    ensures ParseFloat(t) == Dec(75, 0) && PercentText(ParseFloat(t)) == "0.75"
  {
    DigitsValueTwo(t);
    assert Pow10(8) == 100000000;
    PercentBelowHundred(t, 75, 8, "0.75");
  }

  lemma PercentageThenToggleSignStep3(s: CalculatorState)
    requires s.currentInput == "75" && s.expression == "75" && s.fullExpression == []
    requires s.operator == None && !s.waitingForNewInput && !s.hasError
    ensures Press(s, "%") == CalculatorState("0.75", "0.75", [], None, false, false)
  {
    PercentOf75(s.currentInput);
    PercentStep(s, "0.75");
  }

  lemma PercentageThenToggleSignStep4(s: CalculatorState)
    requires s.currentInput == "0.75" && s.expression == "0.75" && s.fullExpression == []
    requires s.operator == None && !s.waitingForNewInput && !s.hasError
    ensures Press(s, "+/-") == CalculatorState("-0.75", "-0.75", [], None, false, false)
  {
    assert !StartsWith(s.currentInput, "-") by {
      assert s.currentInput[..1][0] != '-';
    }
    assert "-" + s.currentInput == "-0.75";
    ToggleStep(s, "-0.75", "-0.75");
  }

  lemma PercentageThenToggleSignUpTo1(keys: seq<string>)
    requires keys == ["7"]
    ensures Run(AfterClear(), keys) == CalculatorState("7", "7", [], None, false, false)
  {
    RunNext(AfterClear(), keys, 0);
    PercentageThenToggleSignStep1(Run(AfterClear(), keys[..0]));
    assert keys[..1] == keys;
  }

  lemma PercentageThenToggleSignUpTo2(keys: seq<string>)
    requires keys == ["7", "5"]
    ensures Run(AfterClear(), keys) == CalculatorState("75", "75", [], None, false, false)
  {
    PercentageThenToggleSignUpTo1(keys[..1]);
    RunNext(AfterClear(), keys, 1);
    PercentageThenToggleSignStep2(Run(AfterClear(), keys[..1]));
    assert keys[..2] == keys;
  }

  lemma PercentageThenToggleSignUpTo3(keys: seq<string>)
    requires keys == ["7", "5", "%"]
    ensures Run(AfterClear(), keys) == CalculatorState("0.75", "0.75", [], None, false, false)
  {
    PercentageThenToggleSignUpTo2(keys[..2]);
    RunNext(AfterClear(), keys, 2);
    PercentageThenToggleSignStep3(Run(AfterClear(), keys[..2]));
    assert keys[..3] == keys;
  }

  lemma PercentageThenToggleSignUpTo4(keys: seq<string>)
    requires keys == ["7", "5", "%", "+/-"]
    ensures Run(AfterClear(), keys) == CalculatorState("-0.75", "-0.75", [], None, false, false)
  {
    PercentageThenToggleSignUpTo3(keys[..3]);
    RunNext(AfterClear(), keys, 3);
    PercentageThenToggleSignStep4(Run(AfterClear(), keys[..3]));
    assert keys[..4] == keys;
  }

  /** `7 5 % +/-` from a cleared engine ends with `-0.75` over `-0.75`. */
  lemma PercentageThenToggleSign(keys: seq<string>)
    requires keys == ["7", "5", "%", "+/-"]
    ensures DisplayExpression(Run(AfterClear(), keys)) == "-0.75"
    ensures DisplayResult(Run(AfterClear(), keys)) == "-0.75"
  {
    PercentageThenToggleSignUpTo4(keys);
  }

}
