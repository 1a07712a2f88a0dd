/**
 * The evaluator inside `Calculator.calculate` (calculator/js/calculator.js):
 * a working copy of the token list is reduced in place, first every `×`/`÷`
 * triple, then every `+`/`-` triple, and the scan restarts at index 1 after
 * each reduction.  `MulPass`/`AddPass` mirror the two loops step by step,
 * `EvaluateInPlace` is the loop itself, and `Reference` is an independent
 * one-pass, two-tier, left-associative evaluator that it is proved to agree with.
 */
module Evaluator {
  import opened Wrappers
  import opened Numbers

  /** The four entries of `CalculatorOperations`. */
  datatype Op = Plus | Minus | Times | Divide

  /** What the evaluation can throw. */
  datatype CalcError =
    | DivideByZero   // thrown by the `÷` operation
    | NotAFunction   // calling the `undefined` looked up for a non-operator key

  /** The `message` of the thrown error, as `setError` receives it. */
  function Message(e: CalcError): string {
    match e
    case DivideByZero => "Cannot divide by zero"
    case NotAFunction => "operation is not a function"
  }

  /**
   * An entry of the working array: an original token, or the number a
   * reduction spliced in.  JavaScript stores `result.toString()` there and
   * reads it back with `parseFloat`, which gives back the same number.
   */
  datatype Cell = Text(s: string) | Value(n: Num)

  /** `CalculatorOperations[c]`: the operation the key names, if any. */
  function OperatorOf(c: Cell): Option<Op> {
    match c
    case Text(s) =>
      if s == "+" then Some(Plus)
      else if s == "-" then Some(Minus)
      else if s == "×" then Some(Times)
      else if s == "÷" then Some(Divide)
      else None
    case Value(_) => None
  }

  /**
   * `parseFloat(c)`, where `read` is how a token's text reads as a number
   * (the engine passes `parseFloat`, `Numbers.ReadFloat`; nothing below
   * depends on which).
   */
  function AsNumber(read: string -> Num, c: Cell): Num {
    match c
    case Text(s) => read(s)
    case Value(n) => n
  }

  /** One operation of `CalculatorOperations`, with NaN propagation. */
  function Apply(op: Op, a: Num, b: Num): (r: Result<Num, CalcError>)
    ensures r.Err? <==> op == Divide && b == Fin(0.0)
    ensures r.Err? ==> r.error == DivideByZero
  {
    if op == Divide && b == Fin(0.0) then Err(DivideByZero)
    else if a.NaN? || b.NaN? then Ok(NaN)
    else
      match op
      case Plus => Ok(Fin(a.r + b.r))
      case Minus => Ok(Fin(a.r - b.r))
      case Times => Ok(Fin(a.r * b.r))
      case Divide => Ok(Fin(a.r / b.r))
  }

  predicate IsMulDiv(c: Cell) {
    c == Text("×") || c == Text("÷")
  }

  /** No `×`/`÷` at an operator position the first loop examines. */
  predicate NoMulDiv(w: seq<Cell>) {
    forall k :: 1 <= k < |w| - 1 && k % 2 == 1 ==> !IsMulDiv(w[k])
  }

  /**
   * Where the first loop, scanning `i, i + 2, ...`, finds a `×`/`÷`; a
   * result `>= |w| - 1` means the loop ends without finding one.
   */
  function FirstMulDiv(w: seq<Cell>, i: nat): (j: nat)
    ensures i <= j && j % 2 == i % 2
    ensures j < |w| - 1 ==> IsMulDiv(w[j])
    ensures forall k :: i <= k < j && k < |w| - 1 && k % 2 == i % 2 ==> !IsMulDiv(w[k])
    decreases |w| - i
  {
    if i >= |w| - 1 || IsMulDiv(w[i]) then i else FirstMulDiv(w, i + 2)
  }

  /** `w.splice(j - 1, 3, v)`: the triple around `j` replaced by its value. */
  function Splice(w: seq<Cell>, j: nat, v: Num): (r: seq<Cell>)
    requires 1 <= j < |w| - 1
    ensures |r| == |w| - 2
  {
    w[..j - 1] + [Value(v)] + w[j + 2..]
  }

  /** The first loop of `calculate`, one reduction per recursive step. */
  function MulPass(read: string -> Num, w: seq<Cell>): (r: Result<seq<Cell>, CalcError>)
    ensures r.Ok? ==> NoMulDiv(r.value)
    ensures r.Ok? ==> |r.value| <= |w| && (|w| - |r.value|) % 2 == 0 && (|w| > 0 ==> |r.value| > 0)
    ensures r.Err? ==> r.error == DivideByZero
    decreases |w|
  {
    var j := FirstMulDiv(w, 1);
    if j >= |w| - 1 then
      assert NoMulDiv(w);
      Ok(w)
    else
      var op := if w[j] == Text("×") then Times else Divide;
      match Apply(op, AsNumber(read, w[j - 1]), AsNumber(read, w[j + 1]))
      case Err(e) => Err(e)
      case Ok(v) =>
        var r := MulPass(read, Splice(w, j, v));
        assert r.Ok? ==> |r.value| <= |w| - 2;
        r
  }

  /** The second loop of `calculate`: always reduces the first triple. */
  function AddPass(read: string -> Num, w: seq<Cell>): (r: Result<seq<Cell>, CalcError>)
    ensures r.Ok? ==> |r.value| <= 2 && |r.value| <= |w| && (|w| > 0 ==> |r.value| > 0)
    ensures r.Ok? ==> (|w| - |r.value|) % 2 == 0
    decreases |w|
  {
    if |w| <= 2 then Ok(w)
    else
      match OperatorOf(w[1])
      case None => Err(NotAFunction)
      case Some(op) =>
        match Apply(op, AsNumber(read, w[0]), AsNumber(read, w[2]))
        case Err(e) => Err(e)
        case Ok(v) => AddPass(read, Splice(w, 1, v))
  }

  /** Both loops, then `parseFloat(finalExpression[0])`. */
  function Evaluate(read: string -> Num, w: seq<Cell>): Result<Num, CalcError> {
    match MulPass(read, w)
    case Err(e) => Err(e)
    case Ok(w1) =>
      match AddPass(read, w1)
      case Err(e) => Err(e)
      case Ok(w2) => Ok(if |w2| == 0 then NaN else AsNumber(read, w2[0]))
  }

  /** The two `while` loops of `calculate`, splicing the working array. */
  method EvaluateInPlace(read: string -> Num, finalExpression: seq<Cell>) returns (r: Result<Num, CalcError>)
    ensures r == Evaluate(read, finalExpression)
  {
    var w := finalExpression;
    var i := 1;
    while i < |w| - 1
      invariant i % 2 == 1
      invariant MulPass(read, w) == MulPass(read, finalExpression)
      invariant FirstMulDiv(w, 1) == FirstMulDiv(w, i)
      decreases |w|, |w| - i
    {
      if w[i] == Text("×") || w[i] == Text("÷") {
        var op := if w[i] == Text("×") then Times else Divide;
        var result := Apply(op, AsNumber(read, w[i - 1]), AsNumber(read, w[i + 1]));
        if result.Err? {
          return Err(result.error);
        }
        w := w[..i - 1] + [Value(result.value)] + w[i + 2..];
        i := 1;
      } else {
        i := i + 2;
      }
    }
    ghost var afterFirst := w;
    assert MulPass(read, finalExpression) == Ok(afterFirst);
    i := 1;
    while i < |w| - 1
      invariant AddPass(read, w) == AddPass(read, afterFirst)
      invariant i == 1
      decreases |w|
    {
      var operation := OperatorOf(w[i]);
      if operation.None? {
        return Err(NotAFunction);
      }
      var result := Apply(operation.value, AsNumber(read, w[i - 1]), AsNumber(read, w[i + 1]));
      if result.Err? {
        return Err(result.error);
      }
      w := w[..i - 1] + [Value(result.value)] + w[i + 2..];
      i := 1;
    }
    r := Ok(if |w| == 0 then NaN else AsNumber(read, w[0]));
  }

  // ---------------------------------------------------------------------
  // Reference: one left-to-right pass with two tiers of precedence
  // ---------------------------------------------------------------------

  /** Every operator position below the last operand holds one of the four operators. */
  predicate WellFormed(w: seq<Cell>) {
    forall k :: 1 <= k < |w| - 1 && k % 2 == 1 ==> OperatorOf(w[k]).Some?
  }

  /** The running sum, the additive operator waiting for the current product, and that product. */
  datatype Acc = Acc(sum: Num, minus: bool, prod: Num)

  function Combine(a: Acc): Num {
    (if a.minus then Apply(Minus, a.sum, a.prod) else Apply(Plus, a.sum, a.prod)).value
  }

  /** One operator/operand pair folded into the accumulator. */
  function Step(a: Acc, opCell: Cell, x: Num): Result<Acc, CalcError> {
    match OperatorOf(opCell)
    case None => Err(NotAFunction)
    case Some(op) =>
      if op == Plus || op == Minus then Ok(Acc(Combine(a), op == Minus, x))
      else
        match Apply(op, a.prod, x)
        case Err(e) => Err(e)
        case Ok(p) => Ok(a.(prod := p))
  }

  /**
   * Consumes `rest` as operator/operand pairs: `×` and `÷` fold into the
   * current product, `+` and `-` close it into the sum.  A lone trailing
   * operator is ignored.
   */
  function Fold(read: string -> Num, a: Acc, rest: seq<Cell>): Result<Acc, CalcError>
    decreases |rest|
  {
    if |rest| < 2 then Ok(a)
    else
      match Step(a, rest[0], AsNumber(read, rest[1]))
      case Err(e) => Err(e)
      case Ok(b) => Fold(read, b, rest[2..])
  }

  function Finish(r: Result<Acc, CalcError>): Result<Num, CalcError> {
    match r
    case Err(e) => Err(e)
    case Ok(a) => Ok(Combine(a))
  }

  function Start(read: string -> Num, c: Cell): Acc {
    Acc(Fin(0.0), false, AsNumber(read, c))
  }

  /** The value of a token list under `×÷`-before-`+-`, left-associative evaluation. */
  function Reference(read: string -> Num, w: seq<Cell>): Result<Num, CalcError> {
    if |w| == 0 then Ok(NaN) else Finish(Fold(read, Start(read, w[0]), w[1..]))
  }

  /** Some `÷` at an operator position has a right operand that reads as zero. */
  predicate HasZeroDivisor(read: string -> Num, w: seq<Cell>) {
    exists k :: 1 <= k < |w| - 1 && k % 2 == 1 && w[k] == Text("÷") && AsNumber(read, w[k + 1]) == Fin(0.0)
  }

  predicate Additive(c: Cell) {
    OperatorOf(c) == Some(Plus) || OperatorOf(c) == Some(Minus)
  }

  function Then(read: string -> Num, r: Result<Acc, CalcError>, q: seq<Cell>): Result<Acc, CalcError> {
    match r
    case Err(e) => Err(e)
    case Ok(b) => Fold(read, b, q)
  }

  lemma {:induction false} FoldAppend(read: string -> Num, a: Acc, p: seq<Cell>, q: seq<Cell>)
    requires |p| % 2 == 0
    ensures Fold(read, a, p + q) == Then(read, Fold(read, a, p), q)
    decreases |p|
  {
    if |p| == 0 {
      assert p + q == q;
    } else {
      assert (p + q)[0] == p[0] && (p + q)[1] == p[1];
      assert (p + q)[2..] == p[2..] + q;
      match Step(a, p[0], AsNumber(read, p[1]))
      case Err(e) =>
      case Ok(b) => FoldAppend(read, b, p[2..], q);
    }
  }

  /** A pair in front of `rest` is folded first. */
  lemma FoldCons(read: string -> Num, a: Acc, op: Cell, x: Cell, rest: seq<Cell>)
    ensures Fold(read, a, [op, x] + rest) == Then(read, Step(a, op, AsNumber(read, x)), rest)
  {
    assert ([op, x] + rest)[2..] == rest;
  }

  /** Folding only additive operators never throws. */
  lemma {:induction false} FoldAdditiveOk(read: string -> Num, a: Acc, p: seq<Cell>)
    requires |p| % 2 == 0
    requires forall i :: 0 <= i < |p| && i % 2 == 0 ==> Additive(p[i])
    ensures Fold(read, a, p).Ok?
    decreases |p|
  {
    if |p| > 0 {
      assert Additive(p[0]);
      var b := Step(a, p[0], AsNumber(read, p[1])).value;
      forall i | 0 <= i < |p[2..]| && i % 2 == 0 ensures Additive(p[2..][i]) {
        assert p[2..][i] == p[i + 2];
      }
      FoldAdditiveOk(read, b, p[2..]);
    }
  }

  /** When the next operator is additive, only the combined value of the accumulator matters. */
  lemma AdditiveNext(read: string -> Num, a: Acc, b: Acc, rest: seq<Cell>)
    requires Combine(a) == Combine(b)
    requires |rest| >= 2 ==> Additive(rest[0])
    ensures Finish(Fold(read, a, rest)) == Finish(Fold(read, b, rest))
  {
  }

  /** The operator positions before the first `×`/`÷` are additive, and fold without throwing. */
  lemma {:induction false} PrefixAdditive(read: string -> Num, w: seq<Cell>, j: nat)
    requires WellFormed(w) && j == FirstMulDiv(w, 1) && 3 <= j < |w| - 1
    ensures Fold(read, Start(read, w[0]), w[1..j - 2]).Ok?
    ensures Additive(w[j - 2])
  {
    var p := w[1..j - 2];
    forall i | 0 <= i < |p| && i % 2 == 0 ensures Additive(p[i]) {
      assert p[i] == w[i + 1];
      assert !IsMulDiv(w[i + 1]);
    }
    FoldAdditiveOk(read, Start(read, w[0]), p);
    assert !IsMulDiv(w[j - 2]);
  }

  /** Splicing keeps every operator position below the last operand an operator. */
  lemma SpliceWellFormed(w: seq<Cell>, j: nat, v: Num)
    requires WellFormed(w) && 1 <= j < |w| - 1 && j % 2 == 1
    ensures WellFormed(Splice(w, j, v))
  {
    var w' := Splice(w, j, v);
    forall k | 1 <= k < |w'| - 1 && k % 2 == 1
      ensures OperatorOf(w'[k]).Some?
    {
      if k >= j { assert w'[k] == w[k + 2]; } else { assert w'[k] == w[k]; }
    }
  }

  /** An additive operator, then a multiplicative one: the product is taken first. */
  lemma FoldAddThenMul(read: string -> Num, b: Acc, add: Cell, left: Cell, mul: Cell, right: Cell, v: Num, rest: seq<Cell>)
    requires Additive(add) && !Additive(mul) && OperatorOf(mul).Some?
    requires Apply(OperatorOf(mul).value, AsNumber(read, left), AsNumber(read, right)) == Ok(v)
    ensures Fold(read, b, [add, left, mul, right] + rest) == Fold(read, b, [add, Value(v)] + rest)
  {
    var c := Acc(Combine(b), OperatorOf(add) == Some(Minus), AsNumber(read, left));
    FoldCons(read, b, add, left, [mul, right] + rest);
    assert [add, left, mul, right] + rest == [add, left] + ([mul, right] + rest);
    FoldCons(read, c, mul, right, rest);
    FoldCons(read, b, add, Value(v), rest);
  }

  /** Reducing the first `×`/`÷` triple keeps the reference value. */
  lemma MulStep(read: string -> Num, w: seq<Cell>, j: nat, v: Num)
    requires WellFormed(w)
    requires j == FirstMulDiv(w, 1) && j < |w| - 1
    requires Apply(OperatorOf(w[j]).value, AsNumber(read, w[j - 1]), AsNumber(read, w[j + 1])) == Ok(v)
    ensures WellFormed(Splice(w, j, v)) && Reference(read, Splice(w, j, v)) == Reference(read, w)
  {
    SpliceWellFormed(w, j, v);
    MulDivIsOperator(w[j]);
    if j == 1 {
      MulStepAtStart(read, w, v);
    } else {
      PrefixAdditive(read, w, j);
      MulStepInside(read, w, j, v);
    }
  }

  lemma MulDivIsOperator(c: Cell)
    requires IsMulDiv(c)
    ensures OperatorOf(c).Some? && !Additive(c)
  {
  }

  lemma MulStepAtStart(read: string -> Num, w: seq<Cell>, v: Num)
    requires |w| > 2 && IsMulDiv(w[1])
    requires Apply(OperatorOf(w[1]).value, AsNumber(read, w[0]), AsNumber(read, w[2])) == Ok(v)
    ensures Reference(read, Splice(w, 1, v)) == Reference(read, w)
  {
    var w' := Splice(w, 1, v);
    var rest := w[3..];
    assert w[1..] == [w[1], w[2]] + rest;
    assert w'[1..] == rest;
    FoldCons(read, Start(read, w[0]), w[1], w[2], rest);
    assert Start(read, w[0]).(prod := v) == Start(read, w'[0]);
  }

  /** Around a splice inside the sequence: the cells before it, and the cells from the additive operator on. */
  lemma SpliceInsideParts(w: seq<Cell>, j: nat, v: Num)
    requires 3 <= j < |w| - 1
    ensures w[1..] == w[1..j - 2] + ([w[j - 2], w[j - 1], w[j], w[j + 1]] + w[j + 2..])
    ensures Splice(w, j, v)[1..] == w[1..j - 2] + ([w[j - 2], Value(v)] + w[j + 2..])
    ensures Splice(w, j, v)[0] == w[0]
  {
    assert w[1..j - 1] == w[1..j - 2] + [w[j - 2]];
    assert w[1..] == w[1..j - 1] + [w[j - 1], w[j], w[j + 1]] + w[j + 2..];
    assert Splice(w, j, v)[1..] == w[1..j - 1] + [Value(v)] + w[j + 2..];
  }

  lemma MulStepInside(read: string -> Num, w: seq<Cell>, j: nat, v: Num)
    requires 3 <= j < |w| - 1 && j % 2 == 1
    requires Fold(read, Start(read, w[0]), w[1..j - 2]).Ok? && Additive(w[j - 2])
    requires OperatorOf(w[j]).Some? && !Additive(w[j])
    requires Apply(OperatorOf(w[j]).value, AsNumber(read, w[j - 1]), AsNumber(read, w[j + 1])) == Ok(v)
    ensures Reference(read, Splice(w, j, v)) == Reference(read, w)
  {
    var rest := w[j + 2..];
    var p := w[1..j - 2];
    var a := Start(read, w[0]);
    SpliceInsideParts(w, j, v);
    FoldAppend(read, a, p, [w[j - 2], w[j - 1], w[j], w[j + 1]] + rest);
    FoldAppend(read, a, p, [w[j - 2], Value(v)] + rest);
    FoldAddThenMul(read, Fold(read, a, p).value, w[j - 2], w[j - 1], w[j], w[j + 1], v, rest);
  }

  /** When the first `×`/`÷` throws, so does the reference. */
  lemma {:induction false} MulStepThrows(read: string -> Num, w: seq<Cell>, j: nat, e: CalcError)
    requires WellFormed(w)
    requires j == FirstMulDiv(w, 1) && j < |w| - 1
    requires Apply(OperatorOf(w[j]).value, AsNumber(read, w[j - 1]), AsNumber(read, w[j + 1])) == Err(e)
    ensures Reference(read, w) == Err(e)
  {
    var rest := w[j + 2..];
    if j == 1 {
      assert w[1..] == [w[1], w[2]] + rest;
      FoldCons(read, Start(read, w[0]), w[1], w[2], rest);
    } else {
      var p := w[1..j - 2];
      var tail := [w[j - 2], w[j - 1]] + ([w[j], w[j + 1]] + rest);
      assert w[1..] == p + tail;
      FoldAppend(read, Start(read, w[0]), p, tail);
      PrefixAdditive(read, w, j);
      var b := Fold(read, Start(read, w[0]), p).value;
      FoldCons(read, b, w[j - 2], w[j - 1], [w[j], w[j + 1]] + rest);
      var c := Acc(Combine(b), OperatorOf(w[j - 2]) == Some(Minus), AsNumber(read, w[j - 1]));
      FoldCons(read, c, w[j], w[j + 1], rest);
    }
  }

  /** Reducing the leading `+`/`-` triple keeps the reference value. */
  lemma {:induction false} AddStep(read: string -> Num, w: seq<Cell>, v: Num)
    requires WellFormed(w) && NoMulDiv(w) && |w| > 2
    requires Apply(OperatorOf(w[1]).value, AsNumber(read, w[0]), AsNumber(read, w[2])) == Ok(v)
    ensures WellFormed(Splice(w, 1, v)) && NoMulDiv(Splice(w, 1, v))
    ensures Reference(read, Splice(w, 1, v)) == Reference(read, w)
  {
    SpliceWellFormed(w, 1, v);
    var w' := Splice(w, 1, v);
    forall k | 1 <= k < |w'| - 1 && k % 2 == 1 ensures !IsMulDiv(w'[k]) {
      assert w'[k] == w[k + 2];
    }
    var rest := w[3..];
    assert w[1..] == [w[1], w[2]] + rest;
    assert w'[1..] == rest && w'[0] == Value(v);
    FoldCons(read, Start(read, w[0]), w[1], w[2], rest);
    var a := Acc(Combine(Start(read, w[0])), OperatorOf(w[1]) == Some(Minus), AsNumber(read, w[2]));
    if |rest| >= 2 {
      assert rest[0] == w[3] && !IsMulDiv(w[3]);
    }
    AdditiveNext(read, a, Start(read, w'[0]), rest);
  }

  /** The first loop keeps the reference value, or throws what the reference throws. */
  lemma {:induction false} MulPassKeepsReference(read: string -> Num, w: seq<Cell>)
    requires WellFormed(w)
    ensures MulPass(read, w).Ok? ==>
      WellFormed(MulPass(read, w).value) && Reference(read, MulPass(read, w).value) == Reference(read, w)
    ensures MulPass(read, w).Err? ==> Reference(read, w) == Err(MulPass(read, w).error)
    decreases |w|
  {
    var j := FirstMulDiv(w, 1);
    if j < |w| - 1 {
      var op := if w[j] == Text("×") then Times else Divide;
      assert OperatorOf(w[j]) == Some(op);
      match Apply(op, AsNumber(read, w[j - 1]), AsNumber(read, w[j + 1]))
      case Err(e) => MulStepThrows(read, w, j, e);
      case Ok(v) =>
        MulStep(read, w, j, v);
        MulPassKeepsReference(read, Splice(w, j, v));
    }
  }

  /** On a well-formed list the second loop never throws and keeps the reference value. */
  lemma {:induction false} AddPassKeepsReference(read: string -> Num, w: seq<Cell>)
    requires WellFormed(w) && NoMulDiv(w)
    ensures AddPass(read, w).Ok? && Reference(read, AddPass(read, w).value) == Reference(read, w)
    decreases |w|
  {
    if |w| > 2 {
      assert Additive(w[1]) by { assert !IsMulDiv(w[1]); }
      var v := Apply(OperatorOf(w[1]).value, AsNumber(read, w[0]), AsNumber(read, w[2])).value;
      AddStep(read, w, v);
      AddPassKeepsReference(read, Splice(w, 1, v));
    }
  }

  /**
   * The splice loops compute exactly the two-tier, left-associative value
   * whenever every operator position holds an operator.
   */
  lemma EvaluateMatchesReference(read: string -> Num, w: seq<Cell>)
    requires WellFormed(w)
    ensures Evaluate(read, w) == Reference(read, w)
  {
    MulPassKeepsReference(read, w);
    if MulPass(read, w).Ok? {
      var w1 := MulPass(read, w).value;
      AddPassKeepsReference(read, w1);
      var w2 := AddPass(read, w1).value;
      if |w2| > 0 {
        assert |w2[1..]| < 2;
      }
    }
  }

  /** Reducing a triple that did not throw neither adds nor removes a zero divisor. */
  lemma SpliceZeroDivisor(read: string -> Num, w: seq<Cell>, j: nat, v: Num)
    requires j == FirstMulDiv(w, 1) && j < |w| - 1
    requires !(w[j] == Text("÷") && AsNumber(read, w[j + 1]) == Fin(0.0))
    ensures HasZeroDivisor(read, Splice(w, j, v)) <==> HasZeroDivisor(read, w)
  {
    if HasZeroDivisor(read, w) {
      ZeroDivisorSurvives(read, w, j, v);
    }
    if HasZeroDivisor(read, Splice(w, j, v)) {
      ZeroDivisorWasThere(read, w, j, v);
    }
  }

  lemma ZeroDivisorAt(read: string -> Num, w: seq<Cell>, k: nat)
    requires 1 <= k < |w| - 1 && k % 2 == 1 && w[k] == Text("÷") && AsNumber(read, w[k + 1]) == Fin(0.0)
    ensures HasZeroDivisor(read, w)
  {
  }

  lemma FirstMulDivIsFirst(w: seq<Cell>, k: nat)
    requires 1 <= k < |w| - 1 && k % 2 == 1 && IsMulDiv(w[k])
    ensures FirstMulDiv(w, 1) <= k
  {
  }

  lemma SpliceAfter(w: seq<Cell>, j: nat, v: Num, m: nat)
    requires 1 <= j < |w| - 1 && j <= m < |w| - 2
    ensures Splice(w, j, v)[m] == w[m + 2]
  {
  }

  lemma SpliceBefore(w: seq<Cell>, j: nat, v: Num, m: nat)
    requires 1 <= j < |w| - 1 && m < j - 1
    ensures Splice(w, j, v)[m] == w[m]
  {
  }

  lemma ZeroDivisorShifts(read: string -> Num, w: seq<Cell>, j: nat, v: Num, k: nat)
    requires 1 <= j < |w| - 1 && j + 2 <= k < |w| - 1
    requires k % 2 == 1 && w[k] == Text("÷") && AsNumber(read, w[k + 1]) == Fin(0.0)
    ensures HasZeroDivisor(read, Splice(w, j, v))
  {
    SpliceAfter(w, j, v, k - 2);
    SpliceAfter(w, j, v, k - 1);
    ZeroDivisorAt(read, Splice(w, j, v), k - 2);
  }

  lemma ZeroDivisorSurvives(read: string -> Num, w: seq<Cell>, j: nat, v: Num)
    requires j == FirstMulDiv(w, 1) && j < |w| - 1
    requires !(w[j] == Text("÷") && AsNumber(read, w[j + 1]) == Fin(0.0))
    requires HasZeroDivisor(read, w)
    ensures HasZeroDivisor(read, Splice(w, j, v))
  {
    var k :| 1 <= k < |w| - 1 && k % 2 == 1 && w[k] == Text("÷") && AsNumber(read, w[k + 1]) == Fin(0.0);
    ZeroDivisorAfterFirst(read, w, j, v, k);
  }

  lemma ZeroDivisorAfterFirst(read: string -> Num, w: seq<Cell>, j: nat, v: Num, k: nat)
    requires j == FirstMulDiv(w, 1) && j < |w| - 1
    requires !(w[j] == Text("÷") && AsNumber(read, w[j + 1]) == Fin(0.0))
    requires 1 <= k < |w| - 1 && k % 2 == 1 && w[k] == Text("÷") && AsNumber(read, w[k + 1]) == Fin(0.0)
    ensures HasZeroDivisor(read, Splice(w, j, v))
  {
    assert IsMulDiv(w[k]);
    FirstMulDivIsFirst(w, k);
    assert k != j;
    OddGap(j, k);
    ZeroDivisorShifts(read, w, j, v, k);
  }

  lemma OddGap(j: nat, k: nat)
    requires j % 2 == 1 && k % 2 == 1 && j <= k && j != k
    ensures j + 2 <= k
  {
  }

  lemma ZeroDivisorBehindSplice(read: string -> Num, w: seq<Cell>, j: nat, v: Num, m: nat)
    requires 1 <= j <= m < |w| - 3 && m % 2 == 1
    requires Splice(w, j, v)[m] == Text("÷") && AsNumber(read, Splice(w, j, v)[m + 1]) == Fin(0.0)
    ensures HasZeroDivisor(read, w)
  {
    SpliceAfter(w, j, v, m);
    SpliceAfter(w, j, v, m + 1);
    ZeroDivisorAt(read, w, m + 2);
  }

  lemma ZeroDivisorWasThere(read: string -> Num, w: seq<Cell>, j: nat, v: Num)
    requires j == FirstMulDiv(w, 1) && j < |w| - 1
    requires HasZeroDivisor(read, Splice(w, j, v))
    ensures HasZeroDivisor(read, w)
  {
    var w' := Splice(w, j, v);
    var m :| 1 <= m < |w'| - 1 && m % 2 == 1 && w'[m] == Text("÷") && AsNumber(read, w'[m + 1]) == Fin(0.0);
    if m < j {
      SpliceBefore(w, j, v, m);
      FirstMulDivIsFirst(w, m);
      assert false;
    } else {
      ZeroDivisorBehindSplice(read, w, j, v, m);
    }
  }

  /** The first loop throws exactly when some `÷` has a divisor that reads as zero. */
  lemma {:induction false} MulPassThrowsIff(read: string -> Num, w: seq<Cell>)
    ensures MulPass(read, w).Err? <==> HasZeroDivisor(read, w)
    decreases |w|
  {
    var j := FirstMulDiv(w, 1);
    if j < |w| - 1 {
      var op := if w[j] == Text("×") then Times else Divide;
      match Apply(op, AsNumber(read, w[j - 1]), AsNumber(read, w[j + 1]))
      case Err(e) =>
      case Ok(v) =>
        SpliceZeroDivisor(read, w, j, v);
        MulPassThrowsIff(read, Splice(w, j, v));
    }
  }

  /**
   * On a well-formed list, `calculate` fails exactly when some `÷` has a
   * right operand that reads as zero, and the failure is always the
   * division error.
   */
  lemma EvaluateThrowsIff(read: string -> Num, w: seq<Cell>)
    requires WellFormed(w)
    ensures Evaluate(read, w).Err? <==> HasZeroDivisor(read, w)
    ensures Evaluate(read, w).Err? ==> Evaluate(read, w).error == DivideByZero
  {
    MulPassThrowsIff(read, w);
    MulPassKeepsReference(read, w);
    if MulPass(read, w).Ok? {
      AddPassKeepsReference(read, MulPass(read, w).value);
    }
  }

  lemma WellFormedAppend(w: seq<Cell>, c: Cell)
    requires WellFormed(w) && |w| % 2 == 1
    ensures WellFormed(w + [c])
  {
    var w' := w + [c];
    forall k | 1 <= k < |w'| - 1 && k % 2 == 1 ensures OperatorOf(w'[k]).Some? {
      assert w'[k] == w[k];
    }
  }

  lemma ReferenceIgnoresTrailing(read: string -> Num, w: seq<Cell>, c: Cell)
    requires |w| % 2 == 1
    ensures Reference(read, w + [c]) == Reference(read, w)
  {
    assert (w + [c])[0] == w[0] && (w + [c])[1..] == w[1..] + [c];
    FoldAppend(read, Start(read, w[0]), w[1..], [c]);
  }

  /** A trailing operator after the last operand does not change the value. */
  lemma TrailingOperatorIgnored(read: string -> Num, w: seq<Cell>, c: Cell)
    requires WellFormed(w) && |w| % 2 == 1
    ensures Evaluate(read, w + [c]) == Evaluate(read, w)
  {
    WellFormedAppend(w, c);
    EvaluateMatchesReference(read, w);
    EvaluateMatchesReference(read, w + [c]);
    ReferenceIgnoresTrailing(read, w, c);
  }

  /** A last operand that reads as NaN makes a successful result NaN. */
  lemma NaNLastOperand(read: string -> Num, w: seq<Cell>)
    requires WellFormed(w) && |w| >= 3 && |w| % 2 == 1
    requires AsNumber(read, w[|w| - 1]) == NaN
    ensures Reference(read, w).Ok? ==> Reference(read, w).value == NaN
  {
    var p := w[1..|w| - 2];
    var q := [w[|w| - 2], w[|w| - 1]];
    assert w[1..] == p + q;
    FoldAppend(read, Start(read, w[0]), p, q);
    var r := Fold(read, Start(read, w[0]), p);
    if r.Ok? {
      FoldCons(read, r.value, w[|w| - 2], w[|w| - 1], []);
      assert q == [w[|w| - 2], w[|w| - 1]] + [];
    }
  }
}
