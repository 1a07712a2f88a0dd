/**
 * JavaScript numbers as the calculator uses them: `parseFloat` on the
 * strings it keeps, `Number.prototype.toString`, the 8-place rounding of
 * `calculate` and the `toFixed(10)` formatting of `percentage`.
 *
 * Arithmetic is exact (real numbers), so there is no binary rounding, no
 * overflow to Infinity and no negative zero.  Every number that leaves the
 * engine as text is a finite decimal `k / 10^m` or NaN, so printing is
 * defined on `Decimal` only.
 */
module Numbers {
  import opened Wrappers

  /** A JavaScript number during evaluation. */
  datatype Num = NaN | Fin(r: real)

  /** A finite decimal `digits / 10^scale`, or NaN: what `parseFloat` yields. */
  datatype Decimal = DecNaN | Dec(digits: int, scale: nat)

  function Pow10(n: nat): (r: nat)
    ensures r >= 1
  {
    if n == 0 then 1 else 10 * Pow10(n - 1)
  }

  /** The numeric value of a decimal. */
  function Val(d: Decimal): Num {
    match d
    case DecNaN => NaN
    case Dec(k, m) => Fin(k as real / Pow10(m) as real)
  }

  predicate IsDigit(c: char) {
    '0' <= c <= '9'
  }

  predicate AllDigits(s: string) {
    forall i :: 0 <= i < |s| ==> IsDigit(s[i])
  }

  /** The number written by a string of decimal digits. */
  function DigitsValue(s: string): (n: nat)
    requires AllDigits(s)
  {
    if s == [] then 0
    else 10 * DigitsValue(s[..|s| - 1]) + (s[|s| - 1] as int - '0' as int)
  }

  /** The decimal digits of `n`, most significant first, without leading zeros. */
  function NatToDigits(n: nat): (s: string)
    ensures |s| >= 1 && AllDigits(s)
    ensures n > 0 ==> s[0] != '0'
    decreases n
  {
    if n < 10 then [('0' as int + n) as char]
    else NatToDigits(n / 10) + [('0' as int + n % 10) as char]
  }

  function Zeros(n: nat): (s: string)
    ensures |s| == n && forall i :: 0 <= i < n ==> s[i] == '0'
  {
    if n == 0 then "" else "0" + Zeros(n - 1)
  }

  /** Length of the longest prefix of `s` made of digits. */
  function DigitRun(s: string): (n: nat)
    ensures n <= |s| && AllDigits(s[..n])
    ensures n < |s| ==> !IsDigit(s[n])
  {
    if s == [] || !IsDigit(s[0]) then 0
    else
      var n := 1 + DigitRun(s[1..]);
      assert s[..n] == [s[0]] + s[1..][..n - 1];
      n
  }

  /** The exponent suffix `e[+-]digits` at the start of `s`, if there is one. */
  function ExponentPart(s: string): Option<int> {
    if |s| == 0 || (s[0] != 'e' && s[0] != 'E') then None
    else
      var neg := |s| > 1 && s[1] == '-';
      var start := if |s| > 1 && (s[1] == '-' || s[1] == '+') then 2 else 1;
      var n := DigitRun(s[start..]);
      if n == 0 then None
      else
        var v: int := DigitsValue(s[start..][..n]);
        Some(if neg then -v else v)
  }

  /** `mantissa / 10^scale * 10^e` as a decimal. */
  function Scaled(mantissa: nat, scale: nat, e: int): Decimal {
    if e >= 0 then
      if e <= scale then Dec(mantissa, scale - e) else Dec(mantissa * Pow10(e - scale), 0)
    else Dec(mantissa, scale - e)
  }

  /** The exponent `parseFloat` applies after the digits: 0 without one. */
  function ExponentOf(t: string): int {
    var e := ExponentPart(t);
    if e.Some? then e.value else 0
  }

  /**
   * `parseFloat`: the longest prefix of `s` that is a signed decimal literal
   * (digits, an optional point with digits, an optional exponent); NaN when
   * that prefix holds no digit.
   */
  function ParseFloat(s: string): Decimal {
    if |s| > 0 && s[0] == '-' then Negated(ParseUnsigned(s[1..]))
    else if |s| > 0 && s[0] == '+' then ParseUnsigned(s[1..])
    else ParseUnsigned(s)
  }

  /** The literal after the sign: integer digits, then a fraction or an exponent. */
  function ParseUnsigned(s: string): Decimal {
    var n := DigitRun(s);
    if n < |s| && s[n] == '.' then ParseFraction(s[..n], s[n + 1..])
    else if n == 0 then DecNaN
    else Scaled(DigitsValue(s[..n]), 0, ExponentOf(s[n..]))
  }

  /** The fraction digits after the point, then an optional exponent. */
  function ParseFraction(intPart: string, rest: string): Decimal
    requires AllDigits(intPart)
  {
    var m := DigitRun(rest);
    var ds := intPart + rest[..m];
    assert AllDigits(ds) by {
      assert forall j :: 0 <= j < |ds| ==> ds[j] == if j < |intPart| then intPart[j] else rest[j - |intPart|];
    }
    if |ds| == 0 then DecNaN
    else Scaled(DigitsValue(ds), m, ExponentOf(rest[m..]))
  }

  /** The decimal with the opposite sign. */
  function Negated(d: Decimal): Decimal {
    match d
    case DecNaN => DecNaN
    case Dec(k, m) => Dec(-k, m)
  }

  /** `k * 10^e` with the trailing zeros of `k` moved into the exponent. */
  function Normalize(k: nat, e: int): (r: (nat, int))
    requires k > 0
    ensures r.0 > 0 && r.0 % 10 != 0
    decreases k
  {
    if k % 10 == 0 then Normalize(k / 10, e + 1) else (k, e)
  }

  /**
   * `Number.prototype.toString` of the positive number `k * 10^e`: plain
   * notation, except the exponent form below 10^-6.
   */
  function ShowPositive(k: nat, e: int): string
    requires k > 0
  {
    var (k', e') := Normalize(k, e);
    var ds := NatToDigits(k');
    var n := |ds| + e';
    if e' >= 0 then ds + Zeros(e')
    else if n > 0 then ds[..n] + ("." + ds[n..])
    else if n > -6 then "0" + ("." + (Zeros(-n) + ds))
    else if |ds| > 1 then ds[..1] + ("." + (ds[1..] + ("e-" + NatToDigits(1 - n))))
    else ds + ("e-" + NatToDigits(1 - n))
  }

  /** `Number.prototype.toString` of a decimal. */
  function Show(d: Decimal): string {
    match d
    case DecNaN => "NaN"
    case Dec(k, m) =>
      if k == 0 then "0"
      else if k < 0 then "-" + ShowPositive(-k, -(m as int))
      else ShowPositive(k, -(m as int))
  }

  /**
   * `Math.round(x * 1e8) / 1e8`: the nearest multiple of 10^-8, halves
   * rounded up.
   */
  function Round8(x: Num): (d: Decimal)
    ensures x.NaN? <==> d.DecNaN?
    ensures x.Fin? ==>
      d.scale == 8 && x.r - 1.0 / 200000000.0 < d.digits as real / 100000000.0 <= x.r + 1.0 / 200000000.0
  {
    match x
    case NaN => DecNaN
    case Fin(r) => Dec((r * 100000000.0 + 0.5).Floor, 8)
  }

  /** `|k| / 10^m` in units of 10^-10, halves rounded away from zero. */
  function FixedUnits(k: int, m: nat): nat {
    var a := if k < 0 then -k else k;
    if m <= 10 then a * Pow10(10 - m)
    else (2 * a + Pow10(m - 10)) / (2 * Pow10(m - 10))
  }

  /** `x.toFixed(10)` of a decimal: ten fraction digits, halves rounded away from zero. */
  function ToFixed10(k: int, m: nat): string {
    (if k < 0 then "-" else "") + FixedBody(FixedUnits(k, m))
  }

  /** The unsigned text `toFixed(10)` writes for `u` units of 10^-10: at least one integer digit, a point, ten digits. */
  function FixedBody(u: nat): string {
    var ds := NatToDigits(u);
    var padded := if |ds| <= 10 then Zeros(11 - |ds|) + ds else ds;
    padded[..|padded| - 10] + "." + padded[|padded| - 10..]
  }

  /** Length of the run of '0' characters that ends `s`. */
  function TrailingZeros(s: string): (n: nat)
    ensures n <= |s|
  {
    if s == [] || s[|s| - 1] != '0' then 0 else 1 + TrailingZeros(s[..|s| - 1])
  }

  /** The last `TrailingZeros(s)` characters are '0' and the one before them is not. */
  lemma {:induction false} TrailingZerosRun(s: string)
    ensures var n := TrailingZeros(s);
      (forall i :: |s| - n <= i < |s| ==> s[i] == '0') && (n < |s| ==> s[|s| - n - 1] != '0')
  {
    if s != [] && s[|s| - 1] == '0' {
      TrailingZerosRun(s[..|s| - 1]);
    }
  }

  /** How much of `s` is left once the trailing zeros, and a point just before them, are dropped. */
  function TrimmedLength(s: string): (L: nat)
    ensures |s| - TrailingZeros(s) - 1 <= L <= |s|
  {
    var n := TrailingZeros(s);
    if n == 0 then |s|
    else if n < |s| && s[|s| - n - 1] == '.' then |s| - n - 1
    else |s| - n
  }

  /** `s.replace(/\.?0+$/, '')`: drop the trailing zeros and a point just before them. */
  function TrimZeros(s: string): string {
    s[..TrimmedLength(s)]
  }

  /** `t` matches `/\.?0+$/` from its first character: an optional point, then one or more zeros. */
  predicate TrimMatch(t: string) {
    |t| >= 1 && (forall i :: 0 < i < |t| ==> t[i] == '0') && (t[0] == '0' || (t[0] == '.' && |t| >= 2))
  }

  /**
   * `replace` removes the leftmost match of `/\.?0+$/`: the cut point is
   * where the first match starts, and the text is kept whole when no
   * suffix matches.
   */
  lemma TrimmedLengthIsLeftmostMatch(s: string)
    ensures var L := TrimmedLength(s);
      (L < |s| ==> TrimMatch(s[L..])) && forall j :: 0 <= j < L ==> !TrimMatch(s[j..])
  {
    var L := TrimmedLength(s);
    var n := TrailingZeros(s);
    TrailingZerosRun(s);
    if L < |s| {
      assert forall i :: 0 < i < |s[L..]| ==> s[L..][i] == s[L + i];
    }
    forall j | 0 <= j < L
      ensures !TrimMatch(s[j..])
    {
      if j < |s| - n - 1 {
        // a character other than '0' lies after `j`
        assert s[j..][|s| - n - 1 - j] == s[|s| - n - 1] != '0';
      } else {
        // `j` is the character just before the zero run, and it is not a point
        assert j == |s| - n - 1 && s[j..][0] == s[j];
      }
    }
  }

  /**
   * The text `percentage` stores for a parsed input `d`: `d / 100` through
   * `toFixed(10)` with trailing zeros trimmed, or through `toString` when
   * that text is "0" although the value is not zero.
   */
  function PercentText(d: Decimal): string {
    match d
    case DecNaN => "NaN"
    case Dec(k, m) => FixedOrShown(k, m + 2, TrimZeros(ToFixed10(k, m + 2)))
  }

  /** The trimmed fixed text `f` of `k / 10^m`, or `toString` when `f` is "0" for a value that is not zero. */
  function FixedOrShown(k: int, m: nat, f: string): string {
    if f == "0" && k != 0 then Show(Dec(k, m)) else f
  }

  /** `parseFloat` as a reader of token text. */
  function ReadFloat(s: string): Num {
    Val(ParseFloat(s))
  }

  // --- the shape of the texts the engine stores ---

  predicate NumeralChar(c: char) {
    IsDigit(c) || c == '.' || c == '-' || c == 'e' || c == 'N' || c == 'a'
  }

  /**
   * Text that can stand for a number in the engine: non-empty, made of
   * digits, '.', '-', 'e' and the letters of "NaN", and not a lone or
   * doubled minus sign.  None of the operator symbols is a numeral.
   */
  predicate Numeral(t: string) {
    |t| >= 1 && (forall i :: 0 <= i < |t| ==> NumeralChar(t[i])) &&
    (t[0] == '-' ==> |t| >= 2 && t[1] != '-')
  }

  lemma ShowPositiveShape(k: nat, e: int)
    requires k > 0
    ensures var r := ShowPositive(k, e);
      |r| >= 1 && IsDigit(r[0]) && forall i :: 0 <= i < |r| ==> NumeralChar(r[i])
  {
    var (k', e') := Normalize(k, e);
    var ds := NatToDigits(k');
    var n := |ds| + e';
    var r := ShowPositive(k, e);
    if e' >= 0 {
      WholeShape(ds, Zeros(e'), r);
    } else if n > 0 {
      PointShape(ds, n, r);
    } else if n > -6 {
      SmallShape(ds, Zeros(-n), r);
    } else if |ds| > 1 {
      assert r == ds[..1] + ("." + (ds[1..] + ("e-" + NatToDigits(1 - n))));
      ExponentShape(ds[..1], "." + ds[1..], NatToDigits(1 - n), r);
    } else {
      ExponentShape(ds, "", NatToDigits(1 - n), r);
    }
  }

  lemma WholeShape(ds: string, z: string, r: string)
    requires |ds| >= 1 && AllDigits(ds) && AllDigits(z) && r == ds + z
    ensures |r| >= 1 && IsDigit(r[0]) && forall i :: 0 <= i < |r| ==> NumeralChar(r[i])
  {
    assert forall i :: 0 <= i < |r| ==> r[i] == if i < |ds| then ds[i] else z[i - |ds|];
  }

  lemma PointShape(ds: string, n: nat, r: string)
    requires 0 < n <= |ds| && AllDigits(ds) && r == ds[..n] + ("." + ds[n..])
    ensures |r| >= 1 && IsDigit(r[0]) && forall i :: 0 <= i < |r| ==> NumeralChar(r[i])
  {
    assert forall i :: 0 <= i < |r| ==> r[i] == if i < n then ds[i] else if i == n then '.' else ds[i - 1];
  }

  lemma SmallShape(ds: string, z: string, r: string)
    requires AllDigits(ds) && AllDigits(z) && r == "0" + ("." + (z + ds))
    ensures |r| >= 1 && IsDigit(r[0]) && forall i :: 0 <= i < |r| ==> NumeralChar(r[i])
  {
    assert forall i :: 2 <= i < |r| ==> r[i] == if i < 2 + |z| then z[i - 2] else ds[i - 2 - |z|];
  }

  lemma ExponentShape(head: string, tail: string, x: string, r: string)
    requires |head| == 1 && IsDigit(head[0]) && AllDigits(x)
    requires forall i :: 0 <= i < |tail| ==> NumeralChar(tail[i])
    requires r == head + (tail + ("e-" + x))
    ensures |r| >= 1 && IsDigit(r[0]) && forall i :: 0 <= i < |r| ==> NumeralChar(r[i])
  {
    assert forall i :: 0 <= i < |r| ==>
      r[i] == if i < 1 then head[0] else if i < 1 + |tail| then tail[i - 1]
              else if i == 1 + |tail| then 'e' else if i == 2 + |tail| then '-' else x[i - 3 - |tail|];
  }

  /** A minus sign in front of a numeral that starts with a digit. */
  lemma SignedNumeral(t: string, p: string)
    requires t == "-" + p && Numeral(p) && IsDigit(p[0])
    ensures Numeral(t)
  {
    assert forall i :: 1 <= i < |t| ==> t[i] == p[i - 1];
  }

  /** The same text is the same numeral. */
  lemma SameNumeral(t: string, p: string)
    requires t == p && Numeral(p)
    ensures Numeral(t)
  {
  }

  /** The text of a positive decimal is a numeral that starts with a digit. */
  lemma ShowPositiveNumeral(k: nat, e: int)
    requires k > 0
    ensures Numeral(ShowPositive(k, e)) && IsDigit(ShowPositive(k, e)[0])
  {
    ShowPositiveShape(k, e);
  }

  lemma NegativeShowIsNumeral(k: int, m: nat)
    requires k < 0
    ensures Numeral(Show(Dec(k, m)))
  {
    ShowPositiveNumeral(-k, -(m as int));
    SignedNumeral(Show(Dec(k, m)), ShowPositive(-k, -(m as int)));
  }

  lemma PositiveShowIsNumeral(k: int, m: nat)
    requires k > 0
    ensures Numeral(Show(Dec(k, m)))
  {
    ShowPositiveNumeral(k, -(m as int));
    SameNumeral(Show(Dec(k, m)), ShowPositive(k, -(m as int)));
  }

  /** Every text `toString` produces for a decimal is a numeral. */
  lemma ShowIsNumeral(d: Decimal)
    ensures Numeral(Show(d))
  {
    match d
    case DecNaN =>
      LiteralNumerals();
      SameNumeral(Show(d), "NaN");
    case Dec(k, m) =>
      if k < 0 {
        NegativeShowIsNumeral(k, m);
      } else if k > 0 {
        PositiveShowIsNumeral(k, m);
      } else {
        LiteralNumerals();
        SameNumeral(Show(d), "0");
      }
  }

  /** The two fixed texts of `toString`. */
  lemma LiteralNumerals()
    ensures Numeral("NaN") && Numeral("0")
  {
    forall i | 0 <= i < 3 ensures NumeralChar("NaN"[i]) {
      assert "NaN"[i] == 'N' || "NaN"[i] == 'a';
    }
  }

  /** `toFixed(10)` writes an optional '-', digits, a point and ten digits. */
  lemma ToFixed10Shape(k: int, m: nat)
    ensures var s := ToFixed10(k, m);
      var sign := if k < 0 then 1 else 0;
      |s| >= sign + 12 && (k < 0 ==> s[0] == '-') && s[|s| - 11] == '.' &&
      forall i :: sign <= i < |s| && i != |s| - 11 ==> IsDigit(s[i])
  {
    var ds := NatToDigits(FixedUnits(k, m));
    var padded := if |ds| <= 10 then Zeros(11 - |ds|) + ds else ds;
    if |ds| <= 10 {
      PaddedDigits(Zeros(11 - |ds|), ds, padded);
    }
    var body := padded[..|padded| - 10] + "." + padded[|padded| - 10..];
    PointedDigits(padded, body);
    var sign := if k < 0 then "-" else "";
    assert ToFixed10(k, m) == sign + body;
    SignedDigits(sign, body, ToFixed10(k, m));
  }

  lemma PaddedDigits(z: string, ds: string, padded: string)
    requires AllDigits(z) && AllDigits(ds) && padded == z + ds
    ensures AllDigits(padded)
  {
    assert forall i :: 0 <= i < |padded| ==> padded[i] == if i < |z| then z[i] else ds[i - |z|];
  }

  lemma PointedDigits(padded: string, body: string)
    requires |padded| >= 11 && AllDigits(padded)
    requires body == padded[..|padded| - 10] + "." + padded[|padded| - 10..]
    ensures |body| >= 12 && body[|body| - 11] == '.'
    ensures forall i :: 0 <= i < |body| && i != |body| - 11 ==> IsDigit(body[i])
  {
    assert forall i :: 0 <= i < |body| && i != |body| - 11 ==>
      body[i] == if i < |body| - 11 then padded[i] else padded[i - 1];
  }

  lemma SignedDigits(sign: string, body: string, s: string)
    requires |sign| <= 1 && (|sign| == 1 ==> sign[0] == '-') && s == sign + body
    requires |body| >= 12 && body[|body| - 11] == '.'
    requires forall i :: 0 <= i < |body| && i != |body| - 11 ==> IsDigit(body[i])
    ensures |s| >= |sign| + 12 && (|sign| == 1 ==> s[0] == '-') && s[|s| - 11] == '.'
    ensures forall i :: |sign| <= i < |s| && i != |s| - 11 ==> IsDigit(s[i])
  {
    assert forall i :: |sign| <= i < |s| ==> s[i] == body[i - |sign|];
  }

  /** `toFixed(10)` with its trailing zeros trimmed is a numeral. */
  lemma TrimmedFixedIsNumeral(k: int, m: nat)
    ensures Numeral(TrimZeros(ToFixed10(k, m)))
  {
    var s := ToFixed10(k, m);
    ToFixed10Shape(k, m);
    var sign := if k < 0 then 1 else 0;
    var n := TrailingZeros(s);
    TrailingZerosRun(s);
    assert s[|s| - 11] != '0';
    assert n <= 10;
    var f := TrimZeros(s);
    assert |f| >= sign + 1 && IsDigit(f[sign]);
    assert forall i :: 0 <= i < |f| ==> f[i] == s[i];
  }

  /** `percentage` always stores a numeral. */
  lemma PercentTextIsNumeral(d: Decimal)
    ensures Numeral(PercentText(d))
  {
    match d
    case DecNaN =>
    case Dec(k, m) =>
      TrimmedFixedIsNumeral(k, m + 2);
      ShowIsNumeral(Dec(k, m + 2));
  }

  lemma NegatedTwice(d: Decimal)
    ensures Negated(Negated(d)) == d
  {
  }

  /** A leading '-' negates what `parseFloat` reads. */
  lemma ParseNegated(x: string)
    requires x == [] || (x[0] != '-' && x[0] != '+')
    ensures ParseFloat("-" + x) == Negated(ParseFloat(x))
  {
    assert ("-" + x)[1..] == x;
  }

  /** None of the operator symbols reads as a number. */
  lemma OperatorReadsNaN(op: string)
    requires op == "+" || op == "-" || op == "×" || op == "÷"
    ensures ParseFloat(op) == DecNaN
  {
    if op == "-" || op == "+" {
      assert op[1..] == [];
    } else {
      assert !IsDigit(op[0]);
    }
  }
}
