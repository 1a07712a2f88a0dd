/**
 * What `percentage` stores: the input divided by 100, written by
 * `toFixed(10)` with the trailing zeros trimmed, read back by `parseFloat`.
 */
module PercentFacts {
  import opened Wrappers
  import opened Numbers
  import opened NumberFacts

  /** `x.toFixed(10)` in units of 10^-10, with the sign of `k`. */
  function SignedUnits(k: int, m: nat): int {
    if k < 0 then -(FixedUnits(k, m) as int) else FixedUnits(k, m)
  }

  /** The digits `toFixed(10)` writes, before the point is placed. */
  lemma PaddedDigitsValue(u: nat, ds: string, padded: string)
    requires ds == NatToDigits(u)
    requires padded == if |ds| <= 10 then Zeros(11 - |ds|) + ds else ds
    ensures |padded| >= 11 && AllDigits(padded) && DigitsValue(padded) == u
  {
    DigitsOfNat(u);
    if |ds| <= 10 {
      ZerosValue(11 - |ds|);
      DigitsValueAppend(Zeros(11 - |ds|), ds);
    }
  }

  /** A sign in front of a text that starts with a digit negates what it reads. */
  lemma ReadSigned(neg: bool, t: string, v: int, m: nat)
    requires |t| >= 1 && IsDigit(t[0]) && Val(ParseFloat(t)) == Val(Dec(v, m))
    ensures Val(ParseFloat((if neg then "-" else "") + t)) == Val(Dec(if neg then -v else v, m))
  {
    if neg {
      ParseNegated(t);
      NegatedReads(ParseFloat(t), v, m);
    } else {
      assert "" + t == t;
    }
  }

  /** A tail of zeros is `Zeros`. */
  lemma ZerosTail(f: string, j: nat)
    requires j <= |f| && forall p :: j <= p < |f| ==> f[p] == '0'
    ensures f == f[..j] + Zeros(|f| - j)
  {
    assert forall p :: 0 <= p < |f| ==> f[p] == (f[..j] + Zeros(|f| - j))[p];
  }

  /** Dropping trailing zero fraction digits leaves the decimal's value unchanged. */
  lemma CutValue(i: string, f: string, j: nat)
    requires AllDigits(i) && AllDigits(f) && j <= |f|
    requires forall p :: j <= p < |f| ==> f[p] == '0'
    ensures AllDigits(i + f[..j]) && AllDigits(i + f)
    ensures Val(Dec(DigitsValue(i + f), |f|)) == Val(Dec(DigitsValue(i + f[..j]), j))
  {
    AllDigitsSplit(f, j);
    var h := i + f[..j];
    AllDigitsAppend(i, f[..j]);
    ZerosTail(f, j);
    assert i + f == h + Zeros(|f| - j);
    ZerosValue(|f| - j);
    DigitsValueAppend(h, Zeros(|f| - j));
    ScaledValue(DigitsValue(h), j, |f| - j, DigitsValue(i + f), |f|);
  }

  /** Digits with a point and fraction digits whose tail is zeros read as the untrimmed digits. */
  lemma ReadCutFraction(i: string, f: string, j: nat)
    requires AllDigits(i) && |i| >= 1 && AllDigits(f) && j <= |f|
    requires forall p :: j <= p < |f| ==> f[p] == '0'
    ensures AllDigits(i + f)
    ensures Val(ParseFloat(if j == 0 then i else i + ("." + f[..j]))) == Val(Dec(DigitsValue(i + f), |f|))
  {
    CutValue(i, f, j);
    ReadCut(i, f, j);
  }

  /** `k * 10^z` over 10^(m+z) is `k` over 10^m, stated for a product already known. */
  lemma ScaledValue(k: int, m: nat, z: nat, big: int, n: nat)
    requires big == k * Pow10(z) && n == m + z
    ensures Val(Dec(big, n)) == Val(Dec(k, m))
  {
    ScaleInvariant(k, m, z);
  }

  /** The kept text reads as the kept digits over 10^j. */
  lemma ReadCut(i: string, f: string, j: nat)
    requires AllDigits(i) && |i| >= 1 && AllDigits(f) && j <= |f|
    ensures ParseFloat(if j == 0 then i else i + ("." + f[..j])) == Dec(DigitsValue(i + f[..j]), j)
  {
    if j == 0 {
      ReadWholeCut(i, f);
    } else {
      ReadPointCut(i, f, j);
    }
  }

  /** With no fraction digit kept, the integer digits read as themselves. */
  lemma ReadWholeCut(i: string, f: string)
    requires AllDigits(i) && |i| >= 1
    ensures AllDigits(i + f[..0]) && ParseFloat(i) == Dec(DigitsValue(i + f[..0]), 0)
  {
    assert i + f[..0] == i;
    ParseInteger(i);
  }

  /** With `j` fraction digits kept, the text reads as all its digits over 10^j. */
  lemma ReadPointCut(i: string, f: string, j: nat)
    requires AllDigits(i) && |i| >= 1 && AllDigits(f) && 0 < j <= |f|
    ensures AllDigits(i + f[..j]) && ParseFloat(i + ("." + f[..j])) == Dec(DigitsValue(i + f[..j]), j)
  {
    AllDigitsSplit(f, j);
    ParsePointed(i, f[..j]);
  }

  /** The unsigned `toFixed(10)` text is integer digits, a point and ten fraction digits that spell the units. */
  lemma FixedParts(u: nat) returns (i: string, f: string)
    ensures AllDigits(i) && |i| >= 1 && AllDigits(f) && |f| == 10
    ensures AllDigits(i + f) && DigitsValue(i + f) == u
    ensures FixedBody(u) == i + ("." + f)
  {
    var ds := NatToDigits(u);
    var padded := if |ds| <= 10 then Zeros(11 - |ds|) + ds else ds;
    PaddedDigitsValue(u, ds, padded);
    i := padded[..|padded| - 10];
    f := padded[|padded| - 10..];
    AllDigitsSplit(padded, |padded| - 10);
  }

  /** The trim removes the zero tail of the fraction, and the point too when all ten digits are zeros. */
  lemma TrimFixedText(sign: string, i: string, f: string, s: string) returns (j: nat)
    requires sign == "" || sign == "-"
    requires AllDigits(i) && |i| >= 1 && AllDigits(f) && |f| == 10
    requires s == sign + (i + ("." + f))
    ensures j <= |f| && forall p :: j <= p < |f| ==> f[p] == '0'
    ensures TrimZeros(s) == sign + (if j == 0 then i else i + ("." + f[..j]))
  {
    var n := TrailingZeros(s);
    TrailingZerosRun(s);
    assert s[|s| - 11] == '.';
    j := 10 - n;
    assert forall p :: j <= p < |f| ==> f[p] == s[|s| - 10 + p];
    if j == 0 {
      assert TrimmedLength(s) == |s| - 11;
    } else {
      assert s[|s| - n - 1] == f[j - 1];
      assert TrimmedLength(s) == |s| - n;
    }
  }

  /** What `parseFloat` reads from a trimmed fixed-point text with the given digits. */
  lemma ReadFixedText(neg: bool, i: string, f: string, s: string, u: nat)
    requires AllDigits(i) && |i| >= 1 && AllDigits(f) && |f| == 10
    requires AllDigits(i + f) && DigitsValue(i + f) == u
    requires s == (if neg then "-" else "") + (i + ("." + f))
    ensures Val(ParseFloat(TrimZeros(s))) == Val(Dec(if neg then -(u as int) else u, 10))
  {
    var sign := if neg then "-" else "";
    var j := TrimFixedText(sign, i, f, s);
    var t := if j == 0 then i else i + ("." + f[..j]);
    assert |t| >= 1 && t[0] == i[0];
    ReadCutFraction(i, f, j);
    ReadSigned(neg, t, u, 10);
  }

  /** `parseFloat` of a signed, trimmed `toFixed(10)` text reads its units over 10^10. */
  lemma ReadTrimmedBody(neg: bool, u: nat)
    ensures Val(ParseFloat(TrimZeros((if neg then "-" else "") + FixedBody(u)))) ==
      Val(Dec(if neg then -(u as int) else u, 10))
  {
    var i, f := FixedParts(u);
    ReadFixedText(neg, i, f, (if neg then "-" else "") + FixedBody(u), u);
  }

  /** `parseFloat` of the trimmed `toFixed(10)` text is the rounded value itself. */
  lemma ReadTrimmedFixed(k: int, m: nat)
    ensures Val(ParseFloat(TrimZeros(ToFixed10(k, m)))) == Val(Dec(SignedUnits(k, m), 10))
  {
    var u := FixedUnits(k, m);
    var t := ToFixed10(k, m);
    assert t == (if k < 0 then "-" else "") + FixedBody(u);
    ReadTrimmedBody(k < 0, u);
    assert SignedUnits(k, m) == if k < 0 then -(u as int) else u;
  }

  /** Up to ten places `toFixed(10)` is exact. */
  lemma FixedUnitsExact(k: int, m: nat)
    requires m <= 10
    ensures Val(Dec(SignedUnits(k, m), 10)) == Val(Dec(k, m))
  {
    assert SignedUnits(k, m) == k * Pow10(10 - m);
    ScaleInvariant(k, m, 10 - m);
  }

  /** `a / (q t)` is the offset `(a - q u) / (q t)` from `u / t`. */
  lemma SplitQuotient(a: real, u: real, q: real, t: real)
    requires q > 0.0 && t > 0.0
    ensures a / (q * t) == (a - q * u) / (q * t) + u / t
  {
    assert (q * u) / (q * t) == u / t;
  }

  /** An offset of at most half of `q` is at most half a unit of `1 / t` after dividing by `q t`. */
  lemma HalfUnit(d: real, q: real, t: real)
    requires q > 0.0 && t > 0.0 && -q <= 2.0 * d <= q
    ensures -(1.0 / (2.0 * t)) <= d / (q * t) <= 1.0 / (2.0 * t)
  {
    var z := d / (q * t);
    var w := 1.0 / (2.0 * t);
    var p := q * t;
    assert z * p == d;
    assert w * p == q / 2.0;
    assert (w - z) * p == q / 2.0 - d;
    assert (z + w) * p == d + q / 2.0;
    NonNegativeFactor(w - z, p);
    NonNegativeFactor(z + w, p);
  }

  lemma NonNegativeFactor(x: real, p: real)
    requires p > 0.0 && x * p >= 0.0
    ensures x >= 0.0
  {
  }

  /** `a / (q t)` lies within `1 / 2t` of `u / t` when `a` is within `q / 2` of `q u`. */
  lemma RealNear(a: int, u: int, q: nat, t: nat)
    requires q >= 1 && t >= 1 && -(q as int) <= 2 * (a - q * u) <= q
    ensures var x := a as real / (q * t) as real;
      u as real / t as real - 1.0 / (2 * t) as real <= x <= u as real / t as real + 1.0 / (2 * t) as real
  {
    IntToRealMul(q, t);
    IntToRealMul(q, u);
    IntToRealMul(2, t);
    SplitQuotient(a as real, u as real, q as real, t as real);
    HalfUnit((a - q * u) as real, q as real, t as real);
  }

  /** Euclidean division by a positive divisor. */
  lemma FloorDivision(n: nat, d: nat)
    requires d > 0
    ensures d * (n / d) <= n < d * (n / d) + d
  {
  }

  /** Rounding `a / q` half up to `u` leaves `a` within `q / 2` of `q u`. */
  lemma RoundedUnits(a: nat, q: nat, u: nat)
    requires q >= 1 && u == (2 * a + q) / (2 * q)
    ensures -(q as int) <= 2 * (a - q * u) <= q
  {
    FloorDivision(2 * a + q, 2 * q);
    assert 2 * q * u == 2 * (q * u);
  }

  /** Beyond ten places `toFixed(10)` rounds `|k| / 10^m` half up in units of 10^-10. */
  lemma FixedUnitsLong(k: int, m: nat)
    requires m > 10
    ensures var a := if k < 0 then -k else k;
      var y := FixedUnits(k, m) as real / Pow10(10) as real;
      y - 1.0 / (2 * Pow10(10)) as real <= a as real / Pow10(m) as real <= y + 1.0 / (2 * Pow10(10)) as real
  {
    var a := if k < 0 then -k else k;
    var q := Pow10(m - 10);
    RoundedUnits(a, q, FixedUnits(k, m));
    Pow10Add(m - 10, 10);
    RealNear(a, FixedUnits(k, m), q, Pow10(10));
  }

  /** Beyond ten places `toFixed(10)` rounds half away from zero, so it is off by at most half a unit. */
  lemma FixedUnitsNear(k: int, m: nat)
    ensures var x := Val(Dec(k, m)).r;
      var y := Val(Dec(SignedUnits(k, m), 10)).r;
      x - 1.0 / (2 * Pow10(10)) as real <= y <= x + 1.0 / (2 * Pow10(10)) as real
  {
    if m <= 10 {
      FixedUnitsExact(k, m);
    } else {
      FixedUnitsLong(k, m);
      if k < 0 {
        assert Val(Dec(k, m)).r == -((-k) as real / Pow10(m) as real);
        assert Val(Dec(SignedUnits(k, m), 10)).r == -(FixedUnits(k, m) as real / Pow10(10) as real);
      }
    }
  }

  /** Half a unit of the tenth place is 5e-11. */
  lemma HalfTenthPlace()
    ensures 1.0 / (2 * Pow10(10)) as real == 0.00000000005
  {
    assert Pow10(10) == 10000000000;
  }

  /** Two more decimal places divide the value by 100. */
  lemma Hundredth(k: int, m: nat)
    ensures Val(Dec(k, m + 2)).r == Val(Dec(k, m)).r / 100.0
  {
    Pow10Add(m, 2);
    assert Pow10(2) == 100;
    IntToRealMul(Pow10(m), 100);
    var p := Pow10(m) as real;
    assert k as real / (p * 100.0) == (k as real / p) / 100.0;
  }

  /**
   * The stored text reads as the `toFixed(10)` value, unless `toFixed(10)`
   * writes "0" for a value that is not zero: then the `toString` fallback
   * stores the exact quotient.
   */
  lemma PercentReads(k: int, m: nat)
    ensures TrimZeros(ToFixed10(k, m + 2)) == "0" && k != 0 ==>
      ReadFloat(PercentText(Dec(k, m))) == Val(Dec(k, m + 2))
    ensures !(TrimZeros(ToFixed10(k, m + 2)) == "0" && k != 0) ==>
      ReadFloat(PercentText(Dec(k, m))) == Val(Dec(SignedUnits(k, m + 2), 10))
  {
    var f := TrimZeros(ToFixed10(k, m + 2));
    PercentTextReadsChoice(k, m);
    ReadTrimmedFixed(k, m + 2);
    ChoiceReads(k, m + 2, f, Val(Dec(SignedUnits(k, m + 2), 10)));
  }

  /** The stored text reads as the choice between the trimmed fixed text and `toString`. */
  lemma PercentTextReadsChoice(k: int, m: nat)
    ensures ReadFloat(PercentText(Dec(k, m))) == ReadFloat(FixedOrShown(k, m + 2, TrimZeros(ToFixed10(k, m + 2))))
  {
  }

  /** The chosen text reads as the value when it is the `toString` text, and as `v` when it is `f`. */
  lemma ChoiceReads(k: int, m: nat, f: string, v: Num)
    requires ReadFloat(f) == v
    ensures f == "0" && k != 0 ==> ReadFloat(FixedOrShown(k, m, f)) == Val(Dec(k, m))
    ensures !(f == "0" && k != 0) ==> ReadFloat(FixedOrShown(k, m, f)) == v
  {
    ShowRoundTrip(Dec(k, m));
  }

  /** With at most 8 places in the input, the stored text reads exactly as the input divided by 100. */
  lemma PercentExact(k: int, m: nat)
    requires m <= 8
    ensures ReadFloat(PercentText(Dec(k, m))) == Val(Dec(k, m + 2))
  {
    PercentReads(k, m);
    FixedUnitsExact(k, m + 2);
  }

  /** Otherwise it reads within half a unit of the tenth place of the input divided by 100. */
  lemma PercentNear(k: int, m: nat, y: Num)
    requires y == ReadFloat(PercentText(Dec(k, m)))
    ensures y.Fin?
    ensures var x := Val(Dec(k, m + 2)).r;
      x - 0.00000000005 <= y.r <= x + 0.00000000005
  {
    PercentReads(k, m);
    FixedUnitsNear(k, m + 2);
    HalfTenthPlace();
  }

  /**
   * The text `percentage` stores for `k / 10^m` reads as the input divided
   * by 100: exactly when the input has at most 8 places or when the
   * `toString` fallback fires, and within 5e-11 otherwise.
   */
  lemma PercentValue(k: int, m: nat)
    ensures ReadFloat(PercentText(Dec(k, m))).Fin?
    ensures var x := Val(Dec(k, m)).r / 100.0;
      var y := ReadFloat(PercentText(Dec(k, m))).r;
      x - 0.00000000005 <= y <= x + 0.00000000005
    ensures m <= 8 ==> ReadFloat(PercentText(Dec(k, m))) == Fin(Val(Dec(k, m)).r / 100.0)
  {
    Hundredth(k, m);
    PercentNear(k, m, ReadFloat(PercentText(Dec(k, m))));
    if m <= 8 {
      PercentExact(k, m);
    }
  }
}
