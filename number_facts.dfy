/**
 * Facts about the number texts of module `Numbers`: what `parseFloat`
 * reads from the texts `toString` and `toFixed` write.
 */
module NumberFacts {
  import opened Wrappers
  import opened Numbers

  // --- digit strings ---

  lemma Pow10Add(a: nat, b: nat)
    ensures Pow10(a + b) == Pow10(a) * Pow10(b)
    decreases b
  {
    if b > 0 {
      Pow10Add(a, b - 1);
      assert Pow10(a + b) == 10 * Pow10(a + b - 1);
    }
  }

  lemma AllDigitsAppend(a: string, b: string)
    requires AllDigits(a) && AllDigits(b)
    ensures AllDigits(a + b)
  {
    assert forall i :: 0 <= i < |a + b| ==> (a + b)[i] == if i < |a| then a[i] else b[i - |a|];
  }

  /** The value of a concatenation of digit strings. */
  lemma {:induction false} DigitsValueAppend(a: string, b: string)
    requires AllDigits(a) && AllDigits(b)
    ensures AllDigits(a + b)
    ensures DigitsValue(a + b) == DigitsValue(a) * Pow10(|b|) + DigitsValue(b)
    decreases |b|
  {
    AllDigitsAppend(a, b);
    if |b| == 0 {
      assert a + b == a;
    } else {
      var b' := b[..|b| - 1];
      var d := b[|b| - 1] as int - '0' as int;
      assert (a + b)[..|a + b| - 1] == a + b';
      assert (a + b)[|a + b| - 1] == b[|b| - 1];
      assert AllDigits(b');
      DigitsValueAppend(a, b');
      assert DigitsValue(a + b) == 10 * DigitsValue(a + b') + d;
      assert DigitsValue(b) == 10 * DigitsValue(b') + d;
      assert Pow10(|b|) == 10 * Pow10(|b'|);
      ShiftedSum(DigitsValue(a), Pow10(|b'|), DigitsValue(b'), d);
    }
  }

  /** Appending a digit multiplies what stands before it by ten. */
  lemma ShiftedSum(x: int, p: int, y: int, d: int)
    ensures 10 * (x * p + y) + d == x * (10 * p) + (10 * y + d)
  {
  }

  /** `NatToDigits` writes the number it is given. */
  lemma {:induction false} DigitsOfNat(n: nat)
    ensures DigitsValue(NatToDigits(n)) == n
    decreases n
  {
    if n >= 10 {
      DigitsOfNat(n / 10);
      var s := NatToDigits(n);
      assert s[..|s| - 1] == NatToDigits(n / 10);
    }
  }

  /** Leading zeros add nothing. */
  lemma {:induction false} ZerosValue(j: nat)
    ensures AllDigits(Zeros(j)) && DigitsValue(Zeros(j)) == 0
  {
    if j > 0 {
      ZerosValue(j - 1);
      DigitsValueAppend("0", Zeros(j - 1));
    }
  }

  lemma ZerosSplit(j: nat)
    requires j > 0
    ensures Zeros(j) == Zeros(j - 1) + "0"
  {
    assert Zeros(j) == Zeros(j - 1) + "0";
  }

  lemma TimesTen(n: nat, q: nat)
    ensures n * (10 * q) == (n * q) * 10
  {
  }

  lemma NatToDigitsTimesTen(p: nat)
    requires p > 0
    ensures NatToDigits(p * 10) == NatToDigits(p) + "0"
  {
    assert (p * 10) / 10 == p && (p * 10) % 10 == 0;
  }

  /** Appending zeros multiplies by a power of ten. */
  lemma {:induction false} NatToDigitsZeros(n: nat, j: nat)
    requires n > 0
    ensures NatToDigits(n * Pow10(j)) == NatToDigits(n) + Zeros(j)
    decreases j
  {
    if j > 0 {
      NatToDigitsZeros(n, j - 1);
      var q := Pow10(j - 1);
      var p := n * q;
      assert Pow10(j) == 10 * q;
      TimesTen(n, q);
      assert n * Pow10(j) == p * 10;
      NatToDigitsTimesTen(p);
      ZerosSplit(j);
      assert NatToDigits(p) == NatToDigits(n) + Zeros(j - 1);
      assert NatToDigits(n) + Zeros(j - 1) + "0" == NatToDigits(n) + Zeros(j);
    }
  }

  /** The whole of a digit string is one digit run, ending where a non-digit starts. */
  lemma {:induction false} DigitRunOf(s: string, t: string)
    requires AllDigits(s) && (|t| == 0 || !IsDigit(t[0]))
    ensures DigitRun(s + t) == |s|
    decreases |s|
  {
    if |s| > 0 {
      assert (s + t)[1..] == s[1..] + t;
      DigitRunOf(s[1..], t);
    } else {
      assert s + t == t;
    }
  }

  // --- what parseFloat reads ---

  /** Digits followed by something that is neither a digit nor a point. */
  lemma ParseIntegerThen(i: string, t: string)
    requires AllDigits(i) && |i| >= 1
    requires |t| == 0 || (!IsDigit(t[0]) && t[0] != '.')
    ensures ParseUnsigned(i + t) == Scaled(DigitsValue(i), 0, ExponentOf(t))
  {
    var s := i + t;
    DigitRunOf(i, t);
    assert s[..|i|] == i;
    assert s[|i|..] == t;
  }

  /** Digits, a point and digits, followed by something that is not a digit. */
  lemma ParsePointedThen(i: string, f: string, t: string)
    requires AllDigits(i) && AllDigits(f) && |i| >= 1
    requires |t| == 0 || !IsDigit(t[0])
    ensures AllDigits(i + f)
    ensures ParseUnsigned(i + ("." + (f + t))) == Scaled(DigitsValue(i + f), |f|, ExponentOf(t))
  {
    PointThen(i, f + t);
    FractionThen(i, f, t);
  }

  /** Digits and a point: what follows the point is read as the fraction. */
  lemma PointThen(i: string, r: string)
    requires AllDigits(i) && |i| >= 1
    ensures ParseUnsigned(i + ("." + r)) == ParseFraction(i, r)
  {
    var p := "." + r;
    var s := i + p;
    DigitRunOf(i, p);
    assert s[..|i|] == i;
    assert s[|i|] == '.';
    assert s[|i| + 1..] == r;
  }

  lemma FractionThen(i: string, f: string, t: string)
    requires AllDigits(i) && AllDigits(f) && |i| >= 1
    requires |t| == 0 || !IsDigit(t[0])
    ensures AllDigits(i + f)
    ensures ParseFraction(i, f + t) == Scaled(DigitsValue(i + f), |f|, ExponentOf(t))
  {
    AllDigitsAppend(i, f);
    DigitRunOf(f, t);
    assert (f + t)[..|f|] == f;
    assert (f + t)[|f|..] == t;
  }

  /** The exponent suffix "e-" and digits. */
  lemma NegativeExponent(x: string)
    requires AllDigits(x) && |x| >= 1
    ensures ExponentOf("e-" + x) == -(DigitsValue(x) as int)
  {
    var t := "e-" + x;
    assert t[2..] == x + "";
    DigitRunOf(x, "");
    assert x[..|x|] == x;
  }

  /** An unsigned integer. */
  lemma ParseInteger(i: string)
    requires AllDigits(i) && |i| >= 1
    ensures ParseFloat(i) == Dec(DigitsValue(i), 0)
  {
    ParseIntegerThen(i, "");
    assert i + "" == i;
  }

  /** An unsigned number with a point and fraction digits. */
  lemma ParsePointed(i: string, f: string)
    requires AllDigits(i) && AllDigits(f) && |i| >= 1
    ensures AllDigits(i + f)
    ensures ParseFloat(i + ("." + f)) == Dec(DigitsValue(i + f), |f|)
  {
    ParsePointedThen(i, f, "");
    assert f + "" == f;
  }

  // --- values ---

  lemma IntToRealMul(a: int, b: int)
    ensures (a * b) as real == a as real * b as real
  {
  }

  lemma DivCancel(a: real, b: real, c: real, p: real, q: real)
    requires p > 0.0 && q > 0.0 && a == c * p && b == q * p
    ensures a / b == c / q
  {
    assert (c / q) * b == a;
  }

  lemma RealScale(k: int, P: nat, Q: nat)
    requires P >= 1 && Q >= 1
    ensures (k * P) as real / (Q * P) as real == k as real / Q as real
  {
    IntToRealMul(k, P);
    IntToRealMul(Q, P);
    DivCancel((k * P) as real, (Q * P) as real, k as real, P as real, Q as real);
  }

  /** Extra trailing zeros with a matching scale do not change a value. */
  lemma ScaleInvariant(k: int, m: nat, j: nat)
    ensures Val(Dec(k * Pow10(j), m + j)) == Val(Dec(k, m))
  {
    Pow10Add(m, j);
    RealScale(k, Pow10(j), Pow10(m));
  }

  lemma NegatedValue(d: Decimal)
    requires d.Dec?
    ensures Val(Negated(d)) == Fin(-Val(d).r)
  {
  }

  /** What `Normalize` moves into the exponent it takes out of the digits. */
  lemma {:induction false} NormalizeValue(k: nat, e: int)
    requires k > 0
    ensures Normalize(k, e).1 >= e && k == Normalize(k, e).0 * Pow10(Normalize(k, e).1 - e)
    decreases k
  {
    if k % 10 == 0 {
      var p := k / 10;
      assert k == p * 10;
      NormalizeValue(p, e + 1);
      var (k', e') := Normalize(p, e + 1);
      assert Normalize(k, e) == (k', e');
      var q := Pow10(e' - e - 1);
      assert p == k' * q;
      assert Pow10(e' - e) == 10 * q;
      TimesTen(k', q);
    }
  }

  // --- toString, read back ---

  /** `k / 10^m` written as the normalized digits `k'` times `10^e'`. */
  lemma NormalizedValue(k: nat, m: nat)
    requires k > 0
    ensures var (k', e') := Normalize(k, -(m as int));
      e' + m >= 0 && Val(Dec(k, m)) == Val(Dec(k' * Pow10(e' + m), m))
  {
    NormalizeValue(k, -(m as int));
  }

  /** The decimal `k' / 10^(-e')` for `e' < 0`, scaled up to `m` places. */
  lemma FractionValue(k': nat, e': int, m: nat)
    requires e' < 0 && e' + m >= 0
    ensures Val(Dec(k' * Pow10(e' + m), m)) == Val(Dec(k', -e'))
  {
    ScaleInvariant(k', -e', e' + m);
  }

  /** An integer `k' * 10^e'`, `e' >= 0`, scaled up to `m` places. */
  lemma WholeValue(k': nat, e': nat, m: nat)
    ensures Val(Dec(k' * Pow10(e' + m), m)) == Val(Dec(k' * Pow10(e'), 0))
  {
    Pow10Add(e', m);
    assert k' * Pow10(e' + m) == (k' * Pow10(e')) * Pow10(m);
    ScaleInvariant(k' * Pow10(e'), 0, m);
  }

  /** Plain notation with no point: the digits and `e'` zeros. */
  lemma ReadWhole(k': nat, e': nat)
    requires k' > 0
    ensures ParseFloat(NatToDigits(k') + Zeros(e')) == Dec(k' * Pow10(e'), 0)
  {
    NatToDigitsZeros(k', e');
    ParseInteger(NatToDigits(k' * Pow10(e')));
    DigitsOfNat(k' * Pow10(e'));
  }

  /** Plain notation with the point inside the digits. */
  lemma ReadPointed(ds: string, n: nat)
    requires AllDigits(ds) && 0 < n < |ds|
    ensures ParseFloat(ds[..n] + ("." + ds[n..])) == Dec(DigitsValue(ds), |ds| - n)
  {
    AllDigitsSplit(ds, n);
    ParsePointed(ds[..n], ds[n..]);
  }

  lemma AllDigitsSplit(ds: string, n: nat)
    requires AllDigits(ds) && n <= |ds|
    ensures AllDigits(ds[..n]) && AllDigits(ds[n..]) && ds[..n] + ds[n..] == ds
  {
    assert forall j :: 0 <= j < n ==> ds[..n][j] == ds[j];
    assert forall j :: 0 <= j < |ds| - n ==> ds[n..][j] == ds[n + j];
  }

  /** The digits of "0", zeros and `ds` are worth `ds`. */
  lemma SmallDigits(ds: string, z: nat)
    requires AllDigits(ds)
    ensures AllDigits(Zeros(z) + ds)
    ensures DigitsValue("0" + (Zeros(z) + ds)) == DigitsValue(ds)
  {
    var f := Zeros(z) + ds;
    assert AllDigits(f) && DigitsValue(f) == DigitsValue(ds) by {
      ZerosValue(z);
      DigitsValueAppend(Zeros(z), ds);
    }
    assert AllDigits("0") && DigitsValue("0") == 0;
    DigitsValueAppend("0", f);
  }

  /** Plain notation below 1: "0.", zeros, then the digits. */
  lemma ReadSmall(ds: string, z: nat)
    requires AllDigits(ds)
    ensures ParseFloat("0" + ("." + (Zeros(z) + ds))) == Dec(DigitsValue(ds), z + |ds|)
  {
    SmallDigits(ds, z);
    ParsePointed("0", Zeros(z) + ds);
  }

  /** Exponent notation with more than one digit: `d.ddde-x`. */
  lemma ReadExponentLong(ds: string, x: nat)
    requires AllDigits(ds) && |ds| > 1
    ensures ParseFloat(ds[..1] + ("." + (ds[1..] + ("e-" + NatToDigits(x))))) == Dec(DigitsValue(ds), |ds| - 1 + x)
  {
    var xs := NatToDigits(x);
    assert ExponentOf("e-" + xs) == -(x as int) by {
      DigitsOfNat(x);
      NegativeExponent(xs);
    }
    assert ds[..1] + ds[1..] == ds;
    ParsePointedThen(ds[..1], ds[1..], "e-" + xs);
  }

  /** Exponent notation with a single digit: `de-x`. */
  lemma ReadExponentShort(ds: string, x: nat)
    requires AllDigits(ds) && |ds| == 1
    ensures ParseFloat(ds + ("e-" + NatToDigits(x))) == Dec(DigitsValue(ds), x)
  {
    var xs := NatToDigits(x);
    assert ExponentOf("e-" + xs) == -(x as int) by {
      DigitsOfNat(x);
      NegativeExponent(xs);
    }
    ParseIntegerThen(ds, "e-" + xs);
  }

  /** The text `toString` writes for `k' * 10^e'`, `k'` without trailing zeros, and
      the number `parseFloat` reads from it. */
  lemma ReadNormalized(k': nat, e': int, t: string)
    requires k' > 0
    requires var ds := NatToDigits(k');
      var n := |ds| + e';
      t == if e' >= 0 then ds + Zeros(e')
           else if n > 0 then ds[..n] + ("." + ds[n..])
           else if n > -6 then "0" + ("." + (Zeros(-n) + ds))
           else if |ds| > 1 then ds[..1] + ("." + (ds[1..] + ("e-" + NatToDigits(1 - n))))
           else ds + ("e-" + NatToDigits(1 - n))
    ensures ParseFloat(t) == if e' >= 0 then Dec(k' * Pow10(e'), 0) else Dec(k', -e')
  {
    var ds := NatToDigits(k');
    if e' >= 0 {
      assert t == ds + Zeros(e');
      ReadWhole(k', e');
    } else {
      DigitsOfNat(k');
      ReadFraction(ds, k', -e', t);
    }
  }

  /** The text of `k' / 10^m` for a positive `m`, with or without leading zeros. */
  lemma ReadFraction(ds: string, k': nat, m: nat, t: string)
    requires m > 0 && k' > 0 && AllDigits(ds) && |ds| >= 1 && DigitsValue(ds) == k'
    requires var n := |ds| - m;
      t == if n > 0 then ds[..n] + ("." + ds[n..])
           else if n > -6 then "0" + ("." + (Zeros(-n) + ds))
           else if |ds| > 1 then ds[..1] + ("." + (ds[1..] + ("e-" + NatToDigits(1 - n))))
           else ds + ("e-" + NatToDigits(1 - n))
    ensures ParseFloat(t) == Dec(k', m)
  {
    var n := |ds| - m;
    if n > 0 {
      ReadPointed(ds, n);
    } else {
      ReadTiny(ds, m, t);
    }
  }

  /** The text of `k' / 10^m` when `k'` has no more than `m` digits. */
  lemma ReadTiny(ds: string, m: nat, t: string)
    requires AllDigits(ds) && |ds| >= 1 && |ds| <= m
    requires var n := |ds| - m;
      t == if n > -6 then "0" + ("." + (Zeros(-n) + ds))
           else if |ds| > 1 then ds[..1] + ("." + (ds[1..] + ("e-" + NatToDigits(1 - n))))
           else ds + ("e-" + NatToDigits(1 - n))
    ensures ParseFloat(t) == Dec(DigitsValue(ds), m)
  {
    var n := |ds| - m;
    if n > -6 {
      var z: nat := -n;
      assert z + |ds| == m;
      ReadSmall(ds, z);
    } else if |ds| > 1 {
      var x: nat := 1 - n;
      assert |ds| - 1 + x == m;
      ReadExponentLong(ds, x);
    } else {
      var x: nat := 1 - n;
      assert x == m;
      ReadExponentShort(ds, x);
    }
  }

  /** What `parseFloat` makes of the text `toString` writes for a positive number. */
  lemma ReadShowPositive(k: nat, e: int)
    requires k > 0
    ensures var (k', e') := Normalize(k, e);
      ParseFloat(ShowPositive(k, e)) == if e' >= 0 then Dec(k' * Pow10(e'), 0) else Dec(k', -e')
  {
    var (k', e') := Normalize(k, e);
    ReadNormalized(k', e', ShowPositive(k, e));
  }

  /** `parseFloat` reads back the positive number `toString` wrote. */
  lemma ShowPositiveRoundTrip(k: nat, m: nat)
    requires k > 0
    ensures Val(ParseFloat(ShowPositive(k, -(m as int)))) == Val(Dec(k, m))
  {
    var (k', e') := Normalize(k, -(m as int));
    assert e' + m >= 0 && Val(Dec(k, m)) == Val(Dec(k' * Pow10(e' + m), m)) by {
      NormalizedValue(k, m);
    }
    var r := ParseFloat(ShowPositive(k, -(m as int)));
    ReadShowPositive(k, -(m as int));
    if e' >= 0 {
      assert r == Dec(k' * Pow10(e'), 0);
      WholeValue(k', e', m);
    } else {
      assert r == Dec(k', -e');
      FractionValue(k', e', m);
    }
  }

  /** `parseFloat` reads back a negative number `toString` wrote: the sign, then
      the text of its magnitude. */
  lemma ShowNegativeRoundTrip(k: nat, m: nat, p: string)
    requires k > 0 && p == ShowPositive(k, -(m as int))
    ensures Val(ParseFloat("-" + p)) == Val(Dec(-(k as int), m))
  {
    ShowPositiveShape(k, -(m as int));
    ParseNegated(p);
    var r := ParseFloat(p);
    ShowPositiveRoundTrip(k, m);
    NegatedReads(r, k, m);
  }

  /** `parseFloat("NaN")` is `NaN`. */
  lemma NaNReadsNaN()
    ensures ParseFloat("NaN") == DecNaN
  {
    assert DigitRun("NaN") == 0 by {
      assert !IsDigit('N');
    }
    assert ParseUnsigned("NaN") == DecNaN;
  }

  /** `parseFloat("0")` is zero. */
  lemma ZeroReadsZero()
    ensures Val(ParseFloat("0")) == Fin(0.0)
  {
    assert DigitsValue("0") == 0;
    ParseInteger("0");
  }

  /** `parseFloat` reads back the number `toString` wrote. */
  lemma ShowRoundTrip(d: Decimal)
    ensures Val(ParseFloat(Show(d))) == Val(d)
  {
    match d
    case DecNaN =>
      NaNReadsNaN();
    case Dec(k, m) =>
      if k == 0 {
        ZeroRoundTrip(m);
      } else if k > 0 {
        ShowPositiveRoundTrip(k, m);
      } else {
        NegativeRoundTrip(k, m);
      }
  }

  lemma ZeroRoundTrip(m: nat)
    ensures Val(ParseFloat(Show(Dec(0, m)))) == Val(Dec(0, m))
  {
    assert Show(Dec(0, m)) == "0";
    ZeroReadsZero();
  }

  lemma NegativeRoundTrip(k: int, m: nat)
    requires k < 0
    ensures Val(ParseFloat(Show(Dec(k, m)))) == Val(Dec(k, m))
  {
    var p := ShowPositive(-k, -(m as int));
    assert Show(Dec(k, m)) == "-" + p;
    ShowNegativeRoundTrip(-k, m, p);
  }

  /** Negating a decimal that reads as `k / 10^m` gives one that reads as `-k / 10^m`. */
  lemma NegatedReads(r: Decimal, k: int, m: nat)
    requires Val(r) == Val(Dec(k, m))
    ensures Val(Negated(r)) == Val(Dec(-k, m))
  {
    var Dec(k', m') := r;
    NegatedQuotient(k as real, Pow10(m) as real);
    NegatedQuotient(k' as real, Pow10(m') as real);
  }

  lemma NegatedQuotient(a: real, q: real)
    requires q > 0.0
    ensures (-a) / q == -(a / q)
  {
  }
}
