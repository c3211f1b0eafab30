/** The arithmetic behind scikit-learn's StandardScaler, over exact reals:
    population mean and variance of a column, the fitted (mean, scale) pair,
    and the z-scores it produces. */
module Stats {

  /** Sum of a sequence, taken from the back so that a running total extends
      by one element at a time. */
  function Sum(xs: seq<real>): real
  {
    if xs == [] then 0.0 else Sum(xs[..|xs| - 1]) + xs[|xs| - 1]
  }

  function Mean(xs: seq<real>): real
    requires |xs| > 0
  {
    Sum(xs) / |xs| as real
  }

  function Sq(a: real): real
  {
    a * a
  }

  /** The squared deviations of the values from `m`. */
  function SquaredDeviations(xs: seq<real>, m: real): (ds: seq<real>)
    ensures |ds| == |xs|
    ensures forall i :: 0 <= i < |xs| ==> ds[i] >= 0.0
  {
    seq(|xs|, i requires 0 <= i < |xs| => Sq(xs[i] - m))
  }

  /** Sum of squared deviations from `m`. */
  function SqDev(xs: seq<real>, m: real): (r: real)
    ensures r >= 0.0
  {
    SumNonNegative(SquaredDeviations(xs, m));
    Sum(SquaredDeviations(xs, m))
  }

  /** Sum of squares. */
  function SumSq(xs: seq<real>): real
  {
    SqDev(xs, 0.0)
  }

  /** Population variance (ddof = 0), as StandardScaler computes it. */
  function Variance(xs: seq<real>): (v: real)
    requires |xs| > 0
    ensures v >= 0.0
  {
    SqDev(xs, Mean(xs)) / |xs| as real
  }

  /** The square root used for the scale, left abstract: all the model needs
      is that it is positive on positive arguments. */
  type Root = f: real -> real | forall v: real :: v > 0.0 ==> f(v) > 0.0 witness (v: real) => 1.0

  /** A fitted scaler for one column: its `mean_` and `scale_`. */
  datatype Fit = Fit(mean: real, scale: real)

  /** StandardScaler.fit on one column: the population mean, and the standard
      deviation as scale, except that a constant column gets scale 1. */
  function FitOf(xs: seq<real>, root: Root): (f: Fit)
    requires |xs| > 0
    ensures f.scale > 0.0 && f.mean == Mean(xs)
  {
    var v := Variance(xs);
    Fit(Mean(xs), if v == 0.0 then 1.0 else root(v))
  }

  function ZScore(x: real, f: Fit): real
    requires f.scale > 0.0
  {
    (x - f.mean) / f.scale
  }

  /** StandardScaler.transform on one column. */
  function Standardised(xs: seq<real>, f: Fit): (zs: seq<real>)
    requires f.scale > 0.0
    ensures |zs| == |xs|
  {
    seq(|xs|, i requires 0 <= i < |xs| => ZScore(xs[i], f))
  }

  /** Multiplying every term by `k` multiplies the sum by `k`. */
  lemma {:induction false} SumScaled(us: seq<real>, vs: seq<real>, k: real)
    requires |us| == |vs| && forall i :: 0 <= i < |us| ==> us[i] * k == vs[i]
    ensures Sum(us) * k == Sum(vs)
  {
    if us != [] {
      var n := |us|;
      SumScaled(us[..n - 1], vs[..n - 1], k);
      Distribute(Sum(us), Sum(us[..n - 1]), us[n - 1], k, Sum(vs[..n - 1]), vs[n - 1]);
    }
  }

  lemma Distribute(x: real, a: real, b: real, c: real, p: real, q: real)
    requires x == a + b && a * c == p && b * c == q
    ensures x * c == p + q
  {
  }

  lemma {:induction false} SumNonNegative(xs: seq<real>)
    requires forall i :: 0 <= i < |xs| ==> xs[i] >= 0.0
    ensures Sum(xs) >= 0.0
  {
    if xs != [] {
      SumNonNegative(xs[..|xs| - 1]);
    }
  }

  /** The z-scores, multiplied back by the scale, sum to the total deviation
      from the fitted mean. */
  lemma {:induction false} SumStandardised(xs: seq<real>, f: Fit)
    requires f.scale > 0.0
    ensures Sum(Standardised(xs, f)) == (Sum(xs) - |xs| as real * f.mean) / f.scale
  {
    if xs != [] {
      var n := |xs|;
      assert Standardised(xs, f)[..n - 1] == Standardised(xs[..n - 1], f);
      SumStandardised(xs[..n - 1], f);
      var s, m, c := Sum(xs[..n - 1]), f.mean, f.scale;
      assert Sum(Standardised(xs, f)) == (s - (n - 1) as real * m) / c + (xs[n - 1] - m) / c;
      AddQuotients(s - (n - 1) as real * m, xs[n - 1] - m, c);
    }
  }

  lemma AddQuotients(a: real, b: real, c: real)
    requires c > 0.0
    ensures a / c + b / c == (a + b) / c
  {
  }

  /** Scaling invariant, first half: the z-scores of the values the scaler was
      fitted on sum to zero, so their mean is zero. */
  lemma ZScoresHaveZeroMean(xs: seq<real>, root: Root)
    requires |xs| > 0
    ensures Sum(Standardised(xs, FitOf(xs, root))) == 0.0
  {
    CenteredZScoresSumToZero(xs, FitOf(xs, root));
  }

  lemma CenteredZScoresSumToZero(xs: seq<real>, f: Fit)
    requires |xs| > 0 && f.scale > 0.0 && f.mean == Mean(xs)
    ensures Sum(Standardised(xs, f)) == 0.0
  {
    SumStandardised(xs, f);
    var s, n := Sum(xs), |xs| as real;
    assert f.mean == s / n;
    CenteredSumIsZero(s, n, f.scale);
  }

  lemma CenteredSumIsZero(s: real, n: real, c: real)
    requires n > 0.0 && c > 0.0
    ensures (s - n * (s / n)) / c == 0.0
  {
    assert n * (s / n) == s;
  }

  /** The squared z-scores, multiplied back by the squared scale, give the
      squared deviations from the fitted mean. */
  lemma SumSqStandardised(xs: seq<real>, f: Fit)
    requires f.scale > 0.0
    ensures SumSq(Standardised(xs, f)) * Sq(f.scale) == SqDev(xs, f.mean)
  {
    SquaresScaledBack(xs, f);
    SumScaled(SquaredDeviations(Standardised(xs, f), 0.0), SquaredDeviations(xs, f.mean), Sq(f.scale));
  }

  lemma SquaresScaledBack(xs: seq<real>, f: Fit)
    requires f.scale > 0.0
    ensures forall i :: 0 <= i < |xs| ==>
      SquaredDeviations(Standardised(xs, f), 0.0)[i] * Sq(f.scale) == SquaredDeviations(xs, f.mean)[i]
  {
    var zs := Standardised(xs, f);
    forall i | 0 <= i < |xs|
      ensures SquaredDeviations(zs, 0.0)[i] * Sq(f.scale) == SquaredDeviations(xs, f.mean)[i]
    {
      assert zs[i] - 0.0 == (xs[i] - f.mean) / f.scale;
      QuotientSquare(xs[i] - f.mean, f.scale);
    }
  }

  lemma QuotientSquare(d: real, c: real)
    requires c > 0.0
    ensures Sq(d / c) * Sq(c) == Sq(d)
  {
    var q := d / c;
    assert q * c == d;
    assert (q * q) * (c * c) == (q * c) * (q * c);
  }

  /** Scaling invariant, second half: when the scale is the exact square root of
      the variance, the squared z-scores sum to the number of values, so their
      population variance is one. */
  lemma ZScoresHaveUnitVariance(xs: seq<real>, root: Root)
    requires |xs| > 0 && Variance(xs) > 0.0
    requires Sq(root(Variance(xs))) == Variance(xs)
    ensures SumSq(Standardised(xs, FitOf(xs, root))) == |xs| as real
  {
    UnitVarianceOfFit(xs, FitOf(xs, root));
  }

  lemma UnitVarianceOfFit(xs: seq<real>, f: Fit)
    requires |xs| > 0 && f.scale > 0.0 && f.mean == Mean(xs)
    requires Variance(xs) > 0.0 && Sq(f.scale) == Variance(xs)
    ensures SumSq(Standardised(xs, f)) == |xs| as real
  {
    SumSqStandardised(xs, f);
    Cancel(SumSq(Standardised(xs, f)), Sq(f.scale), SqDev(xs, f.mean), |xs| as real);
  }

  /** From `x * v == d` and `v == d / n` with `v` positive: `x == n`. */
  lemma Cancel(x: real, v: real, d: real, n: real)
    requires n > 0.0 && v > 0.0 && x * v == d && v == d / n
    ensures x == n
  {
    assert d == v * n;
    assert x * v == n * v;
  }

  /** A constant column has zero variance, so the scaler keeps scale 1 and
      every z-score is zero. */
  lemma ConstantColumnScalesToZero(xs: seq<real>, root: Root)
    requires |xs| > 0 && forall i :: 0 <= i < |xs| ==> xs[i] == xs[0]
    ensures Variance(xs) == 0.0 && FitOf(xs, root).scale == 1.0
    ensures forall i :: 0 <= i < |xs| ==> Standardised(xs, FitOf(xs, root))[i] == 0.0
  {
    VarianceOfConstant(xs);
  }

  lemma VarianceOfConstant(xs: seq<real>)
    requires |xs| > 0 && forall i :: 0 <= i < |xs| ==> xs[i] == xs[0]
    ensures Mean(xs) == xs[0] && Variance(xs) == 0.0
  {
    SumOfConstant(xs, xs[0]);
    SqDevOfConstant(xs, xs[0]);
    MeanOfMultiple(Sum(xs), |xs| as real, xs[0]);
  }

  lemma MeanOfMultiple(s: real, n: real, c: real)
    requires n > 0.0
    ensures s == n * c <==> s / n == c
  {
  }

  lemma {:induction false} SumOfConstant(xs: seq<real>, c: real)
    requires forall i :: 0 <= i < |xs| ==> xs[i] == c
    ensures Sum(xs) == |xs| as real * c
  {
    if xs != [] {
      var n := |xs|;
      SumOfConstant(xs[..n - 1], c);
      assert (n - 1) as real * c + c == n as real * c;
    }
  }

  lemma SqDevOfConstant(xs: seq<real>, c: real)
    requires forall i :: 0 <= i < |xs| ==> xs[i] == c
    ensures SqDev(xs, c) == 0.0
  {
    SumOfConstant(SquaredDeviations(xs, c), 0.0);
  }
}
