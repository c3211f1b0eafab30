/** Technical indicators computed over one ticker's daily price history, and
    the whole-table anomaly flag of the historical pipeline. Prices are exact
    reals; an indicator cell is NaN until its window is full. */
module TechnicalFeatures {
  import opened Frames
  import opened Stats
  import AnomalyDetector

  // ------------------------------------------------------------------ OBV

  /** The change of on-balance volume at row `i`: the row's volume counted up
      when the close rose, down when it fell, not at all when it was flat. */
  function ObvStep(close: seq<real>, volume: seq<real>, i: nat): real
    requires |close| == |volume| && 1 <= i < |close|
  {
    if close[i] > close[i - 1] then volume[i]
    else if close[i] < close[i - 1] then -volume[i]
    else 0.0
  }

  /** The first `n` values of the OBV series: 0, then a running total of the steps. */
  function ObvPrefix(close: seq<real>, volume: seq<real>, n: nat): (obv: seq<real>)
    requires |close| == |volume| && 1 <= n <= |close|
    ensures |obv| == n && obv[0] == 0.0
  {
    if n == 1 then [0.0]
    else
      var p := ObvPrefix(close, volume, n - 1);
      p + [p[n - 2] + ObvStep(close, volume, n - 1)]
  }

  datatype ObvError =
    | LengthMismatch  // `pd.Series([0], index=df.index)` on a table without rows

  /** `compute_obv`: one value per row; a table without rows fails, because the
      seed value 0 does not fit an empty index. */
  function Obv(close: seq<real>, volume: seq<real>): (r: Result<seq<real>, ObvError>)
    requires |close| == |volume|
    ensures r.Err? <==> |close| == 0
    ensures r.Ok? ==> |r.value| == |close| && r.value[0] == 0.0
  {
    if |close| == 0 then Err(LengthMismatch) else Ok(ObvPrefix(close, volume, |close|))
  }

  lemma {:induction false} ObvPrefixIsPrefix(close: seq<real>, volume: seq<real>, m: nat, n: nat)
    requires |close| == |volume| && 1 <= m <= n <= |close|
    ensures ObvPrefix(close, volume, n)[..m] == ObvPrefix(close, volume, m)
  {
    if m < n {
      ObvPrefixIsPrefix(close, volume, m, n - 1);
      assert ObvPrefix(close, volume, n)[..n - 1] == ObvPrefix(close, volume, n - 1);
    } else {
      assert ObvPrefix(close, volume, n)[..m] == ObvPrefix(close, volume, n);
    }
  }

  /** Each value is the previous one moved by the row's step. */
  lemma ObvRecurrence(close: seq<real>, volume: seq<real>, i: nat)
    requires |close| == |volume| && 1 <= i < |close|
    ensures Obv(close, volume).Ok?
    ensures close[i] > close[i - 1] ==> Obv(close, volume).value[i] == Obv(close, volume).value[i - 1] + volume[i]
    ensures close[i] < close[i - 1] ==> Obv(close, volume).value[i] == Obv(close, volume).value[i - 1] - volume[i]
    ensures close[i] == close[i - 1] ==> Obv(close, volume).value[i] == Obv(close, volume).value[i - 1]
  {
    var n := |close|;
    ObvPrefixIsPrefix(close, volume, i + 1, n);
    assert ObvPrefix(close, volume, i + 1)[i] == ObvPrefix(close, volume, i)[i - 1] + ObvStep(close, volume, i);
    ObvPrefixIsPrefix(close, volume, i, i + 1);
    assert ObvPrefix(close, volume, n)[i - 1] == ObvPrefix(close, volume, n)[..i + 1][i - 1];
  }

  /** Over a stretch of unchanged closes the OBV stays constant. */
  lemma {:induction false} ObvFlat(close: seq<real>, volume: seq<real>, a: nat, b: nat)
    requires |close| == |volume| && a <= b < |close|
    requires forall i :: a < i <= b ==> close[i] == close[i - 1]
    ensures Obv(close, volume).Ok? && Obv(close, volume).value[b] == Obv(close, volume).value[a]
  {
    if a < b {
      ObvFlat(close, volume, a, b - 1);
      ObvRecurrence(close, volume, b);
    }
  }

  /** Over a stretch of rising closes with positive volume the OBV strictly increases. */
  lemma {:induction false} ObvRising(close: seq<real>, volume: seq<real>, a: nat, b: nat)
    requires |close| == |volume| && a < b < |close|
    requires forall i :: a < i <= b ==> close[i] > close[i - 1] && volume[i] > 0.0
    ensures Obv(close, volume).Ok? && Obv(close, volume).value[a] < Obv(close, volume).value[b]
  {
    ObvRecurrence(close, volume, b);
    if a < b - 1 {
      ObvRising(close, volume, a, b - 1);
    }
  }

  predicate IsInteger(x: real) {
    x == x.Floor as real
  }

  /** With whole-number volumes every OBV value is a whole number. */
  lemma {:induction false} ObvIntegral(close: seq<real>, volume: seq<real>, n: nat)
    requires |close| == |volume| && 1 <= n <= |close|
    requires forall i :: 0 <= i < |volume| ==> IsInteger(volume[i])
    ensures forall i :: 0 <= i < n ==> IsInteger(ObvPrefix(close, volume, n)[i])
  {
    if n > 1 {
      ObvIntegral(close, volume, n - 1);
      var p := ObvPrefix(close, volume, n - 1);
      var s := ObvStep(close, volume, n - 1);
      assert IsInteger(s) by {
        if close[n - 1] < close[n - 2] {
          NegatedInteger(volume[n - 1]);
        }
      }
      SumOfIntegers(p[n - 2], s);
    }
  }

  lemma NegatedInteger(x: real)
    requires IsInteger(x)
    ensures IsInteger(-x)
  {
    assert -x == (-(x.Floor)) as real;
  }

  lemma SumOfIntegers(x: real, y: real)
    requires IsInteger(x) && IsInteger(y)
    ensures IsInteger(x + y)
  {
    assert x + y == (x.Floor + y.Floor) as real;
  }

  /** The loop reads a row's volume only when the close moved: two volume
      columns that agree on those rows give the same OBV. */
  lemma {:induction false} ObvReadsMovedVolumes(close: seq<real>, v1: seq<real>, v2: seq<real>, n: nat)
    requires |close| == |v1| == |v2| && 1 <= n <= |close|
    requires forall i :: 1 <= i < n && close[i] != close[i - 1] ==> v1[i] == v2[i]
    ensures ObvPrefix(close, v1, n) == ObvPrefix(close, v2, n)
  {
    if n > 1 {
      ObvReadsMovedVolumes(close, v1, v2, n - 1);
      assert ObvStep(close, v1, n - 1) == ObvStep(close, v2, n - 1);
    }
  }

  /** `compute_obv` as the loop that appends one value per row. */
  method ComputeObv(close: seq<real>, volume: seq<real>) returns (res: Result<seq<real>, ObvError>)
    requires |close| == |volume|
    ensures res == Obv(close, volume)
  {
    if |close| == 0 {
      return Err(LengthMismatch);
    }
    var obv := [0.0];
    var i := 1;
    while i < |close|
      invariant 1 <= i <= |close|
      invariant obv == ObvPrefix(close, volume, i)
    {
      if close[i] > close[i - 1] {
        obv := obv + [obv[|obv| - 1] + volume[i]];
      } else if close[i] < close[i - 1] {
        obv := obv + [obv[|obv| - 1] - volume[i]];
      } else {
        obv := obv + [obv[|obv| - 1]];
      }
      i := i + 1;
    }
    return Ok(obv);
  }

  // ------------------------------------------------------------------ EMA and MACD

  /** The smoothing factor of `ewm(span=span)`. */
  function Alpha(span: nat): (a: real)
    requires span >= 1
    ensures 0.0 < a <= 1.0
  {
    2.0 / (span as real + 1.0)
  }

  /** `ewm(alpha, adjust=False).mean()`: seeded by the first value, then each
      value moves the running average by `alpha` of the way towards it. */
  function Ema(xs: seq<real>, alpha: real): (e: seq<real>)
    ensures |e| == |xs|
  {
    if |xs| <= 1 then xs
    else
      var p := Ema(xs[..|xs| - 1], alpha);
      p + [Smooth(p[|xs| - 2], xs[|xs| - 1], alpha)]
  }

  /** One smoothing step: the previous average moved `alpha` of the way towards `x`. */
  function Smooth(prev: real, x: real, alpha: real): real
  {
    (1.0 - alpha) * prev + alpha * x
  }

  lemma {:induction false} EmaIsPrefix(xs: seq<real>, alpha: real, m: nat)
    requires m <= |xs|
    ensures Ema(xs, alpha)[..m] == Ema(xs[..m], alpha)
  {
    if m < |xs| {
      var n := |xs|;
      EmaIsPrefix(xs[..n - 1], alpha, m);
      assert xs[..n - 1][..m] == xs[..m];
      if n > 1 {
        assert Ema(xs, alpha)[..n - 1] == Ema(xs[..n - 1], alpha);
      }
      assert Ema(xs, alpha)[..m] == Ema(xs, alpha)[..n - 1][..m];
    } else {
      assert xs[..m] == xs;
    }
  }

  /** The first value is the seed; every later value is the recurrence of
      `adjust=False`. */
  lemma EmaRecurrence(xs: seq<real>, alpha: real, i: nat)
    requires 0 <= i < |xs|
    ensures i == 0 ==> Ema(xs, alpha)[0] == xs[0]
    ensures i > 0 ==> Ema(xs, alpha)[i] == (1.0 - alpha) * Ema(xs, alpha)[i - 1] + alpha * xs[i]
  {
    var e, ys := Ema(xs, alpha), xs[..i + 1];
    EmaIsPrefix(xs, alpha, i + 1);
    assert e[i] == Ema(ys, alpha)[i];
    if i > 0 {
      EmaStep(ys, alpha);
      assert ys[..|ys| - 1] == xs[..i];
      EmaIsPrefix(xs, alpha, i);
    }
  }

  lemma EmaStep(xs: seq<real>, alpha: real)
    requires |xs| >= 2
    ensures Ema(xs, alpha) == Ema(xs[..|xs| - 1], alpha) + [Smooth(Ema(xs[..|xs| - 1], alpha)[|xs| - 2], xs[|xs| - 1], alpha)]
  {
  }

  /** A moving average never leaves the range of the values it averages. */
  lemma {:induction false} EmaBounded(xs: seq<real>, alpha: real, lo: real, hi: real)
    requires 0.0 < alpha <= 1.0
    requires forall i :: 0 <= i < |xs| ==> lo <= xs[i] <= hi
    ensures forall i :: 0 <= i < |xs| ==> lo <= Ema(xs, alpha)[i] <= hi
  {
    if |xs| > 1 {
      var n := |xs|;
      EmaBounded(xs[..n - 1], alpha, lo, hi);
      var p := Ema(xs[..n - 1], alpha);
      Between(p[n - 2], xs[n - 1], alpha, lo, hi);
    }
  }

  /** A convex combination of two values in [lo, hi] stays in [lo, hi]. */
  lemma Between(p: real, x: real, a: real, lo: real, hi: real)
    requires 0.0 < a <= 1.0 && lo <= p <= hi && lo <= x <= hi
    ensures lo <= (1.0 - a) * p + a * x <= hi
  {
    NonNegativeProduct(1.0 - a, p - lo);
    NonNegativeProduct(a, x - lo);
    NonNegativeProduct(1.0 - a, hi - p);
    NonNegativeProduct(a, hi - x);
    assert (1.0 - a) * p + a * x - lo == (1.0 - a) * (p - lo) + a * (x - lo);
    assert hi - ((1.0 - a) * p + a * x) == (1.0 - a) * (hi - p) + a * (hi - x);
  }

  lemma NonNegativeProduct(u: real, v: real)
    requires u >= 0.0 && v >= 0.0
    ensures u * v >= 0.0
  {
  }

  /** The moving average of a constant series is that constant. */
  lemma EmaOfConstant(xs: seq<real>, alpha: real, c: real)
    requires 0.0 < alpha <= 1.0 && forall i :: 0 <= i < |xs| ==> xs[i] == c
    ensures forall i :: 0 <= i < |xs| ==> Ema(xs, alpha)[i] == c
  {
    EmaBounded(xs, alpha, c, c);
  }

  /** `compute_ema(series, span)`. */
  function SpanEma(xs: seq<real>, span: nat): (e: seq<real>)
    requires span >= 1
    ensures |e| == |xs|
  {
    Ema(xs, Alpha(span))
  }

  /** The MACD line: the 12-day average minus the 26-day average. */
  function Macd(close: seq<real>): (m: seq<real>)
    ensures |m| == |close|
    ensures forall i :: 0 <= i < |close| ==> m[i] == SpanEma(close, 12)[i] - SpanEma(close, 26)[i]
  {
    var fast, slow := SpanEma(close, 12), SpanEma(close, 26);
    seq(|close|, i requires 0 <= i < |close| => fast[i] - slow[i])
  }

  /** The signal line: the 9-day average of the MACD line. */
  function MacdSignal(close: seq<real>): (s: seq<real>)
    ensures |s| == |close|
  {
    SpanEma(Macd(close), 9)
  }

  /** A flat price gives a MACD line and a signal line of zeros. */
  lemma MacdOfConstant(close: seq<real>, c: real)
    requires forall i :: 0 <= i < |close| ==> close[i] == c
    ensures forall i :: 0 <= i < |close| ==> Macd(close)[i] == 0.0 && MacdSignal(close)[i] == 0.0
  {
    EmaOfConstant(close, Alpha(12), c);
    EmaOfConstant(close, Alpha(26), c);
    EmaOfConstant(Macd(close), Alpha(9), 0.0);
  }

  // ------------------------------------------------------------------ rolling windows

  /** The `w` values ending at row `i`. */
  function Window(xs: seq<real>, i: nat, w: nat): (win: seq<real>)
    requires 1 <= w <= i + 1 <= |xs|
    ensures |win| == w && forall k :: 0 <= k < w ==> win[k] == xs[i + 1 - w + k]
  {
    xs[i + 1 - w..i + 1]
  }

  function MinOf(xs: seq<real>): (m: real)
    requires |xs| > 0
    ensures forall k :: 0 <= k < |xs| ==> m <= xs[k]
    ensures exists k :: 0 <= k < |xs| && m == xs[k]
  {
    if |xs| == 1 then xs[0]
    else
      var r := MinOf(xs[..|xs| - 1]);
      if xs[|xs| - 1] < r then xs[|xs| - 1] else r
  }

  function MaxOf(xs: seq<real>): (m: real)
    requires |xs| > 0
    ensures forall k :: 0 <= k < |xs| ==> xs[k] <= m
    ensures exists k :: 0 <= k < |xs| && m == xs[k]
  {
    if |xs| == 1 then xs[0]
    else
      var r := MaxOf(xs[..|xs| - 1]);
      if xs[|xs| - 1] > r then xs[|xs| - 1] else r
  }

  /** `rolling(w).mean()`: NaN until `w` values are available. */
  function RollingMean(xs: seq<real>, w: nat): (r: seq<Cell>)
    requires w >= 1
    ensures |r| == |xs|
    ensures forall i :: 0 <= i < |xs| ==> (r[i] == NaN <==> i + 1 < w)
    ensures forall i :: 0 <= i < |xs| && i + 1 >= w ==> r[i] == Num(Mean(Window(xs, i, w)))
  {
    seq(|xs|, i requires 0 <= i < |xs| => if i + 1 < w then NaN else Num(Mean(Window(xs, i, w))))
  }

  /** The square root behind `std()`, with the value 0 at 0. */
  function Sqrt(v: real, root: Root): (s: real)
    requires v >= 0.0
    ensures s >= 0.0 && (s == 0.0 <==> v == 0.0)
  {
    if v == 0.0 then 0.0 else root(v)
  }

  /** pandas' `std()`: the sample standard deviation (ddof = 1). */
  function SampleStd(xs: seq<real>, root: Root): (s: real)
    requires |xs| >= 2
    ensures s >= 0.0
  {
    Sqrt(SqDev(xs, Mean(xs)) / (|xs| - 1) as real, root)
  }

  /** `rolling(w).std()`: NaN until `w` values are available. */
  function RollingStd(xs: seq<real>, w: nat, root: Root): (r: seq<Cell>)
    requires w >= 2
    ensures |r| == |xs|
    ensures forall i :: 0 <= i < |xs| ==> (r[i] == NaN <==> i + 1 < w)
    ensures forall i :: 0 <= i < |xs| && i + 1 >= w ==> r[i] == Num(SampleStd(Window(xs, i, w), root))
  {
    seq(|xs|, i requires 0 <= i < |xs| => if i + 1 < w then NaN else Num(SampleStd(Window(xs, i, w), root)))
  }

  // ------------------------------------------------------------------ stochastic oscillator

  /** `num / den` in floating point, where a zero denominator gives an
      infinity of the numerator's sign, or NaN for 0 / 0. */
  function Divide(num: real, den: real): Cell
  {
    if den != 0.0 then Num(num / den)
    else if num > 0.0 then PosInf
    else if num < 0.0 then NegInf
    else NaN
  }

  /** %K at one row: where the close sits between the lowest low and the
      highest high of the window, in percent. */
  function StochCell(c: real, lo: real, hi: real): Cell
  {
    Divide(100.0 * (c - lo), hi - lo)
  }

  const KWindow: nat := 14
  const DWindow: nat := 3

  /** `stoch_k` at row `i`: NaN for the first 13 rows. */
  function StochKAt(close: seq<real>, high: seq<real>, low: seq<real>, i: nat): Cell
    requires |close| == |high| == |low| && i < |close|
  {
    if i + 1 < KWindow then NaN
    else StochCell(close[i], MinOf(Window(low, i, KWindow)), MaxOf(Window(high, i, KWindow)))
  }

  /** The `stoch_k` column. */
  function StochK(close: seq<real>, high: seq<real>, low: seq<real>): (k: seq<Cell>)
    requires |close| == |high| == |low|
    ensures |k| == |close| && forall i :: 0 <= i < |close| ==> k[i] == StochKAt(close, high, low, i)
  {
    seq(|close|, i requires 0 <= i < |close| => StochKAt(close, high, low, i))
  }

  /** The mean of three float cells: NaN if any is NaN (so the window lacks
      `min_periods` values) or if infinities of both signs meet. */
  function Mean3(a: Cell, b: Cell, c: Cell): Cell
  {
    if a.Num? && b.Num? && c.Num? then Num((a.x + b.x + c.x) / 3.0)
    else if !(a.Num? || a == PosInf || a == NegInf) || !(b.Num? || b == PosInf || b == NegInf)
         || !(c.Num? || c == PosInf || c == NegInf) then NaN
    else if (a == PosInf || b == PosInf || c == PosInf) && (a == NegInf || b == NegInf || c == NegInf) then NaN
    else if a == PosInf || b == PosInf || c == PosInf then PosInf
    else NegInf
  }

  /** `stoch_d`: the 3-row mean of %K. */
  function StochD(k: seq<Cell>): (d: seq<Cell>)
    ensures |d| == |k|
  {
    seq(|k|, i requires 0 <= i < |k| => if i + 1 < DWindow then NaN else Mean3(k[i - 2], k[i - 1], k[i]))
  }

  /** Neither oscillator is defined before its windows are full: %K needs 14
      rows, %D needs three values of %K. */
  lemma StochasticWarmUp(close: seq<real>, high: seq<real>, low: seq<real>, i: nat)
    requires |close| == |high| == |low| && i < |close|
    ensures i < 13 ==> StochK(close, high, low)[i] == NaN
    ensures i < 15 ==> StochD(StochK(close, high, low))[i] == NaN
  {
    var k := StochK(close, high, low);
    if 2 <= i < 15 {
      assert k[i - 2] == StochKAt(close, high, low, i - 2) == NaN;
      assert StochD(k)[i] == Mean3(k[i - 2], k[i - 1], k[i]);
    }
  }

  /** When every close lies between its row's low and high, %K and %D are
      percentages wherever they are defined, and %K is undefined exactly
      before the window is full or when the window's range is flat. */
  lemma StochasticBounds(close: seq<real>, high: seq<real>, low: seq<real>, i: nat)
    requires |close| == |high| == |low| && i < |close|
    requires forall j :: 0 <= j < |close| ==> low[j] <= close[j] <= high[j]
    ensures PercentCell(StochK(close, high, low)[i])
    ensures StochK(close, high, low)[i] == NaN <==>
      i < 13 || MinOf(Window(low, i, KWindow)) == MaxOf(Window(high, i, KWindow))
    ensures PercentCell(StochD(StochK(close, high, low))[i])
  {
    StochKBounds(close, high, low, i);
    StochDBounds(close, high, low, i);
  }

  lemma StochKBounds(close: seq<real>, high: seq<real>, low: seq<real>, i: nat)
    requires |close| == |high| == |low| && i < |close|
    requires forall j :: 0 <= j < |close| ==> low[j] <= close[j] <= high[j]
    ensures PercentCell(StochK(close, high, low)[i])
    ensures StochK(close, high, low)[i] == NaN <==>
      i < 13 || MinOf(Window(low, i, KWindow)) == MaxOf(Window(high, i, KWindow))
  {
    StochKCell(close, high, low, i);
  }

  lemma StochDBounds(close: seq<real>, high: seq<real>, low: seq<real>, i: nat)
    requires |close| == |high| == |low| && i < |close|
    requires forall j :: 0 <= j < |close| ==> low[j] <= close[j] <= high[j]
    ensures PercentCell(StochD(StochK(close, high, low))[i])
  {
    var k := StochK(close, high, low);
    if i >= 2 {
      StochKCell(close, high, low, i - 2);
      StochKCell(close, high, low, i - 1);
      StochKCell(close, high, low, i);
      assert StochD(k)[i] == Mean3(k[i - 2], k[i - 1], k[i]);
      Mean3Percent(k[i - 2], k[i - 1], k[i]);
    }
  }

  lemma Mean3Percent(a: Cell, b: Cell, c: Cell)
    requires PercentCell(a) && PercentCell(b) && PercentCell(c)
    ensures PercentCell(Mean3(a, b, c))
  {
  }

  /** A %K cell that is either NaN or a percentage. */
  predicate PercentCell(c: Cell) {
    c == NaN || (c.Num? && 0.0 <= c.x <= 100.0)
  }

  lemma StochKCell(close: seq<real>, high: seq<real>, low: seq<real>, i: nat)
    requires |close| == |high| == |low| && i < |close|
    requires forall j :: 0 <= j < |close| ==> low[j] <= close[j] <= high[j]
    ensures PercentCell(StochKAt(close, high, low, i))
    ensures StochKAt(close, high, low, i) == NaN <==>
      i < 13 || MinOf(Window(low, i, KWindow)) == MaxOf(Window(high, i, KWindow))
  {
    if i + 1 >= KWindow {
      var lo, hi := MinOf(Window(low, i, KWindow)), MaxOf(Window(high, i, KWindow));
      assert Window(low, i, KWindow)[KWindow - 1] == low[i];
      assert Window(high, i, KWindow)[KWindow - 1] == high[i];
      assert lo <= close[i] <= hi;
      if hi != lo {
        Percent(close[i] - lo, hi - lo);
      }
    }
  }

  lemma Percent(num: real, den: real)
    requires 0.0 <= num <= den && den > 0.0
    ensures 0.0 <= 100.0 * num / den <= 100.0
  {
    var q := num / den;
    assert q * den == num;
    assert (100.0 * q) * den == 100.0 * num;
    assert 100.0 * num / den == 100.0 * q;
    assert q <= 1.0;
  }

  // ------------------------------------------------------------------ Bollinger bands

  const BandWindow: nat := 20

  /** `bb_upper`: the 20-row mean plus two standard deviations. */
  function BollingerUpper(close: seq<real>, root: Root): (r: seq<Cell>)
    ensures |r| == |close|
  {
    var ma, sd := RollingMean(close, BandWindow), RollingStd(close, BandWindow, root);
    seq(|close|, i requires 0 <= i < |close| => if ma[i].Num? && sd[i].Num? then Num(ma[i].x + 2.0 * sd[i].x) else NaN)
  }

  /** `bb_lower`: the 20-row mean minus two standard deviations. */
  function BollingerLower(close: seq<real>, root: Root): (r: seq<Cell>)
    ensures |r| == |close|
  {
    var ma, sd := RollingMean(close, BandWindow), RollingStd(close, BandWindow, root);
    seq(|close|, i requires 0 <= i < |close| => if ma[i].Num? && sd[i].Num? then Num(ma[i].x - 2.0 * sd[i].x) else NaN)
  }

  /** The bands are undefined for the first 19 rows; after that the lower band,
      the moving average and the upper band are in order, four standard
      deviations apart. */
  lemma BollingerOrdered(close: seq<real>, root: Root, i: nat)
    requires i < |close|
    ensures BollingerUpper(close, root)[i] == NaN <==> i < 19
    ensures BollingerLower(close, root)[i] == NaN <==> i < 19
    ensures i >= 19 ==>
      var lower, ma, upper := BollingerLower(close, root)[i], RollingMean(close, BandWindow)[i], BollingerUpper(close, root)[i];
      lower.Num? && ma.Num? && upper.Num? && lower.x <= ma.x <= upper.x &&
      upper.x - lower.x == 4.0 * SampleStd(Window(close, i, BandWindow), root)
  {
  }

  // ------------------------------------------------------------------ RSI

  const RsiWindow: nat := 14

  /** The average gain and the average loss over the 14 price changes ending at row `i`. */
  function Gains(close: seq<real>, i: nat): (g: seq<real>)
    requires RsiWindow <= i < |close|
    ensures |g| == RsiWindow && forall k :: 0 <= k < RsiWindow ==> g[k] >= 0.0
  {
    seq(RsiWindow, k requires 0 <= k < RsiWindow =>
      var d := close[i - 13 + k] - close[i - 14 + k]; if d > 0.0 then d else 0.0)
  }

  function Losses(close: seq<real>, i: nat): (l: seq<real>)
    requires RsiWindow <= i < |close|
    ensures |l| == RsiWindow && forall k :: 0 <= k < RsiWindow ==> l[k] >= 0.0
  {
    seq(RsiWindow, k requires 0 <= k < RsiWindow =>
      var d := close[i - 13 + k] - close[i - 14 + k]; if d < 0.0 then -d else 0.0)
  }

  /** `100 - 100 / (1 + up / down)` in floating point: with no losses the ratio
      is infinite and the index is 100; with neither gains nor losses it is NaN. */
  function RsiCell(up: real, down: real): Cell
  {
    if down == 0.0 then (if up == 0.0 then NaN else Num(100.0))
    else if 1.0 + up / down == 0.0 then NegInf
    else Num(100.0 - 100.0 / (1.0 + up / down))
  }

  /** `compute_rsi`: NaN for the first 14 rows (the first change is NaN, and
      the window needs 14 changes). */
  function Rsi(close: seq<real>): (r: seq<Cell>)
    ensures |r| == |close|
  {
    seq(|close|, i requires 0 <= i < |close| =>
      if i < RsiWindow then NaN else RsiCell(Mean(Gains(close, i)), Mean(Losses(close, i))))
  }

  /** The index is a percentage wherever it is defined, and it is 100 exactly
      when the window has gains but no losses. */
  lemma RsiBounds(close: seq<real>, i: nat)
    requires i < |close|
    ensures i < RsiWindow ==> Rsi(close)[i] == NaN
    ensures Rsi(close)[i] == NaN || Rsi(close)[i].Num?
    ensures Rsi(close)[i].Num? ==> 0.0 <= Rsi(close)[i].x <= 100.0
    ensures i >= RsiWindow ==>
      (Rsi(close)[i] == Num(100.0) <==> Mean(Losses(close, i)) == 0.0 && Mean(Gains(close, i)) != 0.0)
  {
    if i >= RsiWindow {
      var up, down := Mean(Gains(close, i)), Mean(Losses(close, i));
      SumNonNegative(Gains(close, i));
      SumNonNegative(Losses(close, i));
      if down != 0.0 {
        RsiRange(up, down);
        assert 1.0 + up / down != 0.0;
      }
    }
  }

  lemma RsiRange(up: real, down: real)
    requires up >= 0.0 && down > 0.0
    ensures 0.0 <= 100.0 - 100.0 / (1.0 + up / down) < 100.0
  {
    var q := 1.0 + up / down;
    assert up / down >= 0.0;
    assert q >= 1.0;
    assert 100.0 / q <= 100.0;
    assert 100.0 / q > 0.0;
  }

  // ------------------------------------------------------------------ returns and volatility

  /** `pct_change()`: NaN on the first row, then the relative change. */
  function Returns(close: seq<real>): (r: seq<Cell>)
    ensures |r| == |close|
  {
    seq(|close|, i requires 0 <= i < |close| =>
      if i == 0 then NaN else Divide(close[i] - close[i - 1], close[i - 1]))
  }

  const VolatilityWindow: nat := 21

  /** `rolling(21).std()` of the returns: NaN unless the 21 returns ending at
      the row are all finite numbers. */
  function Volatility(rets: seq<Cell>, root: Root): (v: seq<Cell>)
    ensures |v| == |rets|
  {
    seq(|rets|, i requires 0 <= i < |rets| =>
      if i + 1 < VolatilityWindow then NaN
      else
        var win := rets[i + 1 - VolatilityWindow..i + 1];
        if forall k :: 0 <= k < |win| ==> win[k].Num? then
          Num(SampleStd(seq(|win|, k requires 0 <= k < |win| => win[k].x), root))
        else NaN)
  }

  /** The volatility needs 21 returns and the first return is NaN, so it is
      undefined for the first 21 rows; with no zero price it is defined from
      then on, and never negative. */
  lemma VolatilityWarmUp(close: seq<real>, root: Root, i: nat)
    requires i < |close|
    ensures i < VolatilityWindow ==> Volatility(Returns(close), root)[i] == NaN
    ensures i >= VolatilityWindow && (forall j :: 0 <= j < |close| ==> close[j] != 0.0) ==>
      Volatility(Returns(close), root)[i].Num? && Volatility(Returns(close), root)[i].x >= 0.0
  {
    var r := Returns(close);
    if i + 1 >= VolatilityWindow {
      var win := r[i + 1 - VolatilityWindow..i + 1];
      if i < VolatilityWindow {
        assert win[0] == r[0] == NaN;
      }
    }
  }

  // ------------------------------------------------------------------ the feature table

  /** The columns `add_technical_features` assigns, in the order it assigns them. */
  const FeatureNames: seq<string> := [
    "return_1d", "volatility_21d", "ma_20", "ma_50", "ma_200", "rsi", "macd", "macd_signal",
    "ema_50", "ema_200", "stoch_k", "stoch_d", "bb_upper", "bb_lower", "obv"]

  lemma FeatureNamesDistinct()
    ensures Distinct(FeatureNames)
  {
  }

  /** Float columns built from reals. */
  function Nums(xs: seq<real>): (c: seq<Cell>)
    ensures |c| == |xs| && forall i :: 0 <= i < |xs| ==> c[i] == Num(xs[i])
  {
    seq(|xs|, i requires 0 <= i < |xs| => Num(xs[i]))
  }

  /** The reals of a column whose cells are all numbers. */
  function Reals(col: seq<Cell>): (xs: seq<real>)
    requires forall i :: 0 <= i < |col| ==> col[i].Num?
    ensures |xs| == |col| && forall i :: 0 <= i < |col| ==> col[i] == Num(xs[i])
  {
    seq(|col|, i requires 0 <= i < |col| => col[i].x)
  }

  /** A price column, where present, holds numbers only. */
  predicate NumericColumn(df: Frame, name: string)
    requires df.Valid()
  {
    name in df.names ==> forall i :: 0 <= i < df.height ==> Column(df, name)[i].Num?
  }

  predicate PricesNumeric(df: Frame)
    requires df.Valid()
  {
    NumericColumn(df, "Close") && NumericColumn(df, "High") && NumericColumn(df, "Low") && NumericColumn(df, "Volume")
  }

  /** The volumes, or zeros when the table has none; the OBV loop never reads
      them in that case (see `ObvReadsMovedVolumes` and `TechnicalFeatures`). */
  function VolumeOf(df: Frame): (v: seq<real>)
    requires df.Valid() && PricesNumeric(df)
    ensures |v| == df.height
  {
    if "Volume" in df.names then Reals(Column(df, "Volume")) else seq(df.height, _ => 0.0)
  }

  /** Whether some close differs from the one before it. */
  predicate Varies(close: seq<real>) {
    exists i :: 1 <= i < |close| && close[i] != close[i - 1]
  }

  /** The `k`-th feature column, in the order of `FeatureNames`. */
  function FeatureColumn(close: seq<real>, high: seq<real>, low: seq<real>, obv: seq<real>, root: Root, k: nat): (col: seq<Cell>)
    requires |close| == |high| == |low| == |obv| && k < |FeatureNames|
    ensures |col| == |close|
  {
    if k == 0 then Returns(close)
    else if k == 1 then Volatility(Returns(close), root)
    else if k == 2 then RollingMean(close, 20)
    else if k == 3 then RollingMean(close, 50)
    else if k == 4 then RollingMean(close, 200)
    else if k == 5 then Rsi(close)
    else if k == 6 then Nums(Macd(close))
    else if k == 7 then Nums(MacdSignal(close))
    else if k == 8 then Nums(SpanEma(close, 50))
    else if k == 9 then Nums(SpanEma(close, 200))
    else if k == 10 then StochK(close, high, low)
    else if k == 11 then StochD(StochK(close, high, low))
    else if k == 12 then BollingerUpper(close, root)
    else if k == 13 then BollingerLower(close, root)
    else Nums(obv)
  }

  /** The fifteen feature columns. */
  function FeatureColumns(close: seq<real>, high: seq<real>, low: seq<real>, obv: seq<real>, root: Root): (cols: seq<seq<Cell>>)
    requires |close| == |high| == |low| == |obv|
    ensures |cols| == |FeatureNames|
    ensures forall k :: 0 <= k < |cols| ==> cols[k] == FeatureColumn(close, high, low, obv, root, k) && |cols[k]| == |close|
  {
    seq(|FeatureNames|, k requires 0 <= k < |FeatureNames| => FeatureColumn(close, high, low, obv, root, k))
  }

  /** `df[name] = col` for each name in turn. */
  function SetColumns(f: Frame, names: seq<string>, cols: seq<seq<Cell>>): (g: Frame)
    requires f.Valid() && |names| == |cols| && forall k :: 0 <= k < |cols| ==> |cols[k]| == f.height
    ensures g.Valid() && g.height == f.height
    decreases |names|
  {
    if names == [] then f else SetColumns(SetColumn(f, names[0], cols[0]), names[1..], cols[1..])
  }

  /** The column names after assigning `names` one after the other. */
  function NamesAfter(present: seq<string>, names: seq<string>): seq<string>
    decreases |names|
  {
    if names == [] then present
    else NamesAfter(if names[0] in present then present else present + [names[0]], names[1..])
  }

  lemma {:induction false} SetColumnsNamesAfter(f: Frame, names: seq<string>, cols: seq<seq<Cell>>)
    requires f.Valid() && |names| == |cols| && forall k :: 0 <= k < |cols| ==> |cols[k]| == f.height
    ensures SetColumns(f, names, cols).names == NamesAfter(f.names, names)
    decreases |names|
  {
    if names != [] {
      SetColumnsNamesAfter(SetColumn(f, names[0], cols[0]), names[1..], cols[1..]);
    }
  }

  /** Assigning distinct names appends those that were missing, in order. */
  lemma {:induction false} NamesAfterAppendsMissing(present: seq<string>, names: seq<string>)
    requires Distinct(names)
    ensures NamesAfter(present, names) == present + Missing(names, present)
    decreases |names|
  {
    if names != [] {
      DistinctTail(names);
      if names[0] in present {
        NamesAfterAppendsMissing(present, names[1..]);
        KnownName(present, names);
      } else {
        NamesAfterAppendsMissing(present + [names[0]], names[1..]);
        NewName(present, names);
      }
    } else {
      assert present + Missing(names, present) == present;
    }
  }

  lemma {:induction false} KnownName(present: seq<string>, names: seq<string>)
    requires names != [] && names[0] in present
    requires NamesAfter(present, names[1..]) == present + Missing(names[1..], present)
    ensures NamesAfter(present, names) == present + Missing(names, present)
  {
  }

  lemma {:induction false} NewName(present: seq<string>, names: seq<string>)
    requires names != [] && names[0] !in present && names[0] !in names[1..]
    requires NamesAfter(present + [names[0]], names[1..]) == present + [names[0]] + Missing(names[1..], present + [names[0]])
    ensures NamesAfter(present, names) == present + Missing(names, present)
  {
    var x, rest := names[0], names[1..];
    NamesAfterNew(present, names);
    MissingNew(present, names);
    MissingIgnores(rest, present, x);
    Regroup(present, x, Missing(rest, present));
  }

  lemma NamesAfterNew(present: seq<string>, names: seq<string>)
    requires names != [] && names[0] !in present
    ensures NamesAfter(present, names) == NamesAfter(present + [names[0]], names[1..])
  {
  }

  lemma MissingNew(present: seq<string>, names: seq<string>)
    requires names != [] && names[0] !in present
    ensures Missing(names, present) == [names[0]] + Missing(names[1..], present)
  {
  }

  lemma Regroup(present: seq<string>, x: string, m: seq<string>)
    ensures present + [x] + m == present + ([x] + m)
  {
  }

  lemma DistinctTail(names: seq<string>)
    requires Distinct(names) && names != []
    ensures Distinct(names[1..]) && names[0] !in names[1..]
  {
  }

  /** Assigning columns one after the other appends the new names in order. */
  lemma SetColumnsNames(f: Frame, names: seq<string>, cols: seq<seq<Cell>>)
    requires f.Valid() && |names| == |cols| && forall k :: 0 <= k < |cols| ==> |cols[k]| == f.height
    requires Distinct(names)
    ensures SetColumns(f, names, cols).names == f.names + Missing(names, f.names)
  {
    SetColumnsNamesAfter(f, names, cols);
    NamesAfterAppendsMissing(f.names, names);
  }

  /** A column that is not assigned keeps its contents. */
  lemma {:induction false} SetColumnsKeeps(f: Frame, names: seq<string>, cols: seq<seq<Cell>>, n: string)
    requires f.Valid() && |names| == |cols| && forall k :: 0 <= k < |cols| ==> |cols[k]| == f.height
    requires n in f.names && n !in names
    ensures n in SetColumns(f, names, cols).names && Column(SetColumns(f, names, cols), n) == Column(f, n)
    decreases |names|
  {
    if names != [] {
      SetColumnsKeeps(SetColumn(f, names[0], cols[0]), names[1..], cols[1..], n);
    }
  }

  /** Each assigned column holds what was assigned to it, when the names are distinct. */
  lemma {:induction false} SetColumnsAssigned(f: Frame, names: seq<string>, cols: seq<seq<Cell>>, k: nat)
    requires f.Valid() && |names| == |cols| && forall k :: 0 <= k < |cols| ==> |cols[k]| == f.height
    requires Distinct(names) && k < |names|
    ensures names[k] in SetColumns(f, names, cols).names && Column(SetColumns(f, names, cols), names[k]) == cols[k]
    decreases |names|
  {
    var f1 := SetColumn(f, names[0], cols[0]);
    if k == 0 {
      assert names[0] !in names[1..];
      SetColumnsKeeps(f1, names[1..], cols[1..], names[0]);
    } else {
      assert Distinct(names[1..]) && names[1..][k - 1] == names[k];
      SetColumnsAssigned(f1, names[1..], cols[1..], k - 1);
    }
  }

  /** Appending a name the list does not ask for changes nothing missing. */
  lemma {:induction false} MissingIgnores(required: seq<string>, present: seq<string>, x: string)
    requires x !in required
    ensures Missing(required, present + [x]) == Missing(required, present)
  {
    if required != [] {
      MissingIgnores(required[1..], present, x);
    }
  }

  datatype TechError =
    | KeyError(name: string)     // a price column the indicators read is absent
    | ObvFailed(e: ObvError)     // `compute_obv` on a table without rows

  /** The price columns the indicators read are all there. */
  predicate HasPrices(df: Frame) {
    "Close" in df.names && "Low" in df.names && "High" in df.names
  }

  function CloseOf(df: Frame): (close: seq<real>)
    requires df.Valid() && PricesNumeric(df) && HasPrices(df)
    ensures |close| == df.height
  {
    Reals(Column(df, "Close"))
  }

  function HighOf(df: Frame): (high: seq<real>)
    requires df.Valid() && PricesNumeric(df) && HasPrices(df)
    ensures |high| == df.height
  {
    Reals(Column(df, "High"))
  }

  function LowOf(df: Frame): (low: seq<real>)
    requires df.Valid() && PricesNumeric(df) && HasPrices(df)
    ensures |low| == df.height
  {
    Reals(Column(df, "Low"))
  }

  /** The feature columns of a table with prices and at least one row. */
  function Features(df: Frame, root: Root): (cols: seq<seq<Cell>>)
    requires df.Valid() && PricesNumeric(df) && HasPrices(df) && df.height > 0
    ensures |cols| == |FeatureNames| && forall k :: 0 <= k < |cols| ==> |cols[k]| == df.height
  {
    var close := CloseOf(df);
    FeatureColumns(close, HighOf(df), LowOf(df), ObvPrefix(close, VolumeOf(df), df.height), root)
  }

  /** What `add_technical_features` returns on a table whose price columns are numeric. */
  function TechnicalFeatures(df: Frame, root: Root): (r: Result<Frame, TechError>)
    requires df.Valid() && PricesNumeric(df)
    ensures r.Ok? ==> r.value.Valid() && r.value.height == df.height
  {
    if "Close" !in df.names then Err(KeyError("Close"))
    else if "Low" !in df.names then Err(KeyError("Low"))
    else if "High" !in df.names then Err(KeyError("High"))
    else if "Volume" !in df.names && Varies(CloseOf(df)) then Err(KeyError("Volume"))
    else match Obv(CloseOf(df), VolumeOf(df))
      case Err(e) => Err(ObvFailed(e))
      case Ok(_) => Ok(SetColumns(df, FeatureNames, Features(df, root)))
  }

  /** `add_technical_features` fails exactly when a price column it reads is
      missing (the volume only matters once some close has moved) or the table
      has no rows. */
  lemma FeaturesFailure(df: Frame, root: Root)
    requires df.Valid() && PricesNumeric(df)
    ensures TechnicalFeatures(df, root).Err? <==>
      !HasPrices(df) || df.height == 0 || ("Volume" !in df.names && Varies(CloseOf(df)))
  {
  }

  /** On success it keeps every row and every column it does not assign,
      appends the feature columns the table lacked in assignment order, and
      leaves each feature column holding its indicator. */
  lemma FeaturesOnlyAdded(df: Frame, root: Root, g: Frame)
    requires df.Valid() && PricesNumeric(df) && TechnicalFeatures(df, root) == Ok(g)
    ensures HasPrices(df) && df.height > 0
    ensures g.Valid() && g.height == df.height && g.names == df.names + Missing(FeatureNames, df.names)
    ensures forall n :: n in df.names && n !in FeatureNames ==> n in g.names && Column(g, n) == Column(df, n)
    ensures forall k :: 0 <= k < |FeatureNames| ==> FeatureNames[k] in g.names && Column(g, FeatureNames[k]) == Features(df, root)[k]
  {
    var cols := Features(df, root);
    assert g == SetColumns(df, FeatureNames, cols);
    FeatureNamesDistinct();
    SetColumnsNames(df, FeatureNames, cols);
    forall n | n in df.names && n !in FeatureNames
      ensures n in g.names && Column(g, n) == Column(df, n)
    {
      SetColumnsKeeps(df, FeatureNames, cols, n);
    }
    forall k | 0 <= k < |FeatureNames|
      ensures FeatureNames[k] in g.names && Column(g, FeatureNames[k]) == cols[k]
    {
      SetColumnsAssigned(df, FeatureNames, cols, k);
    }
  }

  /** `add_technical_features`: the indicator columns assigned to a copy of the
      table, with the OBV computed by its loop. */
  method AddTechnicalFeatures(df: Frame, root: Root) returns (res: Result<Frame, TechError>)
    requires df.Valid() && PricesNumeric(df)
    ensures res == TechnicalFeatures(df, root)
  {
    if "Close" !in df.names {
      return Err(KeyError("Close"));
    }
    if "Low" !in df.names {
      return Err(KeyError("Low"));
    }
    if "High" !in df.names {
      return Err(KeyError("High"));
    }
    var close := CloseOf(df);
    if "Volume" !in df.names && Varies(close) {
      return Err(KeyError("Volume"));
    }
    var obv := ComputeObv(close, VolumeOf(df));
    if obv.Err? {
      return Err(ObvFailed(obv.error));
    }
    var high, low := HighOf(df), LowOf(df);
    var cols := FeatureColumns(close, high, low, obv.value, root);
    return Ok(SetColumns(df, FeatureNames, cols));
  }

  // ------------------------------------------------------------------ anomaly labels of the feature table

  /** The features `engineer_features_for_stock` scores. */
  const ScoredFeatures: seq<string> := ["return_1d", "volatility_21d", "rsi", "macd", "stoch_k"]

  datatype DetectError =
    | MissingFeatures(names: seq<string>)  // `df[features]` names absent columns
    | NonNumeric                           // a feature cell is text
    | NonFinite                            // a feature cell is infinite
    | NoSamples                            // the table has no rows
    | NoFeatures                           // no feature was asked for

  /** `fillna(0)` on one cell. */
  function Filled(c: Cell): (d: Cell)
    ensures d != NaN && (c != NaN ==> d == c)
  {
    if c == NaN then Num(0.0) else c
  }

  /** `df[features].fillna(0)`, row by row. */
  function FilledRows(df: Frame, features: seq<string>): (m: seq<seq<Cell>>)
    requires df.Valid() && forall f :: f in features ==> f in df.names
    ensures |m| == df.height && forall i :: 0 <= i < df.height ==> |m[i]| == |features|
    ensures forall i, j :: 0 <= i < df.height && 0 <= j < |features| ==>
      m[i][j] != NaN && m[i][j] == Filled(Column(df, features[j])[i])
  {
    seq(df.height, i requires 0 <= i < df.height =>
      seq(|features|, j requires 0 <= j < |features| => Filled(Column(df, features[j])[i])))
  }

  /** Whether some cell of the matrix satisfies `bad`. */
  predicate AnyCell(m: seq<seq<Cell>>, bad: Cell -> bool) {
    exists i, j :: 0 <= i < |m| && 0 <= j < |m[i]| && bad(m[i][j])
  }

  /** The reals of a matrix that holds neither NaN, text nor infinities. */
  function RealRows(m: seq<seq<Cell>>): (r: seq<seq<real>>)
    requires forall i, j :: 0 <= i < |m| && 0 <= j < |m[i]| ==> m[i][j] != NaN
    requires !AnyCell(m, AnomalyDetector.IsText) && !AnyCell(m, AnomalyDetector.IsInfinite)
    ensures |r| == |m| && forall i :: 0 <= i < |m| ==> |r[i]| == |m[i]|
    ensures forall i, j :: 0 <= i < |m| && 0 <= j < |m[i]| ==> m[i][j] == Num(r[i][j])
  {
    seq(|m|, i requires 0 <= i < |m| =>
      seq(|m[i]|, j requires 0 <= j < |m[i]| => RealOf(m, i, j)))
  }

  function RealOf(m: seq<seq<Cell>>, i: nat, j: nat): (x: real)
    requires i < |m| && j < |m[i]| && m[i][j] != NaN
    requires !AnyCell(m, AnomalyDetector.IsText) && !AnyCell(m, AnomalyDetector.IsInfinite)
    ensures m[i][j] == Num(x)
  {
    assert !AnomalyDetector.IsText(m[i][j]) && !AnomalyDetector.IsInfinite(m[i][j]);
    m[i][j].x
  }

  /** What `fit_predict` writes first: 1 for an inlier, -1 for an outlier. */
  function Prediction(v: AnomalyDetector.Verdict): Cell
  {
    if v == AnomalyDetector.Inlier then Num(1.0) else Num(-1.0)
  }

  /** `.map({1: 0, -1: 1})` on one cell: values outside the mapping become NaN. */
  function MapLabel(c: Cell): Cell
  {
    if c == Num(1.0) then Num(0.0) else if c == Num(-1.0) then Num(1.0) else NaN
  }

  /** Writing the raw prediction and then mapping it gives the binary label. */
  lemma MapAfterPredict(v: AnomalyDetector.Verdict)
    ensures MapLabel(Prediction(v)) == AnomalyDetector.Label(v)
    ensures MapLabel(Prediction(v)) == Num(1.0) <==> v == AnomalyDetector.Outlier
  {
  }

  function Predictions(vs: seq<AnomalyDetector.Verdict>): (c: seq<Cell>)
    ensures |c| == |vs| && forall i :: 0 <= i < |vs| ==> c[i] == Prediction(vs[i])
  {
    seq(|vs|, i requires 0 <= i < |vs| => Prediction(vs[i]))
  }

  function Mapped(col: seq<Cell>): (c: seq<Cell>)
    ensures |c| == |col| && forall i :: 0 <= i < |col| ==> c[i] == MapLabel(col[i])
  {
    seq(|col|, i requires 0 <= i < |col| => MapLabel(col[i]))
  }

  /** The forest's verdicts on the filled feature matrix, one per row. */
  function HistoricalVerdicts(df: Frame, features: seq<string>, forest: AnomalyDetector.Forest): (vs: seq<AnomalyDetector.Verdict>)
    requires df.Valid() && forall f :: f in features ==> f in df.names
    requires !AnyCell(FilledRows(df, features), AnomalyDetector.IsText)
    requires !AnyCell(FilledRows(df, features), AnomalyDetector.IsInfinite)
    ensures |vs| == df.height
  {
    forest(RealRows(FilledRows(df, features)))
  }

  /** What `detect_anomalies` of the feature-engineering stage returns. */
  function HistoricalDetection(df: Frame, features: seq<string>, forest: AnomalyDetector.Forest): (r: Result<Frame, DetectError>)
    requires df.Valid()
    ensures r.Ok? ==> r.value.Valid() && r.value.height == df.height
  {
    var missing := Missing(features, df.names);
    if missing != [] then Err(MissingFeatures(missing))
    else
      var m := FilledRows(df, features);
      if AnyCell(m, AnomalyDetector.IsText) then Err(NonNumeric)
      else if AnyCell(m, AnomalyDetector.IsInfinite) then Err(NonFinite)
      else if df.height == 0 then Err(NoSamples)
      else if features == [] then Err(NoFeatures)
      else Ok(SetColumn(df, AnomalyDetector.AnomalyColumn, Mapped(Predictions(HistoricalVerdicts(df, features, forest)))))
  }

  /** On success every row keeps its place and gets a 0/1 label, which is 1
      exactly when the forest calls the row an outlier; NaN features were
      scored as 0; only the `anomaly` column is written. */
  lemma HistoricalLabels(df: Frame, features: seq<string>, forest: AnomalyDetector.Forest, g: Frame)
    requires df.Valid() && HistoricalDetection(df, features, forest) == Ok(g)
    ensures forall f :: f in features ==> f in df.names
    ensures !AnyCell(FilledRows(df, features), AnomalyDetector.IsText)
    ensures !AnyCell(FilledRows(df, features), AnomalyDetector.IsInfinite)
    ensures g.height == df.height > 0 && AnomalyDetector.AnomalyColumn in g.names
    ensures forall i :: 0 <= i < g.height ==>
      (Column(g, AnomalyDetector.AnomalyColumn)[i] == Num(0.0) || Column(g, AnomalyDetector.AnomalyColumn)[i] == Num(1.0)) &&
      (Column(g, AnomalyDetector.AnomalyColumn)[i] == Num(1.0) <==>
        HistoricalVerdicts(df, features, forest)[i] == AnomalyDetector.Outlier)
    ensures forall i, j :: 0 <= i < df.height && 0 <= j < |features| && Column(df, features[j])[i] == NaN ==>
      RealRows(FilledRows(df, features))[i][j] == 0.0
    ensures forall n :: n in df.names && n != AnomalyDetector.AnomalyColumn ==> n in g.names && Column(g, n) == Column(df, n)
  {
    var vs := HistoricalVerdicts(df, features, forest);
    forall i | 0 <= i < g.height
      ensures Column(g, AnomalyDetector.AnomalyColumn)[i] == AnomalyDetector.Label(vs[i])
    {
      MapAfterPredict(vs[i]);
    }
  }

  /** `detect_anomalies`: the raw predictions are written to `anomaly`, then
      replaced by their mapped labels. */
  method DetectAnomalies(df: Frame, features: seq<string>, forest: AnomalyDetector.Forest) returns (res: Result<Frame, DetectError>)
    requires df.Valid()
    ensures res == HistoricalDetection(df, features, forest)
  {
    var missing := FindMissing(features, df.names);
    if missing != [] {
      return Err(MissingFeatures(missing));
    }
    var m := FilledRows(df, features);
    if AnyCell(m, AnomalyDetector.IsText) {
      return Err(NonNumeric);
    }
    if AnyCell(m, AnomalyDetector.IsInfinite) {
      return Err(NonFinite);
    }
    if df.height == 0 {
      return Err(NoSamples);
    }
    if features == [] {
      return Err(NoFeatures);
    }
    var predictions := Predictions(forest(RealRows(m)));
    var g := SetColumn(df, AnomalyDetector.AnomalyColumn, predictions);
    g := SetColumn(g, AnomalyDetector.AnomalyColumn, Mapped(Column(g, AnomalyDetector.AnomalyColumn)));
    SetColumnTwice(df, AnomalyDetector.AnomalyColumn, predictions, Mapped(predictions));
    return Ok(g);
  }

  // ------------------------------------------------------------------ one stock end to end

  datatype StockError = FeaturesFailed(tech: TechError) | DetectionFailed(detect: DetectError)

  /** `engineer_features_for_stock`: the features, then the anomaly labels. */
  function EngineerFeatures(df: Frame, root: Root, forest: AnomalyDetector.Forest): (r: Result<Frame, StockError>)
    requires df.Valid() && PricesNumeric(df)
  {
    match TechnicalFeatures(df, root)
    case Err(e) => Err(FeaturesFailed(e))
    case Ok(g) =>
      match HistoricalDetection(g, ScoredFeatures, forest)
      case Err(e) => Err(DetectionFailed(e))
      case Ok(h) => Ok(h)
  }

  /** Prices that a market feed can produce: no zero close, and each close
      between its row's low and high. */
  predicate SanePrices(df: Frame)
    requires df.Valid() && PricesNumeric(df) && HasPrices(df)
  {
    forall i :: 0 <= i < df.height ==>
      CloseOf(df)[i] != 0.0 && LowOf(df)[i] <= CloseOf(df)[i] <= HighOf(df)[i]
  }

  /** A cell that `fillna(0)` turns into a finite number. */
  predicate Fillable(c: Cell) {
    c == NaN || c.Num?
  }

  /** The five scored columns among the features. */
  lemma ScoredColumns(df: Frame, root: Root)
    requires df.Valid() && PricesNumeric(df) && HasPrices(df) && df.height > 0
    ensures Features(df, root)[0] == Returns(CloseOf(df))
    ensures Features(df, root)[1] == Volatility(Returns(CloseOf(df)), root)
    ensures Features(df, root)[5] == Rsi(CloseOf(df))
    ensures Features(df, root)[6] == Nums(Macd(CloseOf(df)))
    ensures Features(df, root)[10] == StochK(CloseOf(df), HighOf(df), LowOf(df))
  {
    var close := CloseOf(df);
    FeatureColumnsAt(close, HighOf(df), LowOf(df), ObvPrefix(close, VolumeOf(df), df.height), root);
  }

  lemma FeatureColumnsAt(close: seq<real>, high: seq<real>, low: seq<real>, obv: seq<real>, root: Root)
    requires |close| == |high| == |low| == |obv|
    ensures FeatureColumns(close, high, low, obv, root)[0] == Returns(close)
    ensures FeatureColumns(close, high, low, obv, root)[1] == Volatility(Returns(close), root)
    ensures FeatureColumns(close, high, low, obv, root)[5] == Rsi(close)
    ensures FeatureColumns(close, high, low, obv, root)[6] == Nums(Macd(close))
    ensures FeatureColumns(close, high, low, obv, root)[10] == StochK(close, high, low)
  {
  }

  /** On sane prices the scored features are finite numbers or NaN: the
      returns never divide by zero, and the %K window never has a flat range
      with the close outside it. */
  lemma ScoredCellsFillable(close: seq<real>, high: seq<real>, low: seq<real>, root: Root, i: nat)
    requires |close| == |high| == |low| && i < |close|
    requires forall j :: 0 <= j < |close| ==> close[j] != 0.0 && low[j] <= close[j] <= high[j]
    ensures Fillable(Returns(close)[i]) && Fillable(Volatility(Returns(close), root)[i])
    ensures Fillable(Rsi(close)[i]) && Fillable(Nums(Macd(close))[i]) && Fillable(StochK(close, high, low)[i])
  {
    ReturnsFinite(close, i);
    VolatilityFillable(Returns(close), root, i);
    RsiBounds(close, i);
    StochasticBounds(close, high, low, i);
  }

  /** With no zero price every return after the first is a finite number. */
  lemma ReturnsFinite(close: seq<real>, i: nat)
    requires i < |close| && forall j :: 0 <= j < |close| ==> close[j] != 0.0
    ensures i == 0 ==> Returns(close)[i] == NaN
    ensures i > 0 ==> Returns(close)[i] == Num((close[i] - close[i - 1]) / close[i - 1])
  {
    if i > 0 {
      assert close[i - 1] != 0.0;
    }
  }

  lemma VolatilityFillable(rets: seq<Cell>, root: Root, i: nat)
    requires i < |rets|
    ensures Fillable(Volatility(rets, root)[i])
  {
  }

  /** The scored columns of the feature table, by name. */
  lemma ScoredColumnsOf(df: Frame, root: Root, g: Frame)
    requires df.Valid() && PricesNumeric(df) && TechnicalFeatures(df, root) == Ok(g)
    ensures HasPrices(df) && df.height > 0 && g.Valid() && g.height == df.height
    ensures "return_1d" in g.names && Column(g, "return_1d") == Returns(CloseOf(df))
    ensures "volatility_21d" in g.names && Column(g, "volatility_21d") == Volatility(Returns(CloseOf(df)), root)
    ensures "rsi" in g.names && Column(g, "rsi") == Rsi(CloseOf(df))
    ensures "macd" in g.names && Column(g, "macd") == Nums(Macd(CloseOf(df)))
    ensures "stoch_k" in g.names && Column(g, "stoch_k") == StochK(CloseOf(df), HighOf(df), LowOf(df))
  {
    FeaturesOnlyAdded(df, root, g);
    ScoredColumns(df, root);
    assert FeatureNames[0] == "return_1d" && FeatureNames[1] == "volatility_21d" && FeatureNames[5] == "rsi";
    assert FeatureNames[6] == "macd" && FeatureNames[10] == "stoch_k";
  }

  /** The scored columns computed from a table with sane prices fill to numbers only. */
  lemma ScoredMatrixOfPrices(df: Frame, g: Frame, root: Root)
    requires df.Valid() && PricesNumeric(df) && HasPrices(df) && SanePrices(df)
    requires g.Valid() && g.height == df.height
    requires "return_1d" in g.names && Column(g, "return_1d") == Returns(CloseOf(df))
    requires "volatility_21d" in g.names && Column(g, "volatility_21d") == Volatility(Returns(CloseOf(df)), root)
    requires "rsi" in g.names && Column(g, "rsi") == Rsi(CloseOf(df))
    requires "macd" in g.names && Column(g, "macd") == Nums(Macd(CloseOf(df)))
    requires "stoch_k" in g.names && Column(g, "stoch_k") == StochK(CloseOf(df), HighOf(df), LowOf(df))
    ensures forall f :: f in ScoredFeatures ==> f in g.names
    ensures forall i, j :: 0 <= i < g.height && 0 <= j < |ScoredFeatures| ==> FilledRows(g, ScoredFeatures)[i][j].Num?
  {
    var close, high, low := CloseOf(df), HighOf(df), LowOf(df);
    assert forall j :: 0 <= j < |close| ==> close[j] != 0.0 && low[j] <= close[j] <= high[j];
    ScoredMatrixOf(g, close, high, low, root);
  }

  /** With sane prices the scored features are present and the filled matrix
      of a table holding the scored columns has numbers only. */
  lemma ScoredMatrixOf(g: Frame, close: seq<real>, high: seq<real>, low: seq<real>, root: Root)
    requires g.Valid() && |close| == |high| == |low| == g.height
    requires forall j :: 0 <= j < |close| ==> close[j] != 0.0 && low[j] <= close[j] <= high[j]
    requires "return_1d" in g.names && Column(g, "return_1d") == Returns(close)
    requires "volatility_21d" in g.names && Column(g, "volatility_21d") == Volatility(Returns(close), root)
    requires "rsi" in g.names && Column(g, "rsi") == Rsi(close)
    requires "macd" in g.names && Column(g, "macd") == Nums(Macd(close))
    requires "stoch_k" in g.names && Column(g, "stoch_k") == StochK(close, high, low)
    ensures forall f :: f in ScoredFeatures ==> f in g.names
    ensures forall i, j :: 0 <= i < g.height && 0 <= j < |ScoredFeatures| ==> FilledRows(g, ScoredFeatures)[i][j].Num?
  {
    ScoredNamesPresent(g);
    forall i: nat | i < g.height
      ensures forall j :: 0 <= j < |ScoredFeatures| ==> FilledRows(g, ScoredFeatures)[i][j].Num?
    {
      ScoredRowNumeric(g, close, high, low, root, i);
    }
  }

  lemma ScoredRowNumeric(g: Frame, close: seq<real>, high: seq<real>, low: seq<real>, root: Root, i: nat)
    requires g.Valid() && i < g.height && |close| == |high| == |low| == g.height
    requires forall j :: 0 <= j < |close| ==> close[j] != 0.0 && low[j] <= close[j] <= high[j]
    requires "return_1d" in g.names && Column(g, "return_1d") == Returns(close)
    requires "volatility_21d" in g.names && Column(g, "volatility_21d") == Volatility(Returns(close), root)
    requires "rsi" in g.names && Column(g, "rsi") == Rsi(close)
    requires "macd" in g.names && Column(g, "macd") == Nums(Macd(close))
    requires "stoch_k" in g.names && Column(g, "stoch_k") == StochK(close, high, low)
    ensures forall j :: 0 <= j < |ScoredFeatures| ==> FilledRows(g, ScoredFeatures)[i][j].Num?
  {
    ScoredCellsFillable(close, high, low, root, i);
    ScoredRowFillable(g, i);
    FilledRowNumeric(g, ScoredFeatures, i);
  }

  lemma ScoredNamesPresent(g: Frame)
    requires "return_1d" in g.names && "volatility_21d" in g.names && "rsi" in g.names && "macd" in g.names && "stoch_k" in g.names
    ensures forall f :: f in ScoredFeatures ==> f in g.names
  {
  }

  lemma ScoredRowFillable(g: Frame, i: nat)
    requires g.Valid() && i < g.height
    requires "return_1d" in g.names && "volatility_21d" in g.names && "rsi" in g.names && "macd" in g.names && "stoch_k" in g.names
    requires Fillable(Column(g, "return_1d")[i]) && Fillable(Column(g, "volatility_21d")[i])
    requires Fillable(Column(g, "rsi")[i]) && Fillable(Column(g, "macd")[i]) && Fillable(Column(g, "stoch_k")[i])
    ensures forall f :: f in ScoredFeatures ==> f in g.names && Fillable(Column(g, f)[i])
  {
  }

  /** A row whose features are all numbers or NaN is all numbers once filled. */
  lemma FilledRowNumeric(g: Frame, features: seq<string>, i: nat)
    requires g.Valid() && (forall f :: f in features ==> f in g.names) && i < g.height
    requires forall f :: f in features ==> Fillable(Column(g, f)[i])
    ensures forall j :: 0 <= j < |features| ==> FilledRows(g, features)[i][j].Num?
  {
    forall j | 0 <= j < |features|
      ensures FilledRows(g, features)[i][j].Num?
    {
      assert features[j] in features;
    }
  }

  /** For a non-empty table with volumes and sane prices the whole stage
      succeeds, and every row ends with a 0/1 label. */
  lemma EngineerSucceeds(df: Frame, root: Root, forest: AnomalyDetector.Forest)
    requires df.Valid() && PricesNumeric(df) && HasPrices(df) && "Volume" in df.names && df.height > 0
    requires SanePrices(df)
    ensures EngineerFeatures(df, root, forest).Ok?
    ensures var h := EngineerFeatures(df, root, forest).value;
      h.height == df.height && AnomalyDetector.AnomalyColumn in h.names &&
      forall i :: 0 <= i < h.height ==>
        Column(h, AnomalyDetector.AnomalyColumn)[i] == Num(0.0) || Column(h, AnomalyDetector.AnomalyColumn)[i] == Num(1.0)
  {
    FeaturesFailure(df, root);
    var g := TechnicalFeatures(df, root).value;
    ScoredColumnsOf(df, root, g);
    ScoredMatrixOfPrices(df, g, root);
    DetectionSucceeds(g, forest);
  }

  /** Scoring a table whose filled feature matrix holds numbers only succeeds
      and labels every row 0 or 1. */
  lemma DetectionSucceeds(g: Frame, forest: AnomalyDetector.Forest)
    requires g.Valid() && g.height > 0 && forall f :: f in ScoredFeatures ==> f in g.names
    requires forall i, j :: 0 <= i < g.height && 0 <= j < |ScoredFeatures| ==> FilledRows(g, ScoredFeatures)[i][j].Num?
    ensures HistoricalDetection(g, ScoredFeatures, forest).Ok?
    ensures var h := HistoricalDetection(g, ScoredFeatures, forest).value;
      h.height == g.height && AnomalyDetector.AnomalyColumn in h.names &&
      forall i :: 0 <= i < h.height ==>
        Column(h, AnomalyDetector.AnomalyColumn)[i] == Num(0.0) || Column(h, AnomalyDetector.AnomalyColumn)[i] == Num(1.0)
  {
    var m := FilledRows(g, ScoredFeatures);
    assert !AnyCell(m, AnomalyDetector.IsText);
    assert !AnyCell(m, AnomalyDetector.IsInfinite);
    var h := HistoricalDetection(g, ScoredFeatures, forest);
    assert h.Ok?;
    HistoricalLabels(g, ScoredFeatures, forest, h.value);
  }
}
