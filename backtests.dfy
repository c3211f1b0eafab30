/** The signal back-tests run on a ticker's indicator history: six loops that
    count, index by index, the rows where an indicator gives a buy signal and
    the signals after which the close went up, and the summary each test
    reports (the counts and a one-sided binomial p-value). */
module Backtests {
  import opened Frames
  import TechnicalFeatures
  import Binomial

  /** The columns of the history table the tests read (one row per bar, in
      order; `reset_index` makes the row labels the positions 0, 1, …). */
  datatype History = History(
    close: seq<Cell>, rsi: seq<Cell>, macd: seq<Cell>, macdSignal: seq<Cell>,
    ema50: seq<Cell>, ema200: seq<Cell>, stochK: seq<Cell>, stochD: seq<Cell>,
    bbLower: seq<Cell>, obv: seq<Cell>)
  {
    function Len(): nat {
      |close|
    }

    predicate Valid() {
      |rsi| == |close| && |macd| == |close| && |macdSignal| == |close| &&
      |ema50| == |close| && |ema200| == |close| && |stochK| == |close| &&
      |stochD| == |close| && |bbLower| == |close| && |obv| == |close|
    }
  }

  // ---------------------------------------------------------------------
  // Float comparisons and arithmetic on cells

  /** `a < b` on floats: NaN compares false with everything. */
  predicate Lt(a: Cell, b: Cell) {
    match (a, b)
    case (Num(x), Num(y)) => x < y
    case (NegInf, Num(_)) => true
    case (NegInf, PosInf) => true
    case (Num(_), PosInf) => true
    case _ => false
  }

  /** `a <= b` on floats. */
  predicate Le(a: Cell, b: Cell) {
    Lt(a, b) || (a == b && (a.Num? || a.PosInf? || a.NegInf?))
  }

  /** `a - b` on floats. */
  function Minus(a: Cell, b: Cell): Cell {
    match (a, b)
    case (Num(x), Num(y)) => Num(x - y)
    case (PosInf, Num(_)) => PosInf
    case (PosInf, NegInf) => PosInf
    case (Num(_), NegInf) => PosInf
    case (NegInf, Num(_)) => NegInf
    case (NegInf, PosInf) => NegInf
    case (Num(_), PosInf) => NegInf
    case _ => NaN
  }

  /** `a + b` on floats. */
  function Plus(a: Cell, b: Cell): Cell {
    match (a, b)
    case (Num(x), Num(y)) => Num(x + y)
    case (PosInf, Num(_)) => PosInf
    case (Num(_), PosInf) => PosInf
    case (PosInf, PosInf) => PosInf
    case (NegInf, Num(_)) => NegInf
    case (Num(_), NegInf) => NegInf
    case (NegInf, NegInf) => NegInf
    case _ => NaN
  }

  /** `a / b` on floats (a zero divisor taken as +0). */
  function Quot(a: Cell, b: Cell): Cell {
    match (a, b)
    case (Num(x), Num(y)) => TechnicalFeatures.Divide(x, y)
    case (PosInf, Num(y)) => if y < 0.0 then NegInf else PosInf
    case (NegInf, Num(y)) => if y < 0.0 then PosInf else NegInf
    case (Num(_), PosInf) => Num(0.0)
    case (Num(_), NegInf) => Num(0.0)
    case _ => NaN
  }

  /** Subtracting is comparing with zero: `a - b < 0` exactly when `a < b`. */
  lemma NegativeDifference(a: Cell, b: Cell)
    requires !a.Text? && !b.Text?
    ensures Lt(Minus(a, b), Num(0.0)) <==> Lt(a, b)
  {
  }

  /** `a - b > 0` exactly when `a > b`. */
  lemma PositiveDifference(a: Cell, b: Cell)
    requires !a.Text? && !b.Text?
    ensures Lt(Num(0.0), Minus(a, b)) <==> Lt(b, a)
  {
  }

  // ---------------------------------------------------------------------
  // pct_change().sum() over a window

  /** The cell at `j` after a forward fill: the last non-NaN cell at or before `j`. */
  function Filled(col: seq<Cell>, j: nat): Cell
    requires j < |col|
  {
    if col[j] != NaN || j == 0 then col[j] else Filled(col, j - 1)
  }

  /** The fill is NaN only over a NaN prefix, and otherwise is a cell found at or before `j`. */
  lemma {:induction false} FilledFrom(col: seq<Cell>, j: nat)
    requires j < |col|
    ensures Filled(col, j) == NaN ==> forall k :: 0 <= k <= j ==> col[k] == NaN
    ensures Filled(col, j) != NaN ==> exists k :: 0 <= k <= j && col[k] == Filled(col, j)
  {
    if col[j] == NaN && j > 0 {
      FilledFrom(col, j - 1);
    }
  }

  /** `pct_change()` at `j` (forward fill, then the ratio to the previous cell, minus one). */
  function Change(col: seq<Cell>, j: nat): Cell
    requires j < |col|
  {
    if j == 0 then NaN else Minus(Quot(Filled(col, j), Filled(col, j - 1)), Num(1.0))
  }

  /** `.sum()` of the changes at `0 .. m-1`: NaN cells are skipped, the empty sum is 0. */
  function ChangeSum(col: seq<Cell>, m: nat): Cell
    requires m <= |col|
  {
    if m == 0 then Num(0.0)
    else
      var c := Change(col, m - 1);
      if c == NaN then ChangeSum(col, m - 1) else Plus(ChangeSum(col, m - 1), c)
  }

  /** `col.pct_change().sum()`. */
  function Trend(col: seq<Cell>): Cell {
    ChangeSum(col, |col|)
  }

  /** A window whose cells are all the same nonzero number has a zero trend. */
  lemma {:induction false} FlatTrend(col: seq<Cell>, x: real, m: nat)
    requires x != 0.0 && m <= |col|
    requires forall k :: 0 <= k < |col| ==> col[k] == Num(x)
    ensures ChangeSum(col, m) == Num(0.0)
  {
    if m == 1 {
      assert Change(col, 0) == NaN;
    } else if m > 1 {
      FlatTrend(col, x, m - 1);
      FlatChange(col, x, m - 1);
      assert ChangeSum(col, m) == Plus(ChangeSum(col, m - 1), Change(col, m - 1));
    }
  }

  lemma FlatChange(col: seq<Cell>, x: real, j: nat)
    requires x != 0.0 && 1 <= j < |col| && col[j] == Num(x) && col[j - 1] == Num(x)
    ensures Change(col, j) == Num(0.0)
  {
    assert Filled(col, j) == Num(x);
    assert Filled(col, j - 1) == Num(x);
    SelfQuotient(x);
    assert Quot(Num(x), Num(x)) == Num(1.0);
  }

  lemma SelfQuotient(x: real)
    requires x != 0.0
    ensures x / x == 1.0
  {
    assert (x / x) * x == 1.0 * x;
  }

  /** A window that is entirely NaN has a zero trend. */
  lemma {:induction false} MissingTrend(col: seq<Cell>, m: nat)
    requires m <= |col|
    requires forall k :: 0 <= k < |col| ==> col[k] == NaN
    ensures ChangeSum(col, m) == Num(0.0)
  {
    if m > 0 {
      MissingTrend(col, m - 1);
      if m - 1 > 0 {
        FilledFrom(col, m - 1);
        assert Filled(col, m - 1) == NaN;
      }
    }
  }

  // ---------------------------------------------------------------------
  // The six tests

  /** The six back-tests; the OBV-divergence test looks at a trend window of
      `window + 1` rows. */
  datatype Test = RsiTest | MacdTest | EmaTest | StochTest | BandsTest | ObvTest(window: nat)

  const ObvWindow: nat := 5

  /** The first index a test looks at. */
  function Lo(t: Test): nat {
    match t
    case MacdTest => 1
    case EmaTest => 1
    case StochTest => 1
    case _ => 0
  }

  /** How far past `i` the test reads the close. */
  function Ahead(t: Test): nat {
    match t
    case MacdTest => 2
    case EmaTest => 7
    case ObvTest(w) => w + 3
    case _ => 1
  }

  /** The end of the index loop: `range(Lo, n - Ahead)`, which is empty when
      the history is too short. */
  function Hi(t: Test, n: nat): (hi: nat)
    ensures Lo(t) <= hi && (hi == Lo(t) || hi + Ahead(t) == n)
  {
    if n >= Lo(t) + Ahead(t) then n - Ahead(t) else Lo(t)
  }

  /** `a` crosses above `b` at `i`: below at `i - 1`, above at `i`, both strictly. */
  predicate CrossesAbove(a: seq<Cell>, b: seq<Cell>, i: nat)
    requires 1 <= i < |a| && |b| == |a|
  {
    Lt(a[i - 1], b[i - 1]) && Lt(b[i], a[i])
  }

  /** The condition under which test `t` counts index `i` as a signal. */
  predicate Signal(t: Test, h: History, i: nat)
    requires h.Valid() && Lo(t) <= i && i + Ahead(t) < h.Len()
  {
    match t
    case RsiTest => Lt(h.rsi[i], Num(30.0))
    case MacdTest => CrossesAbove(h.macd, h.macdSignal, i)
    case EmaTest =>
      Lt(Minus(h.ema50[i - 1], h.ema200[i - 1]), Num(0.0)) &&
      Lt(Num(0.0), Minus(h.ema50[i], h.ema200[i]))
    case StochTest => CrossesAbove(h.stochK, h.stochD, i) && Lt(h.stochK[i], Num(20.0))
    case BandsTest => Lt(h.close[i], h.bbLower[i])
    case ObvTest(w) =>
      Lt(Num(0.02), Trend(h.obv[i..i + w + 1])) && Le(Trend(h.close[i..i + w + 1]), Num(0.01))
  }

  /** The row whose close a success is measured against. */
  function Base(t: Test, i: nat): nat {
    match t
    case ObvTest(w) => i + w
    case _ => i
  }

  /** The signal at `i` was followed by a higher close `Ahead(t)` rows later. */
  predicate Success(t: Test, h: History, i: nat)
    requires h.Valid() && i + Ahead(t) < h.Len()
  {
    Lt(h.close[Base(t, i)], h.close[i + Ahead(t)])
  }

  /** The number of signals at the indices `Lo(t) .. m-1`. */
  function Signals(t: Test, h: History, m: nat): nat
    requires h.Valid() && Lo(t) <= m <= Hi(t, h.Len())
    decreases m
  {
    if m == Lo(t) then 0
    else Signals(t, h, m - 1) + (if Signal(t, h, m - 1) then 1 else 0)
  }

  /** The number of successful signals at the indices `Lo(t) .. m-1`. */
  function Successes(t: Test, h: History, m: nat): nat
    requires h.Valid() && Lo(t) <= m <= Hi(t, h.Len())
    decreases m
  {
    if m == Lo(t) then 0
    else Successes(t, h, m - 1) + (if Signal(t, h, m - 1) && Success(t, h, m - 1) then 1 else 0)
  }

  /** The indices of the loop that signal. */
  function SignalSet(t: Test, h: History, m: nat): set<nat>
    requires h.Valid() && Lo(t) <= m <= Hi(t, h.Len())
  {
    set i: nat | Lo(t) <= i < m && Signal(t, h, i)
  }

  /** Every index is counted once: the signal count is the number of signalling indices. */
  lemma {:induction false} SignalsCountIndices(t: Test, h: History, m: nat)
    requires h.Valid() && Lo(t) <= m <= Hi(t, h.Len())
    ensures Signals(t, h, m) == |SignalSet(t, h, m)|
    decreases m
  {
    if m > Lo(t) {
      SignalsCountIndices(t, h, m - 1);
      SignalSetStep(t, h, m);
    } else {
      assert SignalSet(t, h, m) == {};
    }
  }

  lemma SignalSetStep(t: Test, h: History, m: nat)
    requires h.Valid() && Lo(t) < m <= Hi(t, h.Len())
    ensures SignalSet(t, h, m) == SignalSet(t, h, m - 1) + (if Signal(t, h, m - 1) then {m - 1} else {})
    ensures m - 1 !in SignalSet(t, h, m - 1)
  {
  }

  /** Successes never outnumber signals, and signals never outnumber the indices looked at. */
  lemma {:induction false} CountsBounded(t: Test, h: History, m: nat)
    requires h.Valid() && Lo(t) <= m <= Hi(t, h.Len())
    ensures Successes(t, h, m) <= Signals(t, h, m) <= m - Lo(t)
    decreases m
  {
    if m > Lo(t) {
      CountsBounded(t, h, m - 1);
    }
  }

  /** No signal is counted exactly when no index of the loop signals; in
      particular a history too short for the test yields none. */
  lemma NoSignals(t: Test, h: History, m: nat)
    requires h.Valid() && Lo(t) <= m <= Hi(t, h.Len())
    ensures Signals(t, h, m) == 0 <==> forall i: nat :: Lo(t) <= i < m ==> !Signal(t, h, i)
  {
    SignalsCountIndices(t, h, m);
    if forall i: nat :: Lo(t) <= i < m ==> !Signal(t, h, i) {
      assert SignalSet(t, h, m) == {};
    }
  }

  /** The golden cross is the crossing of the 50-bar EMA above the 200-bar EMA,
      the same crossing the MACD test looks for on its own pair of lines. */
  lemma GoldenCross(h: History, i: nat)
    requires h.Valid() && 1 <= i && i + 7 < h.Len()
    requires forall k :: 0 <= k < h.Len() ==> !h.ema50[k].Text? && !h.ema200[k].Text?
    ensures Signal(EmaTest, h, i) <==> CrossesAbove(h.ema50, h.ema200, i)
  {
    NegativeDifference(h.ema50[i - 1], h.ema200[i - 1]);
    PositiveDifference(h.ema50[i], h.ema200[i]);
  }

  /** An OBV that does not move over the trend window never signals a divergence. */
  lemma FlatObvNoDivergence(h: History, w: nat, i: nat, x: real)
    requires h.Valid() && i + w + 3 < h.Len() && x != 0.0
    requires forall k :: i <= k <= i + w ==> h.obv[k] == Num(x)
    ensures !Signal(ObvTest(w), h, i)
  {
    var win := h.obv[i..i + w + 1];
    forall k | 0 <= k < |win| ensures win[k] == Num(x) {
      assert win[k] == h.obv[i + k];
    }
    FlatTrend(win, x, |win|);
    assert Trend(win) == Num(0.0);
  }

  /** Counting one index: adds the signal and the success found there. */
  lemma Step(t: Test, h: History, i: nat)
    requires h.Valid() && Lo(t) <= i < Hi(t, h.Len())
    ensures Signals(t, h, i + 1) == Signals(t, h, i) + (if Signal(t, h, i) then 1 else 0)
    ensures Successes(t, h, i + 1) == Successes(t, h, i) + (if Signal(t, h, i) && Success(t, h, i) then 1 else 0)
  {
  }

  /** The OBV-divergence signal and success at `i`, spelled out. */
  lemma ObvAt(h: History, w: nat, i: nat)
    requires h.Valid() && i + w + 3 < h.Len()
    ensures Signal(ObvTest(w), h, i) <==>
      Lt(Num(0.02), Trend(h.obv[i..i + w + 1])) && Le(Trend(h.close[i..i + w + 1]), Num(0.01))
    ensures Success(ObvTest(w), h, i) <==> Lt(h.close[i + w], h.close[i + w + 3])
  {
  }

  /** `test_rsi_effect`: an RSI below 30, followed by a higher close the next row. */
  method TestRsiEffect(h: History) returns (successes: nat, signals: nat)
    requires h.Valid()
    ensures signals == Signals(RsiTest, h, Hi(RsiTest, h.Len()))
    ensures successes == Successes(RsiTest, h, Hi(RsiTest, h.Len()))
  {
    successes, signals := 0, 0;
    var i := 0;
    while i + 1 < |h.close|
      invariant 0 <= i <= Hi(RsiTest, h.Len())
      invariant signals == Signals(RsiTest, h, i) && successes == Successes(RsiTest, h, i)
    {
      Step(RsiTest, h, i);
      if Lt(h.rsi[i], Num(30.0)) {
        signals := signals + 1;
        if Lt(h.close[i], h.close[i + 1]) {
          successes := successes + 1;
        }
      }
      i := i + 1;
    }
  }

  /** `test_macd_cross`: MACD crossing above its signal line, followed by a
      higher close two rows later. */
  method TestMacdCross(h: History) returns (successes: nat, signals: nat)
    requires h.Valid()
    ensures signals == Signals(MacdTest, h, Hi(MacdTest, h.Len()))
    ensures successes == Successes(MacdTest, h, Hi(MacdTest, h.Len()))
  {
    successes, signals := 0, 0;
    var i := 1;
    while i + 2 < |h.close|
      invariant 1 <= i <= Hi(MacdTest, h.Len())
      invariant signals == Signals(MacdTest, h, i) && successes == Successes(MacdTest, h, i)
    {
      Step(MacdTest, h, i);
      if Lt(h.macd[i - 1], h.macdSignal[i - 1]) && Lt(h.macdSignal[i], h.macd[i]) {
        signals := signals + 1;
        if Lt(h.close[i], h.close[i + 2]) {
          successes := successes + 1;
        }
      }
      i := i + 1;
    }
  }

  /** `test_ema_cross`: the 50-bar EMA crossing above the 200-bar EMA, followed
      by a higher close seven rows later. */
  method TestEmaCross(h: History) returns (successes: nat, signals: nat)
    requires h.Valid()
    ensures signals == Signals(EmaTest, h, Hi(EmaTest, h.Len()))
    ensures successes == Successes(EmaTest, h, Hi(EmaTest, h.Len()))
  {
    successes, signals := 0, 0;
    var i := 1;
    while i + 7 < |h.close|
      invariant 1 <= i <= Hi(EmaTest, h.Len())
      invariant signals == Signals(EmaTest, h, i) && successes == Successes(EmaTest, h, i)
    {
      Step(EmaTest, h, i);
      var prevDiff := Minus(h.ema50[i - 1], h.ema200[i - 1]);
      var currDiff := Minus(h.ema50[i], h.ema200[i]);
      if Lt(prevDiff, Num(0.0)) && Lt(Num(0.0), currDiff) {
        signals := signals + 1;
        if Lt(h.close[i], h.close[i + 7]) {
          successes := successes + 1;
        }
      }
      i := i + 1;
    }
  }

  /** `test_stoch`: %K crossing above %D while %K is below 20, followed by a
      higher close the next row. */
  method TestStoch(h: History) returns (successes: nat, signals: nat)
    requires h.Valid()
    ensures signals == Signals(StochTest, h, Hi(StochTest, h.Len()))
    ensures successes == Successes(StochTest, h, Hi(StochTest, h.Len()))
  {
    successes, signals := 0, 0;
    var i := 1;
    while i + 1 < |h.close|
      invariant 1 <= i <= Hi(StochTest, h.Len())
      invariant signals == Signals(StochTest, h, i) && successes == Successes(StochTest, h, i)
    {
      Step(StochTest, h, i);
      if Lt(h.stochK[i - 1], h.stochD[i - 1]) && Lt(h.stochD[i], h.stochK[i]) {
        if Lt(h.stochK[i], Num(20.0)) {
          signals := signals + 1;
          if Lt(h.close[i], h.close[i + 1]) {
            successes := successes + 1;
          }
        }
      }
      i := i + 1;
    }
  }

  /** `test_bbands`: a close below the lower Bollinger band, followed by a
      higher close the next row. */
  method TestBands(h: History) returns (successes: nat, signals: nat)
    requires h.Valid()
    ensures signals == Signals(BandsTest, h, Hi(BandsTest, h.Len()))
    ensures successes == Successes(BandsTest, h, Hi(BandsTest, h.Len()))
  {
    successes, signals := 0, 0;
    var i := 0;
    while i + 1 < |h.close|
      invariant 0 <= i <= Hi(BandsTest, h.Len())
      invariant signals == Signals(BandsTest, h, i) && successes == Successes(BandsTest, h, i)
    {
      Step(BandsTest, h, i);
      if Lt(h.close[i], h.bbLower[i]) {
        signals := signals + 1;
        if Lt(h.close[i], h.close[i + 1]) {
          successes := successes + 1;
        }
      }
      i := i + 1;
    }
  }

  /** One index of `test_obv_divergence`: the two trends over the window and
      the close three rows after it. */
  method ObvCheck(h: History, w: nat, i: nat) returns (signal: bool, success: bool)
    requires h.Valid() && i + w + 3 < h.Len()
    ensures signal == Signal(ObvTest(w), h, i)
    ensures success == Success(ObvTest(w), h, i)
  {
    ObvAt(h, w, i);
    var obvTrend := Trend(h.obv[i..i + w + 1]);
    var priceTrend := Trend(h.close[i..i + w + 1]);
    signal := Lt(Num(0.02), obvTrend) && Le(priceTrend, Num(0.01));
    success := Lt(h.close[i + w], h.close[i + w + 3]);
  }

  /** `test_obv_divergence`: OBV rising by more than 2% over the window while
      the price moved by at most 1%, followed by a higher close three rows
      after the window. */
  method TestObvDivergence(h: History, window: nat) returns (successes: nat, signals: nat)
    requires h.Valid()
    ensures signals == Signals(ObvTest(window), h, Hi(ObvTest(window), h.Len()))
    ensures successes == Successes(ObvTest(window), h, Hi(ObvTest(window), h.Len()))
  {
    successes, signals := 0, 0;
    var i := 0;
    while i + window + 3 < |h.close|
      invariant 0 <= i <= Hi(ObvTest(window), h.Len())
      invariant signals == Signals(ObvTest(window), h, i) && successes == Successes(ObvTest(window), h, i)
    {
      Step(ObvTest(window), h, i);
      var signal, success := ObvCheck(h, window, i);
      if signal {
        signals := signals + 1;
        if success {
          successes := successes + 1;
        }
      }
      i := i + 1;
    }
    assert i == Hi(ObvTest(window), h.Len());
  }

  // ---------------------------------------------------------------------
  // Results

  /** One test's entry in the results: the counts and the rounded p-value, if any. */
  datatype Outcome = Outcome(signals: nat, successes: nat, p: Option<real>)

  /** The entry `build_result` makes: no p-value without signals; otherwise
      the probability of at least `successes` up-moves in `signals` fair coin
      flips, rounded to six places. */
  function Summary(successes: nat, signals: nat): (o: Outcome)
    requires successes <= signals
    ensures o.signals == signals && o.successes == successes
    ensures o.p == None <==> signals == 0
    ensures o.p.Some? ==> 0.0 <= o.p.value <= 1.0
  {
    if signals == 0 then
      Outcome(0, 0, None)
    else
      var p := Binomial.PGreater(successes, signals);
      Binomial.RoundedProbability(p);
      Outcome(signals, successes, Some(Binomial.Round6(p)))
  }

  /** `build_result`: a dictionary with the test's name as its one key. */
  function BuildResult(successes: nat, signals: nat, name: string): (r: map<string, Outcome>)
    requires successes <= signals
    ensures r.Keys == {name} && r[name] == Summary(successes, signals)
  {
    map[name := Summary(successes, signals)]
  }

  /** Signals never followed by a rise give p = 1. */
  lemma NoSuccessesNoEvidence(signals: nat)
    requires signals > 0
    ensures Summary(0, signals).p == Some(1.0)
  {
    Binomial.PGreaterOfZero(signals);
    assert Binomial.Round6(1.0) == 1.0 by {
      assert (1.0 * Binomial.Scale).Floor == 1000000;
    }
  }

  /** For the same number of signals, more successes never give a larger p-value. */
  lemma MoreSuccessesSmallerP(s1: nat, s2: nat, signals: nat)
    requires s1 <= s2 <= signals && signals > 0
    ensures Summary(s2, signals).p.value <= Summary(s1, signals).p.value
  {
    Binomial.PGreaterMonotone(s1, s2, signals);
    RoundMonotone(Binomial.PGreater(s2, signals), Binomial.PGreater(s1, signals));
  }

  lemma RoundMonotone(x: real, y: real)
    requires x <= y
    ensures Binomial.Round6(x) <= Binomial.Round6(y)
  {
    assert (x * Binomial.Scale).Floor <= (y * Binomial.Scale).Floor;
  }

  /** What test `t` reports about the whole history. */
  function Report(t: Test, h: History): (o: Outcome)
    requires h.Valid()
    ensures o.successes <= o.signals <= Hi(t, h.Len()) - Lo(t)
    ensures o.signals == |SignalSet(t, h, Hi(t, h.Len()))|
  {
    var hi := Hi(t, h.Len());
    CountsBounded(t, h, hi);
    SignalsCountIndices(t, h, hi);
    Summary(Successes(t, h, hi), Signals(t, h, hi))
  }

  /** `run_all_tests`: the six results merged into one dictionary, under their six names. */
  method RunAllTests(h: History) returns (results: map<string, Outcome>)
    requires h.Valid()
    ensures results == map[
      "RSI" := Report(RsiTest, h),
      "MACD" := Report(MacdTest, h),
      "EMA Golden Cross" := Report(EmaTest, h),
      "Stochastic Crossover" := Report(StochTest, h),
      "Bollinger Bounce" := Report(BandsTest, h),
      "OBV Divergence" := Report(ObvTest(ObvWindow), h)]
  {
    results := map[];
    var k, n := TestRsiEffect(h);
    results := Update(results, RsiTest, h, k, n, "RSI");
    k, n := TestMacdCross(h);
    results := Update(results, MacdTest, h, k, n, "MACD");
    k, n := TestEmaCross(h);
    results := Update(results, EmaTest, h, k, n, "EMA Golden Cross");
    k, n := TestStoch(h);
    results := Update(results, StochTest, h, k, n, "Stochastic Crossover");
    k, n := TestBands(h);
    results := Update(results, BandsTest, h, k, n, "Bollinger Bounce");
    k, n := TestObvDivergence(h, ObvWindow);
    results := Update(results, ObvTest(ObvWindow), h, k, n, "OBV Divergence");
  }

  /** `results.update(build_result(successes, signals, name))` for the counts of test `t`. */
  method Update(results: map<string, Outcome>, t: Test, h: History, successes: nat, signals: nat, name: string)
    returns (merged: map<string, Outcome>)
    requires h.Valid()
    requires signals == Signals(t, h, Hi(t, h.Len())) && successes == Successes(t, h, Hi(t, h.Len()))
    ensures merged == results[name := Report(t, h)]
  {
    CountsBounded(t, h, Hi(t, h.Len()));
    merged := results + BuildResult(successes, signals, name);
  }
}
