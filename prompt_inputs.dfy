/** What the chat prompts are built from: the rows and values each prompt
    selects from the ratio table, the anomaly table and a ticker's back-test
    results. The templates the selections are formatted into, and the
    formatting of numbers, are not part of this model: a prompt is modelled
    by the structured content it prints. */
module PromptInputs {
  import opened Frames
  import CompanyStore
  import AnomalyDetector
  import Backtests

  // ---------------------------------------------------------------------
  // Ordering periods

  /** Lexicographic order on strings. */
  predicate StrLt(a: string, b: string)
    decreases |a|
  {
    if a == [] then b != []
    else if b == [] then false
    else if a[0] != b[0] then a[0] < b[0]
    else StrLt(a[1..], b[1..])
  }

  lemma {:induction false} StrLtTransitive(a: string, b: string, c: string)
    requires StrLt(a, b) && StrLt(b, c)
    ensures StrLt(a, c)
    decreases |a|
  {
    if a != [] && b != [] && c != [] && a[0] == b[0] && b[0] == c[0] {
      StrLtTransitive(a[1..], b[1..], c[1..]);
    }
  }

  lemma {:induction false} StrLtTotal(a: string, b: string)
    ensures a == b || StrLt(a, b) || StrLt(b, a)
    decreases |a|
  {
    if a != [] && b != [] && a[0] == b[0] {
      StrLtTotal(a[1..], b[1..]);
      if a[1..] == b[1..] {
        assert a == [a[0]] + a[1..] && b == [b[0]] + b[1..];
      }
    }
  }

  lemma {:induction false} NewerIrreflexive(a: Option<string>)
    ensures !Newer(a, a)
  {
    if a.Some? {
      NotBelowItself(a.value);
    }
  }

  lemma {:induction false} NotBelowItself(a: string)
    ensures !StrLt(a, a)
    decreases |a|
  {
    if a != [] {
      NotBelowItself(a[1..]);
    }
  }

  /** A period as the sort sees it: the date text, or nothing for a missing period. */
  function PeriodKey(c: Cell): Option<string> {
    if c.Text? then Some(c.s) else None
  }

  /** `a` comes strictly before `b` when sorting newest first: a later date, or
      a date against a missing period (missing periods sort last). */
  predicate Newer(a: Option<string>, b: Option<string>) {
    a.Some? && (b.None? || StrLt(b.value, a.value))
  }

  lemma NewerAsymmetric(a: Option<string>, b: Option<string>)
    requires Newer(a, b)
    ensures !Newer(b, a)
  {
    if Newer(b, a) {
      StrLtTransitive(a.value, b.value, a.value);
      NotBelowItself(a.value);
    }
  }

  /** Being newer is a strict weak order: if `a` is newer than `c`, any `b`
      is newer than `c` or older than `a`. */
  lemma NewerSplits(a: Option<string>, b: Option<string>, c: Option<string>)
    requires Newer(a, c)
    ensures Newer(a, b) || Newer(b, c)
  {
    if a.Some? && b.Some? && c.Some? && !Newer(a, b) {
      StrLtTotal(b.value, a.value);
      if StrLt(a.value, b.value) {
        StrLtTransitive(c.value, a.value, b.value);
      }
    }
  }

  /** Rows listed newest first: no row is newer than one listed before it. */
  predicate NewestFirst(keys: seq<Option<string>>, rows: seq<nat>)
    requires forall k :: 0 <= k < |rows| ==> rows[k] < |keys|
  {
    forall i, j :: 0 <= i < j < |rows| ==> !Newer(keys[rows[j]], keys[rows[i]])
  }

  /** Inserts row `x` before the first row that is not newer than it. */
  function Insert(keys: seq<Option<string>>, x: nat, s: seq<nat>): (r: seq<nat>)
    requires x < |keys| && forall k :: 0 <= k < |s| ==> s[k] < |keys|
    ensures multiset(r) == multiset(s) + multiset{x}
    ensures forall k :: 0 <= k < |r| ==> r[k] < |keys|
  {
    if s == [] then [x]
    else if !Newer(keys[s[0]], keys[x]) then
      [x] + s
    else
      assert s == [s[0]] + s[1..];
      [s[0]] + Insert(keys, x, s[1..])
  }

  lemma {:induction false} InsertNewestFirst(keys: seq<Option<string>>, x: nat, s: seq<nat>)
    requires x < |keys| && forall k :: 0 <= k < |s| ==> s[k] < |keys|
    requires NewestFirst(keys, s)
    ensures NewestFirst(keys, Insert(keys, x, s))
  {
    if s == [] {
    } else if !Newer(keys[s[0]], keys[x]) {
      forall j | 0 < j < |s| ensures !Newer(keys[s[j]], keys[x]) {
        if Newer(keys[s[j]], keys[x]) {
          NewerSplits(keys[s[j]], keys[s[0]], keys[x]);
        }
      }
    } else {
      var rest := Insert(keys, x, s[1..]);
      InsertNewestFirst(keys, x, s[1..]);
      forall j | 0 <= j < |rest| ensures !Newer(keys[rest[j]], keys[s[0]]) {
        assert rest[j] in multiset(rest);
        if rest[j] == x {
          NewerAsymmetric(keys[s[0]], keys[x]);
        } else {
          assert rest[j] in multiset(s[1..]);
          var i :| 0 <= i < |s[1..]| && s[1..][i] == rest[j];
          assert s[i + 1] == rest[j];
        }
      }
    }
  }

  /** `sort_values(by="Period.Ending", ascending=False)` on the rows `idx`. */
  function SortNewestFirst(keys: seq<Option<string>>, idx: seq<nat>): (r: seq<nat>)
    requires forall k :: 0 <= k < |idx| ==> idx[k] < |keys|
    ensures multiset(r) == multiset(idx)
    ensures forall k :: 0 <= k < |r| ==> r[k] < |keys|
    ensures NewestFirst(keys, r)
  {
    if idx == [] then []
    else
      assert idx == [idx[0]] + idx[1..];
      var rest := SortNewestFirst(keys, idx[1..]);
      InsertNewestFirst(keys, idx[0], rest);
      Insert(keys, idx[0], rest)
  }

  function PeriodKeys(f: Frame): (keys: seq<Option<string>>)
    requires CompanyStore.HasKeys(f)
    ensures |keys| == f.height
  {
    var col := Column(f, PeriodColumn);
    seq(f.height, i requires 0 <= i < f.height => PeriodKey(col[i]))
  }

  // ---------------------------------------------------------------------
  // The ratio prompt

  /** The columns a prompt reports: all but the ticker and the period, in order. */
  function MetricNames(names: seq<string>): (r: seq<string>)
    ensures forall n :: n in r <==> n in names && n != TickerColumn && n != PeriodColumn
  {
    if names == [] then []
    else if names[0] == TickerColumn || names[0] == PeriodColumn then MetricNames(names[1..])
    else [names[0]] + MetricNames(names[1..])
  }

  /** One year of the ratio summary: the period and each reported column's value. */
  datatype YearBlock = YearBlock(year: Cell, metrics: seq<(string, Cell)>)

  /** The rows of ticker `t`, newest first, at most `n` of them. */
  function Latest(f: Frame, t: string, n: nat): (rows: seq<nat>)
    requires CompanyStore.HasKeys(f)
    ensures |rows| <= n && forall k :: 0 <= k < |rows| ==> rows[k] < f.height
    ensures forall k :: 0 <= k < |rows| ==> PandasEq(Column(f, TickerColumn)[rows[k]], Text(t))
    ensures NewestFirst(PeriodKeys(f), rows)
  {
    var rows := TickerRows(f, t);
    if |rows| <= n then rows else NewestFirstPrefix(PeriodKeys(f), rows, n); rows[..n]
  }

  /** All the rows of ticker `t`, newest first. */
  function TickerRows(f: Frame, t: string): (rows: seq<nat>)
    requires CompanyStore.HasKeys(f)
    ensures multiset(rows) == multiset(Where(f.height, CompanyStore.TickerTest(f, Text(t))))
    ensures forall k :: 0 <= k < |rows| ==> rows[k] < f.height
    ensures forall k :: 0 <= k < |rows| ==> PandasEq(Column(f, TickerColumn)[rows[k]], Text(t))
    ensures NewestFirst(PeriodKeys(f), rows)
  {
    var mine := Where(f.height, CompanyStore.TickerTest(f, Text(t)));
    var sorted := SortNewestFirst(PeriodKeys(f), mine);
    forall k | 0 <= k < |sorted|
      ensures PandasEq(Column(f, TickerColumn)[sorted[k]], Text(t))
    {
      assert sorted[k] in multiset(mine);
    }
    sorted
  }

  /** A prefix of rows in newest-first order is in newest-first order. */
  lemma NewestFirstPrefix(keys: seq<Option<string>>, rows: seq<nat>, n: nat)
    requires n <= |rows| && forall k :: 0 <= k < |rows| ==> rows[k] < |keys|
    requires NewestFirst(keys, rows)
    ensures NewestFirst(keys, rows[..n])
  {
    forall i, j | 0 <= i < j < n ensures !Newer(keys[rows[..n][j]], keys[rows[..n][i]]) {
      assert rows[..n][i] == rows[i] && rows[..n][j] == rows[j];
    }
  }

  /** The rows left out are never newer than the rows kept: the `n` kept are
      the most recent periods of the ticker. */
  lemma LatestAreMostRecent(f: Frame, t: string, n: nat, r: nat)
    requires CompanyStore.HasKeys(f) && r < f.height
    requires PandasEq(Column(f, TickerColumn)[r], Text(t)) && r !in Latest(f, t, n)
    ensures |Latest(f, t, n)| == n
    ensures forall k :: 0 <= k < n ==> !Newer(PeriodKeys(f)[r], PeriodKeys(f)[Latest(f, t, n)[k]])
  {
    var keys := PeriodKeys(f);
    var mine := Where(f.height, CompanyStore.TickerTest(f, Text(t)));
    var sorted := TickerRows(f, t);
    assert CompanyStore.TickerTest(f, Text(t))(r);
    assert r in multiset(sorted);
    var j :| 0 <= j < |sorted| && sorted[j] == r;
  }

  /** The values of the reported columns in row `i`. */
  function Metrics(f: Frame, i: nat): (m: seq<(string, Cell)>)
    requires f.Valid() && i < f.height
    ensures |m| == |MetricNames(f.names)|
    ensures forall k :: 0 <= k < |m| ==> m[k].0 == MetricNames(f.names)[k] && m[k].1 == Column(f, m[k].0)[i]
  {
    var ms := MetricNames(f.names);
    seq(|ms|, k requires 0 <= k < |ms| => (ms[k], Column(f, ms[k])[i]))
  }

  /** Reads the reported columns of row `i`, one line per column. */
  method ReadMetrics(f: Frame, i: nat) returns (metrics: seq<(string, Cell)>)
    requires f.Valid() && i < f.height
    ensures metrics == Metrics(f, i)
  {
    var names := MetricNames(f.names);
    metrics := [];
    var m := 0;
    while m < |names|
      invariant 0 <= m <= |names|
      invariant metrics == Metrics(f, i)[..m]
    {
      metrics := metrics + [(names[m], Column(f, names[m])[i])];
      m := m + 1;
    }
  }

  /** The ratio summary of ticker `t`: its three most recent years, newest first. */
  function RatioSummary(f: Frame, t: string): (blocks: seq<YearBlock>)
    requires CompanyStore.HasKeys(f)
  {
    YearBlocks(f, Latest(f, t, 3))
  }

  /** A block per row: its period and its reported columns. */
  function YearBlocks(f: Frame, rows: seq<nat>): (blocks: seq<YearBlock>)
    requires CompanyStore.HasKeys(f) && forall k :: 0 <= k < |rows| ==> rows[k] < f.height
  {
    seq(|rows|, k requires 0 <= k < |rows| => YearBlock(Column(f, PeriodColumn)[rows[k]], Metrics(f, rows[k])))
  }

  /** `generate_ratio_prompt`: a block per selected row, a line per reported column. */
  method GenerateRatioPrompt(t: string, f: Frame) returns (blocks: seq<YearBlock>)
    requires CompanyStore.HasKeys(f)
    ensures blocks == RatioSummary(f, t)
  {
    blocks := ReadBlocks(f, Latest(f, t, 3));
  }

  /** The loop over the selected rows: a block per row, in order. */
  method ReadBlocks(f: Frame, rows: seq<nat>) returns (blocks: seq<YearBlock>)
    requires CompanyStore.HasKeys(f) && forall k :: 0 <= k < |rows| ==> rows[k] < f.height
    ensures blocks == YearBlocks(f, rows)
  {
    blocks := [];
    var k := 0;
    while k < |rows|
      invariant 0 <= k <= |rows|
      invariant blocks == YearBlocks(f, rows)[..k]
    {
      var row := rows[k];
      var metrics := ReadMetrics(f, row);
      blocks := blocks + [YearBlock(Column(f, PeriodColumn)[row], metrics)];
      k := k + 1;
    }
  }

  // ---------------------------------------------------------------------
  // The anomaly prompt

  /** One line of the anomaly summary: the row's ticker and period and the
      reported columns that hold a value. */
  datatype AnomalyLine = AnomalyLine(ticker: Cell, period: Cell, metrics: seq<string>)

  const AnomalyColumn: string := AnomalyDetector.AnomalyColumn

  predicate HasAnomalyKeys(f: Frame) {
    CompanyStore.HasKeys(f) && AnomalyColumn in f.names
  }

  /** The columns of row `i` other than the ticker, the period and the label
      whose value is not null, in column order. */
  function Present(f: Frame, names: seq<string>, i: nat): (r: seq<string>)
    requires f.Valid() && i < f.height && forall n :: n in names ==> n in f.names
    ensures forall n :: n in r <==>
      n in names && n != TickerColumn && n != PeriodColumn && n != AnomalyColumn && NotNull(Column(f, n)[i])
  {
    if names == [] then []
    else
      var n := names[0];
      var rest := Present(f, names[1..], i);
      if n != TickerColumn && n != PeriodColumn && n != AnomalyColumn && NotNull(Column(f, n)[i]) then [n] + rest
      else rest
  }

  function FlaggedTest(f: Frame): nat -> bool
    requires HasAnomalyKeys(f)
  {
    (i: nat) => i < f.height && PandasEq(Column(f, AnomalyColumn)[i], Num(1.0))
  }

  /** The rows labelled 1, in table order. */
  function Flagged(f: Frame): (rows: seq<nat>)
    requires HasAnomalyKeys(f)
    ensures forall k :: 0 <= k < |rows| ==> rows[k] < f.height && Column(f, AnomalyColumn)[rows[k]] == Num(1.0)
    ensures forall i :: 0 <= i < f.height && Column(f, AnomalyColumn)[i] == Num(1.0) ==> i in rows
    ensures StrictlyIncreasing(rows)
  {
    var rows := Where(f.height, FlaggedTest(f));
    assert forall k :: 0 <= k < |rows| ==> FlaggedTest(f)(rows[k]);
    rows
  }

  function LineAt(f: Frame, i: nat): AnomalyLine
    requires HasAnomalyKeys(f) && i < f.height
  {
    AnomalyLine(Column(f, TickerColumn)[i], Column(f, PeriodColumn)[i], Present(f, f.names, i))
  }

  /** `generate_anomaly_prompt`: one line per flagged row, in table order. */
  method GenerateAnomalyPrompt(f: Frame) returns (lines: seq<AnomalyLine>)
    requires HasAnomalyKeys(f)
    ensures |lines| == |Flagged(f)|
    ensures forall k :: 0 <= k < |lines| ==> lines[k] == LineAt(f, Flagged(f)[k])
  {
    var flagged := Flagged(f);
    lines := [];
    var k := 0;
    while k < |flagged|
      invariant 0 <= k <= |flagged|
      invariant |lines| == k && forall j :: 0 <= j < k ==> lines[j] == LineAt(f, flagged[j])
    {
      var row := flagged[k];
      lines := lines + [AnomalyLine(Column(f, TickerColumn)[row], Column(f, PeriodColumn)[row], Present(f, f.names, row))];
      k := k + 1;
    }
  }

  // ---------------------------------------------------------------------
  // The back-test prompt

  /** One back-test as the prompt reports it: the signals that failed and those
      that succeeded, and the p-value. */
  datatype HypothesisEntry = HypothesisEntry(test: string, before: int, after: int, p: real)

  datatype HypothesisPrompt = NoResults(ticker: string) | Entries(ticker: string, entries: seq<HypothesisEntry>)

  /** The entries for the tests that have a p-value, in file order. */
  function Reported(results: seq<(string, Backtests.Outcome)>): (es: seq<HypothesisEntry>)
    ensures |es| <= |results|
  {
    if results == [] then []
    else
      var rest := Reported(results[1..]);
      var (name, o) := results[0];
      if o.p == None then rest
      else [HypothesisEntry(name, o.signals - o.successes, o.successes, o.p.value)] + rest
  }

  /** `generate_enhanced_hypothesis_prompt`, given the results file's contents
      (`None` when there is no file for the ticker). */
  method GenerateHypothesisPrompt(t: string, file: Option<seq<(string, Backtests.Outcome)>>)
    returns (prompt: HypothesisPrompt)
    ensures file == None <==> prompt == NoResults(t)
    ensures file.Some? ==> prompt == Entries(t, Reported(file.value))
  {
    if file == None {
      return NoResults(t);
    }
    var results := file.value;
    var entries: seq<HypothesisEntry> := [];
    var k := |results|;
    while k > 0
      invariant 0 <= k <= |results|
      invariant entries == Reported(results[k..])
    {
      k := k - 1;
      assert results[k..][1..] == results[k + 1..];
      var (name, o) := results[k];
      if o.p != None {
        entries := [HypothesisEntry(name, o.signals - o.successes, o.successes, o.p.value)] + entries;
      }
    }
    assert results[0..] == results;
    return Entries(t, entries);
  }

  /** Entry `e` reports a test of `results` faithfully: its counts are not
      negative, add up to the test's signals, and its p-value is the test's. */
  predicate Accounts(results: seq<(string, Backtests.Outcome)>, e: HypothesisEntry) {
    e.before >= 0 && e.after >= 0 &&
    exists k :: 0 <= k < |results| && results[k].0 == e.test &&
      e.before + e.after == results[k].1.signals && Some(e.p) == results[k].1.p
  }

  /** A test is reported exactly when it has a p-value, with its failed and
      successful signals adding up to its signals. */
  lemma {:induction false} ReportedTests(results: seq<(string, Backtests.Outcome)>, name: string)
    requires forall k :: 0 <= k < |results| ==> results[k].1.successes <= results[k].1.signals
    ensures (exists e :: e in Reported(results) && e.test == name) <==>
      (exists k :: 0 <= k < |results| && results[k].0 == name && results[k].1.p != None)
    ensures forall e :: e in Reported(results) ==> Accounts(results, e)
  {
    if results != [] {
      ReportedTests(results[1..], name);
      forall k | 0 <= k < |results[1..]| ensures results[1..][k] == results[k + 1] {}
    }
  }

  /** For results of the back-tests, the tests reported are those that signalled at least once. */
  lemma ReportedWhenSignalled(successes: nat, signals: nat)
    requires successes <= signals
    ensures Backtests.Summary(successes, signals).p != None <==> signals > 0
  {
  }

  // ---------------------------------------------------------------------
  // The comparison prompt

  /** One ticker's part of the comparison: its most recent row's reported columns. */
  datatype Section = Section(ticker: string, metrics: seq<(string, Cell)>)

  datatype PromptError = NameError(name: string)

  /** No row of `sorted` before position `p` belongs to ticker `t`. */
  predicate NoneBefore(f: Frame, t: string, sorted: seq<nat>, p: nat)
    requires CompanyStore.HasKeys(f) && forall k :: 0 <= k < |sorted| ==> sorted[k] < f.height
    requires p <= |sorted|
  {
    forall q :: 0 <= q < p ==> !PandasEq(Column(f, TickerColumn)[sorted[q]], Text(t))
  }

  /** The rows of `sorted` whose ticker is `t`, in order. */
  function OfTicker(f: Frame, t: string, sorted: seq<nat>): (r: seq<nat>)
    requires CompanyStore.HasKeys(f) && forall k :: 0 <= k < |sorted| ==> sorted[k] < f.height
    ensures forall k :: 0 <= k < |r| ==> r[k] in sorted && PandasEq(Column(f, TickerColumn)[r[k]], Text(t))
    ensures forall i :: i in sorted && PandasEq(Column(f, TickerColumn)[i], Text(t)) ==> i in r
  {
    if sorted == [] then []
    else
      var rest := OfTicker(f, t, sorted[1..]);
      if PandasEq(Column(f, TickerColumn)[sorted[0]], Text(t)) then [sorted[0]] + rest else rest
  }

  /** The first row kept is the first row of the ticker in `sorted`. */
  lemma {:induction false} OfTickerFirst(f: Frame, t: string, sorted: seq<nat>)
    requires CompanyStore.HasKeys(f) && forall k :: 0 <= k < |sorted| ==> sorted[k] < f.height
    ensures OfTicker(f, t, sorted) != [] ==>
      exists p :: 0 <= p < |sorted| && sorted[p] == OfTicker(f, t, sorted)[0] && NoneBefore(f, t, sorted, p)
  {
    if sorted != [] && !PandasEq(Column(f, TickerColumn)[sorted[0]], Text(t)) {
      var tail := sorted[1..];
      OfTickerFirst(f, t, tail);
      if OfTicker(f, t, tail) != [] {
        var p :| 0 <= p < |tail| && tail[p] == OfTicker(f, t, tail)[0] && NoneBefore(f, t, tail, p);
        forall q | 0 <= q < p + 1 ensures !PandasEq(Column(f, TickerColumn)[sorted[q]], Text(t)) {
          if q > 0 {
            assert sorted[q] == tail[q - 1];
          }
        }
        assert sorted[p + 1] == OfTicker(f, t, sorted)[0] && NoneBefore(f, t, sorted, p + 1);
      }
    } else if sorted != [] {
      assert NoneBefore(f, t, sorted, 0);
    }
  }

  function PairTest(f: Frame, t1: string, t2: string): nat -> bool
    requires CompanyStore.HasKeys(f)
  {
    (i: nat) => i < f.height && Column(f, TickerColumn)[i] in {Text(t1), Text(t2)}
  }

  /** The rows of either ticker, newest first. */
  function BothSorted(f: Frame, t1: string, t2: string): (sorted: seq<nat>)
    requires CompanyStore.HasKeys(f)
    ensures forall k :: 0 <= k < |sorted| ==> sorted[k] < f.height
    ensures forall i :: 0 <= i < f.height && Column(f, TickerColumn)[i] in {Text(t1), Text(t2)} ==> i in sorted
    ensures NewestFirst(PeriodKeys(f), sorted)
  {
    var both := Where(f.height, PairTest(f, t1, t2));
    var sorted := SortNewestFirst(PeriodKeys(f), both);
    forall i | 0 <= i < f.height && Column(f, TickerColumn)[i] in {Text(t1), Text(t2)} ensures i in sorted {
      assert PairTest(f, t1, t2)(i);
      assert i in multiset(both);
    }
    sorted
  }

  /** The comparison sections: for each of the two tickers that has rows, its newest row. */
  function Comparison(f: Frame, t1: string, t2: string): seq<Section>
    requires CompanyStore.HasKeys(f)
  {
    SectionsFor(f, [t1, t2], BothSorted(f, t1, t2))
  }

  /** A section for each ticker of `tickers` that has a row in `sorted`, in order. */
  function SectionsFor(f: Frame, tickers: seq<string>, sorted: seq<nat>): seq<Section>
    requires CompanyStore.HasKeys(f) && forall k :: 0 <= k < |sorted| ==> sorted[k] < f.height
  {
    if tickers == [] then [] else SectionsFor(f, tickers[..|tickers| - 1], sorted) + SectionFor(f, tickers[|tickers| - 1], sorted)
  }

  function SectionFor(f: Frame, t: string, sorted: seq<nat>): (s: seq<Section>)
    requires CompanyStore.HasKeys(f) && forall k :: 0 <= k < |sorted| ==> sorted[k] < f.height
    ensures |s| <= 1
    ensures s == [] <==> forall k :: 0 <= k < |sorted| ==> !PandasEq(Column(f, TickerColumn)[sorted[k]], Text(t))
  {
    var mine := OfTicker(f, t, sorted);
    if mine == [] then [] else [Section(t, Metrics(f, mine[0]))]
  }

  /** `generate_comparison_prompt` as written: the summary is built, but the
      template it is formatted with is never imported, so every call fails. */
  function ComparisonAsWritten(f: Frame, t1: string, t2: string): (r: Result<seq<Section>, PromptError>)
    requires CompanyStore.HasKeys(f)
  {
    var _ := Comparison(f, t1, t2);
    Err(NameError("COMPARE_TEMPLATE"))
  }

  lemma ComparisonAlwaysFails(f: Frame, t1: string, t2: string)
    requires CompanyStore.HasKeys(f)
    ensures ComparisonAsWritten(f, t1, t2).Err?
  {
  }

  lemma SectionsForStep(f: Frame, tickers: seq<string>, k: nat, sorted: seq<nat>)
    requires CompanyStore.HasKeys(f) && forall j :: 0 <= j < |sorted| ==> sorted[j] < f.height
    requires k < |tickers|
    ensures SectionsFor(f, tickers[..k + 1], sorted) == SectionsFor(f, tickers[..k], sorted) + SectionFor(f, tickers[k], sorted)
  {
    assert tickers[..k + 1][..k] == tickers[..k];
  }

  /** The newest row of ticker `t` in `sorted`, read into a section, if it has one. */
  method ReadSection(f: Frame, t: string, sorted: seq<nat>) returns (section: seq<Section>)
    requires CompanyStore.HasKeys(f) && forall k :: 0 <= k < |sorted| ==> sorted[k] < f.height
    ensures section == SectionFor(f, t, sorted)
  {
    var latest := OfTicker(f, t, sorted);
    section := [];
    if latest != [] {
      var metrics := ReadMetrics(f, latest[0]);
      section := [Section(t, metrics)];
    }
  }

  /** The comparison with its template in scope: a section per ticker that has
      rows, in the order the tickers are given, each from that ticker's newest row. */
  method GenerateComparisonPrompt(t1: string, t2: string, f: Frame) returns (sections: seq<Section>)
    requires CompanyStore.HasKeys(f)
    ensures sections == Comparison(f, t1, t2)
  {
    var sorted := BothSorted(f, t1, t2);
    sections := [];
    var tickers := [t1, t2];
    var k := 0;
    while k < |tickers|
      invariant 0 <= k <= |tickers|
      invariant sections == SectionsFor(f, tickers[..k], sorted)
    {
      var t := tickers[k];
      SectionsForStep(f, tickers, k, sorted);
      var section := ReadSection(f, t, sorted);
      sections := sections + section;
      k := k + 1;
    }
    assert tickers[..2] == tickers;
  }

  /** A ticker with rows gets one section, built from a row of that ticker
      with no newer row of the ticker. */
  lemma SectionIsNewest(f: Frame, t: string, other: string, i: nat)
    requires CompanyStore.HasKeys(f) && i < f.height && PandasEq(Column(f, TickerColumn)[i], Text(t))
    ensures OfTicker(f, t, BothSorted(f, t, other)) != []
    ensures var r := OfTicker(f, t, BothSorted(f, t, other))[0];
      SectionFor(f, t, BothSorted(f, t, other)) == [Section(t, Metrics(f, r))] &&
      PandasEq(Column(f, TickerColumn)[r], Text(t)) && !Newer(PeriodKeys(f)[i], PeriodKeys(f)[r])
  {
    var keys := PeriodKeys(f);
    var sorted := BothSorted(f, t, other);
    assert i in sorted;
    var mine := OfTicker(f, t, sorted);
    assert i in mine;
    OfTickerFirst(f, t, sorted);
    var p :| 0 <= p < |sorted| && sorted[p] == mine[0] && NoneBefore(f, t, sorted, p);
    var q :| 0 <= q < |sorted| && sorted[q] == i;
    if q == p {
      NewerIrreflexive(keys[i]);
    }
  }
}
