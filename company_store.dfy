/** The per-company store: the ratio table and the anomaly table joined on
    (ticker, period), grouped by ticker, each company completed with its
    back-test results and its price history. The files it reads are inputs:
    a loader's result, `None` where the file does not exist. */
module CompanyStore {
  import opened Frames

  const Suffix: string := "_anomaly"

  /** One row as `to_dict(orient="records")` gives it: column name to value. */
  type Record = map<string, Cell>

  predicate HasKeys(f: Frame) {
    f.Valid() && TickerColumn in f.names && PeriodColumn in f.names
  }

  /** Row `i` of the ratios and row `j` of the anomalies carry the same
      ticker and period. Missing keys match each other, as they do in a merge. */
  predicate SameKeys(l: Frame, r: Frame, i: nat, j: nat)
    requires HasKeys(l) && HasKeys(r) && i < l.height && j < r.height
  {
    Column(l, TickerColumn)[i] == Column(r, TickerColumn)[j] &&
    Column(l, PeriodColumn)[i] == Column(r, PeriodColumn)[j]
  }

  /** The rows of `r` matching row `i` of `l`, in order. */
  function Matches(l: Frame, r: Frame, i: nat): (js: seq<nat>)
    requires HasKeys(l) && HasKeys(r) && i < l.height
    ensures forall k :: 0 <= k < |js| ==> js[k] < r.height && SameKeys(l, r, i, js[k])
    ensures forall j :: 0 <= j < r.height && SameKeys(l, r, i, j) ==> j in js
  {
    Where(r.height, MatchTest(l, r, i))
  }

  function MatchTest(l: Frame, r: Frame, i: nat): nat -> bool
    requires HasKeys(l) && HasKeys(r) && i < l.height
  {
    (j: nat) => j < r.height && SameKeys(l, r, i, j)
  }

  /** The (ratio row, anomaly row) pairs of the inner join over the first `n`
      ratio rows: ratio rows in order, and for each its matches in order. */
  function Pairs(l: Frame, r: Frame, n: nat): (ps: seq<(nat, nat)>)
    requires HasKeys(l) && HasKeys(r) && n <= l.height
    ensures forall k :: 0 <= k < |ps| ==> ps[k].0 < n && ps[k].1 < r.height && SameKeys(l, r, ps[k].0, ps[k].1)
  {
    if n == 0 then [] else Pairs(l, r, n - 1) + RowPairs(l, r, n - 1)
  }

  /** The pairs ratio row `i` contributes: one per matching anomaly row, in order. */
  function RowPairs(l: Frame, r: Frame, i: nat): (ps: seq<(nat, nat)>)
    requires HasKeys(l) && HasKeys(r) && i < l.height
    ensures forall k :: 0 <= k < |ps| ==> ps[k].0 == i && ps[k].1 < r.height && SameKeys(l, r, i, ps[k].1)
  {
    var js := Matches(l, r, i);
    seq(|js|, k requires 0 <= k < |js| => (i, js[k]))
  }

  /** Row `i` contributes exactly its matches. */
  lemma RowPairsAreMatches(l: Frame, r: Frame, i: nat, p: nat, j: nat)
    requires HasKeys(l) && HasKeys(r) && i < l.height
    ensures (p, j) in RowPairs(l, r, i) <==> p == i && j < r.height && SameKeys(l, r, i, j)
  {
    var js := Matches(l, r, i);
    if p == i && j < r.height && SameKeys(l, r, i, j) {
      var k :| 0 <= k < |js| && js[k] == j;
      assert RowPairs(l, r, i)[k] == (p, j);
    }
  }

  /** The inner join keeps exactly the pairs of rows whose keys agree. */
  lemma {:induction false} JoinKeepsMatches(l: Frame, r: Frame, n: nat, i: nat, j: nat)
    requires HasKeys(l) && HasKeys(r) && n <= l.height
    ensures (i, j) in Pairs(l, r, n) <==> i < n && j < r.height && SameKeys(l, r, i, j)
  {
    if n > 0 {
      JoinKeepsMatches(l, r, n - 1, i, j);
      RowPairsAreMatches(l, r, n - 1, i, j);
    }
  }

  /** The anomaly table's own columns as they appear in the join: a name the
      ratio table also has gets the suffix, the ratio columns keep theirs. */
  function RightNames(left: seq<string>, right: seq<string>): (names: seq<string>)
    ensures |names| <= |right|
  {
    if right == [] then []
    else
      var n := right[0];
      var rest := RightNames(left, right[1..]);
      if n == TickerColumn || n == PeriodColumn then rest
      else if n in left then [n + Suffix] + rest
      else [n] + rest
  }

  /** An anomaly column keeps its name unless the ratio table has it too, in
      which case it is renamed with the suffix; the key columns appear once. */
  lemma {:induction false} SuffixOnClash(left: seq<string>, right: seq<string>, n: string)
    requires n in right && n != TickerColumn && n != PeriodColumn
    ensures n in left ==> n + Suffix in RightNames(left, right)
    ensures n !in left ==> n in RightNames(left, right)
  {
    if right[0] != n {
      SuffixOnClash(left, right[1..], n);
    }
  }

  /** The positions in the anomaly table of the columns `RightNames` lists. */
  function RightColumns(right: seq<string>, from: nat): (cs: seq<nat>)
    ensures forall k :: 0 <= k < |cs| ==> from <= cs[k] < from + |right|
  {
    if right == [] then []
    else if right[0] == TickerColumn || right[0] == PeriodColumn then RightColumns(right[1..], from + 1)
    else [from] + RightColumns(right[1..], from + 1)
  }

  lemma {:induction false} RightColumnsMatch(left: seq<string>, right: seq<string>, from: nat)
    ensures |RightColumns(right, from)| == |RightNames(left, right)|
  {
    if right != [] {
      RightColumnsMatch(left, right[1..], from + 1);
    }
  }

  datatype MergeError = KeyMissing | DuplicateColumns

  /** `pd.merge(ratios, anomalies, on=[ticker, period], suffixes=('', '_anomaly'))`. */
  function Merge(l: Frame, r: Frame): (m: Result<Frame, MergeError>)
    requires l.Valid() && r.Valid()
    ensures m.Err? <==> (!HasKeys(l) || !HasKeys(r) || !Distinct(l.names + RightNames(l.names, r.names)))
    ensures m.Ok? ==> m.value.Valid() && m.value.names == l.names + RightNames(l.names, r.names)
    ensures m.Ok? ==> m.value.height == |Pairs(l, r, l.height)|
    ensures m.Ok? ==> forall c :: 0 <= c < |l.names| ==>
      forall k :: 0 <= k < m.value.height ==> m.value.cols[c][k] == l.cols[c][Pairs(l, r, l.height)[k].0]
  {
    if !HasKeys(l) || !HasKeys(r) then Err(KeyMissing)
    else
      var names := l.names + RightNames(l.names, r.names);
      if !Distinct(names) then Err(DuplicateColumns)
      else
        var ps := Pairs(l, r, l.height);
        var rc := RightColumns(r.names, 0);
        RightColumnsMatch(l.names, r.names, 0);
        var lefts := seq(|l.names|, c requires 0 <= c < |l.names| =>
          seq(|ps|, k requires 0 <= k < |ps| => l.cols[c][ps[k].0]));
        var rights := seq(|rc|, c requires 0 <= c < |rc| =>
          seq(|ps|, k requires 0 <= k < |ps| => r.cols[rc[c]][ps[k].1]));
        Ok(Frame(names, lefts + rights, |ps|))
  }

  // ---------------------------------------------------------------------
  // Grouping by ticker

  /** `unique()`: the distinct cells of a column, in order of first appearance. */
  function Unique(col: seq<Cell>): (u: seq<Cell>)
    ensures Distinct(u)
    ensures forall c :: c in u <==> c in col
  {
    if col == [] then []
    else
      var u := Unique(col[..|col| - 1]);
      var last := col[|col| - 1];
      assert col == col[..|col| - 1] + [last];
      if last in u then u else u + [last]
  }

  /** One row as a record. */
  function RecordAt(f: Frame, i: nat): (rec: Record)
    requires f.Valid() && i < f.height
    ensures rec.Keys == set n | n in f.names
    ensures forall n :: n in f.names ==> rec[n] == Column(f, n)[i]
  {
    map n | n in f.names :: Column(f, n)[i]
  }

  /** `to_dict(orient="records")`. */
  function Records(f: Frame): (recs: seq<Record>)
    requires f.Valid()
    ensures |recs| == f.height
  {
    seq(f.height, i requires 0 <= i < f.height => RecordAt(f, i))
  }

  /** The rows of the joined table whose ticker equals `t` under `==`
      (a missing ticker equals nothing), as records, in order. */
  function Financials(m: Frame, t: Cell): (recs: seq<Record>)
    requires HasKeys(m)
    ensures forall k :: 0 <= k < |recs| ==> TickerColumn in recs[k] && PandasEq(recs[k][TickerColumn], t)
    ensures t == NaN ==> recs == []
  {
    var rows := Where(m.height, TickerTest(m, t));
    assert rows != [] ==> TickerTest(m, t)(rows[0]);
    seq(|rows|, k requires 0 <= k < |rows| => RecordAt(m, rows[k]))
  }

  /** The financials are exactly the joined rows of the ticker, each once, in
      joined order. */
  lemma FinancialsAreTickerRows(m: Frame, t: Cell)
    requires HasKeys(m)
    ensures exists rows: seq<nat> ::
      StrictlyIncreasing(rows) && |rows| == |Financials(m, t)| &&
      (forall k :: 0 <= k < |rows| ==> rows[k] < m.height && Financials(m, t)[k] == RecordAt(m, rows[k])) &&
      (forall i :: 0 <= i < m.height ==> (i in rows <==> PandasEq(Column(m, TickerColumn)[i], t)))
  {
    var rows := Where(m.height, TickerTest(m, t));
    TickerRowsExact(m, t, rows);
    FinancialsAt(m, t, rows);
  }

  lemma TickerRowsExact(m: Frame, t: Cell, rows: seq<nat>)
    requires HasKeys(m) && rows == Where(m.height, TickerTest(m, t))
    ensures forall i :: 0 <= i < m.height ==> (i in rows <==> PandasEq(Column(m, TickerColumn)[i], t))
  {
    assert forall k :: 0 <= k < |rows| ==> TickerTest(m, t)(rows[k]);
    assert forall i :: 0 <= i < m.height && PandasEq(Column(m, TickerColumn)[i], t) ==> TickerTest(m, t)(i);
  }

  lemma FinancialsAt(m: Frame, t: Cell, rows: seq<nat>)
    requires HasKeys(m) && rows == Where(m.height, TickerTest(m, t))
    ensures |rows| == |Financials(m, t)|
    ensures forall k :: 0 <= k < |rows| ==> rows[k] < m.height && Financials(m, t)[k] == RecordAt(m, rows[k])
  {
  }

  function TickerTest(m: Frame, t: Cell): nat -> bool
    requires HasKeys(m)
  {
    (i: nat) => i < m.height && PandasEq(Column(m, TickerColumn)[i], t)
  }

  /** What the loaders found for one ticker: the results file (`None` if
      absent), the price history and the historical-features table (`None` if absent). */
  datatype Sources = Sources(taapi: Option<Json>, stock: Option<Frame>, historical: Option<Frame>)

  /** A company's record in the store. */
  datatype Company = Company(
    financials: seq<Record>, taapi: Json, stockData: seq<Record>, historicalFeatures: seq<Record>)

  /** `DataFrame.empty`: no rows or no columns. */
  predicate EmptyFrame(f: Frame) {
    f.height == 0 || f.names == []
  }

  /** A loaded table as records, nothing when the file is absent or the table empty. */
  function TableRecords(f: Option<Frame>): (recs: seq<Record>)
    requires f.Some? ==> f.value.Valid()
    ensures f == None || EmptyFrame(f.value) ==> recs == []
    ensures f.Some? && !EmptyFrame(f.value) ==> recs == Records(f.value)
  {
    match f
    case None => []
    case Some(t) => if EmptyFrame(t) then [] else Records(t)
  }

  predicate SourcesValid(s: Sources) {
    (s.stock.Some? ==> s.stock.value.Valid()) && (s.historical.Some? ==> s.historical.value.Valid())
  }

  /** The record of ticker `t`, with the historical features loaded for it. */
  function CompanyOf(m: Frame, t: Cell, s: Sources): (c: Company)
    requires HasKeys(m) && SourcesValid(s)
    ensures s.taapi == None ==> c.taapi == JObject(map[])
    ensures s.taapi.Some? ==> c.taapi == s.taapi.value
    ensures c.financials == Financials(m, t)
    ensures c.stockData == TableRecords(s.stock) && c.historicalFeatures == TableRecords(s.historical)
  {
    Company(Financials(m, t),
            if s.taapi.Some? then s.taapi.value else JObject(map[]),
            TableRecords(s.stock),
            TableRecords(s.historical))
  }

  datatype StoreError = MergeFailed(e: MergeError) | NameError(name: string)

  /** `build_company_data` as written: building the first company reads
      `hist_features`, a name that is never bound, so any non-empty join fails. */
  function BuildAsWritten(ratios: Frame, anomalies: Frame): (r: Result<map<Cell, Company>, StoreError>)
    requires ratios.Valid() && anomalies.Valid()
  {
    match Merge(ratios, anomalies)
    case Err(e) => Err(MergeFailed(e))
    case Ok(m) => if Unique(Column(m, TickerColumn)) == [] then Ok(map[]) else Err(NameError("hist_features"))
  }

  /** As written, the store can only be built from a join with no rows. */
  lemma AsWrittenFailsOnAnyCompany(ratios: Frame, anomalies: Frame)
    requires ratios.Valid() && anomalies.Valid() && Merge(ratios, anomalies).Ok?
    ensures BuildAsWritten(ratios, anomalies).Ok? <==> Merge(ratios, anomalies).value.height == 0
    ensures BuildAsWritten(ratios, anomalies).Ok? ==> BuildAsWritten(ratios, anomalies).value == map[]
  {
    var m := Merge(ratios, anomalies).value;
    var col := Column(m, TickerColumn);
    if m.height > 0 {
      assert col[0] in col;
    }
  }

  /** The store with the historical features loaded for each ticker, built
      by the loop over the distinct tickers of the join. */
  method BuildCompanyData(ratios: Frame, anomalies: Frame, load: Cell -> Sources)
    returns (r: Result<map<Cell, Company>, StoreError>)
    requires ratios.Valid() && anomalies.Valid()
    requires forall t :: SourcesValid(load(t))
    ensures Merge(ratios, anomalies).Err? <==> r.Err?
    ensures r.Err? ==> r.error == MergeFailed(Merge(ratios, anomalies).error)
    ensures r.Ok? ==> var m := Merge(ratios, anomalies).value;
      r.value.Keys == set i | 0 <= i < m.height :: Column(m, TickerColumn)[i]
    ensures r.Ok? ==> var m := Merge(ratios, anomalies).value;
      forall t :: t in r.value ==> r.value[t] == CompanyOf(m, t, load(t))
  {
    var merged := Merge(ratios, anomalies);
    if merged.Err? {
      return Err(MergeFailed(merged.error));
    }
    var m := merged.value;
    var companies := CollectCompanies(m, Unique(Column(m, TickerColumn)), load);
    UniqueCells(Column(m, TickerColumn));
    return Ok(companies);
  }

  /** The loop over the tickers: one company per ticker, keyed by it. */
  method CollectCompanies(m: Frame, tickers: seq<Cell>, load: Cell -> Sources)
    returns (companies: map<Cell, Company>)
    requires HasKeys(m) && forall t :: SourcesValid(load(t))
    ensures companies.Keys == set t | t in tickers
    ensures forall t :: t in companies ==> companies[t] == CompanyOf(m, t, load(t))
  {
    companies := map[];
    var k := 0;
    while k < |tickers|
      invariant 0 <= k <= |tickers|
      invariant companies.Keys == set t | t in tickers[..k]
      invariant forall t :: t in companies ==> companies[t] == CompanyOf(m, t, load(t))
    {
      var t := tickers[k];
      companies := companies[t := CompanyOf(m, t, load(t))];
      assert tickers[..k + 1] == tickers[..k] + [t];
      k := k + 1;
    }
    assert tickers[..k] == tickers;
  }

  /** The distinct cells of a column are the cells found at its rows. */
  lemma UniqueCells(col: seq<Cell>)
    ensures (set t | t in Unique(col)) == set i | 0 <= i < |col| :: col[i]
  {
    forall t | t in Unique(col) ensures exists i :: 0 <= i < |col| && col[i] == t {
      assert t in col;
    }
  }
}
