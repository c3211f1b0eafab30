/** The fundamentals-to-ratios stage: checks the schema of the fundamentals
    table, keeps the two identifier columns and the thirteen ratio columns,
    turns every missing or infinite cell into the sentinel, and standardises
    each ratio column over its non-sentinel cells only. */
module RatioIngestion {
  import opened Frames
  import opened Stats

  const RatioColumns: seq<string> := [
    "current_ratio", "quick_ratio", "cash_ratio",
    "debt_equity", "debt_ratio",
    "net_margin", "gross_margin", "operating_margin",
    "roa", "roe", "interest_coverage",
    "asset_turnover", "inventory_turnover"
  ]

  const RequiredColumns: seq<string> := [TickerColumn, PeriodColumn] + RatioColumns

  /** Why the stage raises instead of returning a table. */
  datatype RatioError =
    | MissingColumns(names: seq<string>)  // the schema check
    | NoSamples                           // the scaler refuses a table without rows
    | NonNumeric                          // the scaler cannot convert a text cell to a float

  lemma RequiredColumnsDistinct()
    ensures |RequiredColumns| == 15 && |RatioColumns| == 13
    ensures Distinct(RequiredColumns) && Distinct(RatioColumns)
    ensures TickerColumn !in RatioColumns && PeriodColumn !in RatioColumns
  {
    assert Distinct(RatioColumns);
    assert TickerColumn !in RatioColumns && PeriodColumn !in RatioColumns;
    forall i, j | 0 <= i < j < |RequiredColumns| ensures RequiredColumns[i] != RequiredColumns[j] {
      if j >= 2 {
        assert RequiredColumns[j] == RatioColumns[j - 2];
        if i >= 2 {
          assert RequiredColumns[i] == RatioColumns[i - 2];
        }
      }
    }
  }

  /** `replace([inf, -inf], nan)` followed by `fillna(-9999)`. */
  function Clean(c: Cell): (d: Cell)
  {
    if c == NaN || c == PosInf || c == NegInf then Num(Sentinel) else c
  }

  function CleanColumn(col: seq<Cell>): (r: seq<Cell>)
    ensures |r| == |col| && forall i :: 0 <= i < |col| ==> r[i] == Clean(col[i])
  {
    seq(|col|, i requires 0 <= i < |col| => Clean(col[i]))
  }

  /** The cells the mask `numeric != -9999` keeps: the scaler is fitted on these
      and only these are replaced by their z-score. */
  predicate Unmasked(c: Cell) {
    c.Num? && c.x != Sentinel
  }

  /** Row positions of the unmasked cells of a column, in row order. */
  function ValidPositions(col: seq<Cell>): (p: seq<nat>)
    ensures StrictlyIncreasing(p)
    ensures forall k :: 0 <= k < |p| ==> p[k] < |col| && Unmasked(col[p[k]])
    ensures forall i :: 0 <= i < |col| && Unmasked(col[i]) ==> i in p
  {
    if col == [] then []
    else
      var q := ValidPositions(col[..|col| - 1]);
      if Unmasked(col[|col| - 1]) then q + [|col| - 1] else q
  }

  /** The values the scaler is fitted on for one column. */
  function ValidValues(col: seq<Cell>): (v: seq<real>)
    ensures |v| == |ValidPositions(col)|
  {
    var p := ValidPositions(col);
    seq(|p|, k requires 0 <= k < |p| => col[p[k]].x)
  }

  /** The fitted mean and scale of a column; none when every cell is masked
      (the scaler then sees an all-NaN column and produces no usable value). */
  function ColumnFit(col: seq<Cell>, root: Root): (f: Option<Fit>)
    ensures f.Some? <==> exists i :: 0 <= i < |col| && Unmasked(col[i])
    ensures f.Some? ==> f.value.scale > 0.0
  {
    var v := ValidValues(col);
    if v == [] then None else Some(FitOf(v, root))
  }

  /** `np.where(mask, scaled_values, -9999)` on one column. */
  function ScaledColumn(col: seq<Cell>, root: Root): (r: seq<Cell>)
    ensures |r| == |col|
    ensures forall i :: 0 <= i < |col| && !Unmasked(col[i]) ==> r[i] == Num(Sentinel)
    ensures forall i :: 0 <= i < |col| && Unmasked(col[i]) ==>
      r[i] == Num(ZScore(col[i].x, ColumnFit(col, root).value))
  {
    var f := ColumnFit(col, root);
    seq(|col|, i requires 0 <= i < |col| =>
      if Unmasked(col[i]) then Num(ZScore(col[i].x, f.value)) else Num(Sentinel))
  }

  predicate HasText(col: seq<Cell>) {
    exists i :: 0 <= i < |col| && col[i].Text?
  }

  /** The cleaned selection `df_ratios`, column by column in required order. */
  function CleanTable(df: Frame): (t: seq<seq<Cell>>)
    requires df.Valid() && Missing(RequiredColumns, df.names) == []
    ensures |t| == 15 && forall j :: 0 <= j < 15 ==> |t[j]| == df.height
  {
    seq(15, j requires 0 <= j < 15 => CleanColumn(Column(df, RequiredColumns[j])))
  }

  /** What `generate_ratios` returns for a table read from the fundamentals CSV. */
  function Ratios(df: Frame, root: Root): (r: Result<Frame, RatioError>)
    requires df.Valid()
  {
    var missing := Missing(RequiredColumns, df.names);
    if missing != [] then Err(MissingColumns(missing))
    else if df.height == 0 then Err(NoSamples)
    else
      var t := CleanTable(df);
      if exists j :: 2 <= j < 15 && HasText(t[j]) then Err(NonNumeric)
      else Ok(Assemble(t[0], t[1], ScaledRatios(t, root), df.height))
  }

  /** The thirteen ratio columns of the cleaned table, each standardised. */
  function ScaledRatios(t: seq<seq<Cell>>, root: Root): (r: seq<seq<Cell>>)
    requires |t| == 15
    ensures |r| == 13 && forall j :: 0 <= j < 13 ==> r[j] == ScaledColumn(t[j + 2], root)
  {
    seq(13, j requires 0 <= j < 13 => ScaledColumn(t[j + 2], root))
  }

  /** `pd.DataFrame(scaled, columns=...)`, then the period and the ticker each
      inserted at position 0. */
  function Assemble(ticker: seq<Cell>, period: seq<Cell>, ratios: seq<seq<Cell>>, n: nat): (f: Frame)
    requires |ticker| == n && |period| == n
    requires |ratios| == 13 && forall j :: 0 <= j < 13 ==> |ratios[j]| == n
    ensures f.Valid() && f.names == RequiredColumns && f.height == n
    ensures f.cols == [ticker, period] + ratios
  {
    RequiredColumnsDistinct();
    var scaled := Frame(RatioColumns, ratios, n);
    InsertFirst(InsertFirst(scaled, PeriodColumn, period), TickerColumn, ticker)
  }

  // ---------------------------------------------------------------- properties

  /** The schema check: the stage fails with the list of absent required
      columns exactly when one is absent, and that list names exactly them. */
  lemma MissingColumnsReported(df: Frame, root: Root)
    requires df.Valid()
    ensures (exists c :: c in RequiredColumns && c !in df.names) <==> Ratios(df, root).Err? && Ratios(df, root).error.MissingColumns?
    ensures Ratios(df, root).Err? && Ratios(df, root).error.MissingColumns? ==>
      forall c :: c in Ratios(df, root).error.names <==> c in RequiredColumns && c !in df.names
  {
    var m := Missing(RequiredColumns, df.names);
    if exists c :: c in RequiredColumns && c !in df.names {
      var c :| c in RequiredColumns && c !in df.names;
      assert c in m;
    }
  }

  /** The absent columns are reported in the order they are declared. */
  lemma MissingColumnsInOrder(df: Frame, root: Root)
    requires df.Valid()
    ensures Ratios(df, root).Err? && Ratios(df, root).error.MissingColumns? ==>
      var p := Where(|RequiredColumns|, Absent(RequiredColumns, df.names));
      |Ratios(df, root).error.names| == |p| &&
      forall k :: 0 <= k < |p| ==> Ratios(df, root).error.names[k] == RequiredColumns[p[k]]
  {
    MissingAtPositions(RequiredColumns, df.names);
  }

  /** A successful result has the two identifiers first, then the thirteen
      ratios in declared order, and exactly as many rows as the input. */
  lemma OutputShape(df: Frame, root: Root)
    requires df.Valid() && Ratios(df, root).Ok?
    ensures Ratios(df, root).value.Valid()
    ensures Ratios(df, root).value.names == RequiredColumns
    ensures Ratios(df, root).value.height == df.height
  {
  }

  /** Every column of a successful result, by position: the cleaned
      identifiers, then each ratio column cleaned and standardised. */
  lemma OutputColumns(df: Frame, root: Root, j: nat)
    requires df.Valid() && Ratios(df, root).Ok? && j < 15
    ensures RequiredColumns[j] in df.names
    ensures j < 2 ==> Ratios(df, root).value.cols[j] == CleanColumn(Column(df, RequiredColumns[j]))
    ensures j >= 2 ==> Ratios(df, root).value.cols[j] == ScaledColumn(CleanColumn(Column(df, RequiredColumns[j])), root)
  {
    assert RequiredColumns[j] in RequiredColumns;
    var t := CleanTable(df);
    OutputTable(df, root);
    assert t[j] == CleanColumn(Column(df, RequiredColumns[j]));
    if j >= 2 {
      assert ScaledRatios(t, root)[j - 2] == ScaledColumn(t[j], root);
    }
  }

  lemma OutputTable(df: Frame, root: Root)
    requires df.Valid() && Ratios(df, root).Ok?
    ensures Missing(RequiredColumns, df.names) == []
    ensures Ratios(df, root).value.cols == [CleanTable(df)[0], CleanTable(df)[1]] + ScaledRatios(CleanTable(df), root)
  {
  }

  /** Row alignment of the identifiers: row i of the output carries row i's
      ticker and period, only cleaned. */
  lemma IdentifiersAligned(df: Frame, root: Root, i: nat)
    requires df.Valid() && Ratios(df, root).Ok? && i < df.height
    ensures TickerColumn in df.names && PeriodColumn in df.names
    ensures Column(Ratios(df, root).value, TickerColumn)[i] == Clean(Column(df, TickerColumn)[i])
    ensures Column(Ratios(df, root).value, PeriodColumn)[i] == Clean(Column(df, PeriodColumn)[i])
  {
    var out := Ratios(df, root).value;
    OutputShape(df, root);
    OutputColumns(df, root, 0);
    OutputColumns(df, root, 1);
    IndexOfDistinct(out.names, 0);
    IndexOfDistinct(out.names, 1);
  }

  /** The cells that become the sentinel: NaN, both infinities and the
      sentinel itself, and nothing else. */
  lemma CleanToSentinel(c: Cell)
    ensures Clean(c) == Num(Sentinel) <==> c == NaN || c == PosInf || c == NegInf || c == Num(Sentinel)
    ensures Clean(c) != NaN && Clean(c) != PosInf && Clean(c) != NegInf
  {
  }

  /** Sentinel preservation: a ratio cell that was NaN, infinite or already
      -9999 is -9999 in the output. */
  lemma SentinelPreserved(df: Frame, root: Root, j: nat, i: nat)
    requires df.Valid() && Ratios(df, root).Ok? && 2 <= j < 15 && i < df.height
    requires RequiredColumns[j] in df.names
    requires Clean(Column(df, RequiredColumns[j])[i]) == Num(Sentinel)
    ensures Ratios(df, root).value.cols[j][i] == Num(Sentinel)
  {
    OutputColumns(df, root, j);
  }

  /** Every other ratio cell is its z-score under the mean and scale fitted on
      that column's non-sentinel cells. */
  lemma UnmaskedCellIsZScore(df: Frame, root: Root, j: nat, i: nat, x: real)
    requires df.Valid() && Ratios(df, root).Ok? && 2 <= j < 15 && i < df.height
    requires RequiredColumns[j] in df.names
    requires Column(df, RequiredColumns[j])[i] == Num(x) && x != Sentinel
    ensures ValidValues(CleanColumn(Column(df, RequiredColumns[j]))) != []
    ensures Ratios(df, root).value.cols[j][i] ==
      Num(ZScore(x, FitOf(ValidValues(CleanColumn(Column(df, RequiredColumns[j]))), root)))
  {
    OutputColumns(df, root, j);
    var col := CleanColumn(Column(df, RequiredColumns[j]));
    assert Unmasked(col[i]);
  }

  /** A ratio column without a single usable cell comes out entirely -9999. */
  lemma EmptyColumnAllSentinel(df: Frame, root: Root, j: nat)
    requires df.Valid() && Ratios(df, root).Ok? && 2 <= j < 15
    requires RequiredColumns[j] in df.names
    requires ValidValues(CleanColumn(Column(df, RequiredColumns[j]))) == []
    ensures Ratios(df, root).value.cols[j] == Repeat(Num(Sentinel), df.height)
  {
    OutputColumns(df, root, j);
    var col := CleanColumn(Column(df, RequiredColumns[j]));
    assert ValidPositions(col) == [];
  }

  /** The real values of a column of numbers. */
  function Values(cells: seq<Cell>): (v: seq<real>)
    requires forall i :: 0 <= i < |cells| ==> cells[i].Num?
    ensures |v| == |cells| && forall i :: 0 <= i < |cells| ==> v[i] == cells[i].x
  {
    seq(|cells|, i requires 0 <= i < |cells| => cells[i].x)
  }

  /** The standardised cells of a column, read back at the unmasked positions,
      are exactly the z-scores of the values the scaler was fitted on; so they
      have mean zero, and unit variance when the square root is exact. */
  lemma ScaledColumnStandardises(col: seq<Cell>, root: Root)
    requires ValidValues(col) != []
    ensures forall k :: 0 <= k < |ValidPositions(col)| ==> ValidPositions(col)[k] < |col|
    ensures Values(Pick(ScaledColumn(col, root), ValidPositions(col))) ==
      Standardised(ValidValues(col), FitOf(ValidValues(col), root))
    ensures Sum(Values(Pick(ScaledColumn(col, root), ValidPositions(col)))) == 0.0
    ensures Sq(root(Variance(ValidValues(col)))) == Variance(ValidValues(col)) > 0.0 ==>
      SumSq(Values(Pick(ScaledColumn(col, root), ValidPositions(col)))) == |ValidValues(col)| as real
  {
    var v := ValidValues(col);
    var p := ValidPositions(col);
    var out := Pick(ScaledColumn(col, root), p);
    assert Values(out) == Standardised(v, FitOf(v, root));
    ZScoresHaveZeroMean(v, root);
    if Sq(root(Variance(v))) == Variance(v) > 0.0 {
      ZScoresHaveUnitVariance(v, root);
    }
  }

  // ---------------------------------------------------------------- the stage

  /** The cells of column `j` of a row-by-column buffer, top to bottom. */
  function ColumnOf(t: array2<Cell>, j: nat): (c: seq<Cell>)
    reads t
    requires j < t.Length1
    ensures |c| == t.Length0 && forall i :: 0 <= i < t.Length0 ==> c[i] == t[i, j]
  {
    seq(t.Length0, i requires 0 <= i < t.Length0 reads t => t[i, j])
  }

  /** `replace` and `fillna` with `inplace=True` on the selected table. */
  method CleanInPlace(t: array2<Cell>)
    modifies t
    ensures forall i, j :: 0 <= i < t.Length0 && 0 <= j < t.Length1 ==> t[i, j] == Clean(old(t[i, j]))
  {
    var j := 0;
    while j < t.Length1
      invariant 0 <= j <= t.Length1
      invariant forall i, jj :: 0 <= i < t.Length0 && 0 <= jj < t.Length1 ==>
        t[i, jj] == if jj < j then Clean(old(t[i, jj])) else old(t[i, jj])
    {
      var i := 0;
      while i < t.Length0
        invariant 0 <= i <= t.Length0
        invariant forall ii, jj :: 0 <= ii < t.Length0 && 0 <= jj < t.Length1 ==>
          t[ii, jj] == if jj < j || (jj == j && ii < i) then Clean(old(t[ii, jj])) else old(t[ii, jj])
      {
        t[i, j] := Clean(t[i, j]);
        i := i + 1;
      }
      j := j + 1;
    }
  }

  /** Whether any cell from column `first` on holds text, which the scaler
      cannot convert. */
  method AnyText(t: array2<Cell>, first: nat) returns (found: bool)
    ensures found <==> exists i, j :: 0 <= i < t.Length0 && first <= j < t.Length1 && t[i, j].Text?
  {
    var j := first;
    while j < t.Length1
      invariant first <= j
      invariant forall i, jj :: 0 <= i < t.Length0 && first <= jj < j && jj < t.Length1 ==> !t[i, jj].Text?
      decreases t.Length1 - j
    {
      var i := 0;
      while i < t.Length0
        invariant 0 <= i <= t.Length0
        invariant forall ii :: 0 <= ii < i ==> !t[ii, j].Text?
      {
        if t[i, j].Text? {
          return true;
        }
        i := i + 1;
      }
      j := j + 1;
    }
    return false;
  }

  /** Whether a ratio column (the third column on) of the cleaned buffer holds text. */
  method RatioText(table: array2<Cell>) returns (text: bool)
    requires table.Length1 == 15
    ensures text <==> exists j :: 2 <= j < 15 && HasText(ColumnOf(table, j))
  {
    text := AnyText(table, 2);
    if text {
      ghost var i, j :| 0 <= i < table.Length0 && 2 <= j < 15 && table[i, j].Text?;
      assert ColumnOf(table, j)[i].Text?;
    }
  }

  /** One column of `scaled[:] = np.where(mask, scaled_values, -9999)`: the
      column is fitted on its unmasked cells, then overwritten in place. */
  method ScaleColumnInPlace(s: array2<Cell>, j: nat, root: Root)
    requires j < s.Length1
    modifies s
    ensures forall i :: 0 <= i < s.Length0 ==> s[i, j] == ScaledColumn(old(ColumnOf(s, j)), root)[i]
    ensures forall i, jj :: 0 <= i < s.Length0 && 0 <= jj < s.Length1 && jj != j ==> s[i, jj] == old(s[i, jj])
  {
    var col := ColumnOf(s, j);
    var fit := ColumnFit(col, root);
    ghost var target := ScaledColumn(col, root);
    var i := 0;
    while i < s.Length0
      invariant 0 <= i <= s.Length0
      invariant forall ii, jj :: 0 <= ii < s.Length0 && 0 <= jj < s.Length1 && jj != j ==> s[ii, jj] == old(s[ii, jj])
      invariant forall ii :: 0 <= ii < i ==> s[ii, j] == target[ii]
      invariant forall ii :: i <= ii < s.Length0 ==> s[ii, j] == col[ii]
    {
      var v := if Unmasked(s[i, j]) then Num(ZScore(s[i, j].x, fit.value)) else Num(Sentinel);
      assert v == target[i];
      Put(s, i, j, v);
      i := i + 1;
    }
  }

  /** One cell assignment `s[i, j] = v`. */
  method Put(s: array2<Cell>, i: nat, j: nat, v: Cell)
    requires i < s.Length0 && j < s.Length1
    modifies s
    ensures s[i, j] == v
    ensures forall ii, jj :: 0 <= ii < s.Length0 && 0 <= jj < s.Length1 && (ii != i || jj != j) ==> s[ii, jj] == old(s[ii, jj])
  {
    s[i, j] := v;
  }

  /** The whole masked scaling, column by column. */
  method ScaleInPlace(s: array2<Cell>, root: Root)
    modifies s
    ensures forall i, j :: 0 <= i < s.Length0 && 0 <= j < s.Length1 ==> s[i, j] == ScaledColumn(old(ColumnOf(s, j)), root)[i]
  {
    ghost var orig := seq(s.Length1, j requires 0 <= j < s.Length1 reads s => ColumnOf(s, j));
    var j := 0;
    while j < s.Length1
      invariant 0 <= j <= s.Length1
      invariant forall i, jj :: 0 <= i < s.Length0 && 0 <= jj < s.Length1 ==>
        s[i, jj] == if jj < j then ScaledColumn(orig[jj], root)[i] else orig[jj][i]
    {
      assert ColumnOf(s, j) == orig[j];
      ScaleColumnInPlace(s, j, root);
      j := j + 1;
    }
  }

  /** `df[required_columns].copy()` cleaned in place: a fresh buffer whose
      columns are the cleaned required columns. */
  method CleanedCopy(df: Frame) returns (table: array2<Cell>)
    requires df.Valid() && Missing(RequiredColumns, df.names) == []
    ensures fresh(table) && table.Length0 == df.height && table.Length1 == 15
    ensures forall j :: 0 <= j < 15 ==> ColumnOf(table, j) == CleanTable(df)[j]
  {
    var n := df.height;
    table := new Cell[n, 15]((i, j) requires 0 <= i < n && 0 <= j < 15 => Column(df, RequiredColumns[j])[i]);
    CleanInPlace(table);
  }

  /** `scaled = numeric.copy()` followed by the masked scaling: the thirteen
      ratio columns of the cleaned buffer, standardised. */
  method ScaledRatioColumns(table: array2<Cell>, root: Root) returns (cols: seq<seq<Cell>>)
    requires table.Length1 == 15
    ensures |cols| == 13
    ensures forall j :: 0 <= j < 13 ==> cols[j] == ScaledColumn(ColumnOf(table, j + 2), root)
  {
    var n := table.Length0;
    var scaled := new Cell[n, 13]((i, j) requires 0 <= i < n && 0 <= j < 13 reads table => table[i, j + 2]);
    assert forall j :: 0 <= j < 13 ==> ColumnOf(scaled, j) == ColumnOf(table, j + 2);
    ScaleInPlace(scaled, root);
    cols := seq(13, j requires 0 <= j < 13 reads scaled => ColumnOf(scaled, j));
  }

  /** `generate_ratios`: the schema check, the cleaned copy, the masked
      scaling, then the identifiers inserted in front. */
  method GenerateRatios(df: Frame, root: Root) returns (res: Result<Frame, RatioError>)
    requires df.Valid()
    ensures res == Ratios(df, root)
  {
    var missing := FindMissing(RequiredColumns, df.names);
    if missing != [] {
      return Err(MissingColumns(missing));
    }
    var n := df.height;
    if n == 0 {
      return Err(NoSamples);
    }
    ghost var t := CleanTable(df);
    var table := CleanedCopy(df);
    var text := RatioText(table);
    if text {
      return Err(NonNumeric);
    }
    var cols := ScaledRatioColumns(table, root);
    ghost var spec := ScaledRatios(t, root);
    assert cols == spec by {
      forall j | 0 <= j < 13 ensures cols[j] == spec[j] {
        assert ColumnOf(table, j + 2) == t[j + 2];
      }
    }
    assert ColumnOf(table, 0) == t[0] && ColumnOf(table, 1) == t[1];
    assert !exists j :: 2 <= j < 15 && HasText(t[j]) by {
      forall j | 2 <= j < 15 ensures !HasText(t[j]) {
        assert ColumnOf(table, j) == t[j];
      }
    }
    return Ok(Assemble(ColumnOf(table, 0), ColumnOf(table, 1), cols, n));
  }
}
