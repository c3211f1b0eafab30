/** The older ratio stage: the same fifteen columns, but incomplete rows are
    dropped instead of filled, every surviving ratio value is standardised,
    and the identifiers are appended after the ratios. */
module LegacyRatios {
  import opened Frames
  import opened Stats
  import opened RatioIngestion

  datatype LegacyError =
    | KeyError(names: seq<string>)  // `df[ratio_cols]` names an absent column
    | EmptyAfterDropna              // every row had a missing value
    | TextValue                     // a surviving ratio cell is text
    | InfiniteValue                 // a surviving ratio cell is infinite

  /** `dropna()` keeps a row when none of the fifteen selected cells is NaN
      (infinite values are not missing to pandas). */
  predicate Complete(df: Frame, i: nat)
    requires df.Valid() && Missing(RequiredColumns, df.names) == []
  {
    i < df.height && forall j :: 0 <= j < 15 ==> Column(df, RequiredColumns[j])[i] != NaN
  }

  function CompleteRows(df: Frame): (p: seq<nat>)
    requires df.Valid() && Missing(RequiredColumns, df.names) == []
    ensures forall k :: 0 <= k < |p| ==> p[k] < df.height
  {
    Where(df.height, (i: nat) => Complete(df, i))
  }

  /** The selected columns restricted to the complete rows. */
  function Survivors(df: Frame): (t: seq<seq<Cell>>)
    requires df.Valid() && Missing(RequiredColumns, df.names) == []
    ensures |t| == 15 && forall j :: 0 <= j < 15 ==> |t[j]| == |CompleteRows(df)|
  {
    var keep := CompleteRows(df);
    seq(15, j requires 0 <= j < 15 => Pick(Column(df, RequiredColumns[j]), keep))
  }

  predicate AnyCell(t: seq<seq<Cell>>, bad: Cell -> bool)
    requires |t| == 15
  {
    exists j, k :: 2 <= j < 15 && 0 <= k < |t[j]| && bad(t[j][k])
  }

  /** `fit_transform` on one all-numeric column. */
  function StandardisedColumn(col: seq<Cell>, root: Root): (r: seq<Cell>)
    requires |col| > 0 && forall k :: 0 <= k < |col| ==> col[k].Num?
    ensures |r| == |col|
  {
    var zs := Standardised(Values(col), FitOf(Values(col), root));
    seq(|col|, k requires 0 <= k < |col| => Num(zs[k]))
  }

  /** Whether a ratio cell among the survivors is numeric: neither NaN (the
      row would have been dropped), nor text, nor infinite. */
  predicate AllFinite(t: seq<seq<Cell>>)
    requires |t| == 15
  {
    forall j, k :: 2 <= j < 15 && 0 <= k < |t[j]| ==> t[j][k].Num?
  }

  /** What the older `generate_ratios` returns. */
  function Legacy(df: Frame, root: Root): (r: Result<Frame, LegacyError>)
    requires df.Valid()
    ensures r.Ok? ==> r.value.Valid() && r.value.height > 0 && |r.value.cols| == 15
  {
    var missing := Missing(RequiredColumns, df.names);
    if missing != [] then Err(KeyError(missing))
    else
      var t := Survivors(df);
      var m := |CompleteRows(df)|;
      if m == 0 then Err(EmptyAfterDropna)
      else if AnyCell(t, (c: Cell) => c.Text?) then Err(TextValue)
      else if AnyCell(t, (c: Cell) => c == PosInf || c == NegInf) then Err(InfiniteValue)
      else
        SurvivorsNumeric(df);
        Ok(AssembleLegacy(ScaledSurvivors(t, root), t[0], t[1], m))
  }

  /** Survivors hold no NaN; once text and infinities are ruled out, every
      ratio cell among them is a finite number. */
  lemma SurvivorsNumeric(df: Frame)
    requires df.Valid() && Missing(RequiredColumns, df.names) == []
    requires !AnyCell(Survivors(df), (c: Cell) => c.Text?)
    requires !AnyCell(Survivors(df), (c: Cell) => c == PosInf || c == NegInf)
    ensures AllFinite(Survivors(df))
  {
    var t: seq<seq<Cell>> := Survivors(df);
    var keep := CompleteRows(df);
    forall j, k | 2 <= j < 15 && 0 <= k < |t[j]| ensures t[j][k].Num? {
      assert t[j][k] == Column(df, RequiredColumns[j])[keep[k]];
      assert Complete(df, keep[k]);
      assert t[j][k] != NaN;
      assert !(t[j][k].Text?);
    }
  }

  /** The thirteen surviving ratio columns, each standardised. */
  function ScaledSurvivors(t: seq<seq<Cell>>, root: Root): (r: seq<seq<Cell>>)
    requires |t| == 15 && AllFinite(t) && |t[2]| > 0
    requires forall j :: 0 <= j < 15 ==> |t[j]| == |t[2]|
    ensures |r| == 13 && forall j :: 0 <= j < 13 ==> r[j] == StandardisedColumn(t[j + 2], root)
  {
    seq(13, j requires 0 <= j < 13 => StandardisedColumn(t[j + 2], root))
  }

  /** `pd.DataFrame(scaled_features, columns=ratio_cols[2:])`, then the two
      identifier columns assigned by position after the ratios. */
  function AssembleLegacy(ratios: seq<seq<Cell>>, ticker: seq<Cell>, period: seq<Cell>, m: nat): (f: Frame)
    requires |ratios| == 13 && forall j :: 0 <= j < 13 ==> |ratios[j]| == m
    requires |ticker| == m && |period| == m
    ensures f.Valid() && f.height == m
    ensures f.names == RatioColumns + [TickerColumn, PeriodColumn]
    ensures f.cols == ratios + [ticker, period]
  {
    LegacyNamesDistinct();
    Frame(RatioColumns + [TickerColumn, PeriodColumn], ratios + [ticker, period], m)
  }

  lemma LegacyNamesDistinct()
    ensures Distinct(RatioColumns + [TickerColumn, PeriodColumn])
  {
    RequiredColumnsDistinct();
    var names := RatioColumns + [TickerColumn, PeriodColumn];
    forall a, b | 0 <= a < b < |names| ensures names[a] != names[b] {
      if b >= 13 {
        assert names[b] in [TickerColumn, PeriodColumn];
        if a < 13 {
          assert names[a] in RatioColumns;
        }
      }
    }
  }

  /** A successful result, unfolded once. */
  lemma LegacyValue(df: Frame, root: Root)
    requires df.Valid() && Legacy(df, root).Ok?
    ensures Missing(RequiredColumns, df.names) == [] && |CompleteRows(df)| > 0
    ensures AllFinite(Survivors(df))
    ensures Legacy(df, root).value ==
      AssembleLegacy(ScaledSurvivors(Survivors(df), root), Survivors(df)[0], Survivors(df)[1], |CompleteRows(df)|)
  {
    SurvivorsNumeric(df);
  }

  // ---------------------------------------------------------------- properties

  lemma LegacyMissingColumns(df: Frame, root: Root)
    requires df.Valid()
    ensures (exists c :: c in RequiredColumns && c !in df.names) <==> Legacy(df, root).Err? && Legacy(df, root).error.KeyError?
    ensures Legacy(df, root).Err? && Legacy(df, root).error.KeyError? ==>
      forall c :: c in Legacy(df, root).error.names <==> c in RequiredColumns && c !in df.names
  {
  }

  /** Exactly the complete rows survive, in their original order, and the
      output has one row per survivor. */
  lemma SurvivingRows(df: Frame, root: Root)
    requires df.Valid() && Legacy(df, root).Ok?
    ensures Missing(RequiredColumns, df.names) == []
    ensures Legacy(df, root).value.height == |CompleteRows(df)| > 0
    ensures StrictlyIncreasing(CompleteRows(df))
    ensures forall i :: i in CompleteRows(df) <==> Complete(df, i)
  {
  }

  /** The thirteen ratios first, then the ticker and the period. */
  lemma LegacyColumnOrder(df: Frame, root: Root)
    requires df.Valid() && Legacy(df, root).Ok?
    ensures Legacy(df, root).value.names == RatioColumns + [TickerColumn, PeriodColumn]
  {
    LegacyValue(df, root);
  }

  /** Row k of the output carries the identifiers of the k-th surviving input row. */
  lemma LegacyIdentifiers(df: Frame, root: Root, k: nat)
    requires df.Valid() && Legacy(df, root).Ok? && k < Legacy(df, root).value.height
    ensures Missing(RequiredColumns, df.names) == [] && k < |CompleteRows(df)|
    ensures Legacy(df, root).value.cols[13][k] == Column(df, TickerColumn)[CompleteRows(df)[k]]
    ensures Legacy(df, root).value.cols[14][k] == Column(df, PeriodColumn)[CompleteRows(df)[k]]
  {
    LegacyValue(df, root);
    assert RequiredColumns[0] == TickerColumn && RequiredColumns[1] == PeriodColumn;
  }

  /** Every surviving ratio value, the sentinel included, is standardised over
      all survivors of its column. */
  lemma LegacyZScores(df: Frame, root: Root, j: nat, k: nat)
    requires df.Valid() && Legacy(df, root).Ok? && 2 <= j < 15 && k < Legacy(df, root).value.height
    ensures Missing(RequiredColumns, df.names) == [] && k < |CompleteRows(df)|
    ensures forall q :: 0 <= q < |Survivors(df)[j]| ==> Survivors(df)[j][q].Num?
    ensures Legacy(df, root).value.cols[j - 2][k] ==
      Num(ZScore(Survivors(df)[j][k].x, FitOf(Values(Survivors(df)[j]), root)))
  {
    LegacyValue(df, root);
  }

  /** Each output ratio column has mean zero over the surviving rows. */
  lemma LegacyColumnsCentred(df: Frame, root: Root, j: nat)
    requires df.Valid() && Legacy(df, root).Ok? && j < 13
    ensures forall k :: 0 <= k < |Legacy(df, root).value.cols[j]| ==> Legacy(df, root).value.cols[j][k].Num?
    ensures Sum(Values(Legacy(df, root).value.cols[j])) == 0.0
  {
    LegacyValue(df, root);
    var col := Survivors(df)[j + 2];
    var out := Legacy(df, root).value.cols[j];
    assert Values(out) == Standardised(Values(col), FitOf(Values(col), root));
    ZScoresHaveZeroMean(Values(col), root);
  }
}
