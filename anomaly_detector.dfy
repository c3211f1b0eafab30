/** Row-level anomaly labelling of the ratio table: rows holding the sentinel
    in a feature are flagged outright, the remaining complete rows are scored
    by an isolation forest, and every row ends with a 0/1 `anomaly` label. */
module AnomalyDetector {
  import opened Frames

  const AnomalyColumn: string := "anomaly"

  /** What `IsolationForest.fit_predict` says of one row: 1 or -1. */
  datatype Verdict = Inlier | Outlier

  /** The scaler followed by the forest, as one opaque model over the feature
      matrix of the scored rows: one verdict per row. */
  type Forest = f: seq<seq<real>> -> seq<Verdict> | forall m :: |f(m)| == |m|
    witness (m: seq<seq<real>>) => seq(|m|, _ => Inlier)

  datatype AnomalyError =
    | KeyError(names: seq<string>)  // `df[features]` names an absent column
    | NoFeatures                    // the scaler refuses a matrix without columns
    | NonNumeric                    // a scored feature cell is text
    | NonFinite                     // a scored feature cell is infinite

  /** `.map({1: 0, -1: 1})`. */
  function Label(v: Verdict): (c: Cell)
    ensures c == Num(0.0) || c == Num(1.0)
    ensures c == Num(1.0) <==> v == Outlier
  {
    match v
    case Inlier => Num(0.0)
    case Outlier => Num(1.0)
  }

  /** `(df[features] == -9999).any(axis=1)` at row `i`. */
  predicate Forced(df: Frame, features: seq<string>, i: nat)
    requires df.Valid() && (forall f :: f in features ==> f in df.names) && i < df.height
  {
    exists f :: f in features && Column(df, f)[i] == Num(Sentinel)
  }

  /** The labels after lines 10-11: 1 on forced rows, 0 elsewhere. */
  function ForcedLabels(df: Frame, features: seq<string>): (c: seq<Cell>)
    requires df.Valid() && forall f :: f in features ==> f in df.names
    ensures |c| == df.height
    ensures forall i :: 0 <= i < df.height ==> c[i] == if Forced(df, features, i) then Num(1.0) else Num(0.0)
  {
    seq(df.height, i requires 0 <= i < df.height => if Forced(df, features, i) then Num(1.0) else Num(0.0))
  }

  /** The copy with its `anomaly` column holding the forced labels. */
  function Stage1(df: Frame, features: seq<string>): (s: Frame)
    requires df.Valid() && forall f :: f in features ==> f in df.names
    ensures s.Valid() && s.height == df.height
    ensures forall f :: f in features ==> f in s.names
  {
    SetColumn(df, AnomalyColumn, ForcedLabels(df, features))
  }

  /** Every feature of row `i` of the labelled copy is present and not the
      sentinel, so `replace(-9999, nan)` then `dropna(subset=features)` keeps it. */
  predicate FeaturesPresent(s: Frame, features: seq<string>, i: nat)
    requires s.Valid() && (forall f :: f in features ==> f in s.names) && i < s.height
  {
    forall f :: f in features ==> Column(s, f)[i] != NaN && Column(s, f)[i] != Num(Sentinel)
  }

  /** A row of `valid_df`: not forced, and all its features present. */
  predicate Scorable(df: Frame, features: seq<string>, i: nat)
    requires df.Valid() && forall f :: f in features ==> f in df.names
  {
    i < df.height && !Forced(df, features, i) && FeaturesPresent(Stage1(df, features), features, i)
  }
  /** The index of `valid_df`, in row order. */
  function ScoredRows(df: Frame, features: seq<string>): (p: seq<nat>)
    requires df.Valid() && forall f :: f in features ==> f in df.names
    ensures StrictlyIncreasing(p)
    ensures forall k :: 0 <= k < |p| ==> p[k] < df.height && Scorable(df, features, p[k])
    ensures forall i: nat :: Scorable(df, features, i) ==> i in p
  {
    Where(df.height, ScorableTest(df, features))
  }

  function ScorableTest(df: Frame, features: seq<string>): nat -> bool
    requires df.Valid() && forall f :: f in features ==> f in df.names
  {
    (i: nat) => Scorable(df, features, i)
  }

  predicate IsText(c: Cell) {
    c.Text?
  }

  predicate IsInfinite(c: Cell) {
    c == PosInf || c == NegInf
  }

  /** Whether some scored feature cell satisfies `bad`. */
  predicate ScoredCell(s: Frame, features: seq<string>, rows: seq<nat>, bad: Cell -> bool)
    requires s.Valid() && (forall f :: f in features ==> f in s.names)
    requires forall k :: 0 <= k < |rows| ==> rows[k] < s.height
  {
    exists f, k :: f in features && 0 <= k < |rows| && bad(Column(s, f)[rows[k]])
  }

  /** `valid_df[features]` as a matrix of reals, one row per scored row. */
  function Matrix(s: Frame, features: seq<string>, rows: seq<nat>): (m: seq<seq<real>>)
    requires s.Valid() && (forall f :: f in features ==> f in s.names)
    requires forall k :: 0 <= k < |rows| ==> rows[k] < s.height && FeaturesPresent(s, features, rows[k])
    requires !ScoredCell(s, features, rows, IsText) && !ScoredCell(s, features, rows, IsInfinite)
    ensures |m| == |rows| && forall k :: 0 <= k < |rows| ==> |m[k]| == |features|
    ensures forall k, j :: 0 <= k < |rows| && 0 <= j < |features| ==> Num(m[k][j]) == Column(s, features[j])[rows[k]]
  {
    AllNumeric(s, features, rows);
    seq(|rows|, k requires 0 <= k < |rows| =>
      seq(|features|, j requires 0 <= j < |features| => Column(s, features[j])[rows[k]].x))
  }

  lemma AllNumeric(s: Frame, features: seq<string>, rows: seq<nat>)
    requires s.Valid() && (forall f :: f in features ==> f in s.names)
    requires forall k :: 0 <= k < |rows| ==> rows[k] < s.height && FeaturesPresent(s, features, rows[k])
    requires !ScoredCell(s, features, rows, IsText) && !ScoredCell(s, features, rows, IsInfinite)
    ensures forall k, j :: 0 <= k < |rows| && 0 <= j < |features| ==> features[j] in s.names && Column(s, features[j])[rows[k]].Num?
  {
    forall k, j | 0 <= k < |rows| && 0 <= j < |features|
      ensures features[j] in s.names && Column(s, features[j])[rows[k]].Num?
    {
      NumericCell(s, features, rows, k, j);
    }
  }

  lemma NumericCell(s: Frame, features: seq<string>, rows: seq<nat>, k: nat, j: nat)
    requires s.Valid() && (forall f :: f in features ==> f in s.names)
    requires forall k :: 0 <= k < |rows| ==> rows[k] < s.height && FeaturesPresent(s, features, rows[k])
    requires !ScoredCell(s, features, rows, IsText) && !ScoredCell(s, features, rows, IsInfinite)
    requires k < |rows| && j < |features|
    ensures features[j] in s.names && Column(s, features[j])[rows[k]].Num?
  {
    var f := features[j];
    assert f in features;
    assert !IsText(Column(s, f)[rows[k]]) && !IsInfinite(Column(s, f)[rows[k]]);
    assert FeaturesPresent(s, features, rows[k]);
  }

  /** The mapped model output, one label per scored row. */
  function Labels(verdicts: seq<Verdict>): (c: seq<Cell>)
    ensures |c| == |verdicts| && forall k :: 0 <= k < |verdicts| ==> c[k] == Label(verdicts[k])
  {
    seq(|verdicts|, k requires 0 <= k < |verdicts| => Label(verdicts[k]))
  }

  /** `df.loc[valid_df.index, "anomaly"] = labels`: the label of the k-th scored
      row goes to that row; every other row keeps its label. */
  function WriteBack(col: seq<Cell>, rows: seq<nat>, labels: seq<Cell>): (r: seq<Cell>)
    requires |labels| == |rows| && StrictlyIncreasing(rows)
    requires forall k :: 0 <= k < |rows| ==> rows[k] < |col|
    ensures |r| == |col|
    ensures forall i :: 0 <= i < |col| && i !in rows ==> r[i] == col[i]
    ensures forall k :: 0 <= k < |rows| ==> r[rows[k]] == labels[k]
  {
    if rows == [] then col
    else
      var n := |rows| - 1;
      WriteBack(col, rows[..n], labels[..n])[rows[n] := labels[n]]
  }

  /** The labelled copy agrees with the input outside the `anomaly` column. */
  lemma Stage1Column(df: Frame, features: seq<string>, f: string)
    requires df.Valid() && forall g :: g in features ==> g in df.names
    requires f in df.names || f == AnomalyColumn
    ensures f in Stage1(df, features).names
    ensures Column(Stage1(df, features), f) == if f == AnomalyColumn then ForcedLabels(df, features) else Column(df, f)
  {
  }

  /** Why scoring raises, if it does: only when some row is left to score. */
  function ScoringError(df: Frame, features: seq<string>): (e: Option<AnomalyError>)
    requires df.Valid() && forall f :: f in features ==> f in df.names
    ensures e.Some? ==> ScoredRows(df, features) != []
  {
    var s := Stage1(df, features);
    var rows := ScoredRows(df, features);
    if rows == [] then None
    else if features == [] then Some(NoFeatures)
    else if ScoredCell(s, features, rows, IsText) then Some(NonNumeric)
    else if ScoredCell(s, features, rows, IsInfinite) then Some(NonFinite)
    else None
  }

  /** The model's verdicts on the scored rows, in row order. */
  function Verdicts(df: Frame, features: seq<string>, forest: Forest): (v: seq<Verdict>)
    requires df.Valid() && (forall f :: f in features ==> f in df.names) && ScoringError(df, features).None?
    ensures |v| == |ScoredRows(df, features)|
  {
    forest(Matrix(Stage1(df, features), features, ScoredRows(df, features)))
  }

  /** The `anomaly` column at the end: the forced labels, overwritten on the
      scored rows by the mapped verdicts. */
  function FinalLabels(df: Frame, features: seq<string>, forest: Forest): (c: seq<Cell>)
    requires df.Valid() && (forall f :: f in features ==> f in df.names) && ScoringError(df, features).None?
    ensures |c| == df.height
  {
    var rows := ScoredRows(df, features);
    if rows == [] then ForcedLabels(df, features)
    else WriteBack(ForcedLabels(df, features), rows, Labels(Verdicts(df, features, forest)))
  }

  /** What `detect_anomalies` returns. */
  function Detect(df: Frame, features: seq<string>, forest: Forest): (r: Result<Frame, AnomalyError>)
    requires df.Valid()
  {
    var missing := Missing(features, df.names);
    if missing != [] then Err(KeyError(missing))
    else match ScoringError(df, features)
      case Some(e) => Err(e)
      case None => Ok(SetColumn(df, AnomalyColumn, FinalLabels(df, features, forest)))
  }

  // ---------------------------------------------------------------- properties

  /** Every label of a successful run is 0 or 1, and the rows and their order
      are those of the input. */
  lemma LabelsAreBinary(df: Frame, features: seq<string>, forest: Forest)
    requires df.Valid() && Detect(df, features, forest).Ok?
    ensures Detect(df, features, forest).value.Valid()
    ensures Detect(df, features, forest).value.height == df.height
    ensures AnomalyColumn in Detect(df, features, forest).value.names
    ensures forall i :: 0 <= i < df.height ==>
      Column(Detect(df, features, forest).value, AnomalyColumn)[i] in {Num(0.0), Num(1.0)}
  {
    var c := FinalLabels(df, features, forest);
    var rows := ScoredRows(df, features);
    forall i | 0 <= i < df.height ensures c[i] in {Num(0.0), Num(1.0)} {
      if i in rows {
        var k :| 0 <= k < |rows| && rows[k] == i;
        assert c[i] == Label(Verdicts(df, features, forest)[k]);
      }
    }
  }

  /** A row holding the sentinel in a feature is labelled 1 and never scored. */
  lemma SentinelRowsFlagged(df: Frame, features: seq<string>, forest: Forest, i: nat)
    requires df.Valid() && Detect(df, features, forest).Ok? && i < df.height
    requires forall f :: f in features ==> f in df.names
    requires Forced(df, features, i)
    ensures i !in ScoredRows(df, features)
    ensures Column(Detect(df, features, forest).value, AnomalyColumn)[i] == Num(1.0)
  {
  }

  /** A scored row takes the model's verdict, mapped 1 to 0 and -1 to 1. */
  lemma ScoredRowsTakeVerdict(df: Frame, features: seq<string>, forest: Forest, k: nat)
    requires df.Valid() && Detect(df, features, forest).Ok?
    requires forall f :: f in features ==> f in df.names
    requires k < |ScoredRows(df, features)|
    ensures features != []
    ensures ScoringError(df, features).None?
    ensures Column(Detect(df, features, forest).value, AnomalyColumn)[ScoredRows(df, features)[k]] ==
      Label(Verdicts(df, features, forest)[k])
  {
  }

  /** A row with a missing feature and no sentinel is dropped from the scored
      rows and keeps the default label 0. */
  lemma IncompleteRowsDefault(df: Frame, features: seq<string>, forest: Forest, i: nat, f: string)
    requires df.Valid() && Detect(df, features, forest).Ok? && i < df.height
    requires f in features && f != AnomalyColumn && Column(df, f)[i] == NaN
    requires forall g :: g in features ==> g in df.names
    requires !Forced(df, features, i)
    ensures i !in ScoredRows(df, features)
    ensures Column(Detect(df, features, forest).value, AnomalyColumn)[i] == Num(0.0)
  {
    Stage1Column(df, features, f);
    assert !FeaturesPresent(Stage1(df, features), features, i);
  }

  /** When no row is left to score, the model is never consulted and no error
      is raised: the labels are the forced ones. */
  lemma NothingToScore(df: Frame, features: seq<string>, forest: Forest)
    requires df.Valid() && forall f :: f in features ==> f in df.names
    requires ScoredRows(df, features) == []
    ensures Detect(df, features, forest) == Ok(Stage1(df, features))
    ensures forall i :: 0 <= i < df.height ==>
      Column(Detect(df, features, forest).value, AnomalyColumn)[i] == if Forced(df, features, i) then Num(1.0) else Num(0.0)
  {
  }

  /** Only the `anomaly` column is written: every other column of the input is
      unchanged, and the column is appended when the input lacked it. */
  lemma OtherColumnsUnchanged(df: Frame, features: seq<string>, forest: Forest)
    requires df.Valid() && Detect(df, features, forest).Ok?
    ensures AnomalyColumn in df.names ==> Detect(df, features, forest).value.names == df.names
    ensures AnomalyColumn !in df.names ==> Detect(df, features, forest).value.names == df.names + [AnomalyColumn]
    ensures forall n :: n in df.names && n != AnomalyColumn ==>
      n in Detect(df, features, forest).value.names && Column(Detect(df, features, forest).value, n) == Column(df, n)
  {
  }

  /** Two tables that agree on the feature columns get the same labels, or
      fail in the same way: no other column influences a label. */
  lemma LabelsDependOnlyOnFeatures(df1: Frame, df2: Frame, features: seq<string>, forest: Forest)
    requires df1.Valid() && df2.Valid() && df1.height == df2.height
    requires forall f :: f in features ==> f in df1.names && f in df2.names && Column(df1, f) == Column(df2, f)
    ensures Detect(df1, features, forest).Ok? <==> Detect(df2, features, forest).Ok?
    ensures Detect(df1, features, forest).Err? ==> Detect(df1, features, forest) == Detect(df2, features, forest)
    ensures Detect(df1, features, forest).Ok? ==>
      Column(Detect(df1, features, forest).value, AnomalyColumn) == Column(Detect(df2, features, forest).value, AnomalyColumn)
  {
    ScoringAgree(df1, df2, features);
    if ScoringError(df1, features).None? {
      FinalLabelsAgree(df1, df2, features, forest);
    }
  }

  lemma ScoringAgree(df1: Frame, df2: Frame, features: seq<string>)
    requires df1.Valid() && df2.Valid() && df1.height == df2.height
    requires forall f :: f in features ==> f in df1.names && f in df2.names && Column(df1, f) == Column(df2, f)
    ensures ForcedLabels(df1, features) == ForcedLabels(df2, features)
    ensures ScoredRows(df1, features) == ScoredRows(df2, features)
    ensures ScoringError(df1, features) == ScoringError(df2, features)
  {
    Stage1Agree(df1, df2, features);
    var s1, s2 := Stage1(df1, features), Stage1(df2, features);
    ScoredRowsAgree(df1, df2, features);
    var rows := ScoredRows(df1, features);
    if rows != [] && features != [] {
      assert ScoredCell(s1, features, rows, IsText) == ScoredCell(s2, features, rows, IsText);
      assert ScoredCell(s1, features, rows, IsInfinite) == ScoredCell(s2, features, rows, IsInfinite);
    }
  }

  lemma FinalLabelsAgree(df1: Frame, df2: Frame, features: seq<string>, forest: Forest)
    requires df1.Valid() && df2.Valid() && df1.height == df2.height
    requires forall f :: f in features ==> f in df1.names && f in df2.names && Column(df1, f) == Column(df2, f)
    requires ForcedLabels(df1, features) == ForcedLabels(df2, features)
    requires ScoredRows(df1, features) == ScoredRows(df2, features)
    requires ScoringError(df1, features).None? && ScoringError(df2, features).None?
    ensures FinalLabels(df1, features, forest) == FinalLabels(df2, features, forest)
  {
    Stage1Agree(df1, df2, features);
    var rows := ScoredRows(df1, features);
    MatrixAgree(Stage1(df1, features), Stage1(df2, features), features, rows);
    assert Verdicts(df1, features, forest) == Verdicts(df2, features, forest);
  }

  lemma MatrixAgree(s1: Frame, s2: Frame, features: seq<string>, rows: seq<nat>)
    requires s1.Valid() && s2.Valid() && s1.height == s2.height
    requires forall f :: f in features ==> f in s1.names && f in s2.names && Column(s1, f) == Column(s2, f)
    requires forall k :: 0 <= k < |rows| ==> rows[k] < s1.height && FeaturesPresent(s1, features, rows[k]) && FeaturesPresent(s2, features, rows[k])
    requires !ScoredCell(s1, features, rows, IsText) && !ScoredCell(s1, features, rows, IsInfinite)
    requires !ScoredCell(s2, features, rows, IsText) && !ScoredCell(s2, features, rows, IsInfinite)
    ensures Matrix(s1, features, rows) == Matrix(s2, features, rows)
  {
    var m1, m2 := Matrix(s1, features, rows), Matrix(s2, features, rows);
    forall k | 0 <= k < |rows| ensures m1[k] == m2[k] {
      forall j | 0 <= j < |features| ensures m1[k][j] == m2[k][j] {
        assert features[j] in features;
        assert Num(m1[k][j]) == Num(m2[k][j]);
      }
    }
  }

  lemma Stage1Agree(df1: Frame, df2: Frame, features: seq<string>)
    requires df1.Valid() && df2.Valid() && df1.height == df2.height
    requires forall f :: f in features ==> f in df1.names && f in df2.names && Column(df1, f) == Column(df2, f)
    ensures ForcedLabels(df1, features) == ForcedLabels(df2, features)
    ensures forall i :: 0 <= i < df1.height ==> Forced(df1, features, i) == Forced(df2, features, i)
    ensures forall f :: f in features ==> Column(Stage1(df1, features), f) == Column(Stage1(df2, features), f)
  {
    forall f | f in features ensures Column(Stage1(df1, features), f) == Column(Stage1(df2, features), f) {
      Stage1Column(df1, features, f);
      Stage1Column(df2, features, f);
    }
  }

  lemma ScoredRowsAgree(df1: Frame, df2: Frame, features: seq<string>)
    requires df1.Valid() && df2.Valid() && df1.height == df2.height
    requires forall f :: f in features ==> f in df1.names && f in df2.names
    requires forall i :: 0 <= i < df1.height ==> Forced(df1, features, i) == Forced(df2, features, i)
    requires forall f :: f in features ==> Column(Stage1(df1, features), f) == Column(Stage1(df2, features), f)
    ensures ScoredRows(df1, features) == ScoredRows(df2, features)
  {
    forall i: nat | i < df1.height ensures ScorableTest(df1, features)(i) == ScorableTest(df2, features)(i) {
      assert FeaturesPresent(Stage1(df1, features), features, i) == FeaturesPresent(Stage1(df2, features), features, i);
    }
    WhereAgree(df1.height, ScorableTest(df1, features), ScorableTest(df2, features));
  }

  // ---------------------------------------------------------------- the stage

  /** `(df[features] == -9999).any(axis=1)` for one row, feature by feature. */
  method RowHasSentinel(df: Frame, features: seq<string>, i: nat) returns (b: bool)
    requires df.Valid() && (forall f :: f in features ==> f in df.names) && i < df.height
    ensures b == Forced(df, features, i)
  {
    b := false;
    var j := 0;
    while j < |features|
      invariant 0 <= j <= |features|
      invariant b <==> exists q :: 0 <= q < j && Column(df, features[q])[i] == Num(Sentinel)
    {
      if Column(df, features[j])[i] == Num(Sentinel) {
        b := true;
      }
      j := j + 1;
    }
    if b {
      var q :| 0 <= q < |features| && Column(df, features[q])[i] == Num(Sentinel);
      assert features[q] in features;
    }
  }

  /** `df["anomaly"] = 0` then `df.loc[mask_invalid, "anomaly"] = 1`, on a
      fresh column buffer. */
  method ForcedColumn(df: Frame, features: seq<string>) returns (anomaly: array<Cell>)
    requires df.Valid() && forall f :: f in features ==> f in df.names
    ensures fresh(anomaly) && anomaly[..] == ForcedLabels(df, features)
  {
    var n := df.height;
    anomaly := new Cell[n](_ => Num(0.0));
    var i := 0;
    while i < n
      invariant 0 <= i <= n
      invariant forall q :: 0 <= q < n ==> anomaly[q] == if q < i then ForcedLabels(df, features)[q] else Num(0.0)
    {
      var forced := RowHasSentinel(df, features, i);
      if forced {
        anomaly[i] := Num(1.0);
      }
      i := i + 1;
    }
  }

  /** In the labelled copy, a row is scorable exactly when it is still
      labelled 0 and its features are present. */
  lemma Stage1Test(df: Frame, features: seq<string>)
    requires df.Valid() && forall f :: f in features ==> f in df.names
    ensures forall i: nat :: i < df.height ==> (ScorableTest(df, features)(i) <==>
      ForcedLabels(df, features)[i] == Num(0.0) && FeaturesPresent(Stage1(df, features), features, i))
  {
    forall i: nat | i < df.height
      ensures ScorableTest(df, features)(i) <==>
        ForcedLabels(df, features)[i] == Num(0.0) && FeaturesPresent(Stage1(df, features), features, i)
    {
      ScorableAt(df, features, i);
    }
  }

  lemma ScorableAt(df: Frame, features: seq<string>, i: nat)
    requires df.Valid() && (forall f :: f in features ==> f in df.names) && i < df.height
    ensures Scorable(df, features, i) ==
      (ForcedLabels(df, features)[i] == Num(0.0) && FeaturesPresent(Stage1(df, features), features, i))
  {
  }

  /** The index of `valid_df`: the rows of the labelled copy `s` still labelled
      0 (`labels` is its `anomaly` column) whose features are all present. */
  method ValidIndex(s: Frame, features: seq<string>, labels: seq<Cell>, ghost keep: nat -> bool) returns (rows: seq<nat>)
    requires s.Valid() && (forall f :: f in features ==> f in s.names) && |labels| == s.height
    requires forall i: nat :: i < s.height ==> (keep(i) <==> labels[i] == Num(0.0) && FeaturesPresent(s, features, i))
    ensures rows == Where(s.height, keep)
  {
    rows := [];
    var i: nat := 0;
    while i < s.height
      invariant i <= s.height
      invariant rows == Where(i, keep)
    {
      if labels[i] == Num(0.0) && FeaturesPresent(s, features, i) {
        rows := rows + [i];
      }
      i := i + 1;
    }
  }

  /** `df.loc[valid_df.index, "anomaly"] = valid_df["anomaly"]`, in place. */
  method WriteLabels(anomaly: array<Cell>, rows: seq<nat>, labels: seq<Cell>)
    requires |labels| == |rows| && StrictlyIncreasing(rows)
    requires forall k :: 0 <= k < |rows| ==> rows[k] < anomaly.Length
    modifies anomaly
    ensures anomaly[..] == WriteBack(old(anomaly[..]), rows, labels)
  {
    ghost var orig := anomaly[..];
    var k := 0;
    while k < |rows|
      invariant 0 <= k <= |rows|
      invariant anomaly[..] == WriteBack(orig, rows[..k], labels[..k])
    {
      ghost var before := anomaly[..];
      anomaly[rows[k]] := labels[k];
      assert anomaly[..] == before[rows[k] := labels[k]];
      WriteBackStep(orig, rows, labels, k);
      k := k + 1;
    }
    assert rows[..k] == rows && labels[..k] == labels;
  }

  lemma WriteBackStep(col: seq<Cell>, rows: seq<nat>, labels: seq<Cell>, k: nat)
    requires |labels| == |rows| && StrictlyIncreasing(rows) && k < |rows|
    requires forall q :: 0 <= q < |rows| ==> rows[q] < |col|
    ensures WriteBack(col, rows[..k + 1], labels[..k + 1]) == WriteBack(col, rows[..k], labels[..k])[rows[k] := labels[k]]
  {
    assert rows[..k + 1][..k] == rows[..k] && labels[..k + 1][..k] == labels[..k];
  }

  /** `detect_anomalies`: labels on a copy, forced labels first, then the
      model's verdicts written back onto the scored rows. */
  method DetectAnomalies(df: Frame, features: seq<string>, forest: Forest) returns (res: Result<Frame, AnomalyError>)
    requires df.Valid()
    ensures res == Detect(df, features, forest)
  {
    var missing := FindMissing(features, df.names);
    if missing != [] {
      return Err(KeyError(missing));
    }
    var anomaly := ForcedColumn(df, features);
    var s := SetColumn(df, AnomalyColumn, anomaly[..]);
    Stage1Test(df, features);
    var rows := ValidIndex(s, features, anomaly[..], ScorableTest(df, features));
    if rows == [] {
      return Ok(s);
    }
    if features == [] {
      return Err(NoFeatures);
    }
    if ScoredCell(s, features, rows, IsText) {
      return Err(NonNumeric);
    }
    if ScoredCell(s, features, rows, IsInfinite) {
      return Err(NonFinite);
    }
    var verdicts := forest(Matrix(s, features, rows));
    WriteLabels(anomaly, rows, Labels(verdicts));
    SetColumnTwice(df, AnomalyColumn, ForcedLabels(df, features), anomaly[..]);
    return Ok(SetColumn(s, AnomalyColumn, anomaly[..]));
  }
}
