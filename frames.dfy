/** Tables as the pipeline holds them (pandas DataFrames read from CSV or JSON),
    and the small value types shared by every stage. */
module Frames {

  datatype Option<+T> = None | Some(value: T)

  datatype Result<+T, +E> = Ok(value: T) | Err(error: E)

  /** One cell of a table: a float (finite, NaN or infinite) or a piece of text. */
  datatype Cell = Num(x: real) | NaN | PosInf | NegInf | Text(s: string)

  /** A parsed JSON document (an API response, a results file). */
  datatype Json =
    | JNull
    | JBool(b: bool)
    | JNumber(n: real)
    | JString(str: string)
    | JArray(items: seq<Json>)
    | JObject(fields: map<string, Json>)

  /** The identifier columns of the financial tables. */
  const TickerColumn: string := "Ticker.Symbol"
  const PeriodColumn: string := "Period.Ending"

  /** The out-of-range marker that stands for a missing or invalid ratio. */
  const Sentinel: real := -9999.0

  predicate IsSentinel(c: Cell) {
    c == Num(Sentinel)
  }

  /** pandas' notnull: only NaN is null among float and text cells. */
  predicate NotNull(c: Cell) {
    c != NaN
  }

  /** Element-wise `==` of pandas: NaN equals nothing, not even NaN. */
  predicate PandasEq(a: Cell, b: Cell) {
    a == b && a != NaN
  }

  predicate Distinct<T(==)>(s: seq<T>) {
    forall i, j :: 0 <= i < j < |s| ==> s[i] != s[j]
  }

  /** A table held column by column: `cols[j]` is the column named `names[j]`.
      The height is kept apart so that a table without columns still has rows. */
  datatype Frame = Frame(names: seq<string>, cols: seq<seq<Cell>>, height: nat) {
    predicate Valid() {
      |names| == |cols| && Distinct(names) &&
      forall j :: 0 <= j < |cols| ==> |cols[j]| == height
    }
  }

  function IndexOf<T(==)>(s: seq<T>, x: T): (k: nat)
    requires x in s
    ensures k < |s| && s[k] == x && x !in s[..k]
  {
    if s[0] == x then 0 else 1 + IndexOf(s[1..], x)
  }

  /** The row positions below `n` that satisfy `keep`, in increasing order. */
  function Where(n: nat, keep: nat -> bool): (p: seq<nat>)
    ensures StrictlyIncreasing(p)
    ensures forall k :: 0 <= k < |p| ==> p[k] < n && keep(p[k])
    ensures forall i :: 0 <= i < n && keep(i) ==> i in p
  {
    if n == 0 then []
    else if keep(n - 1) then Where(n - 1, keep) + [n - 1]
    else Where(n - 1, keep)
  }

  /** Two tests that agree below `n` select the same rows. */
  lemma {:induction false} WhereAgree(n: nat, keep1: nat -> bool, keep2: nat -> bool)
    requires forall i: nat :: i < n ==> keep1(i) == keep2(i)
    ensures Where(n, keep1) == Where(n, keep2)
  {
    if n > 0 {
      WhereAgree(n - 1, keep1, keep2);
    }
  }

  /** The column named `name`, as `df[name]` selects it. */
  function Column(f: Frame, name: string): (c: seq<Cell>)
    requires f.Valid() && name in f.names
    ensures |c| == f.height
  {
    f.cols[IndexOf(f.names, name)]
  }

  /** The names of `required` that `present` lacks, in the order of `required`. */
  function Missing(required: seq<string>, present: seq<string>): (m: seq<string>)
    ensures forall c :: c in m <==> c in required && c !in present
    ensures m == [] <==> forall c :: c in required ==> c in present
    ensures |m| <= |required|
  {
    if required == [] then []
    else if required[0] in present then Missing(required[1..], present)
    else [required[0]] + Missing(required[1..], present)
  }

  /** The positions of `required` whose name `present` lacks. */
  function Absent(required: seq<string>, present: seq<string>): nat -> bool {
    (i: nat) => i < |required| && required[i] !in present
  }

  /** The missing names are the names of `required` at its absent positions,
      taken in increasing position order. */
  lemma MissingAtPositions(required: seq<string>, present: seq<string>)
    ensures var p := Where(|required|, Absent(required, present));
      |Missing(required, present)| == |p| &&
      forall k :: 0 <= k < |p| ==> Missing(required, present)[k] == required[p[k]]
  {
    MissingPrefix(required, present, |required|);
    assert required[..|required|] == required;
  }

  /** `m` lists the names of `s` at the positions `p`, one for one. */
  predicate Picks(m: seq<string>, p: seq<nat>, s: seq<string>) {
    |m| == |p| && forall k :: 0 <= k < |p| ==> p[k] < |s| && m[k] == s[p[k]]
  }

  lemma PicksAppend(m: seq<string>, p: seq<nat>, s: seq<string>, j: nat)
    requires Picks(m, p, s) && j < |s|
    ensures Picks(m + [s[j]], p + [j], s)
  {
  }

  lemma {:induction false} MissingPrefix(required: seq<string>, present: seq<string>, n: nat)
    requires n <= |required|
    ensures Picks(Missing(required[..n], present), Where(n, Absent(required, present)), required)
  {
    if n > 0 {
      var x := required[n - 1];
      assert required[..n] == required[..n - 1] + [x];
      var keep := Absent(required, present);
      var m' := Missing(required[..n - 1], present);
      var p' := Where(n - 1, keep);
      MissingPrefix(required, present, n - 1);
      if keep(n - 1) {
        PicksAppend(m', p', required, n - 1);
      }
      MissingKeepsOrder(required[..n - 1], [x], present);
      MissingOne(x, present);
      assert Missing(required[..n], present) == if keep(n - 1) then m' + [x] else m';
      assert Where(n, keep) == if keep(n - 1) then p' + [n - 1] else p';
    }
  }

  /** Listing the missing names keeps the declared order: the missing names of a
      concatenation are those of the first part followed by those of the second. */
  lemma {:induction false} MissingKeepsOrder(r1: seq<string>, r2: seq<string>, present: seq<string>)
    ensures Missing(r1 + r2, present) == Missing(r1, present) + Missing(r2, present)
  {
    if r1 != [] {
      assert (r1 + r2)[1..] == r1[1..] + r2;
      MissingKeepsOrder(r1[1..], r2, present);
    } else {
      assert r1 + r2 == r2;
    }
  }

  lemma MissingOne(x: string, present: seq<string>)
    ensures Missing([x], present) == if x in present then [] else [x]
  {
    assert [x][1..] == [];
  }

  /** The names of `required` absent from `present`, collected in order. */
  method FindMissing(required: seq<string>, present: seq<string>) returns (missing: seq<string>)
    ensures missing == Missing(required, present)
  {
    missing := [];
    var k := 0;
    while k < |required|
      invariant 0 <= k <= |required|
      invariant missing == Missing(required[..k], present)
    {
      assert required[..k + 1] == required[..k] + [required[k]];
      MissingKeepsOrder(required[..k], [required[k]], present);
      MissingOne(required[k], present);
      if required[k] !in present {
        missing := missing + [required[k]];
      }
      k := k + 1;
    }
    assert required[..k] == required;
  }

  /** The cells of `col` at the row positions `idx`, in that order. */
  function Pick(col: seq<Cell>, idx: seq<nat>): (r: seq<Cell>)
    requires forall k :: 0 <= k < |idx| ==> idx[k] < |col|
    ensures |r| == |idx|
    ensures forall k :: 0 <= k < |idx| ==> r[k] == col[idx[k]]
  {
    seq(|idx|, k requires 0 <= k < |idx| => col[idx[k]])
  }

  predicate StrictlyIncreasing(idx: seq<nat>) {
    forall a, b :: 0 <= a < b < |idx| ==> idx[a] < idx[b]
  }

  /** A column of one cell repeated `n` times. */
  function Repeat(c: Cell, n: nat): (r: seq<Cell>)
    ensures |r| == n && forall i :: 0 <= i < n ==> r[i] == c
  {
    seq(n, _ => c)
  }

  /** `df[name] = col`: replaces the column in place when the name exists,
      appends it as the last column otherwise. */
  function SetColumn(f: Frame, name: string, col: seq<Cell>): (g: Frame)
    requires f.Valid() && |col| == f.height
    ensures g.Valid() && g.height == f.height
    ensures name in g.names && Column(g, name) == col
    ensures name in f.names ==> g.names == f.names
    ensures name !in f.names ==> g.names == f.names + [name]
    ensures forall n :: n in f.names && n != name ==> n in g.names && Column(g, n) == Column(f, n)
  {
    if name in f.names then
      var k := IndexOf(f.names, name);
      ReplacedColumn(f, k, col);
      Frame(f.names, f.cols[k := col], f.height)
    else
      AppendedColumn(f, name, col);
      Frame(f.names + [name], f.cols + [col], f.height)
  }

  lemma ReplacedColumn(f: Frame, k: nat, col: seq<Cell>)
    requires f.Valid() && |col| == f.height && k < |f.names|
    ensures Frame(f.names, f.cols[k := col], f.height).Valid()
    ensures Column(Frame(f.names, f.cols[k := col], f.height), f.names[k]) == col
    ensures forall n :: n in f.names && n != f.names[k] ==>
      Column(Frame(f.names, f.cols[k := col], f.height), n) == Column(f, n)
  {
    var g := Frame(f.names, f.cols[k := col], f.height);
    assert IndexOf(f.names, f.names[k]) == k by { IndexOfDistinct(f.names, k); }
  }

  lemma AppendedColumn(f: Frame, name: string, col: seq<Cell>)
    requires f.Valid() && |col| == f.height && name !in f.names
    ensures Frame(f.names + [name], f.cols + [col], f.height).Valid()
    ensures Column(Frame(f.names + [name], f.cols + [col], f.height), name) == col
    ensures forall n :: n in f.names ==> Column(Frame(f.names + [name], f.cols + [col], f.height), n) == Column(f, n)
  {
    var g := Frame(f.names + [name], f.cols + [col], f.height);
    forall n | n in f.names ensures IndexOf(g.names, n) == IndexOf(f.names, n) {
      IndexOfPrefix(f.names, [name], n);
    }
    IndexOfLast(f.names, name);
  }

  /** Assigning a column twice keeps only the second assignment. */
  lemma SetColumnTwice(f: Frame, name: string, c1: seq<Cell>, c2: seq<Cell>)
    requires f.Valid() && |c1| == f.height && |c2| == f.height
    ensures SetColumn(SetColumn(f, name, c1), name, c2) == SetColumn(f, name, c2)
  {
    if name !in f.names {
      var g := SetColumn(f, name, c1);
      IndexOfLast(f.names, name);
      assert (f.cols + [c1])[|f.cols| := c2] == f.cols + [c2];
    }
  }

  lemma {:induction false} IndexOfPrefix<T>(s: seq<T>, t: seq<T>, x: T)
    requires x in s
    ensures IndexOf(s + t, x) == IndexOf(s, x)
  {
    if s[0] != x {
      assert (s + t)[1..] == s[1..] + t;
      IndexOfPrefix(s[1..], t, x);
    }
  }

  lemma {:induction false} IndexOfLast<T>(s: seq<T>, x: T)
    requires x !in s
    ensures IndexOf(s + [x], x) == |s|
  {
    if s != [] {
      assert (s + [x])[1..] == s[1..] + [x];
      IndexOfLast(s[1..], x);
    }
  }

  /** In a list of distinct names, the position found for the `j`-th name is `j`. */
  lemma {:induction false} IndexOfDistinct<T>(s: seq<T>, j: nat)
    requires Distinct(s) && j < |s|
    ensures IndexOf(s, s[j]) == j
  {
    if j > 0 {
      assert s[1..][j - 1] == s[j];
      IndexOfDistinct(s[1..], j - 1);
    }
  }

  /** `df.insert(0, name, col)`: the new column becomes the first one. */
  function InsertFirst(f: Frame, name: string, col: seq<Cell>): (g: Frame)
    requires f.Valid() && |col| == f.height && name !in f.names
    ensures g.Valid() && g.names == [name] + f.names && g.cols == [col] + f.cols && g.height == f.height
  {
    Frame([name] + f.names, [col] + f.cols, f.height)
  }
}
