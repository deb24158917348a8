/**
 * The data frames the merge tool reads with `pd.read_csv` and the pandas operations it
 * applies to them: `pd.concat` along rows and along columns, `drop_duplicates`,
 * `fillna`, `df.empty`, `df.values` and `to_csv(sep='\t')`. Cells are strings; the only
 * other cell value is the NaN that pandas puts where an aligned frame has no value.
 */
module Frames {
  import opened Text

  datatype Cell = Val(s: string) | NaN

  type Row = seq<Cell>

  /** Column labels and rows; a frame read without an index column. */
  datatype Table = Table(columns: seq<string>, rows: seq<Row>)

  /** A frame read with `index_col=0`: the first column's header, its values as row labels, and the rest. */
  datatype Indexed = Indexed(indexName: string, labels: seq<string>, body: Table)

  predicate Rectangular(t: Table)
  {
    forall i :: 0 <= i < |t.rows| ==> |t.rows[i]| == |t.columns|
  }

  /** A frame as `pd.read_csv` builds it: distinct column labels and one cell per column in every row. */
  predicate WellFormed(t: Table)
  {
    NoDups(t.columns) && Rectangular(t)
  }

  predicate WellIndexed(x: Indexed)
  {
    WellFormed(x.body) && |x.labels| == |x.body.rows|
  }

  /** The column labels of a frame, as a set: what a lookup by label can find. */
  function ColumnSet(t: Table): (r: set<string>)
    ensures forall c :: c in r <==> c in t.columns
  {
    set c | c in t.columns
  }

  /** `df.empty`: the frame has no rows or no columns. */
  predicate IsEmpty(t: Table)
  {
    |t.rows| == 0 || |t.columns| == 0
  }

  /** The first position of `x` in `xs`. */
  function IndexOf(xs: seq<string>, x: string): (i: nat)
    requires x in xs
    ensures i < |xs| && xs[i] == x && x !in xs[..i]
  {
    if xs[0] == x then 0
    else
      var j := IndexOf(xs[1..], x);
      assert xs[..j + 1] == [xs[0]] + xs[1..][..j];
      j + 1
  }

  lemma IndexOfDistinct(xs: seq<string>, k: nat)
    requires NoDups(xs) && k < |xs|
    ensures IndexOf(xs, xs[k]) == k
  {
  }

  // ---------------------------------------------------------------- union of labels

  /** `acc` followed by the members of `xs` that it lacks, in order of first appearance. */
  function AppendNew(acc: seq<string>, xs: seq<string>): (r: seq<string>)
    ensures |acc| <= |r| && r[..|acc|] == acc
    ensures NoDups(acc) ==> NoDups(r)
    ensures forall x :: x in r <==> x in acc || x in xs
    decreases |xs|
  {
    if |xs| == 0 then acc
    else AppendNew(if xs[0] in acc then acc else acc + [xs[0]], xs[1..])
  }

  lemma {:induction false} AppendNewPresent(acc: seq<string>, xs: seq<string>)
    requires forall x :: x in xs ==> x in acc
    ensures AppendNew(acc, xs) == acc
    decreases |xs|
  {
    if |xs| > 0 {
      assert xs[0] in xs;
      AppendNewPresent(acc, xs[1..]);
    }
  }

  lemma {:induction false} AppendNewFromEmpty(xs: seq<string>)
    requires NoDups(xs)
    ensures AppendNew([], xs) == xs
  {
    AppendNewAfterPrefix(xs, 0);
  }

  lemma {:induction false} AppendNewAfterPrefix(xs: seq<string>, n: nat)
    requires NoDups(xs) && n <= |xs|
    ensures AppendNew(xs[..n], xs[n..]) == xs
    decreases |xs| - n
  {
    if n == |xs| {
      assert xs[..n] == xs;
    } else {
      assert xs[n..][0] == xs[n];
      assert xs[n..][1..] == xs[n + 1..];
      assert xs[n] !in xs[..n];
      assert xs[..n] + [xs[n]] == xs[..n + 1];
      AppendNewAfterPrefix(xs, n + 1);
    }
  }

  /** The column labels of `pd.concat(ts, sort=False)`: every frame's labels, once each, in order of first appearance. */
  function UnionColumns(ts: seq<Table>): (r: seq<string>)
    ensures NoDups(r)
    ensures forall c :: c in r <==> exists j :: 0 <= j < |ts| && c in ts[j].columns
    decreases |ts|
  {
    if |ts| == 0 then []
    else
      var init := UnionColumns(ts[..|ts| - 1]);
      assert forall j :: 0 <= j < |ts| - 1 ==> ts[..|ts| - 1][j] == ts[j];
      AppendNew(init, ts[|ts| - 1].columns)
  }

  /** Frames that all have the columns `cols` concatenate to a frame with exactly those columns. */
  lemma {:induction false} UnionSameColumns(ts: seq<Table>, cols: seq<string>)
    requires |ts| > 0 && NoDups(cols)
    requires forall j :: 0 <= j < |ts| ==> ts[j].columns == cols
    ensures UnionColumns(ts) == cols
    decreases |ts|
  {
    if |ts| == 1 {
      AppendNewFromEmpty(cols);
    } else {
      UnionSameColumns(ts[..|ts| - 1], cols);
      AppendNewPresent(cols, cols);
    }
  }

  // ---------------------------------------------------------------- concatenation along rows

  /** A row of a frame with `columns`, realigned to `target`: NaN under every label the frame lacks. */
  function Align(columns: seq<string>, row: Row, target: seq<string>): Row
    requires |row| == |columns|
  {
    seq(|target|, k requires 0 <= k < |target| =>
      if target[k] in columns then row[IndexOf(columns, target[k])] else NaN)
  }

  lemma AlignToOwnColumns(columns: seq<string>, row: Row)
    requires |row| == |columns| && NoDups(columns)
    ensures Align(columns, row, columns) == row
  {
    forall k | 0 <= k < |columns|
      ensures Align(columns, row, columns)[k] == row[k]
    {
      IndexOfDistinct(columns, k);
    }
  }

  function AlignRows(t: Table, target: seq<string>): seq<Row>
    requires Rectangular(t)
  {
    seq(|t.rows|, i requires 0 <= i < |t.rows| => Align(t.columns, t.rows[i], target))
  }

  function TotalRows(ts: seq<Table>): nat
    decreases |ts|
  {
    if |ts| == 0 then 0 else |ts[0].rows| + TotalRows(ts[1..])
  }

  /** The rows of every frame, in order, each realigned to `target`. */
  function StackRows(ts: seq<Table>, target: seq<string>): (r: seq<Row>)
    requires forall j :: 0 <= j < |ts| ==> Rectangular(ts[j])
    ensures |r| == TotalRows(ts)
    ensures forall i :: 0 <= i < |r| ==> |r[i]| == |target|
    decreases |ts|
  {
    if |ts| == 0 then []
    else AlignRows(ts[0], target) + StackRows(ts[1..], target)
  }

  lemma AllRectangular(ts: seq<Table>)
    requires forall j :: 0 <= j < |ts| ==> WellFormed(ts[j])
    ensures forall j :: 0 <= j < |ts| ==> Rectangular(ts[j])
  {
    forall j | 0 <= j < |ts|
      ensures Rectangular(ts[j])
    {
      assert WellFormed(ts[j]);
    }
  }

  /** `pd.concat(ts, sort=False)` of frames without index columns. */
  function Concat(ts: seq<Table>): (r: Table)
    requires forall j :: 0 <= j < |ts| ==> WellFormed(ts[j])
    ensures WellFormed(r)
    ensures |r.rows| == TotalRows(ts)
  {
    AllRectangular(ts);
    var cols := UnionColumns(ts);
    Table(cols, StackRows(ts, cols))
  }

  /** The stack has no rows exactly when no frame has any. */
  lemma {:induction false} TotalRowsZero(ts: seq<Table>)
    ensures TotalRows(ts) == 0 <==> forall j :: 0 <= j < |ts| ==> |ts[j].rows| == 0
    decreases |ts|
  {
    if |ts| > 0 {
      TotalRowsZero(ts[1..]);
      assert forall j :: 0 < j < |ts| ==> ts[1..][j - 1] == ts[j];
    }
  }

  /** The stack is empty, as pandas judges a frame, exactly when every frame lacks rows or every frame lacks columns. */
  lemma ConcatEmpty(ts: seq<Table>)
    requires forall j :: 0 <= j < |ts| ==> WellFormed(ts[j])
    ensures IsEmpty(Concat(ts)) <==>
              (forall j :: 0 <= j < |ts| ==> |ts[j].rows| == 0) || (forall j :: 0 <= j < |ts| ==> |ts[j].columns| == 0)
  {
    TotalRowsZero(ts);
    var cols := Concat(ts).columns;
    if exists j :: 0 <= j < |ts| && |ts[j].columns| > 0 {
      var j :| 0 <= j < |ts| && |ts[j].columns| > 0;
      assert ts[j].columns[0] in cols;
    }
    if |cols| > 0 {
      assert cols[0] in cols;
    }
  }

  /** How many rows the frames before the `j`-th contribute. */
  function RowsBefore(ts: seq<Table>, j: nat): nat
    requires j <= |ts|
  {
    TotalRows(ts[..j])
  }

  lemma {:induction false} TotalRowsSplit(ts: seq<Table>, j: nat)
    requires j < |ts|
    ensures TotalRows(ts) == TotalRows(ts[..j]) + |ts[j].rows| + TotalRows(ts[j + 1..])
    decreases j
  {
    if j > 0 {
      TotalRowsSplit(ts[1..], j - 1);
      TailSlices(ts, j);
    }
  }

  /** Row `i` of the `j`-th frame is row `RowsBefore(ts, j) + i` of the stack, realigned and otherwise unchanged. */
  lemma {:induction false} StackRowsAt(ts: seq<Table>, target: seq<string>, j: nat, i: nat)
    requires forall m :: 0 <= m < |ts| ==> Rectangular(ts[m])
    requires j < |ts| && i < |ts[j].rows|
    ensures RowsBefore(ts, j) + i < |StackRows(ts, target)|
    ensures StackRows(ts, target)[RowsBefore(ts, j) + i] == Align(ts[j].columns, ts[j].rows[i], target)
    decreases j
  {
    TotalRowsSplit(ts, j);
    var first := AlignRows(ts[0], target);
    var rest := StackRows(ts[1..], target);
    assert StackRows(ts, target) == first + rest;
    if j > 0 {
      StackRowsAt(ts[1..], target, j - 1, i);
      RowsBeforeTail(ts, j);
      assert ts[1..][j - 1] == ts[j];
      var n := RowsBefore(ts[1..], j - 1) + i;
      assert (first + rest)[|first| + n] == rest[n];
    } else {
      assert ts[..0] == [];
      assert (first + rest)[i] == first[i];
    }
  }

  lemma RowsBeforeTail(ts: seq<Table>, j: nat)
    requires 0 < j <= |ts|
    ensures RowsBefore(ts, j) == |ts[0].rows| + RowsBefore(ts[1..], j - 1)
  {
    TailSlices(ts, j);
    assert ts[..j][0] == ts[0];
  }

  /** The rows of every frame, in order, with nothing realigned. */
  function AllRows(ts: seq<Table>): seq<Row>
    decreases |ts|
  {
    if |ts| == 0 then [] else ts[0].rows + AllRows(ts[1..])
  }

  /** Concatenating frames that share their columns keeps those columns and appends the rows, in input order, none removed. */
  lemma {:induction false} ConcatSameColumns(ts: seq<Table>, cols: seq<string>)
    requires |ts| > 0 && NoDups(cols)
    requires forall j :: 0 <= j < |ts| ==> ts[j].columns == cols && WellFormed(ts[j])
    ensures Concat(ts) == Table(cols, AllRows(ts))
  {
    UnionSameColumns(ts, cols);
    StackSameColumns(ts, cols);
  }

  lemma {:induction false} StackSameColumns(ts: seq<Table>, cols: seq<string>)
    requires NoDups(cols)
    requires forall j :: 0 <= j < |ts| ==> ts[j].columns == cols && Rectangular(ts[j])
    ensures StackRows(ts, cols) == AllRows(ts)
    decreases |ts|
  {
    if |ts| > 0 {
      StackSameColumns(ts[1..], cols);
      forall i | 0 <= i < |ts[0].rows|
        ensures AlignRows(ts[0], cols)[i] == ts[0].rows[i]
      {
        AlignToOwnColumns(cols, ts[0].rows[i]);
      }
    }
  }

  // ---------------------------------------------------------------- concatenation of indexed frames

  function Bodies(xs: seq<Indexed>): (r: seq<Table>)
    ensures |r| == |xs| && forall j :: 0 <= j < |xs| ==> r[j] == xs[j].body
  {
    seq(|xs|, j requires 0 <= j < |xs| => xs[j].body)
  }

  function AllLabels(xs: seq<Indexed>): seq<string>
    decreases |xs|
  {
    if |xs| == 0 then [] else xs[0].labels + AllLabels(xs[1..])
  }

  lemma {:induction false} AllLabelsCount(xs: seq<Indexed>)
    requires forall j :: 0 <= j < |xs| ==> WellIndexed(xs[j])
    ensures |AllLabels(xs)| == TotalRows(Bodies(xs))
    decreases |xs|
  {
    if |xs| > 0 {
      AllLabelsCount(xs[1..]);
      assert Bodies(xs)[1..] == Bodies(xs[1..]);
    }
  }

  /** Label `i` of the `j`-th frame is label `RowsBefore + i` of the concatenation, beside its row. */
  lemma {:induction false} AllLabelsAt(xs: seq<Indexed>, j: nat, i: nat)
    requires forall m :: 0 <= m < |xs| ==> WellIndexed(xs[m])
    requires j < |xs| && i < |xs[j].labels|
    ensures RowsBefore(Bodies(xs), j) + i < |AllLabels(xs)|
    ensures AllLabels(xs)[RowsBefore(Bodies(xs), j) + i] == xs[j].labels[i]
    decreases j
  {
    AllLabelsCount(xs);
    TotalRowsSplit(Bodies(xs), j);
    var first := xs[0].labels;
    var rest := AllLabels(xs[1..]);
    if j > 0 {
      AllLabelsAt(xs[1..], j - 1, i);
      RowsBeforeTail(Bodies(xs), j);
      assert Bodies(xs)[1..] == Bodies(xs[1..]);
      var n := RowsBefore(Bodies(xs[1..]), j - 1) + i;
      assert (first + rest)[|first| + n] == rest[n];
    } else {
      assert Bodies(xs)[..0] == [];
      assert (first + rest)[i] == first[i];
    }
  }

  /** The index name pandas gives a concatenation: the frames' common index name, or none (written as ""). */
  function CommonName(xs: seq<Indexed>): string
  {
    if |xs| > 0 && forall j :: 0 <= j < |xs| ==> xs[j].indexName == xs[0].indexName then xs[0].indexName
    else ""
  }

  /** The message `pd.concat` raises ValueError with when there is nothing to concatenate. */
  const NO_OBJECTS := "No objects to concatenate"

  /** `pd.concat(xs, sort=False)` of frames read with an index column: labels appended, bodies concatenated. */
  function ConcatIndexed(xs: seq<Indexed>): (r: Indexed)
    requires forall j :: 0 <= j < |xs| ==> WellIndexed(xs[j])
    ensures WellIndexed(r)
    ensures |r.labels| == TotalRows(Bodies(xs))
  {
    AllLabelsCount(xs);
    Indexed(CommonName(xs), AllLabels(xs), Concat(Bodies(xs)))
  }

  // ---------------------------------------------------------------- the non-empty frames

  /** The frames that are not `df.empty`, in input order. */
  function NonEmptyFrames(xs: seq<Indexed>): (r: seq<Indexed>)
    ensures |r| <= |xs|
    ensures forall j :: 0 <= j < |r| ==> !IsEmpty(r[j].body) && r[j] in xs
    decreases |xs|
  {
    if |xs| == 0 then []
    else
      var n := |xs| - 1;
      var init := NonEmptyFrames(xs[..n]);
      assert forall j :: 0 <= j < |init| ==> init[j] in xs;
      init + (if IsEmpty(xs[n].body) then [] else [xs[n]])
  }

  lemma NonEmptyStep(xs: seq<Indexed>, n: nat)
    requires n < |xs|
    ensures NonEmptyFrames(xs[..n + 1]) == NonEmptyFrames(xs[..n]) + (if IsEmpty(xs[n].body) then [] else [xs[n]])
  {
    assert xs[..n + 1][..n] == xs[..n];
  }

  /** The kept frames are frames of the input, so they are well formed when the input is. */
  lemma NonEmptyWellIndexed(xs: seq<Indexed>)
    requires forall j :: 0 <= j < |xs| ==> WellIndexed(xs[j])
    ensures forall j :: 0 <= j < |NonEmptyFrames(xs)| ==> WellIndexed(NonEmptyFrames(xs)[j])
  {
    var ys := NonEmptyFrames(xs);
    forall j | 0 <= j < |ys|
      ensures WellIndexed(ys[j])
    {
      var i :| 0 <= i < |xs| && xs[i] == ys[j];
    }
  }

  /** The loop the mergers share: each frame read is appended to a list unless it is `df.empty`. */
  method KeepNonEmpty(xs: seq<Indexed>) returns (dfs: seq<Indexed>)
    ensures dfs == NonEmptyFrames(xs)
  {
    dfs := [];
    for i := 0 to |xs|
      invariant dfs == NonEmptyFrames(xs[..i])
    {
      NonEmptyStep(xs, i);
      if !IsEmpty(xs[i].body) {
        dfs := dfs + [xs[i]];
      }
    }
    assert xs[..|xs|] == xs;
  }

  /** Every non-empty input is kept. */
  lemma {:induction false} NonEmptyKeeps(xs: seq<Indexed>, j: nat)
    requires j < |xs| && !IsEmpty(xs[j].body)
    ensures xs[j] in NonEmptyFrames(xs)
    decreases |xs|
  {
    var n := |xs| - 1;
    if j < n {
      NonEmptyKeeps(xs[..n], j);
    }
  }

  /** No frame is kept exactly when every input is empty. */
  lemma NonEmptyNone(xs: seq<Indexed>)
    ensures NonEmptyFrames(xs) == [] <==> forall j :: 0 <= j < |xs| ==> IsEmpty(xs[j].body)
  {
    if exists j :: 0 <= j < |xs| && !IsEmpty(xs[j].body) {
      var j :| 0 <= j < |xs| && !IsEmpty(xs[j].body);
      NonEmptyKeeps(xs, j);
    }
  }

  /** Filtering keeps the input order: the kept frames of `a + b` are those of `a`, then those of `b`. */
  lemma {:induction false} NonEmptyAppend(a: seq<Indexed>, b: seq<Indexed>)
    ensures NonEmptyFrames(a + b) == NonEmptyFrames(a) + NonEmptyFrames(b)
    decreases |b|
  {
    if |b| == 0 {
      assert a + b == a;
    } else {
      var n := |b| - 1;
      assert (a + b)[..|a| + n] == a + b[..n];
      assert (a + b)[|a| + n] == b[n];
      NonEmptyAppend(a, b[..n]);
      ConcatAssoc(NonEmptyFrames(a), NonEmptyFrames(b[..n]), if IsEmpty(b[n].body) then [] else [b[n]]);
    }
  }

  /** When no input is empty every frame is kept. */
  lemma {:induction false} NonEmptyAll(xs: seq<Indexed>)
    requires forall j :: 0 <= j < |xs| ==> !IsEmpty(xs[j].body)
    ensures NonEmptyFrames(xs) == xs
    decreases |xs|
  {
    if |xs| > 0 {
      var n := |xs| - 1;
      NonEmptyAll(xs[..n]);
      assert xs[..n] + [xs[n]] == xs;
    }
  }

  // ---------------------------------------------------------------- concatenation along columns

  function UnionLabels(xs: seq<Indexed>): (r: seq<string>)
    ensures NoDups(r)
    ensures forall g :: g in r <==> exists j :: 0 <= j < |xs| && g in xs[j].labels
    decreases |xs|
  {
    if |xs| == 0 then []
    else
      var init := UnionLabels(xs[..|xs| - 1]);
      assert forall j :: 0 <= j < |xs| - 1 ==> xs[..|xs| - 1][j] == xs[j];
      AppendNew(init, xs[|xs| - 1].labels)
  }

  /** The cells a frame contributes to the row labelled `g` of a column-wise join: its row, or NaN throughout. */
  function CellsFor(x: Indexed, g: string): (r: Row)
    requires WellIndexed(x)
    ensures |r| == |x.body.columns|
  {
    if g in x.labels then x.body.rows[IndexOf(x.labels, g)]
    else seq(|x.body.columns|, _ => NaN)
  }

  function JoinedColumns(xs: seq<Indexed>): seq<string>
    decreases |xs|
  {
    if |xs| == 0 then [] else xs[0].body.columns + JoinedColumns(xs[1..])
  }

  function JoinedRow(xs: seq<Indexed>, g: string): (r: Row)
    requires forall j :: 0 <= j < |xs| ==> WellIndexed(xs[j])
    ensures |r| == |JoinedColumns(xs)|
    decreases |xs|
  {
    if |xs| == 0 then [] else CellsFor(xs[0], g) + JoinedRow(xs[1..], g)
  }

  /** `pd.concat(xs, axis=1, sort=False)`: an outer join on the row labels; the columns of every frame side by side. */
  function ConcatColumns(xs: seq<Indexed>): (r: Indexed)
    requires forall j :: 0 <= j < |xs| ==> WellIndexed(xs[j])
    ensures Rectangular(r.body) && |r.labels| == |r.body.rows|
  {
    var labels := UnionLabels(xs);
    Indexed("", labels,
      Table(JoinedColumns(xs), seq(|labels|, i requires 0 <= i < |labels| => JoinedRow(xs, labels[i]))))
  }

  function ColumnsBefore(xs: seq<Indexed>, j: nat): nat
    requires j <= |xs|
  {
    |JoinedColumns(xs[..j])|
  }

  lemma {:induction false} JoinedColumnsSplit(xs: seq<Indexed>, j: nat)
    requires j < |xs|
    ensures JoinedColumns(xs) == JoinedColumns(xs[..j]) + xs[j].body.columns + JoinedColumns(xs[j + 1..])
    decreases j
  {
    if j > 0 {
      JoinedColumnsSplit(xs[1..], j - 1);
      TailSlices(xs, j);
    }
  }

  /** Column `k` of the `j`-th frame sits at `ColumnsBefore(xs, j) + k` of the join, and holds that frame's cell for the label, or NaN. */
  lemma {:induction false} JoinedRowAt(xs: seq<Indexed>, g: string, j: nat, k: nat)
    requires forall m :: 0 <= m < |xs| ==> WellIndexed(xs[m])
    requires j < |xs| && k < |xs[j].body.columns|
    ensures ColumnsBefore(xs, j) + k < |JoinedColumns(xs)|
    ensures JoinedColumns(xs)[ColumnsBefore(xs, j) + k] == xs[j].body.columns[k]
    ensures JoinedRow(xs, g)[ColumnsBefore(xs, j) + k] ==
            if g in xs[j].labels then xs[j].body.rows[IndexOf(xs[j].labels, g)][k] else NaN
    decreases j
  {
    JoinedColumnsSplit(xs, j);
    if j > 0 {
      JoinedRowAt(xs[1..], g, j - 1, k);
      TailSlices(xs, j);
    }
  }

  // ---------------------------------------------------------------- fillna, drop_duplicates

  function FillCell(c: Cell, v: string): Cell
  {
    if c.NaN? then Val(v) else c
  }

  /** `df.fillna(v)`. */
  function FillNa(t: Table, v: string): (r: Table)
    ensures r.columns == t.columns && |r.rows| == |t.rows|
    ensures forall i :: 0 <= i < |t.rows| ==> |r.rows[i]| == |t.rows[i]|
    ensures forall i, k :: 0 <= i < |t.rows| && 0 <= k < |t.rows[i]| ==> r.rows[i][k] == FillCell(t.rows[i][k], v)
    ensures WellFormed(t) ==> WellFormed(r)
  {
    Table(t.columns, seq(|t.rows|, i requires 0 <= i < |t.rows| =>
      seq(|t.rows[i]|, k requires 0 <= k < |t.rows[i]| => FillCell(t.rows[i][k], v))))
  }

  /** Filling a frame without NaN leaves it as it is. */
  lemma FillNaIdle(t: Table, v: string)
    requires forall i, k :: 0 <= i < |t.rows| && 0 <= k < |t.rows[i]| ==> t.rows[i][k].Val?
    ensures FillNa(t, v) == t
  {
    var r := FillNa(t, v);
    forall i | 0 <= i < |t.rows|
      ensures r.rows[i] == t.rows[i]
    {
      assert forall k :: 0 <= k < |t.rows[i]| ==> r.rows[i][k] == t.rows[i][k];
    }
  }

  function KeySet<K(==)>(rows: seq<Row>, key: Row -> K): set<K>
  {
    set i | 0 <= i < |rows| :: key(rows[i])
  }

  lemma KeySetCons<K>(row: Row, rest: seq<Row>, key: Row -> K)
    ensures KeySet([row] + rest, key) == {key(row)} + KeySet(rest, key)
  {
    var r := [row] + rest;
    forall x | x in KeySet(r, key)
      ensures x in {key(row)} + KeySet(rest, key)
    {
      var i :| 0 <= i < |r| && key(r[i]) == x;
      if i > 0 {
        assert r[i] == rest[i - 1];
      }
    }
    forall x | x in KeySet(rest, key)
      ensures x in KeySet(r, key)
    {
      var i :| 0 <= i < |rest| && key(rest[i]) == x;
      assert r[i + 1] == rest[i];
    }
    assert r[0] == row;
  }

  lemma KeySetTail<K>(rows: seq<Row>, key: Row -> K)
    requires |rows| > 0
    ensures KeySet(rows, key) == {key(rows[0])} + KeySet(rows[1..], key)
  {
    assert rows == [rows[0]] + rows[1..];
    KeySetCons(rows[0], rows[1..], key);
  }

  lemma SeenStep<K>(seen: set<K>, k: K, ks: set<K>)
    ensures (if k in seen then seen else seen + {k}) + ks == seen + ({k} + ks)
  {
  }

  /** The rows whose key is not in `seen` and not carried by an earlier row: the survivors of `drop_duplicates(keep='first')`. */
  function DistinctFrom<K(==)>(rows: seq<Row>, key: Row -> K, seen: set<K>): (r: seq<Row>)
    ensures |r| <= |rows|
    decreases |rows|
  {
    if |rows| == 0 then []
    else
      var k := key(rows[0]);
      var rest := DistinctFrom(rows[1..], key, if k in seen then seen else seen + {k});
      if k in seen then rest else [rows[0]] + rest
  }

  /** The survivors carry distinct keys, none of them seen before, are rows of the input, and carry every key the input brings. */
  lemma {:induction false} DistinctFromKeys<K>(rows: seq<Row>, key: Row -> K, seen: set<K>)
    ensures var r := DistinctFrom(rows, key, seen);
            && (forall i, j :: 0 <= i < j < |r| ==> key(r[i]) != key(r[j]))
            && (forall i :: 0 <= i < |r| ==> key(r[i]) !in seen && r[i] in rows)
            && KeySet(r, key) == KeySet(rows, key) - seen
    decreases |rows|
  {
    if |rows| > 0 {
      var k := key(rows[0]);
      var seen' := if k in seen then seen else seen + {k};
      var rest := DistinctFrom(rows[1..], key, seen');
      DistinctFromKeys(rows[1..], key, seen');
      ConsConcat(rows, []);
      KeySetCons(rows[0], rows[1..], key);
      KeySetCons(rows[0], rest, key);
      assert forall i :: 0 <= i < |rows| - 1 ==> rows[1..][i] in rows;
    }
  }

  /** The position of the first row whose key is `k`. */
  function FirstWith<K(==)>(rows: seq<Row>, key: Row -> K, k: K): (i: nat)
    requires k in KeySet(rows, key)
    ensures i < |rows| && key(rows[i]) == k
    ensures forall j :: 0 <= j < i ==> key(rows[j]) != k
    decreases |rows|
  {
    if key(rows[0]) == k then 0
    else
      assert k in KeySet(rows[1..], key) by {
        var i :| 0 <= i < |rows| && key(rows[i]) == k;
        assert rows[1..][i - 1] == rows[i];
      }
      1 + FirstWith(rows[1..], key, k)
  }

  /** Every surviving row is the first row of the input that has its key. */
  lemma {:induction false} DistinctKeepsFirst<K>(rows: seq<Row>, key: Row -> K, seen: set<K>, i: nat)
    requires i < |DistinctFrom(rows, key, seen)|
    ensures key(DistinctFrom(rows, key, seen)[i]) in KeySet(rows, key)
    ensures DistinctFrom(rows, key, seen)[i] == rows[FirstWith(rows, key, key(DistinctFrom(rows, key, seen)[i]))]
    decreases |rows|
  {
    var k := key(rows[0]);
    var seen' := if k in seen then seen else seen + {k};
    var rest := DistinctFrom(rows[1..], key, seen');
    var r := DistinctFrom(rows, key, seen);
    if k !in seen && i == 0 {
      assert r[0] == rows[0];
    } else {
      var i' := if k in seen then i else i - 1;
      assert r[i] == rest[i'];
      DistinctKeepsFirst(rows[1..], key, seen', i');
      DistinctFromKeys(rows[1..], key, seen');
      assert key(rest[i']) != k;
      var f := FirstWith(rows[1..], key, key(rest[i']));
      assert rows[1..][f] == rows[f + 1];
      assert key(rows[f + 1]) == key(rest[i']);
    }
  }

  /**
   * `drop_duplicates(keep='first')` from scratch: the survivors' keys are pairwise different,
   * every key of the input is carried by a survivor, and each survivor is the first row of the
   * input with its key.
   */
  lemma DistinctSurvivors<K>(rows: seq<Row>, key: Row -> K)
    ensures var kept := DistinctFrom(rows, key, {});
            && (forall i, j :: 0 <= i < j < |kept| ==> key(kept[i]) != key(kept[j]))
            && (forall i :: 0 <= i < |rows| ==> exists j :: 0 <= j < |kept| && key(kept[j]) == key(rows[i]))
            && (forall i :: 0 <= i < |kept| ==>
                  key(kept[i]) in KeySet(rows, key) && kept[i] == rows[FirstWith(rows, key, key(kept[i]))])
  {
    var kept := DistinctFrom(rows, key, {});
    DistinctFromKeys(rows, key, {});
    forall i | 0 <= i < |rows|
      ensures exists j :: 0 <= j < |kept| && key(kept[j]) == key(rows[i])
    {
      assert key(rows[i]) in KeySet(rows, key);
      assert key(rows[i]) in KeySet(kept, key);
    }
    forall i | 0 <= i < |kept|
      ensures key(kept[i]) in KeySet(rows, key) && kept[i] == rows[FirstWith(rows, key, key(kept[i]))]
    {
      DistinctKeepsFirst(rows, key, {}, i);
    }
  }

  /** A whole row, the key `drop_duplicates()` compares rows by when given no subset. */
  function WholeRow(row: Row): Row
  {
    row
  }

  /** The cell of a row in column `p`, the key of `drop_duplicates(subset=...)` on that column. */
  function CellIn(p: nat): Row -> Cell
  {
    (row: Row) => if p < |row| then row[p] else NaN
  }

  /**
   * `df.drop_duplicates()`: the first of the rows identical in every column. pandas hands back an
   * empty frame (no rows or no columns) as it is, before comparing anything.
   */
  function DropDuplicates(t: Table): (r: Table)
    ensures r.columns == t.columns
  {
    if IsEmpty(t) then t else Table(t.columns, DistinctFrom(t.rows, WholeRow, {}))
  }

  /** `df.drop_duplicates(subset=col)`: the first row of each value in column `col`. */
  function DropDuplicatesOn(t: Table, col: string): (r: Table)
    requires col in t.columns
    ensures r.columns == t.columns
  {
    Table(t.columns, DistinctFrom(t.rows, CellIn(IndexOf(t.columns, col)), {}))
  }

  /**
   * `drop_duplicates()` keeps an empty frame as it is, and otherwise removes exactly the rows
   * identical to an earlier row: the survivors are pairwise different, every row is among them,
   * and each is the first occurrence of its row.
   */
  lemma DropDuplicatesExact(t: Table)
    ensures IsEmpty(t) ==> DropDuplicates(t) == t
    ensures var kept := DropDuplicates(t).rows;
            !IsEmpty(t) ==>
              (&& (forall i, j :: 0 <= i < j < |kept| ==> kept[i] != kept[j])
               && (forall i :: 0 <= i < |t.rows| ==> t.rows[i] in kept)
               && (forall i :: 0 <= i < |kept| ==> kept[i] in t.rows && kept[i] == t.rows[FirstWith(t.rows, WholeRow, kept[i])]))
  {
    var kept := DistinctFrom(t.rows, WholeRow, {});
    DistinctSurvivors(t.rows, WholeRow);
    assert forall i :: 0 <= i < |kept| ==> WholeRow(kept[i]) == kept[i];
    assert forall i :: 0 <= i < |t.rows| ==> WholeRow(t.rows[i]) == t.rows[i];
  }

  /**
   * `drop_duplicates(subset=col)` keeps exactly one row per value of `col` (a row's `key`): the
   * survivors' values are pairwise different, every value of the column is carried by a
   * survivor, and each survivor is the first row with its value.
   */
  lemma DropDuplicatesOnFirst(t: Table, col: string)
    requires col in t.columns
    ensures var key := CellIn(IndexOf(t.columns, col)); var kept := DropDuplicatesOn(t, col).rows;
            && (forall i, j :: 0 <= i < j < |kept| ==> key(kept[i]) != key(kept[j]))
            && (forall i :: 0 <= i < |t.rows| ==> exists j :: 0 <= j < |kept| && key(kept[j]) == key(t.rows[i]))
            && (forall i :: 0 <= i < |kept| ==>
                  key(kept[i]) in KeySet(t.rows, key) && kept[i] == t.rows[FirstWith(t.rows, key, key(kept[i]))])
  {
    DistinctSurvivors(t.rows, CellIn(IndexOf(t.columns, col)));
  }

  /** In a rectangular frame the key of `drop_duplicates(subset=col)` is the row's cell in that column. */
  lemma CellInColumn(t: Table, col: string, i: nat)
    requires Rectangular(t) && col in t.columns && i < |t.rows|
    ensures CellIn(IndexOf(t.columns, col))(t.rows[i]) == t.rows[i][IndexOf(t.columns, col)]
  {
  }

  lemma DistinctCons<K>(rows: seq<Row>, key: Row -> K, seen: set<K>)
    requires |rows| > 0
    ensures var k := key(rows[0]);
            DistinctFrom(rows, key, seen)
            == (if k in seen then [] else [rows[0]]) + DistinctFrom(rows[1..], key, if k in seen then seen else seen + {k})
  {
  }

  /** Deduplicating `a + b` is deduplicating `a`, then the rows of `b` whose keys `a` did not already bring. */
  lemma {:induction false} DistinctAppend<K>(a: seq<Row>, b: seq<Row>, key: Row -> K, seen: set<K>)
    ensures DistinctFrom(a + b, key, seen) == DistinctFrom(a, key, seen) + DistinctFrom(b, key, seen + KeySet(a, key))
    decreases |a|
  {
    if |a| == 0 {
      assert a + b == b;
      assert KeySet(a, key) == {};
      assert seen + KeySet(a, key) == seen;
    } else {
      var k := key(a[0]);
      var seen' := if k in seen then seen else seen + {k};
      var head := if k in seen then [] else [a[0]];
      TailOfConcat(a, b);
      DistinctCons(a + b, key, seen);
      DistinctCons(a, key, seen);
      DistinctAppend(a[1..], b, key, seen');
      KeySetTail(a, key);
      SeenStep(seen, k, KeySet(a[1..], key));
      ConcatAssoc(head, DistinctFrom(a[1..], key, seen'), DistinctFrom(b, key, seen + KeySet(a, key)));
    }
  }

  /** Rows whose keys have all been seen contribute nothing. */
  lemma {:induction false} DistinctAllSeen<K>(b: seq<Row>, key: Row -> K, seen: set<K>)
    requires KeySet(b, key) <= seen
    ensures DistinctFrom(b, key, seen) == []
    decreases |b|
  {
    if |b| > 0 {
      assert b == [b[0]] + b[1..];
      KeySetCons(b[0], b[1..], key);
      DistinctAllSeen(b[1..], key, seen);
    }
  }

  /** Rows whose keys are distinct and unseen all survive. */
  lemma {:induction false} DistinctFromNone<K>(rows: seq<Row>, key: Row -> K, seen: set<K>)
    requires forall i, j :: 0 <= i < j < |rows| ==> key(rows[i]) != key(rows[j])
    requires forall i :: 0 <= i < |rows| ==> key(rows[i]) !in seen
    ensures DistinctFrom(rows, key, seen) == rows
    decreases |rows|
  {
    if |rows| > 0 {
      var k := key(rows[0]);
      assert forall i :: 0 <= i < |rows| - 1 ==> rows[1..][i] == rows[i + 1];
      DistinctFromNone(rows[1..], key, seen + {k});
      DistinctCons(rows, key, seen);
      ConsConcat(rows, []);
    }
  }

  /** Deduplicating the rows of a frame given twice keeps what deduplicating them once keeps. */
  lemma DistinctTwice<K>(rows: seq<Row>, key: Row -> K)
    ensures DistinctFrom(rows + rows, key, {}) == DistinctFrom(rows, key, {})
  {
    DistinctAppend(rows, rows, key, {});
    DistinctAllSeen(rows, key, {} + KeySet(rows, key));
  }

  // ---------------------------------------------------------------- to_csv

  /** How `to_csv` writes a cell: NaN as the empty string. */
  function CsvField(c: Cell): string
  {
    match c
    case Val(s) => s
    case NaN => ""
  }

  function CsvFields(row: Row): (fs: seq<string>)
    ensures |fs| == |row|
  {
    seq(|row|, k requires 0 <= k < |row| => CsvField(row[k]))
  }

  function CsvLine(tag: string, row: Row): string
  {
    Join("\t", [tag] + CsvFields(row))
  }

  function CsvLines(x: Indexed): seq<string>
    requires |x.labels| == |x.body.rows|
  {
    seq(|x.labels|, i requires 0 <= i < |x.labels| => CsvLine(x.labels[i], x.body.rows[i]))
  }

  /** `df.to_csv(sep='\t')`: the header (index name, then the column labels), then one line per row. */
  function ToCsv(x: Indexed): string
    requires |x.labels| == |x.body.rows|
  {
    Unlines([Join("\t", [x.indexName] + x.body.columns)] + CsvLines(x))
  }

  /** No label, column or cell holds a tab or a newline, so that `to_csv` needs no quoting. */
  predicate PlainText(x: Indexed)
  {
    && '\n' !in x.indexName && '\t' !in x.indexName
    && (forall i :: 0 <= i < |x.labels| ==> '\n' !in x.labels[i] && '\t' !in x.labels[i])
    && (forall k :: 0 <= k < |x.body.columns| ==> '\n' !in x.body.columns[k] && '\t' !in x.body.columns[k])
    && (forall i, k :: 0 <= i < |x.body.rows| && 0 <= k < |x.body.rows[i]| ==>
          '\n' !in CsvField(x.body.rows[i][k]) && '\t' !in CsvField(x.body.rows[i][k]))
  }

  lemma CsvLineFields(tag: string, row: Row)
    requires '\t' !in tag && '\n' !in tag
    requires forall k :: 0 <= k < |row| ==> '\t' !in CsvField(row[k]) && '\n' !in CsvField(row[k])
    ensures '\n' !in CsvLine(tag, row)
    ensures Split(CsvLine(tag, row), '\t') == [tag] + CsvFields(row)
  {
    var parts := [tag] + CsvFields(row);
    assert forall i :: 0 <= i < |parts| ==> '\t' !in parts[i] && '\n' !in parts[i];
    JoinHasNo("\t", parts, '\n');
    SplitJoin(parts, '\t');
  }

  /** The text `to_csv` writes has one header line and one line per row; each row line splits back into its tag and cells. */
  lemma ToCsvLines(x: Indexed)
    requires |x.labels| == |x.body.rows| && PlainText(x)
    ensures |Split(ToCsv(x), '\n')| == 2 + |x.labels|
    ensures Split(Split(ToCsv(x), '\n')[0], '\t') == [x.indexName] + x.body.columns
    ensures forall i :: 0 <= i < |x.labels| ==>
              Split(Split(ToCsv(x), '\n')[i + 1], '\t') == [x.labels[i]] + CsvFields(x.body.rows[i])
  {
    var header := [x.indexName] + x.body.columns;
    assert forall i :: 0 <= i < |header| ==> '\t' !in header[i] && '\n' !in header[i];
    JoinHasNo("\t", header, '\n');
    SplitJoin(header, '\t');
    var rows := CsvLines(x);
    forall i | 0 <= i < |x.labels|
      ensures '\n' !in rows[i]
      ensures Split(rows[i], '\t') == [x.labels[i]] + CsvFields(x.body.rows[i])
    {
      CsvLineFields(x.labels[i], x.body.rows[i]);
    }
    var lines := [Join("\t", header)] + rows;
    SplitUnlines(lines);
    var pieces := Split(ToCsv(x), '\n');
    assert pieces == lines + [""];
    assert forall i :: 0 <= i < |x.labels| ==> pieces[i + 1] == rows[i];
  }
}
