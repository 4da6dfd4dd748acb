/**
 * The inputs of the FIGS-to-sklearn conversion: the linked FIGS tree, the
 * training rows, the per-node class histogram and numpy's boolean-mask
 * partition of the rows at a split.
 */
module FigsData {
  import opened Wrappers

  /**
   * One node of a fitted FIGS tree, read-only here. `left` and `right` are
   * kept apart so that trees with a single child can be described.
   */
  datatype Node = Node(
    nodeNum: int,
    feature: int,
    threshold: real,
    impurity: real,
    left: Option<Node>,
    right: Option<Node>)

  /** One training row: row `i` of the matrix `X` and entry `i` of the labels `y`. */
  datatype Row = Row(x: seq<real>, y: real)

  /** The rows form a matrix with `width` columns, as a 2-D numpy array does. */
  ghost predicate Rectangular(rows: seq<Row>, width: nat) {
    forall r :: r in rows ==> |r.x| == width
  }

  /**
   * Python's and numpy's reading of an index into a sequence of length `n`
   * (a list, or axis 1 of a matrix with `n` columns): a negative index
   * counts from the end, anything else outside the sequence raises
   * (IndexError; None here).
   */
  function WrapIndex(i: int, n: nat): (c: Option<nat>)
    ensures c.Some? <==> -(n as int) <= i < n
    ensures c.Some? ==> c.value < n && (i - c.value) % n == 0
  {
    if 0 <= i < n then Some(i)
    else if -(n as int) <= i < 0 then Some(i + n)
    else None
  }

  /** The labels of the rows, in order: the column vector `y`. */
  function Labels(rows: seq<Row>): (ys: seq<real>)
    ensures |ys| == |rows|
  {
    if rows == [] then [] else [rows[0].y] + Labels(rows[1..])
  }

  /** `pd.Series(y).value_counts()[cls]`, with a missing key read as 0. */
  function CountLabel(rows: seq<Row>, cls: real): (n: nat)
    ensures n <= |rows|
  {
    if rows == [] then 0
    else (if rows[0].y == cls then 1 else 0) + CountLabel(rows[1..], cls)
  }

  /** The count of a class is its multiplicity in the label vector. */
  lemma {:induction false} CountLabelIsMultiplicity(rows: seq<Row>, cls: real)
    ensures CountLabel(rows, cls) == multiset(Labels(rows))[cls]
  {
    if rows != [] {
      CountLabelIsMultiplicity(rows[1..], cls);
      assert Labels(rows) == [rows[0].y] + Labels(rows[1..]);
    }
  }

  /**
   * The two-slot class histogram built at every node:
   * [rows labelled 0.0, rows labelled 1.0]. Other labels are not counted.
   */
  function Histogram(rows: seq<Row>): (h: seq<nat>)
    ensures |h| == 2
  {
    [CountLabel(rows, 0.0), CountLabel(rows, 1.0)]
  }

  /** The total of a two-slot histogram: `np.sum(value)`. */
  function Total(h: seq<nat>): nat
    requires |h| == 2
  {
    h[0] + h[1]
  }

  /** A label that is one of the two classes the histogram counts. */
  predicate IsBinaryLabel(y: real) {
    y == 0.0 || y == 1.0
  }

  /**
   * The histogram's total never exceeds the number of rows, and equals it
   * exactly when every label is 0.0 or 1.0.
   */
  lemma {:induction false} HistogramTotal(rows: seq<Row>)
    ensures Total(Histogram(rows)) <= |rows|
    ensures Total(Histogram(rows)) == |rows| <==> forall r :: r in rows ==> IsBinaryLabel(r.y)
  {
    if rows != [] {
      HistogramTotal(rows[1..]);
      assert forall r :: r in rows ==> r == rows[0] || r in rows[1..];
    }
  }

  /** The boolean mask `X[:, column] <= threshold`, one entry per row. */
  function SplitMask(rows: seq<Row>, column: nat, threshold: real): (mask: seq<bool>)
    requires forall r :: r in rows ==> column < |r.x|
  {
    seq(|rows|, i requires 0 <= i < |rows| => rows[i].x[column] <= threshold)
  }

  /**
   * The rows whose mask entry equals `keep`, in their original order:
   * `X[mask], y[mask]` when `keep` holds and `X[~mask], y[~mask]` when not.
   */
  function Select(rows: seq<Row>, mask: seq<bool>, keep: bool): (s: seq<Row>)
    requires |mask| == |rows|
    ensures |s| <= |rows|
    ensures forall r :: r in s ==> r in rows
    decreases |rows|
  {
    if rows == [] then []
    else (if mask[0] == keep then [rows[0]] else []) + Select(rows[1..], mask[1..], keep)
  }

  /** The rows routed to the left child. */
  function LeftRows(rows: seq<Row>, column: nat, threshold: real): seq<Row>
    requires forall r :: r in rows ==> column < |r.x|
  {
    Select(rows, SplitMask(rows, column, threshold), true)
  }

  /** The rows routed to the right child. */
  function RightRows(rows: seq<Row>, column: nat, threshold: real): seq<Row>
    requires forall r :: r in rows ==> column < |r.x|
  {
    Select(rows, SplitMask(rows, column, threshold), false)
  }

  /** A mask and its complement split the rows: nothing is dropped or duplicated. */
  lemma {:induction false} SelectSplits(rows: seq<Row>, mask: seq<bool>)
    requires |mask| == |rows|
    ensures multiset(Select(rows, mask, true)) + multiset(Select(rows, mask, false)) == multiset(rows)
  {
    if rows != [] {
      SelectSplits(rows[1..], mask[1..]);
      assert rows == [rows[0]] + rows[1..];
    }
  }

  /** A mask and its complement split every class count. */
  lemma {:induction false} SelectSplitsCount(rows: seq<Row>, mask: seq<bool>, cls: real)
    requires |mask| == |rows|
    ensures CountLabel(Select(rows, mask, true), cls) + CountLabel(Select(rows, mask, false), cls)
            == CountLabel(rows, cls)
  {
    if rows != [] {
      SelectSplitsCount(rows[1..], mask[1..], cls);
      var t, f := Select(rows[1..], mask[1..], true), Select(rows[1..], mask[1..], false);
      if mask[0] {
        assert Select(rows, mask, true) == [rows[0]] + t;
        assert Select(rows, mask, false) == f;
        assert ([rows[0]] + t)[1..] == t;
      } else {
        assert Select(rows, mask, true) == t;
        assert Select(rows, mask, false) == [rows[0]] + f;
        assert ([rows[0]] + f)[1..] == f;
      }
    }
  }

  /** A row is kept exactly when its own mask entry says so. */
  lemma {:induction false} SelectKeepsMarked(rows: seq<Row>, mask: seq<bool>, keep: bool, i: nat)
    requires |mask| == |rows| && i < |rows|
    ensures mask[i] == keep ==> rows[i] in Select(rows, mask, keep)
  {
    if i > 0 {
      SelectKeepsMarked(rows[1..], mask[1..], keep, i - 1);
    }
  }

  /** Every selected row carries the selected mask value somewhere it occurs. */
  lemma {:induction false} SelectOnlyMarked(rows: seq<Row>, mask: seq<bool>, keep: bool, r: Row)
    requires |mask| == |rows| && r in Select(rows, mask, keep)
    ensures exists i :: 0 <= i < |rows| && rows[i] == r && mask[i] == keep
  {
    if mask[0] == keep && r == rows[0] {
      assert rows[0] == r && mask[0] == keep;
    } else {
      assert r in Select(rows[1..], mask[1..], keep);
      SelectOnlyMarked(rows[1..], mask[1..], keep, r);
      var j :| 0 <= j < |rows| - 1 && rows[1..][j] == r && mask[1..][j] == keep;
      assert rows[j + 1] == r && mask[j + 1] == keep;
    }
  }

  /**
   * The split rule: the left child receives every row with
   * `x[column] <= threshold` and nothing else, the right child every other
   * row, and together they are the parent's rows exactly.
   */
  lemma PartitionRoutes(rows: seq<Row>, column: nat, threshold: real)
    requires forall r :: r in rows ==> column < |r.x|
    ensures forall r :: r in LeftRows(rows, column, threshold) <==> r in rows && r.x[column] <= threshold
    ensures forall r :: r in RightRows(rows, column, threshold) <==> r in rows && !(r.x[column] <= threshold)
    ensures multiset(LeftRows(rows, column, threshold)) + multiset(RightRows(rows, column, threshold))
            == multiset(rows)
  {
    var mask := SplitMask(rows, column, threshold);
    SelectSplits(rows, mask);
    forall r | r in rows
      ensures r.x[column] <= threshold ==> r in LeftRows(rows, column, threshold)
      ensures !(r.x[column] <= threshold) ==> r in RightRows(rows, column, threshold)
    {
      var i :| 0 <= i < |rows| && rows[i] == r;
      SelectKeepsMarked(rows, mask, true, i);
      SelectKeepsMarked(rows, mask, false, i);
    }
    forall r | r in LeftRows(rows, column, threshold)
      ensures r.x[column] <= threshold
    {
      SelectOnlyMarked(rows, mask, true, r);
    }
    forall r | r in RightRows(rows, column, threshold)
      ensures !(r.x[column] <= threshold)
    {
      SelectOnlyMarked(rows, mask, false, r);
    }
  }

  /** Class counts are conserved by a split: each class at the parent is the sum over the two children. */
  lemma HistogramSplits(rows: seq<Row>, column: nat, threshold: real)
    requires forall r :: r in rows ==> column < |r.x|
    ensures Histogram(rows)[0]
            == Histogram(LeftRows(rows, column, threshold))[0] + Histogram(RightRows(rows, column, threshold))[0]
    ensures Histogram(rows)[1]
            == Histogram(LeftRows(rows, column, threshold))[1] + Histogram(RightRows(rows, column, threshold))[1]
  {
    var mask := SplitMask(rows, column, threshold);
    SelectSplitsCount(rows, mask, 0.0);
    SelectSplitsCount(rows, mask, 1.0);
  }
}
