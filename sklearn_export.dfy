/**
 * `extract_sklearn_tree_from_figs` up to the hand-over to scikit-learn:
 * the lookup of one FIGS tree, its flattening, the per-node record array,
 * the `(node_count, 1, 2)` value array, the depth (its nested
 * `get_max_depth`) and the class count that the `Tree` constructor and
 * `__setstate__` receive.
 */
module SklearnExport {
  import opened Wrappers
  import opened FigsData
  import opened FlattenTree

  /** `value_array.reshape(n, 1, 2)`: each histogram becomes a 1-by-2 slice. */
  function Reshape(vs: seq<seq<nat>>): (out: seq<seq<seq<nat>>>)
    ensures |out| == |vs|
  {
    seq(|vs|, i requires 0 <= i < |vs| => [vs[i]])
  }

  /** Every slice along the first axis holds exactly one row: the middle axis has length 1. */
  ghost predicate MiddleAxisOne(out: seq<seq<seq<nat>>>) {
    forall i :: 0 <= i < |out| ==> |out[i]| == 1
  }

  /** Dropping a middle axis of length 1. */
  function Ravel(out: seq<seq<seq<nat>>>): (vs: seq<seq<nat>>)
    requires MiddleAxisOne(out)
    ensures |vs| == |out|
  {
    seq(|out|, i requires 0 <= i < |out| => out[i][0])
  }

  /** Reshaping keeps every histogram, in order: dropping the new axis gives the histograms back. */
  lemma RavelReshape(vs: seq<seq<nat>>)
    ensures MiddleAxisOne(Reshape(vs)) && Ravel(Reshape(vs)) == vs
  {
  }

  /** Every array with a middle axis of length 1 is the reshape of its raveled form. */
  lemma ReshapeRavel(out: seq<seq<seq<nat>>>)
    requires MiddleAxisOne(out)
    ensures Reshape(Ravel(out)) == out
  {
    assert forall i :: 0 <= i < |out| ==> Reshape(Ravel(out))[i] == [out[i][0]] == out[i];
  }

  /**
   * Line 91 as written: `np.array(value_array)` of an empty list has shape
   * `(0,)`, so reading `value_array.shape[1]` raises IndexError; otherwise
   * the histograms are reshaped.
   */
  function ReshapeAsWritten(vs: seq<seq<nat>>): (r: Result<seq<seq<seq<nat>>>, Error>)
  {
    if |vs| == 0 then Err(EmptyValueArray) else Ok(Reshape(vs))
  }

  /**
   * The as-written reshape fails exactly on the tree that `_update_node`
   * flattens without error into no records at all: the empty tree.
   */
  lemma ReshapeAsWrittenFailsOnEmptyTree(t: Option<Node>, width: nat, rows: seq<Row>, es: seq<Entry>)
    requires Rectangular(rows, width) && Flatten(t, width, rows) == Ok(es)
    ensures ReshapeAsWritten(Values(es)).Err? <==> t.None?
    ensures ReshapeAsWritten(Values(es)).Ok? ==> ReshapeAsWritten(Values(es)).value == Reshape(Values(es))
  {
    FlattenRoot(t, width, rows);
  }

  /** The empty tree, concretely: flattening succeeds with no records, the reshape as written raises. */
  lemma EmptyTreeCounterexample()
    ensures Flatten(None, 0, []) == Ok([])
    ensures ReshapeAsWritten(Values([])) == Err(EmptyValueArray)
    ensures Reshape(Values([])) == []
  {
  }

  /** `np.unique(y)`: the distinct labels. */
  function LabelSet(rows: seq<Row>): set<real> {
    set r | r in rows :: r.y
  }

  /** `np.unique(y_train).size`. */
  function NClasses(rows: seq<Row>): nat {
    |LabelSet(rows)|
  }

  /** There are never more distinct labels than rows, and none exactly when there are no rows. */
  lemma {:induction false} NClassesBounds(rows: seq<Row>)
    ensures NClasses(rows) <= |rows|
    ensures NClasses(rows) == 0 <==> rows == []
  {
    if rows != [] {
      assert LabelSet(rows) == {rows[0].y} + LabelSet(rows[1..]) by {
        assert forall r :: r in rows <==> r == rows[0] || r in rows[1..];
      }
      NClassesBounds(rows[1..]);
      assert rows[0].y in LabelSet(rows);
    }
  }

  /** A label is among the distinct labels exactly when its histogram count is positive. */
  lemma {:induction false} LabelPresent(rows: seq<Row>, cls: real)
    ensures cls in LabelSet(rows) <==> CountLabel(rows, cls) > 0
  {
    if rows != [] {
      assert LabelSet(rows) == {rows[0].y} + LabelSet(rows[1..]) by {
        assert forall r :: r in rows <==> r == rows[0] || r in rows[1..];
      }
      LabelPresent(rows[1..], cls);
    }
  }

  /**
   * With labels 0.0 and 1.0 only, `n_classes` counts the non-empty bins of
   * the root histogram, so it equals the histogram width 2 exactly when
   * both classes occur.
   */
  lemma BinaryClassCount(rows: seq<Row>)
    requires forall r :: r in rows ==> IsBinaryLabel(r.y)
    ensures NClasses(rows) == (if Histogram(rows)[0] > 0 then 1 else 0) + (if Histogram(rows)[1] > 0 then 1 else 0)
    ensures NClasses(rows) == 2 <==> Histogram(rows)[0] > 0 && Histogram(rows)[1] > 0
  {
    LabelPresent(rows, 0.0);
    LabelPresent(rows, 1.0);
    var zeros: set<real> := if Histogram(rows)[0] > 0 then {0.0} else {};
    var ones: set<real> := if Histogram(rows)[1] > 0 then {1.0} else {};
    assert LabelSet(rows) == zeros + ones;
  }

  /** What the `Tree` constructor and `__setstate__` receive (lines 104-123). */
  datatype ExportedTree = ExportedTree(
    maxDepth: int,
    nodeCount: nat,
    nodes: seq<NodeRecord>,
    values: seq<seq<seq<nat>>>,
    nFeatures: nat,
    nClasses: nat,
    nOutputs: nat)

  /** The larger of two depths: Python's `max`. */
  function Max(a: int, b: int): int {
    if a < b then b else a
  }

  /**
   * `get_max_depth`: -1 for an absent node, otherwise one more than the
   * deeper of its two children. Both children are followed, whatever `left` is.
   */
  function MaxDepth(t: Option<Node>): (d: int)
    ensures d >= -1
    ensures d == -1 <==> t.None?
    decreases t
  {
    match t
    case None => -1
    case Some(n) => 1 + Max(MaxDepth(n.left), MaxDepth(n.right))
  }

  /** `t` has a node `d` edges below its root, reached through either child. */
  ghost predicate HasNodeAt(t: Option<Node>, d: nat)
    decreases t
  {
    match t
    case None => false
    case Some(n) => d == 0 || HasNodeAt(n.left, d - 1) || HasNodeAt(n.right, d - 1)
  }

  /** No node lies deeper than `get_max_depth`. */
  lemma {:induction false} NoNodeBelowMaxDepth(t: Option<Node>, d: nat)
    requires HasNodeAt(t, d)
    ensures d <= MaxDepth(t)
    decreases t
  {
    var n := t.value;
    if d > 0 {
      if HasNodeAt(n.left, d - 1) {
        NoNodeBelowMaxDepth(n.left, d - 1);
      } else {
        NoNodeBelowMaxDepth(n.right, d - 1);
      }
    }
  }

  /** Some node lies exactly `get_max_depth` edges below a present root. */
  lemma {:induction false} DeepestNodeExists(t: Option<Node>)
    requires t.Some?
    ensures HasNodeAt(t, MaxDepth(t))
    decreases t
  {
    var n := t.value;
    if MaxDepth(n.left) < MaxDepth(n.right) {
      DeepestNodeExists(n.right);
    } else if n.left.Some? {
      DeepestNodeExists(n.left);
    }
  }

  /** `get_max_depth` is the depth of the deepest node, and -1 exactly for the empty tree. */
  lemma MaxDepthIsDeepest(t: Option<Node>)
    ensures t.None? ==> MaxDepth(t) == -1 && forall d: nat :: !HasNodeAt(t, d)
    ensures t.Some? ==> HasNodeAt(t, MaxDepth(t)) && forall d: nat :: HasNodeAt(t, d) ==> d <= MaxDepth(t)
  {
    if t.Some? {
      DeepestNodeExists(t);
      forall d: nat | HasNodeAt(t, d)
        ensures d <= MaxDepth(t)
      {
        NoNodeBelowMaxDepth(t, d);
      }
    }
  }

  /**
   * On a flattened tree, `node_count` is the number of nodes the walk
   * reaches, `values` has one 1-by-2 slice per record, and there are no
   * records exactly when `max_depth` is -1.
   */
  lemma ExportShape(t: Option<Node>, width: nat, rows: seq<Row>, es: seq<Entry>)
    requires Rectangular(rows, width) && Flatten(t, width, rows) == Ok(es)
    ensures |Records(es)| == |Visited(t)|
    ensures |Reshape(Values(es))| == |es| && Ravel(Reshape(Values(es))) == Values(es)
    ensures |es| == 0 <==> MaxDepth(t) == -1
  {
    FlattenIsPreorder(t, width, rows, es);
    FlattenRoot(t, width, rows);
    RavelReshape(Values(es));
  }

  /**
   * `extract_sklearn_tree_from_figs(figs, tree_number, X_train, y_train)`
   * with `figs.trees_` as `trees` and 1-D labels: an index the list cannot
   * take fails before any flattening; an error of the walk is passed on;
   * otherwise the zipped records, the reshaped histograms, the depth and
   * the counts. Line 91 is modelled as corrected (`Reshape`), so an absent
   * tree gives empty arrays; the code as written raises IndexError there,
   * which `ReshapeAsWritten` and `ReshapeAsWrittenFailsOnEmptyTree` state.
   */
  method ExtractSklearnTreeFromFigs(trees: seq<Option<Node>>, treeNumber: int, width: nat, rows: seq<Row>)
    returns (r: Result<ExportedTree, Error>)
    requires Rectangular(rows, width)
    ensures WrapIndex(treeNumber, |trees|).None? ==> r == Err(TreeNotFound(treeNumber))
    ensures WrapIndex(treeNumber, |trees|).Some? && Flatten(trees[WrapIndex(treeNumber, |trees|).value], width, rows).Err? ==>
      r == Err(Flatten(trees[WrapIndex(treeNumber, |trees|).value], width, rows).error)
    ensures WrapIndex(treeNumber, |trees|).Some? && Flatten(trees[WrapIndex(treeNumber, |trees|).value], width, rows).Ok? ==>
      r == Ok(ExportedTree(
        MaxDepth(trees[WrapIndex(treeNumber, |trees|).value]),
        |Flatten(trees[WrapIndex(treeNumber, |trees|).value], width, rows).value|,
        Records(Flatten(trees[WrapIndex(treeNumber, |trees|).value], width, rows).value),
        Reshape(Values(Flatten(trees[WrapIndex(treeNumber, |trees|).value], width, rows).value)),
        width, NClasses(rows), 1))
  {
    var index := WrapIndex(treeNumber, |trees|);
    if index.None? {
      return Err(TreeNotFound(treeNumber));
    }
    var figsTree := trees[index.value];
    var arrays := ExtractArrays(figsTree, width, rows);
    if arrays.Err? {
      return Err(arrays.error);
    }
    var (treeData, valueArray) := arrays.value;
    var nodes := Zip(treeData);
    ZipUnzip(Records(Flatten(figsTree, width, rows).value));
    var values := Reshape(valueArray);
    var maxDepth := MaxDepth(figsTree);
    return Ok(ExportedTree(maxDepth, |nodes|, nodes, values, width, NClasses(rows), 1));
  }
}
