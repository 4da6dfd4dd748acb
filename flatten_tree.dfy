/**
 * `_extract_arrays_from_figs_tree` and its nested `_update_node`: a
 * pre-order walk over a FIGS tree that carries the rows reaching each node
 * and appends one sklearn node record and one class histogram per node.
 */
module FlattenTree {
  import opened Wrappers
  import opened FigsData

  /** The errors the conversion can raise. */
  datatype Error =
    | TreeNotFound(treeNumber: int)
      // `figs.trees_[tree_number]` failed
    | MissingRightChild(nodeNum: int)
      // a node has a left child but `node.right` is None, so `node.right.node_num` fails
    | FeatureOutOfRange(nodeNum: int, feature: int)
      // `X[:, feature]` is outside the matrix's columns
    | EmptyValueArray
      // `value_array.shape[1]` on the one-dimensional array built from no histograms

  /** One sklearn node record, fields in the record layout's order. */
  datatype NodeRecord = NodeRecord(
    leftChild: int,
    rightChild: int,
    feature: int,
    threshold: real,
    impurity: real,
    nNodeSamples: nat,
    weightedNNodeSamples: nat)

  /** What one visit of `_update_node` appends: the record and the node's histogram. */
  datatype Entry = Entry(rec: NodeRecord, hist: seq<nat>)

  /** The record and histogram appended for a node taken as a leaf: sentinel children, feature and threshold. */
  function LeafEntry(n: Node, h: seq<nat>): Entry
    requires |h| == 2
  {
    Entry(NodeRecord(-1, -1, -2, -2.0, n.impurity, Total(h), Total(h)), h)
  }

  /** The record and histogram appended for a split node: its children's numbers, its feature and threshold. */
  function SplitEntry(n: Node, h: seq<nat>): Entry
    requires |h| == 2 && n.left.Some? && n.right.Some?
  {
    Entry(NodeRecord(n.left.value.nodeNum, n.right.value.nodeNum, n.feature, n.threshold,
                     n.impurity, Total(h), Total(h)), h)
  }

  /** A split node's entry before the left subtree's and then the right subtree's; the first error wins. */
  function Join(here: Entry, l: Result<seq<Entry>, Error>, r: Result<seq<Entry>, Error>): Result<seq<Entry>, Error>
  {
    if l.Err? then l else if r.Err? then r else Ok([here] + l.value + r.value)
  }

  /**
   * The pure pre-order specification of `_update_node`: the entries it
   * appends for the subtree `t` when the rows `rows` reach its root, or the
   * error it raises. Whether a node has children is decided by `left` alone.
   */
  function Flatten(t: Option<Node>, width: nat, rows: seq<Row>): (r: Result<seq<Entry>, Error>)
    requires Rectangular(rows, width)
    decreases t
  {
    match t
    case None => Ok([])
    case Some(n) =>
      if n.left.None? then
        Ok([LeafEntry(n, Histogram(rows))])
      else if n.right.None? then
        Err(MissingRightChild(n.nodeNum))
      else if WrapIndex(n.feature, width).None? then
        Err(FeatureOutOfRange(n.nodeNum, n.feature))
      else
        var c := WrapIndex(n.feature, width).value;
        Join(SplitEntry(n, Histogram(rows)),
             Flatten(n.left, width, LeftRows(rows, c, n.threshold)),
             Flatten(n.right, width, RightRows(rows, c, n.threshold)))
  }

  /** The root receives all the rows: a present root's entry comes first and holds their histogram. */
  lemma FlattenRoot(t: Option<Node>, width: nat, rows: seq<Row>)
    requires Rectangular(rows, width) && Flatten(t, width, rows).Ok?
    ensures Flatten(t, width, rows).value == [] <==> t.None?
    ensures t.Some? ==>
      && Flatten(t, width, rows).value[0].hist == Histogram(rows)
      && Flatten(t, width, rows).value[0].rec.nNodeSamples == Total(Histogram(rows))
      && Flatten(t, width, rows).value[0].rec.impurity == t.value.impurity
  {
  }

  /** One step of the walk at a split node with both children and a readable column. */
  lemma FlattenStep(n: Node, width: nat, rows: seq<Row>)
    requires Rectangular(rows, width) && n.left.Some? && n.right.Some? && WrapIndex(n.feature, width).Some?
    ensures var c := WrapIndex(n.feature, width).value;
      Flatten(Some(n), width, rows)
      == Join(SplitEntry(n, Histogram(rows)),
              Flatten(n.left, width, LeftRows(rows, c, n.threshold)),
              Flatten(n.right, width, RightRows(rows, c, n.threshold)))
  {
  }

  /** The pieces of a successful walk through a split node. */
  lemma FlattenParts(n: Node, width: nat, rows: seq<Row>) returns (c: nat, l: seq<Entry>, r: seq<Entry>)
    requires Rectangular(rows, width) && n.left.Some? && Flatten(Some(n), width, rows).Ok?
    ensures n.right.Some? && WrapIndex(n.feature, width) == Some(c)
    ensures Flatten(n.left, width, LeftRows(rows, c, n.threshold)) == Ok(l)
    ensures Flatten(n.right, width, RightRows(rows, c, n.threshold)) == Ok(r)
    ensures Flatten(Some(n), width, rows).value == [SplitEntry(n, Histogram(rows))] + l + r
  {
    c := WrapIndex(n.feature, width).value;
    l := Flatten(n.left, width, LeftRows(rows, c, n.threshold)).value;
    r := Flatten(n.right, width, RightRows(rows, c, n.threshold)).value;
  }

  /**
   * The nodes the walk visits, in pre-order: a node, then its whole left
   * subtree, then its whole right subtree; a node's children are followed
   * only when its left child is present.
   */
  function Visited(t: Option<Node>): seq<Node>
    decreases t
  {
    match t
    case None => []
    case Some(n) => [n] + (if n.left.Some? then Visited(n.left) + Visited(n.right) else [])
  }

  /** `e` is the entry emitted for node `n`: sentinels for a leaf, the split copied for an internal node. */
  ghost predicate Describes(e: Entry, n: Node) {
    && e.rec.impurity == n.impurity
    && |e.hist| == 2
    && e.rec.nNodeSamples == Total(e.hist)
    && e.rec.weightedNNodeSamples == e.rec.nNodeSamples
    && if n.left.None? then
         e.rec.leftChild == -1 && e.rec.rightChild == -1 && e.rec.feature == -2 && e.rec.threshold == -2.0
       else
         && n.right.Some?
         && e.rec.leftChild == n.left.value.nodeNum
         && e.rec.rightChild == n.right.value.nodeNum
         && e.rec.feature == n.feature
         && e.rec.threshold == n.threshold
  }

  /** Each entry of `es` describes the node at the same position of `vs`. */
  ghost predicate AllDescribe(es: seq<Entry>, vs: seq<Node>) {
    |es| == |vs| && forall i :: 0 <= i < |es| ==> Describes(es[i], vs[i])
  }

  /** A split node's description followed by its two subtrees' descriptions. */
  lemma DescribeConcat(es: seq<Entry>, here: Entry, l: seq<Entry>, r: seq<Entry>,
                        vs: seq<Node>, n: Node, vl: seq<Node>, vr: seq<Node>)
    requires es == [here] + l + r && vs == [n] + vl + vr
    requires Describes(here, n) && AllDescribe(l, vl) && AllDescribe(r, vr)
    ensures AllDescribe(es, vs)
  {
    forall i | 0 < i < |es|
      ensures Describes(es[i], vs[i])
    {
      if i <= |l| {
        assert es[i] == l[i - 1] && vs[i] == vl[i - 1];
      } else {
        assert es[i] == r[i - 1 - |l|] && vs[i] == vr[i - 1 - |l|];
      }
    }
  }

  /** The walk emits exactly one entry per visited node, in pre-order, and each entry describes its node. */
  lemma {:induction false} FlattenIsPreorder(t: Option<Node>, width: nat, rows: seq<Row>, es: seq<Entry>)
    requires Rectangular(rows, width) && Flatten(t, width, rows) == Ok(es)
    ensures AllDescribe(es, Visited(t))
    decreases t
  {
    if t.Some? && t.value.left.Some? {
      var n := t.value;
      var c, l, r := FlattenParts(n, width, rows);
      FlattenIsPreorder(n.left, width, LeftRows(rows, c, n.threshold), l);
      FlattenIsPreorder(n.right, width, RightRows(rows, c, n.threshold), r);
      var vl, vr := Visited(n.left), Visited(n.right);
      assert Visited(t) == [n] + vl + vr;
      DescribeConcat(es, SplitEntry(n, Histogram(rows)), l, r, Visited(t), n, vl, vr);
    }
  }

  /** A visited node the walk can pass: a leaf by the `left` test, or a split with both children and a readable column. */
  ghost predicate Sound(n: Node, width: nat) {
    n.left.None? || (n.right.Some? && WrapIndex(n.feature, width).Some?)
  }

  /** `e` is the error raised on reaching node `n`. */
  ghost predicate Faulty(n: Node, width: nat, e: Error) {
    && n.left.Some?
    && if n.right.None? then e == MissingRightChild(n.nodeNum)
       else WrapIndex(n.feature, width).None? && e == FeatureOutOfRange(n.nodeNum, n.feature)
  }

  /** Every node of `vs` is sound. */
  ghost predicate AllSound(vs: seq<Node>, width: nat) {
    forall i :: 0 <= i < |vs| ==> Sound(vs[i], width)
  }

  /** The first node of `vs` that is not sound raises `e`. */
  ghost predicate FirstFault(vs: seq<Node>, width: nat, e: Error) {
    exists i :: 0 <= i < |vs| && Faulty(vs[i], width, e) && AllSound(vs[..i], width)
  }

  /** Soundness of a split node and of both its subtrees. */
  lemma SoundConcat(vs: seq<Node>, n: Node, vl: seq<Node>, vr: seq<Node>, width: nat)
    requires vs == [n] + vl + vr && Sound(n, width) && AllSound(vl, width) && AllSound(vr, width)
    ensures AllSound(vs, width)
  {
    forall i | 0 < i < |vs|
      ensures Sound(vs[i], width)
    {
      if i <= |vl| {
        assert vs[i] == vl[i - 1];
      } else {
        assert vs[i] == vr[i - 1 - |vl|];
      }
    }
  }

  /** A first fault in the left subtree is the first fault of the split node's walk. */
  lemma FaultInLeft(vs: seq<Node>, n: Node, vl: seq<Node>, vr: seq<Node>, width: nat, e: Error)
    requires vs == [n] + vl + vr && Sound(n, width) && FirstFault(vl, width, e)
    ensures FirstFault(vs, width, e)
  {
    var i :| 0 <= i < |vl| && Faulty(vl[i], width, e) && AllSound(vl[..i], width);
    assert vs[1 + i] == vl[i];
    assert vs[..1 + i] == [n] + vl[..i];
    SoundConcat(vs[..1 + i], n, vl[..i], [], width);
  }

  /** A first fault in the right subtree, after a sound left subtree, is the first fault of the split node's walk. */
  lemma FaultInRight(vs: seq<Node>, n: Node, vl: seq<Node>, vr: seq<Node>, width: nat, e: Error)
    requires vs == [n] + vl + vr && Sound(n, width) && AllSound(vl, width) && FirstFault(vr, width, e)
    ensures FirstFault(vs, width, e)
  {
    var i :| 0 <= i < |vr| && Faulty(vr[i], width, e) && AllSound(vr[..i], width);
    assert vs[1 + |vl| + i] == vr[i];
    assert vs[..1 + |vl| + i] == [n] + vl + vr[..i];
    SoundConcat(vs[..1 + |vl| + i], n, vl, vr[..i], width);
  }

  /** A successful walk passed only sound nodes. */
  lemma {:induction false} FlattenOkIsSound(t: Option<Node>, width: nat, rows: seq<Row>, es: seq<Entry>)
    requires Rectangular(rows, width) && Flatten(t, width, rows) == Ok(es)
    ensures AllSound(Visited(t), width)
    decreases t
  {
    if t.Some? && t.value.left.Some? {
      var n := t.value;
      var c, l, r := FlattenParts(n, width, rows);
      FlattenOkIsSound(n.left, width, LeftRows(rows, c, n.threshold), l);
      FlattenOkIsSound(n.right, width, RightRows(rows, c, n.threshold), r);
      assert Visited(t) == [n] + Visited(n.left) + Visited(n.right);
      SoundConcat(Visited(t), n, Visited(n.left), Visited(n.right), width);
    }
  }

  /** The pieces of a failed walk through a split node: the left subtree failed, or it passed and the right one failed. */
  lemma FlattenErrParts(n: Node, width: nat, rows: seq<Row>, e: Error) returns (lrows: seq<Row>, rrows: seq<Row>)
    requires Rectangular(rows, width) && Flatten(Some(n), width, rows) == Err(e)
    requires n.left.Some? && n.right.Some? && WrapIndex(n.feature, width).Some?
    ensures Rectangular(lrows, width) && Rectangular(rrows, width)
    ensures Flatten(n.left, width, lrows) == Err(e)
            || (Flatten(n.left, width, lrows).Ok? && Flatten(n.right, width, rrows) == Err(e))
  {
    var c := WrapIndex(n.feature, width).value;
    lrows, rrows := LeftRows(rows, c, n.threshold), RightRows(rows, c, n.threshold);
  }

  /** A failed walk raises the error of the first faulty node in pre-order. */
  lemma {:induction false} FlattenFailsAtFirstFault(t: Option<Node>, width: nat, rows: seq<Row>, e: Error)
    requires Rectangular(rows, width) && Flatten(t, width, rows) == Err(e)
    ensures FirstFault(Visited(t), width, e)
    decreases t
  {
    var n := t.value;
    if n.right.None? || WrapIndex(n.feature, width).None? {
      assert Faulty(Visited(t)[0], width, e) && Visited(t)[..0] == [];
    } else {
      var lrows, rrows := FlattenErrParts(n, width, rows, e);
      var vl, vr := Visited(n.left), Visited(n.right);
      assert Visited(t) == [n] + vl + vr;
      if Flatten(n.left, width, lrows).Err? {
        FlattenFailsAtFirstFault(n.left, width, lrows, e);
        FaultInLeft(Visited(t), n, vl, vr, width, e);
      } else {
        FlattenOkIsSound(n.left, width, lrows, Flatten(n.left, width, lrows).value);
        FlattenFailsAtFirstFault(n.right, width, rrows, e);
        FaultInRight(Visited(t), n, vl, vr, width, e);
      }
    }
  }

  /** The walk succeeds exactly when every node it visits is sound; the rows play no part. */
  lemma FlattenSucceedsIff(t: Option<Node>, width: nat, rows: seq<Row>)
    requires Rectangular(rows, width)
    ensures Flatten(t, width, rows).Ok? <==> AllSound(Visited(t), width)
  {
    match Flatten(t, width, rows)
    case Ok(es) => FlattenOkIsSound(t, width, rows, es);
    case Err(e) =>
      FlattenFailsAtFirstFault(t, width, rows, e);
      var i :| 0 <= i < |Visited(t)| && Faulty(Visited(t)[i], width, e) && AllSound(Visited(t)[..i], width);
      assert !Sound(Visited(t)[i], width);
  }

  /**
   * The caller's numbering matches pre-order positions from `k`: each
   * visited node's `node_num` is its position in the walk plus `k`.
   */
  ghost predicate Numbered(t: Option<Node>, k: int)
    decreases t
  {
    match t
    case None => true
    case Some(n) =>
      && n.nodeNum == k
      && (n.left.Some? ==> Numbered(n.left, k + 1) && Numbered(n.right, k + 1 + |Visited(n.left)|))
  }

  /**
   * Entry `i` of `es`, read with child indices offset by `k`: a leaf has
   * both children -1, an internal node's children lie after it inside `es`
   * (the left one right after it), and its class counts and sample count
   * are the sums over its two children.
   */
  ghost predicate Linked(es: seq<Entry>, k: int, i: int)
    requires 0 <= i < |es|
  {
    var e := es[i];
    if e.rec.leftChild == -1 then e.rec.rightChild == -1
    else
      var li, ri := e.rec.leftChild - k, e.rec.rightChild - k;
      && li == i + 1 && li < ri < |es|
      && |e.hist| == 2 && |es[li].hist| == 2 && |es[ri].hist| == 2
      && e.hist[0] == es[li].hist[0] + es[ri].hist[0]
      && e.hist[1] == es[li].hist[1] + es[ri].hist[1]
      && e.rec.nNodeSamples == es[li].rec.nNodeSamples + es[ri].rec.nNodeSamples
  }

  /** Every entry of `es` is linked, child indices offset by `k`. */
  ghost predicate AllLinked(es: seq<Entry>, k: int) {
    forall i :: 0 <= i < |es| ==> Linked(es, k, i)
  }

  /** `Linked` carries over from a slice of entries to the whole sequence. */
  lemma LinkedShift(es: seq<Entry>, sub: seq<Entry>, off: nat, k: int, ks: int, j: int)
    requires off + |sub| <= |es| && ks == k + off
    requires forall m :: 0 <= m < |sub| ==> es[off + m] == sub[m]
    requires 0 <= j < |sub| && Linked(sub, ks, j)
    ensures Linked(es, k, off + j)
  {
    var e := sub[j];
    assert es[off + j] == e;
    if e.rec.leftChild != -1 {
      var li, ri := e.rec.leftChild - ks, e.rec.rightChild - ks;
      assert es[off + li] == sub[li] && es[off + ri] == sub[ri];
    }
  }

  /**
   * When the tree is numbered in pre-order from `k >= 0`, the flattened
   * child indices point at the children's own entries, and every internal
   * entry's class counts are the sums of its children's.
   */
  lemma {:induction false} FlattenLinksChildren(t: Option<Node>, width: nat, rows: seq<Row>, k: int, es: seq<Entry>)
    requires Rectangular(rows, width) && Flatten(t, width, rows) == Ok(es)
    requires k >= 0 && Numbered(t, k)
    ensures AllLinked(es, k)
    decreases t
  {
    if t.Some? && t.value.left.Some? {
      var n := t.value;
      var c, l, r := FlattenParts(n, width, rows);
      var lrows, rrows := LeftRows(rows, c, n.threshold), RightRows(rows, c, n.threshold);
      FlattenIsPreorder(n.left, width, lrows, l);
      FlattenRoot(n.left, width, lrows);
      FlattenRoot(n.right, width, rrows);
      var kl, kr := k + 1, k + 1 + |l|;
      FlattenLinksChildren(n.left, width, lrows, kl, l);
      FlattenLinksChildren(n.right, width, rrows, kr, r);
      LinkedRoot(n, rows, es, l, r, c, k);
      ConcatIndex(es, es[0], l, r);
      LinkedConcat(es, l, r, k, kl, kr);
    }
  }

  /** Where the two subtrees' entries sit in a split node's entries. */
  lemma ConcatIndex(es: seq<Entry>, here: Entry, l: seq<Entry>, r: seq<Entry>)
    requires es == [here] + l + r
    ensures |es| == 1 + |l| + |r|
    ensures forall m :: 0 <= m < |l| ==> es[1 + m] == l[m]
    ensures forall m :: 0 <= m < |r| ==> es[1 + |l| + m] == r[m]
  {
  }

  /** Entries linked inside the two subtrees' slices stay linked in the whole sequence. */
  lemma LinkedConcat(es: seq<Entry>, l: seq<Entry>, r: seq<Entry>, k: int, kl: int, kr: int)
    requires |es| == 1 + |l| + |r| && kl == k + 1 && kr == k + 1 + |l|
    requires forall m :: 0 <= m < |l| ==> es[1 + m] == l[m]
    requires forall m :: 0 <= m < |r| ==> es[1 + |l| + m] == r[m]
    requires Linked(es, k, 0) && AllLinked(l, kl) && AllLinked(r, kr)
    ensures AllLinked(es, k)
  {
    forall i | 1 <= i <= |l|
      ensures Linked(es, k, i)
    {
      LinkedShift(es, l, 1, k, kl, i - 1);
    }
    forall i | 1 + |l| <= i < |es|
      ensures Linked(es, k, i)
    {
      LinkedShift(es, r, 1 + |l|, k, kr, i - 1 - |l|);
    }
  }

  /** The root entry of a split node is linked to its two children's entries. */
  lemma LinkedRoot(n: Node, rows: seq<Row>, es: seq<Entry>, l: seq<Entry>, r: seq<Entry>, c: nat, k: int)
    requires n.left.Some? && n.right.Some? && k >= 0
    requires n.left.value.nodeNum == k + 1 && n.right.value.nodeNum == k + 1 + |l|
    requires forall r' :: r' in rows ==> c < |r'.x|
    requires es == [SplitEntry(n, Histogram(rows))] + l + r
    requires |l| > 0 && l[0].hist == Histogram(LeftRows(rows, c, n.threshold))
    requires l[0].rec.nNodeSamples == Total(Histogram(LeftRows(rows, c, n.threshold)))
    requires |r| > 0 && r[0].hist == Histogram(RightRows(rows, c, n.threshold))
    requires r[0].rec.nNodeSamples == Total(Histogram(RightRows(rows, c, n.threshold)))
    ensures Linked(es, k, 0)
  {
    HistogramSplits(rows, c, n.threshold);
    assert es[1] == l[0] && es[1 + |l|] == r[0];
  }

  /** The seven parallel lists of the `TreeData` namedtuple. */
  datatype TreeData = TreeData(
    leftChild: seq<int>,
    rightChild: seq<int>,
    feature: seq<int>,
    threshold: seq<real>,
    impurity: seq<real>,
    nNodeSamples: seq<nat>,
    weightedNNodeSamples: seq<nat>)

  const EmptyTreeData := TreeData([], [], [], [], [], [], [])

  /** All seven lists have the same length. */
  ghost predicate Aligned(td: TreeData) {
    var n := |td.leftChild|;
    && |td.rightChild| == n && |td.feature| == n && |td.threshold| == n && |td.impurity| == n
    && |td.nNodeSamples| == n && |td.weightedNNodeSamples| == n
  }

  /** The `i`-th entry of each of the seven lists, as one record. */
  function RecordAt(td: TreeData, i: nat): NodeRecord
    requires Aligned(td) && i < |td.leftChild|
  {
    NodeRecord(td.leftChild[i], td.rightChild[i], td.feature[i], td.threshold[i], td.impurity[i],
               td.nNodeSamples[i], td.weightedNNodeSamples[i])
  }

  /** The lists after one append to each of them (lines 55-61). */
  function Push(td: TreeData, rec: NodeRecord): (r: TreeData)
  {
    TreeData(td.leftChild + [rec.leftChild], td.rightChild + [rec.rightChild], td.feature + [rec.feature],
             td.threshold + [rec.threshold], td.impurity + [rec.impurity],
             td.nNodeSamples + [rec.nNodeSamples], td.weightedNNodeSamples + [rec.weightedNNodeSamples])
  }

  /** The records of a sequence of entries. */
  function Records(es: seq<Entry>): (rs: seq<NodeRecord>)
  {
    seq(|es|, i requires 0 <= i < |es| => es[i].rec)
  }

  /** The histograms of a sequence of entries. */
  function Values(es: seq<Entry>): (vs: seq<seq<nat>>)
  {
    seq(|es|, i requires 0 <= i < |es| => es[i].hist)
  }

  /** One record per position: the zip of the seven lists. */
  function Zip(td: TreeData): (rs: seq<NodeRecord>)
    requires Aligned(td)
  {
    seq(|td.leftChild|, i requires 0 <= i < |td.leftChild| => RecordAt(td, i))
  }

  /** Seven parallel lists from a sequence of records. */
  function Unzip(rs: seq<NodeRecord>): (td: TreeData)
    ensures Aligned(td) && |td.leftChild| == |rs|
  {
    TreeData(
      seq(|rs|, i requires 0 <= i < |rs| => rs[i].leftChild),
      seq(|rs|, i requires 0 <= i < |rs| => rs[i].rightChild),
      seq(|rs|, i requires 0 <= i < |rs| => rs[i].feature),
      seq(|rs|, i requires 0 <= i < |rs| => rs[i].threshold),
      seq(|rs|, i requires 0 <= i < |rs| => rs[i].impurity),
      seq(|rs|, i requires 0 <= i < |rs| => rs[i].nNodeSamples),
      seq(|rs|, i requires 0 <= i < |rs| => rs[i].weightedNNodeSamples))
  }

  /** Zipping the unzipped records gives the records back. */
  lemma ZipUnzip(rs: seq<NodeRecord>)
    ensures Zip(Unzip(rs)) == rs
  {
    assert forall i :: 0 <= i < |rs| ==> Zip(Unzip(rs))[i] == rs[i];
  }

  /** Unzipping the zipped lists gives the lists back. */
  lemma UnzipZip(td: TreeData)
    requires Aligned(td)
    ensures Unzip(Zip(td)) == td
  {
  }

  /** The entries held by seven aligned lists and a histogram list of the same length. */
  function EntriesOf(td: TreeData, vs: seq<seq<nat>>): (es: seq<Entry>)
    requires Aligned(td) && |vs| == |td.leftChild|
  {
    seq(|vs|, i requires 0 <= i < |vs| => Entry(RecordAt(td, i), vs[i]))
  }

  /** Appending a record to the lists and a histogram to the histograms appends one entry. */
  lemma EntriesOfPush(td: TreeData, vs: seq<seq<nat>>, e: Entry)
    requires Aligned(td) && |vs| == |td.leftChild|
    ensures Aligned(Push(td, e.rec))
    ensures EntriesOf(Push(td, e.rec), vs + [e.hist]) == EntriesOf(td, vs) + [e]
  {
    var td' := Push(td, e.rec);
    assert forall i :: 0 <= i < |vs| ==> RecordAt(td', i) == RecordAt(td, i);
    assert RecordAt(td', |vs|) == e.rec;
  }

  /** The lists and histograms holding `es` are the unzipped records and the values of `es`. */
  lemma EntriesOfDetermines(td: TreeData, vs: seq<seq<nat>>, es: seq<Entry>)
    requires Aligned(td) && |vs| == |td.leftChild| && EntriesOf(td, vs) == es
    ensures td == Unzip(Records(es)) && vs == Values(es)
  {
    assert Zip(td) == Records(es);
    UnzipZip(td);
  }

  /** Appending one entry, then `l`, then `r` appends `[x] + l + r`. */
  lemma AppendChain(a: seq<Entry>, x: Entry, l: seq<Entry>, r: seq<Entry>, here: seq<Entry>, mid: seq<Entry>, fin: seq<Entry>)
    requires here == a + [x] && mid == here + l && fin == mid + r
    ensures fin == a + ([x] + l + r)
  {
  }

  /** The state `_update_node` closes over: the `TreeData` lists and `value_array`. */
  class TreeArrays {
    var treeData: TreeData
    var valueArray: seq<seq<nat>>
    /** The entries appended so far, one per visited node. */
    ghost var entries: seq<Entry>

    ghost predicate Valid()
      reads this
    {
      Aligned(treeData) && |valueArray| == |treeData.leftChild| && entries == EntriesOf(treeData, valueArray)
    }

    constructor ()
      ensures Valid() && entries == []
    {
      treeData := EmptyTreeData;
      valueArray := [];
      entries := [];
    }

    /** Lines 55-62: one append to each of the seven lists and one to `value_array`. */
    method Append(e: Entry)
      requires Valid()
      modifies this
      ensures Valid() && entries == old(entries) + [e]
    {
      EntriesOfPush(treeData, valueArray, e);
      treeData := Push(treeData, e.rec);
      valueArray := valueArray + [e.hist];
      entries := entries + [e];
    }

    /**
     * `_update_node(node, X, y)`: appends the entries of the subtree at
     * `node` for the rows `rows`, or stops with the error it raises. After
     * an error the lists hold part of the walk and only `Valid()` is
     * promised: the exception leaves `_extract_arrays_from_figs_tree`
     * (lines 68-70), so no caller ever sees them.
     */
    method UpdateNode(node: Option<Node>, width: nat, rows: seq<Row>) returns (err: Option<Error>)
      requires Valid() && Rectangular(rows, width)
      modifies this
      ensures Valid()
      ensures Flatten(node, width, rows).Ok? ==>
        err.None? && entries == old(entries) + Flatten(node, width, rows).value
      ensures Flatten(node, width, rows).Err? ==> err == Some(Flatten(node, width, rows).error)
      decreases node
    {
      if node.None? {
        return None;
      }
      var n := node.value;
      var idxLeft, idxRight := -1, -1;
      var feature, threshold := -2, -2.0;
      var value := Histogram(rows);
      var hasChildren := n.left.Some?;
      var mask: seq<bool> := [];
      if hasChildren {
        idxLeft := n.left.value.nodeNum;
        if n.right.None? {
          return Some(MissingRightChild(n.nodeNum));
        }
        idxRight := n.right.value.nodeNum;
        feature := n.feature;
        threshold := n.threshold;
        var column := WrapIndex(feature, width);
        if column.None? {
          return Some(FeatureOutOfRange(n.nodeNum, feature));
        }
        mask := SplitMask(rows, column.value, threshold);
      }
      var entry := Entry(NodeRecord(idxLeft, idxRight, feature, threshold, n.impurity, Total(value), Total(value)), value);
      ghost var before := entries;
      Append(entry);
      if hasChildren {
        ghost var c := WrapIndex(feature, width).value;
        ghost var lrows, rrows := LeftRows(rows, c, threshold), RightRows(rows, c, threshold);
        assert Select(rows, mask, true) == lrows && Select(rows, mask, false) == rrows;
        assert entry == SplitEntry(n, Histogram(rows));
        FlattenStep(n, width, rows);
        ghost var l, r := Flatten(n.left, width, lrows), Flatten(n.right, width, rrows);
        ghost var here := entries;
        err := UpdateNode(n.left, width, Select(rows, mask, true));
        if err.Some? {
          return;
        }
        ghost var mid := entries;
        err := UpdateNode(n.right, width, Select(rows, mask, false));
        if r.Ok? {
          AppendChain(before, entry, l.value, r.value, here, mid, entries);
        }
      } else {
        err := None;
      }
    }
  }

  /**
   * `_extract_arrays_from_figs_tree(figs_tree, X, y)`: the seven lists and
   * the histograms of the pre-order walk from the root with all rows, or
   * the error the walk raises.
   */
  method ExtractArrays(root: Option<Node>, width: nat, rows: seq<Row>)
    returns (r: Result<(TreeData, seq<seq<nat>>), Error>)
    requires Rectangular(rows, width)
    ensures Flatten(root, width, rows).Err? ==> r == Err(Flatten(root, width, rows).error)
    ensures Flatten(root, width, rows).Ok? ==>
      r == Ok((Unzip(Records(Flatten(root, width, rows).value)), Values(Flatten(root, width, rows).value)))
  {
    var arrays := new TreeArrays();
    var err := arrays.UpdateNode(root, width, rows);
    if err.Some? {
      return Err(err.value);
    }
    assert arrays.entries == [] + Flatten(root, width, rows).value;
    EntriesOfDetermines(arrays.treeData, arrays.valueArray, Flatten(root, width, rows).value);
    return Ok((arrays.treeData, arrays.valueArray));
  }
}
