# FIGS tree to scikit-learn arrays, in Dafny

This project models the core of `imodels/tree/viz_utils.py`. That file converts one
tree of a fitted FIGS model (Fast Interpretable Greedy-tree Sums) into the flat arrays
that a scikit-learn `DecisionTreeClassifier` keeps internally. The conversion has four parts:

- `_extract_arrays_from_figs_tree` and its nested `_update_node` walk the linked
  FIGS tree in pre-order. Each visit carries the training rows that reach the node.
  - It appends one node record to seven parallel lists: left child, right child,
    feature, threshold, impurity, sample count and weighted sample count.
  - It also appends one histogram `[count of 0.0 labels, count of 1.0 labels]`.
  - At a split it partitions the rows with the mask `X[:, feature] <= threshold`.
- The nested `get_max_depth` computes the depth of the tree.
- `extract_sklearn_tree_from_figs` does the assembly:
  - it looks up the tree by `tree_number`;
  - it zips the seven lists into one record per node;
  - it reshapes the histograms to `(node_count, 1, 2)`;
  - it derives `node_count`, `n_features`, `n_classes` and `n_outputs`.

Modules:

- `Wrappers` (`wrappers.dfy`): `Option` and `Result`.
- `FigsData` (`figs_data.dfy`) covers the inputs:
  - a FIGS `Node`;
  - a training `Row`, which pairs row `i` of `X` with entry `i` of `y`, so one mask
    selects from both;
  - Python/numpy index reading (`WrapIndex`);
  - the class histogram;
  - the boolean-mask partition of the rows.
- `FlattenTree` (`flatten_tree.dfy`) covers the walk:
  - `Flatten` is the pure pre-order specification of the walk.
  - The class `TreeArrays` holds the seven lists and `value_array` that `_update_node`
    appends to. Its recursive method `UpdateNode` is proved to append exactly what
    `Flatten` describes.
  - It also holds `ExtractArrays`, and the zip of the seven lists into records,
    which `ExtractArrays`' contract is stated with.
- `SklearnExport` (`sklearn_export.dfy`) covers:
  - the reshape, `get_max_depth` (`MaxDepth`) and the class count;
  - the entry point `ExtractSklearnTreeFromFigs`.

Errors the source raises are modelled as the `Error` values of a `Result`:

- `TreeNotFound` for an unusable `tree_number`;
- `MissingRightChild` for `node.right.node_num` on an absent right child;
- `FeatureOutOfRange` for `X[:, feature]` outside the columns;
- `EmptyValueArray` for the reshape of an empty value array at line 91. Only the
  as-written `ReshapeAsWritten` returns it. The entry point uses the corrected
  reshape, so it never returns this error (see Findings).

Python's recursion limit, the numpy/pandas calls and scikit-learn itself are not modelled.

One-child nodes: a node with exactly one child is malformed. The code catches only
one of the two cases, and the model follows the code:

- A node with a left child and no right child raises an error, because
  `node.right.node_num` fails.
- A node with only a right child is taken for a leaf, because the test is
  `node.left is not None`. Its right subtree is never visited.
- `get_max_depth` still follows the right child. So for such a tree `max_depth` can
  exceed the depth of the emitted records.

## Model

| member | source | states |
|---|---|---|
| FigsData.WrapIndex | imodels/tree/viz_utils.py:53 | A column index is accepted exactly when it lies in `-width .. width-1`. A negative index counts from the end, as numpy does for `X[:, feature]`. |
| FigsData.CountLabelIsMultiplicity | imodels/tree/viz_utils.py:35-43 | The count of a class, with a missing `value_counts` key read as 0, is that class's multiplicity in the label vector. |
| FigsData.HistogramTotal | imodels/tree/viz_utils.py:45-60 | The histogram total (`np.sum(value)`) never exceeds the number of rows. It equals the number of rows exactly when every label is 0.0 or 1.0. |
| FigsData.SelectSplits | imodels/tree/viz_utils.py:65-66 | The rows kept by `X[mask]` and by `X[~mask]` together are the parent's rows, as a multiset. |
| FigsData.SelectSplitsCount | imodels/tree/viz_utils.py:65-66 | For every class, the counts in the two selections add up to the parent's count. |
| FigsData.SelectKeepsMarked | imodels/tree/viz_utils.py:65-66 | Every row whose mask entry equals the kept value appears in the selection. |
| FigsData.SelectOnlyMarked | imodels/tree/viz_utils.py:65-66 | Every row in the selection sits at a position whose mask entry equals the kept value. |
| FigsData.PartitionRoutes | imodels/tree/viz_utils.py:53-66 | A row with `x[c] <= threshold` reaches the left child and one with `x[c] > threshold` reaches the right child, in both directions. The two children's rows together are the parent's rows. |
| FigsData.HistogramSplits | imodels/tree/viz_utils.py:35-66 | Each class count of a split node is the sum of that count in its two children. |
| FlattenTree.FlattenRoot | imodels/tree/viz_utils.py:28-68 | A successful walk emits nothing exactly for the empty tree. Otherwise its first record carries the node's impurity and the histogram of all rows, and its sample count is the histogram total. |
| FlattenTree.FlattenParts | imodels/tree/viz_utils.py:47-66 | A successful walk through a node with a left child found a right child and a readable column. It succeeded on both subtrees, and its output is the node's record followed by theirs. |
| FlattenTree.FlattenIsPreorder | imodels/tree/viz_utils.py:28-66 | A successful walk emits exactly one record per visited node, in pre-order. A leaf gets sentinels -1/-1/-2/-2.0. A split gets its children's `node_num`, feature and threshold. Every record has a two-bin histogram, and both sample counts equal its total. |
| FlattenTree.FlattenOkIsSound | imodels/tree/viz_utils.py:47-53 | A successful walk visited only nodes that are leaves, or splits with a right child and a readable column. |
| FlattenTree.FlattenErrParts | imodels/tree/viz_utils.py:64-66 | A failed walk through a sound split failed in the left subtree, or passed it and failed in the right one. |
| FlattenTree.FlattenFailsAtFirstFault | imodels/tree/viz_utils.py:47-66 | A failed walk raises the error of the first faulty node in pre-order: a missing right child, or an out-of-range feature. |
| FlattenTree.FlattenSucceedsIff | imodels/tree/viz_utils.py:28-66 | The walk succeeds exactly when every visited node is sound, whatever the rows. |
| FlattenTree.FlattenLinksChildren | imodels/tree/viz_utils.py:47-66 | If the tree's `node_num`s are pre-order positions, then the emitted child indices land correctly: a leaf's are both -1, a split's left child is the next record and its right child a later one, and every split's class counts and sample count are the sums of its children's. |
| FlattenTree.LinkedRoot | imodels/tree/viz_utils.py:47-66 | The record of a numbered split points at its children's records, and its histogram is the sum of theirs. |
| SklearnExport.MaxDepth | imodels/tree/viz_utils.py:94-98 | `get_max_depth` is at least -1, and it is -1 exactly for the absent node. |
| SklearnExport.NoNodeBelowMaxDepth | imodels/tree/viz_utils.py:94-98 | No node, reached through either child, lies deeper than `get_max_depth`. |
| SklearnExport.DeepestNodeExists | imodels/tree/viz_utils.py:94-98 | A non-empty tree has a node exactly `get_max_depth` edges below its root. |
| SklearnExport.MaxDepthIsDeepest | imodels/tree/viz_utils.py:94-98 | `get_max_depth` is the greatest depth at which the tree has a node, and -1 for the empty tree. |
| FlattenTree.Unzip | imodels/tree/viz_utils.py:16-24 | Splitting records into the seven `TreeData` lists gives lists with one entry per record. |
| FlattenTree.ZipUnzip | imodels/tree/viz_utils.py:84-88 | Zipping the seven lists row by row (`itertuples`) gives back the records the lists were built from. |
| FlattenTree.UnzipZip | imodels/tree/viz_utils.py:84-88 | Splitting the zipped records gives back the seven lists. |
| FlattenTree.EntriesOfPush | imodels/tree/viz_utils.py:55-62 | One append to each of the seven lists and to `value_array` adds exactly one record and one histogram at the end. |
| FlattenTree.EntriesOfDetermines | imodels/tree/viz_utils.py:55-70 | Lists that hold a sequence of entries are exactly its unzipped records and its histograms. |
| FlattenTree.TreeArrays.constructor | imodels/tree/viz_utils.py:16-26 | The lists start empty. |
| FlattenTree.TreeArrays.Append | imodels/tree/viz_utils.py:55-62 | The eight appends add one entry and keep the lists aligned. |
| FlattenTree.TreeArrays.UpdateNode | imodels/tree/viz_utils.py:28-66 | `_update_node` appends exactly the records and histograms of the pre-order walk. On an error it returns the walk's error. |
| FlattenTree.ExtractArrays | imodels/tree/viz_utils.py:13-70 | The returned lists and histogram array are the unzipped records and the histograms of the walk from the root over all rows. The function raises exactly the walk's error. |
| SklearnExport.Reshape | imodels/tree/viz_utils.py:91 | The reshape keeps one slice per histogram. |
| SklearnExport.RavelReshape | imodels/tree/viz_utils.py:91 | Every reshaped slice has one row. Dropping the middle axis gives back the histograms in order. |
| SklearnExport.ReshapeRavel | imodels/tree/viz_utils.py:91 | An array whose middle axis has length 1 is the reshape of its raveled form. |
| SklearnExport.ReshapeAsWrittenFailsOnEmptyTree | imodels/tree/viz_utils.py:91 | Line 91 as written fails on a successfully flattened tree exactly when the tree is empty. Otherwise it agrees with the reshape. |
| SklearnExport.EmptyTreeCounterexample | imodels/tree/viz_utils.py:91 | The empty tree flattens to no records. The line-91 reshape as written then raises, while the corrected one gives the empty array. |
| SklearnExport.NClassesBounds | imodels/tree/viz_utils.py:107 | `np.unique(y).size` is at most the number of rows, and 0 exactly when there are none. |
| SklearnExport.LabelPresent | imodels/tree/viz_utils.py:107 | A label is among the distinct labels exactly when its histogram count is positive. |
| SklearnExport.BinaryClassCount | imodels/tree/viz_utils.py:107 | With 0/1 labels, `n_classes` is the number of non-empty bins of the root histogram. It equals the histogram width 2 exactly when both classes occur. |
| SklearnExport.ExportShape | imodels/tree/viz_utils.py:91-104 | `node_count` is the number of visited nodes. `values` has one slice per record and ravels back to the histograms. There are no records exactly when `max_depth` is -1. |
| SklearnExport.ExtractSklearnTreeFromFigs | imodels/tree/viz_utils.py:76-112 | An index `figs.trees_` cannot take raises before any flattening. A walk error is passed on. Otherwise the result holds the walk's records in order, the reshaped histograms, `get_max_depth`, the record count, the column count, the distinct label count and one output. Line 91 is taken as corrected: an absent tree gives empty arrays where the code raises IndexError, as ReshapeAsWrittenFailsOnEmptyTree states. |

## Left out

- Building the scikit-learn objects (lines 115-142) is left out, because these are calls
  into a runtime this model does not see. That covers the `Tree(...)` constructor, both
  `__setstate__` calls, the `_sklearn_version` tag and the classifier/regressor choice.
  Line 136 tests `isinstance(self, RegressorMixin)` with no `self` in scope, so the
  regressor branch can only raise NameError.
- The pandas and numpy mechanics are modelled only as counts and zips:
  - `value_counts` and `itertuples`;
  - the `i8`/`f8` record dtype;
  - the float dtype of `value`, whose counts are modelled as naturals.
- Feature values and thresholds are reals, so NaN and rounding are not modelled.
- The row counts of `X` and `y` are assumed equal, because rows pair them.
- ExtractSklearnTreeFromFigs: uses the corrected line 91, so it does not raise IndexError
  for an absent tree as the code does. ReshapeAsWrittenFailsOnEmptyTree states the code's
  behaviour there (see Findings).
- ExtractSklearnTreeFromFigs: `n_outputs` is fixed at 1. The labels are modelled as a
  1-D vector, so the `y_train.shape[1]` branch for 2-D labels is not covered.
- ExtractSklearnTreeFromFigs: the bare `except` around `figs.trees_[tree_number]` is
  modelled only for an integer index outside the list. Negative indices wrap as in
  Python. A missing `trees_` attribute or a non-integer index is not modelled.
- Labels other than 0.0 and 1.0 do not enter the histogram, as in the source. No error
  is raised for them, and HistogramTotal states the shortfall.
- `n_classes` can disagree with the histogram width 2, for example when `y_train` holds
  one class only. BinaryClassCount states when they agree. What scikit-learn does on a
  mismatch is not part of this model.
- `node_num` values come from FIGS training, which is not part of this model.
  FlattenLinksChildren therefore takes as a hypothesis that they are pre-order positions.
- `weighted_n_node_samples` equals `n_node_samples`, as the source's TODO on line 61
  says. Sample weights are not modelled.
- Python's recursion limit is not modelled.

## Findings

| source | as written | input that shows it | evidently intended | confidence | as-written member | corrected member |
|---|---|---|---|---|---|---|
| imodels/tree/viz_utils.py:91 | `np.array(value_array)` of an empty list has shape `(0,)`, so `value_array.shape[1]` raises IndexError | a `figs.trees_` entry that is `None`: `_update_node` returns at once and both outputs are empty | an empty tree is converted to empty arrays, as `_update_node`'s own `None` case does | low; not executed, and FIGS may never store an absent root | SklearnExport.ReshapeAsWritten, shown by SklearnExport.EmptyTreeCounterexample and SklearnExport.ReshapeAsWrittenFailsOnEmptyTree | SklearnExport.Reshape, with SklearnExport.RavelReshape and SklearnExport.ExportShape, used by SklearnExport.ExtractSklearnTreeFromFigs |
