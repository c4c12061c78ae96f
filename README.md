# Sparse mixture-of-experts dispatcher

A Dafny model of the `Dispatcher` class of `bittensor/utils/dispatcher.py`.
It is the bookkeeping half of a sparse mixture of experts. A gate matrix
`gates` of shape `[B, E]` (B batch elements, E experts) says which batch
element goes to which expert: element `b` is sent to expert `e` exactly when
`gates[b][e] != 0`.

- `dispatch(x, gates)` does three things:
  - It builds the *assignment list*: the non-zero (row, expert) pairs of
    `gates`, ordered by expert and then by row.
  - It records the assignments' experts in the field `_expert_index`.
  - It cuts the input into sub-batches. A tensor input becomes one chunk
    per expert, holding `part_sizes[e]` rows. A Python list input is cut
    into pieces of length B.
- `combine(expert_out, gates)` does the reverse. It concatenates the
  experts' outputs. It weights each row by its gate. It scatter-adds every
  row into a zero `[B, width]` buffer at its batch row. Finally it reshapes
  the result to the shape of the first expert's output.

The model is split into these modules:

- `Seqs`: sequence helpers. Flattening, summing, splitting by sizes and
  gathering by index.
- `Errors`: `Option`, and a `Result` whose errors are the exceptions the
  code can raise.
- `Routing`: the assignment list and `part_sizes`. The code's row-major
  `nonzero` list is sorted by the key (expert, row). This is proved to be
  the column-by-column enumeration of the non-zero gates.
- `Dispatch`: the tensor branch of `dispatch` and the list branch. The list
  branch includes the nested loops that build `results`.
- `Branches`: how the two branches relate. For a non-empty batch
  (`0 < B <= |x|`), they agree exactly when every gate is non-zero. With
  B = 0 the list branch raises at `view(-1, 0)`, while the tensor branch
  returns E empty chunks.
- `Combine`: two things.
  - The scatter-accumulate `index_add`, as a loop over an array buffer.
  - `combine` as written (`Combined`), and as documented
    (`CombinedAsDocumented`).
- `RoundTrip`: the documented combine (the flat `[B, width]` sum before
  the line-116 view) of what dispatch produced yields the documented
  mixture `output[b] = Sum_e gates[b, e] * experts[e](inputs[b])`. The
  code's own `combine` raises at that view unless expert 0 received all B
  rows or `width == 0`.
- `SparseDispatcher`: the `Dispatcher` class itself. It has the field
  `expertIndex` and the methods `Dispatch` and `Combine`.

Experts are modelled as a function `f(e, row)` applied to each row of their
chunk. Gate values and features are `real`.

About the sort (lines 44-50): `sort(0)` sorts the two columns of
`nonzero(gates)` separately.

- The row column is already ascending, so sorting leaves it as it is.
- `batch_index` is that row column reordered by the permutation that sorts
  the expert column.
- `_expert_index` is the sorted expert column.

Together these are the rows and experts of the `nonzero` pairs sorted by
expert. Within one expert the model orders rows ascending. `Assignments`
is the result of that sort. `BatchIndex` and `ExpertIndex` are its two
projections.

## Model

| member | source | states |
|---|---|---|
| SparseDispatcher.Dispatcher.constructor | bittensor/utils/dispatcher.py:38-40 | a new dispatcher has no recorded expert index, because `__init__` never sets one |
| SparseDispatcher.Dispatcher.Dispatch | bittensor/utils/dispatcher.py:42-67 | after `dispatch`, the field holds the sorted expert index. The result is the tensor-branch chunks or the list-branch pieces, or the error the branch raises. The field is set even when the list branch then fails |
| SparseDispatcher.Dispatcher.Combine | bittensor/utils/dispatcher.py:70-113 | `combine` returns the documented `[B, width]` sum. With `multiply_by_gates` it is exactly the gate-weighted scatter-add the code computes before its final view |
| Seqs.Flatten | bittensor/utils/dispatcher.py:85 | definition of `torch.cat` along rows; characterised by Seqs.FlattenAppend, Seqs.FlattenLength, Seqs.FlattenSplit and Seqs.FlattenMembers |
| Seqs.Split | bittensor/utils/dispatcher.py:65 | `torch.split` by sizes gives one chunk per size, of that size; Seqs.FlattenSplit and Seqs.SplitAt state that the chunks are the consecutive slices |
| Seqs.Gather | bittensor/utils/dispatcher.py:64 | `x[index]` has one element per index; Seqs.GatherFlatten states how it meets concatenation |
| Seqs.FlattenAppend | bittensor/utils/dispatcher.py:85 | concatenating two lists of chunks concatenates their contents |
| Seqs.FlattenLength | bittensor/utils/dispatcher.py:85 | the concatenation is as long as all chunks together |
| Seqs.FlattenSplit | bittensor/utils/dispatcher.py:65 | concatenating the chunks of `torch.split` gives back its input |
| Seqs.SplitAt | bittensor/utils/dispatcher.py:65 | chunk `e` is the slice starting at the sum of the earlier sizes |
| Seqs.SplitFlatten | bittensor/utils/dispatcher.py:65 | splitting a concatenation by its chunk lengths gives back the chunks |
| Seqs.FlattenMembers | bittensor/utils/dispatcher.py:85 | an element is in the concatenation if and only if it is in some chunk |
| Seqs.GatherFlatten | bittensor/utils/dispatcher.py:64 | gathering by a concatenated index list concatenates the gathers |
| Routing.RowEntries | bittensor/utils/dispatcher.py:44 | the non-zero pairs of row `b`, taken up to expert `k`, are pairs `(b, e)` with `e < k` and a non-zero gate |
| Routing.RowComplete | bittensor/utils/dispatcher.py:44 | every non-zero gate `(b, e)` with `e < k` is among row `b`'s pairs |
| Routing.RowAscending | bittensor/utils/dispatcher.py:44 | within one row, `nonzero` lists experts in strictly ascending order |
| Routing.RowStep | bittensor/utils/dispatcher.py:44 | one more expert extends a row's pairs by that pair exactly when its gate is non-zero |
| Routing.RowNonzerosFacts | bittensor/utils/dispatcher.py:44 | a row's pairs are exactly its non-zero gates, with experts ascending |
| Routing.NonzeroEntries | bittensor/utils/dispatcher.py:44 | every pair `nonzero` lists for the first `n` rows has row below `n` and a non-zero gate |
| Routing.NonzeroComplete | bittensor/utils/dispatcher.py:44 | every non-zero gate of the first `n` rows is listed |
| Routing.NonzeroOrdered | bittensor/utils/dispatcher.py:44 | `nonzero` lists pairs in strict row-major order |
| Routing.NonzeroRowsAscending | bittensor/utils/dispatcher.py:44 | the row column of `nonzero` is non-decreasing, so sorting it changes nothing |
| Routing.Insert | bittensor/utils/dispatcher.py:44 | inserting a pair adds exactly that pair to the multiset |
| Routing.InsertSorted | bittensor/utils/dispatcher.py:44 | insertion keeps a list sorted by (expert, row) |
| Routing.SortByKey | bittensor/utils/dispatcher.py:44 | the sort returns a permutation of its input, sorted by (expert, row) |
| Routing.SortedTail | bittensor/utils/dispatcher.py:44 | the tail of a sorted list is sorted |
| Routing.SortedHead | bittensor/utils/dispatcher.py:44 | the head of a sorted list comes no later than any of its elements |
| Routing.MultisetTail | bittensor/utils/dispatcher.py:44 | dropping the head removes exactly one copy of it |
| Routing.SortedUnique | bittensor/utils/dispatcher.py:44 | two sorted permutations of the same pairs are equal, so the (expert, row) order fixes the assignment list |
| Routing.DistinctMultiplicity | bittensor/utils/dispatcher.py:44 | a list without repeats holds each pair at most once |
| Routing.ColumnEntries | bittensor/utils/dispatcher.py:53 | expert `e`'s column, taken over the first `n` rows, lists pairs `(b, e)` with `b < n` and a non-zero gate |
| Routing.ColumnComplete | bittensor/utils/dispatcher.py:53 | every non-zero gate in column `e` among the first `n` rows is listed |
| Routing.ColumnAscending | bittensor/utils/dispatcher.py:53 | a column lists its rows in strictly ascending order |
| Routing.ColumnNonzerosFacts | bittensor/utils/dispatcher.py:53 | a column lists exactly the non-zero gates of expert `e`, with rows ascending |
| Routing.ColumnNonzerosStep | bittensor/utils/dispatcher.py:53 | one more row extends a column by that pair exactly when its gate is non-zero |
| Routing.Columns | bittensor/utils/dispatcher.py:44-50 | there is one column of assignments per expert |
| Routing.ColumnsPrefix | bittensor/utils/dispatcher.py:44-50 | the first `k` columns, concatenated, are strictly sorted by (expert, row). They hold exactly the non-zero pairs with expert below `k` |
| Routing.AssignmentsByExpert | bittensor/utils/dispatcher.py:44-50 | the sorted `nonzero` list is the column-by-column enumeration of the non-zero gates |
| Routing.AssignmentMembership | bittensor/utils/dispatcher.py:44-50 | a pair is in the assignment list if and only if its gate is non-zero |
| Routing.AssignmentsRouted | bittensor/utils/dispatcher.py:44-50 | every listed pair has a non-zero gate |
| Routing.IndexPairs | bittensor/utils/dispatcher.py:44-50 | `batch_index` and `expert_index` have equal length. Each position `i` pairs a row and an expert with a non-zero gate. Every non-zero gate occurs at some position |
| Routing.AssignmentList | bittensor/utils/dispatcher.py:44-50 | every entry is routed, and every routed pair occurs exactly once. The list is strictly ordered by (expert, row), and `expert_index` is non-decreasing |
| Routing.BatchIndexBelow | bittensor/utils/dispatcher.py:50 | every `batch_index` entry is below `n` if and only if every routed row is below `n`. So `batch_index` always indexes the batch |
| Routing.Nonzero | bittensor/utils/dispatcher.py:44 | definition of `torch.nonzero(gates)`, the routed pairs row by row; characterised by Routing.NonzeroEntries, Routing.NonzeroComplete, Routing.NonzeroOrdered and Routing.NonzeroRowsAscending |
| Routing.Assignments | bittensor/utils/dispatcher.py:44-50 | definition of the sorted assignment list, `Nonzero` sorted by (expert, row); characterised by Routing.AssignmentList, Routing.AssignmentMembership and Routing.AssignmentsByExpert |
| Routing.BatchIndex | bittensor/utils/dispatcher.py:50 | definition of `batch_index`, the rows of the assignment list; characterised by Routing.IndexPairs and Routing.BatchIndexBelow |
| Routing.ExpertIndex | bittensor/utils/dispatcher.py:47 | definition of `_expert_index`, the experts of the assignment list; characterised by Routing.IndexPairs and Routing.AssignmentList (non-decreasing) |
| Routing.PartSizes | bittensor/utils/dispatcher.py:53 | `part_sizes` has one count per expert |
| Routing.ColumnCountLength | bittensor/utils/dispatcher.py:53 | the non-zero count of column `e` is the length of its column of assignments |
| Routing.PartSizesCount | bittensor/utils/dispatcher.py:53 | `part_sizes[e]` is the size of expert `e`'s column. The sizes sum to the length of `batch_index`, which is the number of non-zero gates |
| Dispatch.ExpertRowsFacts | bittensor/utils/dispatcher.py:53 | expert `e` gets `part_sizes[e]` rows, strictly ascending. They are exactly the rows `b` with `gates[b][e] != 0` |
| Dispatch.TensorDispatch | bittensor/utils/dispatcher.py:64-65 | definition of the tensor branch, `torch.split(x[batch_index], part_sizes)`; characterised by Dispatch.TensorDispatchFails, Dispatch.TensorChunkLayout, Dispatch.TensorChunkAt and Dispatch.TensorChunks |
| Dispatch.TensorDispatchFails | bittensor/utils/dispatcher.py:64 | `x[batch_index]` raises if and only if some routed row lies past the end of `x` |
| Dispatch.TensorChunkLayout | bittensor/utils/dispatcher.py:64-65 | the tensor branch returns E chunks, chunk `e` with `part_sizes[e]` rows. Their concatenation is `x` gathered by `batch_index` |
| Dispatch.TensorChunkAt | bittensor/utils/dispatcher.py:64-65 | row `j` of chunk `e` is `x[batch_index[offset_e + j]]`, where `offset_e` is the sum of the earlier part sizes |
| Dispatch.ExpertRowsBelow | bittensor/utils/dispatcher.py:50 | every row routed to an expert lies in the batch |
| Dispatch.ColumnRowsFacts | bittensor/utils/dispatcher.py:50-53 | `batch_index` is the concatenation of the experts' row lists, and `part_sizes` are their lengths |
| Dispatch.TensorChunks | bittensor/utils/dispatcher.py:64-65 | chunk `e` is `x` gathered at exactly the rows routed to `e`. An expert with no rows gets an empty chunk |
| Dispatch.RowsFlatten | bittensor/utils/dispatcher.py:50 | the rows of a concatenation are the concatenation of the rows |
| Dispatch.View | bittensor/utils/dispatcher.py:57 | definition of `batch_index.view(-1, B)` when B divides the count; characterised by Dispatch.FlattenReshape and Dispatch.ReshapeAt (through Dispatch.Reshape) |
| Dispatch.ListDispatch | bittensor/utils/dispatcher.py:57-61 | definition of the list branch; characterised by Dispatch.ListBranchSucceeds, Dispatch.ListBranchShape and Dispatch.ListBranchAt |
| Dispatch.Dispatched | bittensor/utils/dispatcher.py:56-65 | definition of what `dispatch` returns: the list branch for a Python list, the tensor branch otherwise; SparseDispatcher.Dispatcher.Dispatch is proved to return it |
| Dispatch.Reshape | bittensor/utils/dispatcher.py:57 | `view(-1, width)` gives `count` rows of `width` indices |
| Dispatch.FlattenReshape | bittensor/utils/dispatcher.py:57 | flattening the view gives back `batch_index` |
| Dispatch.ReshapeAt | bittensor/utils/dispatcher.py:57 | entry `[i][j]` of the view is `batch_index[i * width + j]` |
| Dispatch.GatherList | bittensor/utils/dispatcher.py:58-61 | the nested append loops give every piece gathered from the list, or raise at an index past its end |
| Dispatch.ListBranchSucceeds | bittensor/utils/dispatcher.py:57-61 | the list branch succeeds if and only if B > 0, B divides the non-zero count, and every index lies in `x` |
| Dispatch.ListBranchShape | bittensor/utils/dispatcher.py:57-61 | on success, the list branch gives `count / B` pieces of B items each. Their concatenation is `x` gathered by `batch_index` |
| Dispatch.ListBranchAt | bittensor/utils/dispatcher.py:57-61 | `results[i][j]` is `x[batch_index[i * B + j]]` |
| Branches.ColumnCountFull | bittensor/utils/dispatcher.py:53 | a column count is at most the number of rows. It equals it if and only if every gate in the column is non-zero |
| Branches.ReshapeFlatten | bittensor/utils/dispatcher.py:57 | viewing a concatenation of equal-width pieces gives back the pieces |
| Branches.OffsetDiv | bittensor/utils/dispatcher.py:57 | `count * width` indices view as exactly `count` rows |
| Branches.ViewOfPieces | bittensor/utils/dispatcher.py:57-61 | the list branch of a concatenation of width-B pieces gathers each piece |
| Branches.FullColumns | bittensor/utils/dispatcher.py:53 | with no zero gate, every expert gets all B rows |
| Branches.FullListPieces | bittensor/utils/dispatcher.py:56-61 | for B > 0 with no zero gate, the list branch gathers each expert's rows |
| Branches.ColumnPiecesTensor | bittensor/utils/dispatcher.py:62-65 | the tensor branch gathers each expert's rows |
| Branches.FullGatesAgree | bittensor/utils/dispatcher.py:56-65 | for `0 < B <= |x|` with no zero gate, both branches give the same per-expert pieces |
| Branches.SparseGatesDisagree | bittensor/utils/dispatcher.py:56-65 | for `0 < B <= |x|`, a single zero gate makes the list branch differ from the per-expert split |
| Branches.ListMatchesTensor | bittensor/utils/dispatcher.py:56-65 | for `0 < B <= |x|`, the two branches agree if and only if every expert receives all B rows |
| Combine.Zeros | bittensor/utils/dispatcher.py:108-110 | definition of a `torch.zeros` row; Combine.IndexAddAbsent and Combine.ZeroGateRow state where it survives in the output |
| Combine.Add | bittensor/utils/dispatcher.py:113 | definition of the row addition `index_add` performs; Combine.ScatterAdd proves that the additions, one per assignment, give IndexAdd |
| Combine.Scale | bittensor/utils/dispatcher.py:105 | definition of `mul` by one gate value; Combine.GateWeightedAssignments and RoundTrip.SourceTerms state what it contributes |
| Combine.IndexAdd | bittensor/utils/dispatcher.py:108-113 | `zeros.index_add` has B rows of `width` features |
| Combine.ScatterAbsent | bittensor/utils/dispatcher.py:113 | a row that the index never names receives nothing |
| Combine.ScatterAdd | bittensor/utils/dispatcher.py:108-113 | the in-place loop over a zero buffer computes `index_add`: feature `d` of row `b` is the sum of `src[i][d]` over the `i` with `index[i] == b` |
| Combine.GateWeighted | bittensor/utils/dispatcher.py:99-105 | definition of `flat_stitched.mul(nonzero_gates)`, with a single stitched row broadcast; characterised by Combine.GateWeightedAssignments and Combine.GateWeightedWidth |
| Combine.GateWeightedAssignments | bittensor/utils/dispatcher.py:97-105 | on the assignment list, stitched row `i` (or the single broadcast row) is scaled by `gates[batch_index[i]][expert_index[i]]`, the value `gather(gates[batch_index], 1, expert_index)` picks, and that gate is non-zero |
| Combine.GateWeightedWidth | bittensor/utils/dispatcher.py:99-105 | weighting keeps the row width |
| Combine.Summed | bittensor/utils/dispatcher.py:85-113 | definition of `combine` as written up to line 113: the concatenation, the weighting and the scatter-add, with the errors of each step; characterised by Combine.UnweightedCombineFails and RoundTrip.CombinedIsIndexAdd |
| Combine.ViewAsFirst | bittensor/utils/dispatcher.py:116 | definition of `combined.view(expert_out[0].shape)`; characterised by Combine.CombinedView |
| Combine.Combined | bittensor/utils/dispatcher.py:85-118 | definition of `combine` as written, the sum followed by the final view; characterised by Combine.UnweightedCombineFails, Combine.CombinedView and RoundTrip.ReshapeAfterDispatch |
| Combine.CombinedAsDocumented | bittensor/utils/dispatcher.py:71-81 | definition of `combine` as documented: the code's weighted sum, an unweighted sum when the gates are ignored, and the shape `[batch_size, width]`; characterised by Combine.UnweightedCombineSums, RoundTrip.CombinedIsIndexAdd and RoundTrip.CombineAfterDispatch |
| Combine.UnweightedCombineFails | bittensor/utils/dispatcher.py:88-113 | as written, `combine` with `multiply_by_gates=False` raises whenever the concatenated outputs are non-empty and of width `width`. `batch_index` is read before it is assigned |
| Combine.CombinedView | bittensor/utils/dispatcher.py:116 | the final view succeeds if and only if the sum does and either `width == 0` or the first expert holds B rows. When the first expert holds B rows, the result is the sum unchanged. When `width == 0` and it holds another number of rows, the result is that many empty rows. When `width > 0` and it does not hold B rows, the view raises |
| Combine.UnweightedCombineSums | bittensor/utils/dispatcher.py:74-75 | with the gate values ignored, `combine` succeeds if and only if the outputs are non-empty, have width `width` and one row per assignment. Row `b` is then the plain sum of the stitched rows assigned to `b` |
| Combine.IndexAddAbsent | bittensor/utils/dispatcher.py:108-113 | a buffer row the index never names stays zero |
| Combine.UnroutedRow | bittensor/utils/dispatcher.py:108-113 | a row whose gates are all zero never occurs in `batch_index` |
| Combine.ZeroGateRow | bittensor/utils/dispatcher.py:108-113 | a row whose gates are all zero gets an all-zero output row |
| RoundTrip.ContributionAppend | bittensor/utils/dispatcher.py:113 | a row's accumulated contribution over a concatenation is the sum over its parts |
| RoundTrip.ContributionSingle | bittensor/utils/dispatcher.py:113 | one assignment contributes only to its own row |
| RoundTrip.ColumnContribution | bittensor/utils/dispatcher.py:113 | expert `e`'s column contributes to row `b` once if `gates[b][e] != 0`, and otherwise not at all |
| RoundTrip.ColumnsContribution | bittensor/utils/dispatcher.py:113 | the first `k` columns contribute to row `b` exactly once per routed expert below `k` |
| RoundTrip.PickedMixture | bittensor/utils/dispatcher.py:33 | those contributions add up to the documented mixture over the first `k` experts |
| RoundTrip.ScatterContribution | bittensor/utils/dispatcher.py:113 | `index_add` at the assignment rows is the sum of the assignments' terms for that row |
| RoundTrip.Outputs | bittensor/utils/dispatcher.py:30 | there is one expert output per assignment |
| RoundTrip.FlattenOutputs | bittensor/utils/dispatcher.py:85 | concatenating per-column outputs is the same as taking outputs over the concatenated columns |
| RoundTrip.ChunkOutputs | bittensor/utils/dispatcher.py:64-65 | an expert applied to its chunk gives the outputs of its column of assignments |
| RoundTrip.StitchedOutputs | bittensor/utils/dispatcher.py:85 | `torch.cat` of the experts' outputs on their chunks lines up with the assignment list |
| RoundTrip.CombinedIsIndexAdd | bittensor/utils/dispatcher.py:85-113 | when the stitched rows fit the assignment list, `combine` is `index_add` of the (weighted) rows at `batch_index` |
| RoundTrip.SourceTerms | bittensor/utils/dispatcher.py:99-105 | weighted row `i` holds assignment `i`'s gate times its expert's output |
| RoundTrip.RowMixture | bittensor/utils/dispatcher.py:113 | scattering those rows gives the mixture at every row and feature |
| RoundTrip.StitchedFits | bittensor/utils/dispatcher.py:65 | dispatch succeeds and gives E chunks, whose stitched outputs follow the assignment list with the right width |
| RoundTrip.CombineAfterDispatch | bittensor/utils/dispatcher.py:28-33 | the documented combine (the code's flat `[B, width]` sum before the line-116 view) of what dispatch produced succeeds with shape `[B, width]`. Weighted, `output[b][d]` is `Sum_e gates[b, e] * f(e, x[b])[d]`; unweighted, the same sum over the routed experts. The weighted result is the code's own sum |
| RoundTrip.MixtureOneHot | bittensor/utils/dispatcher.py:33 | with one gate of 1 per row and identity experts, the mixture is the input row |
| RoundTrip.MixtureScaled | bittensor/utils/dispatcher.py:33 | scaling row `b`'s gates by `c` scales its mixture by `c` |
| RoundTrip.CombinedAt | bittensor/utils/dispatcher.py:32-33 | each feature of each output row is that row's mixture |
| RoundTrip.CombineKeepsRow | bittensor/utils/dispatcher.py:32-33 | changing other rows' gates leaves row `b`'s output unchanged |
| RoundTrip.MixtureOtherRow | bittensor/utils/dispatcher.py:33 | a row's mixture depends only on that row's gates |
| RoundTrip.ReshapeAfterDispatch | bittensor/utils/dispatcher.py:116 | as written, when expert 0 does not receive all B rows and `width > 0`, combining dispatch's output raises at the final view |
| RoundTrip.HardRoutingRoundTrip | bittensor/utils/dispatcher.py:28-33 | with exactly one gate of 1 per row and identity experts, dispatch followed by the documented combine (the code's flat sum before the line-116 view) returns the input. As written, the view then raises unless expert 0 received every row or `width == 0` (RoundTrip.ReshapeAfterDispatch) |

## Left out

- SparseDispatcher.Dispatcher.Combine: `multiply_by_gates` defaults to
  `True` in the source (line 70). The model has no default arguments, so
  every caller passes it.
- SparseDispatcher.Dispatcher.Combine: `width` has no counterpart in the
  source; it stands for the feature count D of the expert outputs. A
  `width` that disagrees with non-empty rows yields `ShapeMismatch`, where
  the code would go on with the rows' own width.

- `bittensor/_neuron/text/core_validator/model.py` is not part of this
  model. It is argument parsing, remote calls, an event loop, random
  placeholder losses and timing, with no stateable logic.
- Device placement (`torch.device`, `.to(self.device)`), `requires_grad` and
  `.float()` are hardware and autograd plumbing, so they are not modelled.
- Floating point is not modelled. Gates and features are `real`, and
  `index_add` is exact summation.
- Trailing-dimension flattening (line 86) is omitted. Every row is a 1-D
  sequence of `width` features, so `flatten` is the identity.
- `torch.sort` tie-breaking is replaced by the explicit key (expert, row).
  torch does not promise a stable order within one expert.
- The experts are a function `f(e, row)` applied row by row. An expert
  that looks at its whole minibatch at once is outside the model.
- The tensor branch's `torch.split` returns views of one tensor. The model
  returns separate sequences, so sharing storage is not captured.
- Results that hold tensors (chunks, combined buffers) are sequences of
  rows. Shapes appear as row counts and the `width` parameter.
- RoundTrip.MixtureScaled: linearity in the gates is stated for the
  mixture of one row. Through CombinedAt, that mixture is the row `combine`
  returns; there is no single lemma scaling the whole combined output.
- SparseDispatcher.Dispatcher.Combine: it returns the documented result
  (Combine.CombinedAsDocumented), not the result as written. As written,
  the unweighted path raises and the result is viewed with the first
  expert's shape; `Combine.Combined` models that and the findings below
  state it.
- The class docstring builds the object as `SparseDispatcher(num_experts,
  gates)`. The code's constructor takes no argument and receives `gates`
  with every call; the model follows the code.
- The docstring includes rows with `gates[b, i] > 0` (line 35). The code
  tests `!= 0` (lines 44 and 53), as does line 19; the model follows the
  code, so negative gates route too.
- `combine` never reads the recorded `_expert_index`; it derives the
  assignment list from `gates` again (lines 91-97). The model's `Combine`
  does the same.

## Findings

| source | as written | input that shows it | evidently intended | confidence | as-written member | corrected member |
|---|---|---|---|---|---|---|
| bittensor/utils/dispatcher.py:88-113 | `batch_index` is assigned only inside `if multiply_by_gates:`, and line 113 reads it unconditionally, so the unweighted call raises `UnboundLocalError` | any gates and expert outputs of matching width, with `multiply_by_gates=False` | the gate values are ignored and the stitched rows are summed unweighted at their batch rows (lines 74-75) | not executed | Combine.UnweightedCombineFails | Combine.UnweightedCombineSums |
| bittensor/utils/dispatcher.py:116 | the `[B, width]` sum is viewed with the shape of `expert_out[0]`, which has `part_sizes[0]` rows, so the view fails unless expert 0 received every row | gates `[[1, 0], [0, 1]]`, identity experts on rows of width 1: expert 0 gets 1 of the 2 rows, and viewing 2 elements as shape `[1, 1]` raises | the result has shape `[batch_size, ...]` (lines 80-81) | not executed | RoundTrip.ReshapeAfterDispatch | RoundTrip.CombineAfterDispatch |
