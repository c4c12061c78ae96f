/** The `Dispatcher` object of a sparse mixture of experts: `dispatch` sends
    every batch row to the experts whose gate for it is non-zero and
    remembers the expert of every assignment; `combine` sums the experts'
    outputs back into one row per batch element. */
module SparseDispatcher {
  import opened Seqs
  import opened Routing
  import opened Errors
  import opened Dispatch
  import opened Combine

  class Dispatcher {
    /** `self._expert_index`: the expert of every assignment of the last
        `dispatch`; absent until the first one. */
    var expertIndex: Option<seq<nat>>

    constructor()
      ensures expertIndex == None
    {
      expertIndex := None;
    }

    /** Sort the non-zero gates by expert, keep their experts in
        `expertIndex`, then cut the input into one minibatch per expert
        (tensor input) or into pieces of the batch size (list input). The
        expert index is recorded even when the list branch then fails. */
    method Dispatch<T>(x: Input<T>, gates: Gates, numExperts: nat) returns (r: Result<seq<seq<T>>>)
      requires IsMatrix(gates, numExperts)
      modifies this
      ensures expertIndex == Some(ExpertIndex(gates, numExperts))
      ensures r == Dispatched(x, gates, numExperts)
    {
      var list := Assignments(gates, numExperts);
      expertIndex := Some(Experts(list));
      var batchIndex := Rows(list);
      var partSizes := PartSizes(gates, numExperts);
      match x {
        case ListItems(items) =>
          var batchSize := |gates|;
          if batchSize == 0 || |batchIndex| % batchSize != 0 {
            r := Err(ReshapeFailed);
            assert r == ViewGathered(items, batchIndex, batchSize);
          } else {
            r := GatherList(items, View(batchIndex, batchSize));
            assert r == ViewGathered(items, batchIndex, batchSize);
          }
          assert batchIndex == BatchIndex(gates, numExperts);
          assert r == ListDispatch(items, gates, numExperts);
        case TensorRows(rows) =>
          PartSizesCount(gates, numExperts);
          r := SplitGathered(rows, batchIndex, partSizes);
          assert r == TensorDispatch(rows, gates, numExperts);
      }
    }

    /** Concatenate the expert outputs, weight every row by its gate (or,
        without `multiplyByGates`, leave it unweighted), and accumulate the
        rows into a zero `[batch_size, width]` buffer at their batch rows. */
    method Combine(expertOut: seq<seq<seq<real>>>, gates: Gates, numExperts: nat, width: nat, multiplyByGates: bool)
      returns (r: Result<seq<seq<real>>>)
      requires IsMatrix(gates, numExperts)
      ensures r == CombinedAsDocumented(expertOut, gates, numExperts, width, multiplyByGates)
      ensures multiplyByGates ==> r == Summed(expertOut, gates, numExperts, width, true)
      ensures r.Ok? ==> |r.value| == |gates| && HasWidth(r.value, width)
    {
      if expertOut == [] {
        return Err(EmptyConcat);
      }
      var stitched := Flatten(expertOut);
      if !HasWidth(stitched, width) {
        return Err(ShapeMismatch);
      }
      var list := Assignments(gates, numExperts);
      var src: seq<seq<real>>;
      if multiplyByGates {
        if |stitched| != |list| && |stitched| != 1 {
          return Err(ShapeMismatch);
        }
        AssignmentsRouted(gates, numExperts);
        GateWeightedWidth(gates, numExperts, list, stitched, width);
        src := GateWeighted(gates, numExperts, list, stitched);
      } else {
        if |stitched| != |list| {
          return Err(ShapeMismatch);
        }
        src := stitched;
      }
      BatchIndexBelow(gates, numExperts, |gates|);
      var out := ScatterAdd(|gates|, width, Rows(list), src);
      r := Ok(out);
    }
  }
}
