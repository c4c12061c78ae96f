/** `Dispatcher.combine`: stitching the expert outputs together, weighting
    them by their gates and summing them back into one row per batch element. */
module Combine {
  import opened Seqs
  import opened Routing
  import opened Errors
  import opened Dispatch

  // ---------------------------------------------------------------------
  // Rows of features

  /** A row of `torch.zeros`: `width` zero features. */
  function Zeros(width: nat): seq<real>
  {
    seq(width, _ => 0.0)
  }

  /** Feature-wise addition of two rows of the same width. */
  function Add(u: seq<real>, v: seq<real>): seq<real>
    requires |u| == |v|
  {
    seq(|u|, d requires 0 <= d < |u| => u[d] + v[d])
  }

  /** A row multiplied by one gate value (`mul` with a broadcast scalar). */
  function Scale(c: real, v: seq<real>): seq<real>
  {
    seq(|v|, d requires 0 <= d < |v| => c * v[d])
  }

  /** Every row has `width` features: a two-dimensional tensor `[n, width]`. */
  predicate HasWidth(rows: seq<seq<real>>, width: nat)
  {
    forall i :: 0 <= i < |rows| ==> |rows[i]| == width
  }

  // ---------------------------------------------------------------------
  // index_add into a zero buffer

  /** Feature `d` of output row `b` after `index_add(0, index, src)` on zeros:
      the sum of `src[i][d]` over the positions `i` with `index[i] == b`. */
  function ScatterAt(index: seq<nat>, src: seq<seq<real>>, b: nat, d: nat): real
    requires |index| == |src|
    requires forall i :: 0 <= i < |src| ==> d < |src[i]|
    decreases |index|
  {
    if index == [] then 0.0
    else
      var n := |index| - 1;
      ScatterAt(index[..n], src[..n], b, d) + (if index[n] == b then src[n][d] else 0.0)
  }

  /** `zeros(batchSize, width).index_add(0, index, src)`. */
  function IndexAdd(batchSize: nat, width: nat, index: seq<nat>, src: seq<seq<real>>): (r: seq<seq<real>>)
    requires |index| == |src| && HasWidth(src, width)
    ensures |r| == batchSize && HasWidth(r, width)
  {
    seq(batchSize, b requires 0 <= b < batchSize =>
      seq(width, d requires 0 <= d < width => ScatterAt(index, src, b, d)))
  }

  /** A row that `index` never names receives nothing. */
  lemma {:induction false} ScatterAbsent(index: seq<nat>, src: seq<seq<real>>, b: nat, d: nat)
    requires |index| == |src|
    requires forall i :: 0 <= i < |src| ==> d < |src[i]|
    requires b !in index
    ensures ScatterAt(index, src, b, d) == 0.0
  {
    if index != [] {
      var n := |index| - 1;
      assert index[..n] + [index[n]] == index;
      ScatterAbsent(index[..n], src[..n], b, d);
    }
  }

  /** The in-place scatter-accumulate of `combine`: a zero buffer of
      `batchSize` rows, and `src[i]` added into row `index[i]`, one `i` at a time. */
  method ScatterAdd(batchSize: nat, width: nat, index: seq<nat>, src: seq<seq<real>>) returns (out: seq<seq<real>>)
    requires |index| == |src| && HasWidth(src, width) && AllBelow(index, batchSize)
    ensures out == IndexAdd(batchSize, width, index, src)
  {
    var buffer := new seq<real>[batchSize](_ => Zeros(width));
    var i := 0;
    while i < |index|
      invariant 0 <= i <= |index|
      invariant forall b :: 0 <= b < batchSize ==>
        buffer[b] == seq(width, d requires 0 <= d < width => ScatterAt(index[..i], src[..i], b, d))
    {
      var target := index[i];
      forall b, d | 0 <= b < batchSize && 0 <= d < width
        ensures ScatterAt(index[..i + 1], src[..i + 1], b, d)
             == ScatterAt(index[..i], src[..i], b, d) + (if target == b then src[i][d] else 0.0)
      {
        assert index[..i + 1][..i] == index[..i];
        assert src[..i + 1][..i] == src[..i];
      }
      buffer[target] := Add(buffer[target], src[i]);
      i := i + 1;
    }
    assert index[..i] == index && src[..i] == src;
    out := buffer[..];
  }

  // ---------------------------------------------------------------------
  // Gate weighting and the combined output

  /** The gate value of a routed pair (`torch.gather(gates[batch_index], 1, expert_index)`). */
  function GateOf(g: Gates, numExperts: nat, p: Pair): real
    requires IsMatrix(g, numExperts) && Assigned(g, numExperts, p)
  {
    g[p.row][p.expert]
  }

  /** `flat_stitched.mul(nonzero_gates)`: stitched row `i` times the gate of
      assignment `i`; a single stitched row is broadcast to every assignment. */
  function GateWeighted(g: Gates, numExperts: nat, list: seq<Pair>, stitched: seq<seq<real>>): seq<seq<real>>
    requires IsMatrix(g, numExperts)
    requires forall i :: 0 <= i < |list| ==> Assigned(g, numExperts, list[i])
    requires |stitched| == |list| || |stitched| == 1
  {
    seq(|list|, i requires 0 <= i < |list| =>
      Scale(GateOf(g, numExperts, list[i]), stitched[if |stitched| == 1 then 0 else i]))
  }

  lemma GateWeightedWidth(g: Gates, numExperts: nat, list: seq<Pair>, stitched: seq<seq<real>>, width: nat)
    requires IsMatrix(g, numExperts)
    requires forall i :: 0 <= i < |list| ==> Assigned(g, numExperts, list[i])
    requires |stitched| == |list| || |stitched| == 1
    requires HasWidth(stitched, width)
    ensures HasWidth(GateWeighted(g, numExperts, list, stitched), width)
  {
  }

  /** On the assignment list, stitched row `i` (or the single broadcast row)
      is scaled by `gates[batch_index[i]][expert_index[i]]`, the value that
      `gather(gates[batch_index], 1, expert_index)` picks, and that gate is
      non-zero. */
  lemma GateWeightedAssignments(g: Gates, numExperts: nat, stitched: seq<seq<real>>, i: nat)
    requires IsMatrix(g, numExperts)
    requires |stitched| == |Assignments(g, numExperts)| || |stitched| == 1
    requires i < |Assignments(g, numExperts)|
    ensures forall j :: 0 <= j < |Assignments(g, numExperts)| ==> Assigned(g, numExperts, Assignments(g, numExperts)[j])
    ensures |BatchIndex(g, numExperts)| == |ExpertIndex(g, numExperts)| == |Assignments(g, numExperts)|
    ensures BatchIndex(g, numExperts)[i] < |g| && ExpertIndex(g, numExperts)[i] < numExperts
    ensures g[BatchIndex(g, numExperts)[i]][ExpertIndex(g, numExperts)[i]] != 0.0
    ensures |GateWeighted(g, numExperts, Assignments(g, numExperts), stitched)| == |Assignments(g, numExperts)|
    ensures GateWeighted(g, numExperts, Assignments(g, numExperts), stitched)[i]
         == Scale(g[BatchIndex(g, numExperts)[i]][ExpertIndex(g, numExperts)[i]], stitched[if |stitched| == 1 then 0 else i])
  {
    AssignmentsRouted(g, numExperts);
  }

  /** The sum that `combine` computes before its final reshape, as written:
      `torch.cat` of the expert outputs (which refuses an empty list and rows
      of another width), then, only when `multiplyByGates` holds, the
      assignment list and the gate weighting; without it, `batch_index` is
      read unassigned. */
  function Summed(expertOut: seq<seq<seq<real>>>, g: Gates, numExperts: nat, width: nat, multiplyByGates: bool)
    : Result<seq<seq<real>>>
    requires IsMatrix(g, numExperts)
  {
    if expertOut == [] then Err(EmptyConcat)
    else
      var stitched := Flatten(expertOut);
      if !HasWidth(stitched, width) then Err(ShapeMismatch)
      else if !multiplyByGates then Err(UnboundBatchIndex)
      else
        var list := Assignments(g, numExperts);
        if |stitched| != |list| && |stitched| != 1 then Err(ShapeMismatch)
        else
          AssignmentsRouted(g, numExperts);
          GateWeightedWidth(g, numExperts, list, stitched, width);
          Ok(IndexAdd(|g|, width, Rows(list), GateWeighted(g, numExperts, list, stitched)))
  }

  /** `combined.view(expert_out[0].shape)`: the `[batchSize, width]` sum
      viewed with the shape `[n0, width]` of the first expert's output, which
      holds the same number of elements only when `n0` is the batch size or
      the rows are empty. */
  function ViewAsFirst(combined: seq<seq<real>>, first: seq<seq<real>>, width: nat): Result<seq<seq<real>>>
  {
    if width == 0 then Ok(seq(|first|, _ => []))
    else if |first| == |combined| then Ok(combined)
    else Err(ReshapeFailed)
  }

  /** `combine` as written: the sum, then the final reshape. */
  function Combined(expertOut: seq<seq<seq<real>>>, g: Gates, numExperts: nat, width: nat, multiplyByGates: bool)
    : Result<seq<seq<real>>>
    requires IsMatrix(g, numExperts)
  {
    var summed := Summed(expertOut, g, numExperts, width, multiplyByGates);
    if summed.Err? then summed else ViewAsFirst(summed.value, expertOut[0], width)
  }

  /** `combine` as its documentation describes it: the sum of `Summed`,
      except that without `multiplyByGates` the gate values are ignored and
      the stitched rows are summed unweighted, returned with the documented
      shape `[batch_size, width]`. */
  function CombinedAsDocumented(expertOut: seq<seq<seq<real>>>, g: Gates, numExperts: nat, width: nat, multiplyByGates: bool)
    : Result<seq<seq<real>>>
    requires IsMatrix(g, numExperts)
  {
    if multiplyByGates then Summed(expertOut, g, numExperts, width, true)
    else if expertOut == [] then Err(EmptyConcat)
    else
      var stitched := Flatten(expertOut);
      var list := Assignments(g, numExperts);
      if !HasWidth(stitched, width) || |stitched| != |list| then Err(ShapeMismatch)
      else Ok(IndexAdd(|g|, width, Rows(list), stitched))
  }

  /** As written, `combine` without `multiply_by_gates` fails whenever the
      concatenation succeeds: `batch_index` is read before it is bound. */
  lemma UnweightedCombineFails(expertOut: seq<seq<seq<real>>>, g: Gates, numExperts: nat, width: nat)
    requires IsMatrix(g, numExperts) && expertOut != [] && HasWidth(Flatten(expertOut), width)
    ensures Combined(expertOut, g, numExperts, width, false) == Err(UnboundBatchIndex)
    ensures Combined(expertOut, g, numExperts, width, false).Err?
  {
  }

  /** As written, the final reshape keeps a successful sum exactly when the
      first expert received the whole batch (or the rows are empty), and
      otherwise fails. */
  lemma CombinedView(expertOut: seq<seq<seq<real>>>, g: Gates, numExperts: nat, width: nat, multiplyByGates: bool)
    requires IsMatrix(g, numExperts)
    ensures var r, summed := Combined(expertOut, g, numExperts, width, multiplyByGates), Summed(expertOut, g, numExperts, width, multiplyByGates);
      && (r.Ok? <==> summed.Ok? && (width == 0 || |expertOut[0]| == |g|))
      && (summed.Ok? && |expertOut[0]| == |g| ==> r == summed)
      && (summed.Ok? && width > 0 && |expertOut[0]| != |g| ==> r == Err(ReshapeFailed))
  {
    var summed := Summed(expertOut, g, numExperts, width, multiplyByGates);
    if summed.Ok? {
      assert |summed.value| == |g| && HasWidth(summed.value, width);
      if width == 0 && |expertOut[0]| == |g| {
        assert seq(|expertOut[0]|, _ => []) == summed.value;
      }
    }
  }

  /** As documented, the unweighted `combine` succeeds exactly when there is
      one stitched row of width `width` per assignment, and then row `b` is
      the plain sum of the stitched rows of the assignments to `b`. */
  lemma UnweightedCombineSums(expertOut: seq<seq<seq<real>>>, g: Gates, numExperts: nat, width: nat)
    requires IsMatrix(g, numExperts)
    ensures var r := CombinedAsDocumented(expertOut, g, numExperts, width, false);
      var stitched, list := Flatten(expertOut), Assignments(g, numExperts);
      && (r.Ok? <==> expertOut != [] && HasWidth(stitched, width) && |stitched| == |list|)
      && (r.Ok? ==> |r.value| == |g| && HasWidth(r.value, width))
      && (r.Ok? ==> forall b, d :: 0 <= b < |g| && 0 <= d < width ==> r.value[b][d] == ScatterAt(Rows(list), stitched, b, d))
  {
  }

  /** A row that `index` never names stays zero. */
  lemma IndexAddAbsent(batchSize: nat, width: nat, index: seq<nat>, src: seq<seq<real>>, b: nat)
    requires |index| == |src| && HasWidth(src, width) && b < batchSize && b !in index
    ensures IndexAdd(batchSize, width, index, src)[b] == Zeros(width)
  {
    forall d | 0 <= d < width
      ensures IndexAdd(batchSize, width, index, src)[b][d] == 0.0
    {
      ScatterAbsent(index, src, b, d);
    }
  }

  /** A batch element whose gates are all zero appears nowhere in `batch_index`. */
  lemma UnroutedRow(g: Gates, numExperts: nat, b: nat)
    requires IsMatrix(g, numExperts) && b < |g|
    requires forall e :: 0 <= e < numExperts ==> g[b][e] == 0.0
    ensures b !in Rows(Assignments(g, numExperts))
  {
    var list := Assignments(g, numExperts);
    AssignmentsRouted(g, numExperts);
    var index := Rows(list);
    forall i | 0 <= i < |index|
      ensures index[i] != b
    {
      assert Assigned(g, numExperts, list[i]);
    }
  }

  /** A batch element whose gates are all zero gets an all-zero output row,
      whatever the experts returned. */
  lemma ZeroGateRow(expertOut: seq<seq<seq<real>>>, g: Gates, numExperts: nat, width: nat, weighted: bool, b: nat)
    requires IsMatrix(g, numExperts) && b < |g|
    requires forall e :: 0 <= e < numExperts ==> g[b][e] == 0.0
    requires CombinedAsDocumented(expertOut, g, numExperts, width, weighted).Ok?
    ensures CombinedAsDocumented(expertOut, g, numExperts, width, weighted).value[b] == Zeros(width)
  {
    var list := Assignments(g, numExperts);
    var stitched := Flatten(expertOut);
    UnroutedRow(g, numExperts, b);
    AssignmentsRouted(g, numExperts);
    GateWeightedWidth(g, numExperts, list, stitched, width);
    var src := if weighted then GateWeighted(g, numExperts, list, stitched) else stitched;
    assert CombinedAsDocumented(expertOut, g, numExperts, width, weighted) == Ok(IndexAdd(|g|, width, Rows(list), src));
    IndexAddAbsent(|g|, width, Rows(list), src, b);
  }
}
