/** How the two branches of `dispatch` relate: the list branch cuts
    `batch_index` into pieces of the batch size, the tensor branch into one
    chunk per expert, and the two agree only when every expert gets every row. */
module Branches {
  import opened Seqs
  import opened Routing
  import opened Errors
  import opened Dispatch

  /** Column `e` has at most `n` non-zeros among its first `n` rows, and
      exactly `n` when none of those gates is zero. */
  lemma {:induction false} ColumnCountFull(g: Gates, numExperts: nat, e: nat, n: nat)
    requires IsMatrix(g, numExperts) && e < numExperts && n <= |g|
    ensures ColumnCount(g, numExperts, e, n) <= n
    ensures ColumnCount(g, numExperts, e, n) == n <==> forall b :: 0 <= b < n ==> g[b][e] != 0.0
  {
    if n > 0 {
      ColumnCountFull(g, numExperts, e, n - 1);
    }
  }

  /** Reshaping the concatenation of pieces of length `width` into pieces of
      length `width` gives the pieces back. */
  lemma {:induction false} ReshapeFlatten(cs: seq<seq<nat>>, width: nat)
    requires forall i :: 0 <= i < |cs| ==> |cs[i]| == width
    ensures |Flatten(cs)| == Offset(|cs|, width)
    ensures Reshape(Flatten(cs), width, |cs|) == cs
  {
    if cs != [] {
      ReshapeFlatten(cs[1..], width);
      var flat := Flatten(cs);
      assert flat == cs[0] + Flatten(cs[1..]);
      assert flat[..width] == cs[0] && flat[width..] == Flatten(cs[1..]);
      assert cs == [cs[0]] + cs[1..];
    }
  }

  /** A positive multiple of `w` is at least `w`. */
  lemma {:induction false} MulAtLeast(k: int, w: nat)
    ensures k >= 1 ==> k * w >= w
  {
    if k > 1 {
      MulAtLeast(k - 1, w);
      assert k * w == (k - 1) * w + w;
    }
  }

  /** Euclidean division is determined by quotient and remainder. */
  lemma DivUnique(a: int, w: nat, q: int, r: int)
    requires w > 0 && 0 <= r < w && a == q * w + r
    ensures a / w == q && a % w == r
  {
    var q', r' := a / w, a % w;
    MulAtLeast(q' - q, w);
    MulAtLeast(q - q', w);
    assert (q' - q) * w == q' * w - q * w;
    assert (q - q') * w == q * w - q' * w;
  }

  lemma OffsetDiv(count: nat, width: nat)
    requires width > 0
    ensures Offset(count, width) % width == 0 && Offset(count, width) / width == count
  {
    OffsetMul(count, width);
    DivUnique(Offset(count, width), width, count, 0);
  }

  /** Viewing the concatenation of pieces of length `width` as rows of
      `width` and gathering gives the pieces gathered. */
  lemma ViewOfPieces<T>(x: seq<T>, cs: seq<seq<nat>>, width: nat)
    requires width > 0 && forall i :: 0 <= i < |cs| ==> |cs[i]| == width
    ensures ViewGathered(x, Flatten(cs), width) == GatherPieces(x, cs)
  {
    ReshapeFlatten(cs, width);
    OffsetDiv(|cs|, width);
  }

  /** When every gate is non-zero every expert receives all B rows. */
  lemma FullColumns(g: Gates, numExperts: nat)
    requires IsMatrix(g, numExperts)
    requires forall b, e :: 0 <= b < |g| && 0 <= e < numExperts ==> g[b][e] != 0.0
    ensures forall e :: 0 <= e < numExperts ==> |ExpertRows(g, numExperts, e)| == |g|
  {
    forall e | 0 <= e < numExperts
      ensures |ExpertRows(g, numExperts, e)| == |g|
    {
      ColumnCountFull(g, numExperts, e, |g|);
      ExpertRowsFacts(g, numExperts, e);
    }
  }

  /** When every gate is non-zero the list branch gathers exactly the
      per-expert row lists. */
  lemma FullListPieces<T>(x: seq<T>, g: Gates, numExperts: nat)
    requires IsMatrix(g, numExperts) && 0 < |g|
    requires forall b, e :: 0 <= b < |g| && 0 <= e < numExperts ==> g[b][e] != 0.0
    ensures ListDispatch(x, g, numExperts) == GatherPieces(x, ColumnRows(g, numExperts))
  {
    var rc := ColumnRows(g, numExperts);
    ColumnRowsFacts(g, numExperts);
    FullColumns(g, numExperts);
    assert forall k :: 0 <= k < |rc| ==> |rc[k]| == |g| by {
      forall k | 0 <= k < |rc| ensures |rc[k]| == |g| {
        assert rc[k] == ExpertRows(g, numExperts, k);
      }
    }
    ViewOfPieces(x, rc, |g|);
  }

  /** Gathering the per-expert row lists is the tensor branch. */
  lemma ColumnPiecesTensor<T>(x: seq<T>, g: Gates, numExperts: nat)
    requires IsMatrix(g, numExperts) && |g| <= |x|
    ensures GatherPieces(x, ColumnRows(g, numExperts)) == TensorDispatch(x, g, numExperts)
  {
    var rc := ColumnRows(g, numExperts);
    ColumnRowsFacts(g, numExperts);
    TensorChunks(x, g, numExperts);
    assert forall k :: 0 <= k < |rc| ==> AllBelow(rc[k], |x|);
    var gathered := seq(|rc|, k requires 0 <= k < |rc| => Gather(x, rc[k]));
    assert GatherPieces(x, rc) == Ok(gathered);
    assert gathered == seq(numExperts, e requires 0 <= e < numExperts => Gather(x, ExpertRows(g, numExperts, e)));
  }

  /** When every gate is non-zero, the list branch cuts `batch_index` into
      exactly the expert chunks of the tensor branch. */
  lemma FullGatesAgree<T>(x: seq<T>, g: Gates, numExperts: nat)
    requires IsMatrix(g, numExperts) && 0 < |g| <= |x|
    requires forall b, e :: 0 <= b < |g| && 0 <= e < numExperts ==> g[b][e] != 0.0
    ensures ListDispatch(x, g, numExperts) == TensorDispatch(x, g, numExperts)
  {
    FullListPieces(x, g, numExperts);
    ColumnPiecesTensor(x, g, numExperts);
  }

  /** When some gate is zero the list branch cannot return the expert chunks:
      its pieces all have B items, while that expert's chunk has fewer. */
  lemma SparseGatesDisagree<T>(x: seq<T>, g: Gates, numExperts: nat, b: nat, e: nat)
    requires IsMatrix(g, numExperts) && 0 < |g| <= |x|
    requires b < |g| && e < numExperts && g[b][e] == 0.0
    ensures ListDispatch(x, g, numExperts) != TensorDispatch(x, g, numExperts)
  {
    TensorChunks(x, g, numExperts);
    var chunks := TensorDispatch(x, g, numExperts).value;
    ColumnCountFull(g, numExperts, e, |g|);
    ExpertRowsFacts(g, numExperts, e);
    assert |chunks[e]| < |g|;
    if ListDispatch(x, g, numExperts).Ok? {
      ListBranchShape(x, BatchIndex(g, numExperts), |g|);
    }
  }

  /** The list branch agrees with the per-expert split exactly when every
      expert receives all B rows. */
  lemma ListMatchesTensor<T>(x: seq<T>, g: Gates, numExperts: nat)
    requires IsMatrix(g, numExperts) && 0 < |g| <= |x|
    ensures ListDispatch(x, g, numExperts) == TensorDispatch(x, g, numExperts) <==>
      forall b, e :: 0 <= b < |g| && 0 <= e < numExperts ==> g[b][e] != 0.0
  {
    if forall b, e :: 0 <= b < |g| && 0 <= e < numExperts ==> g[b][e] != 0.0 {
      FullGatesAgree(x, g, numExperts);
    } else {
      var b, e :| 0 <= b < |g| && 0 <= e < numExperts && g[b][e] == 0.0;
      SparseGatesDisagree(x, g, numExperts, b, e);
    }
  }
}
