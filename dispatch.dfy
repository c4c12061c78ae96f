/** `Dispatcher.dispatch`: cutting a batch into one sub-batch per expert. */
module Dispatch {
  import opened Seqs
  import opened Routing
  import opened Errors

  /** What `dispatch` is given: a tensor of rows, or a Python list of
      arbitrary row objects (the two branches of `isinstance(x, list)`). */
  datatype Input<T> = TensorRows(rows: seq<T>) | ListItems(items: seq<T>)

  /** The rows routed to expert `e`, from its column of assignments. */
  function ExpertRows(g: Gates, numExperts: nat, e: nat): seq<nat>
    requires IsMatrix(g, numExperts) && e < numExperts
  {
    Rows(ColumnNonzeros(g, numExperts, e, |g|))
  }

  /** Expert `e` receives exactly the rows with a non-zero gate in column
      `e`, in ascending order, `part_sizes[e]` of them. */
  lemma ExpertRowsFacts(g: Gates, numExperts: nat, e: nat)
    requires IsMatrix(g, numExperts) && e < numExperts
    ensures var r := ExpertRows(g, numExperts, e);
      && |r| == PartSizes(g, numExperts)[e]
      && (forall i, j :: 0 <= i < j < |r| ==> r[i] < r[j])
      && (forall b :: b in r <==> 0 <= b < |g| && g[b][e] != 0.0)
  {
    var col := ColumnNonzeros(g, numExperts, e, |g|);
    ColumnNonzerosFacts(g, numExperts, e, |g|);
    ColumnCountLength(g, numExperts, e, |g|);
    var r := ExpertRows(g, numExperts, e);
    forall b ensures b in r <==> 0 <= b < |g| && g[b][e] != 0.0 {
      if b in r {
        var i :| 0 <= i < |r| && r[i] == b;
        assert col[i].row == b && Assigned(g, numExperts, col[i]);
      }
      if 0 <= b < |g| && g[b][e] != 0.0 {
        var i :| 0 <= i < |col| && col[i] == Pair(b, e);
        assert r[i] == b;
      }
    }
  }

  // ---------------------------------------------------------------------
  // The tensor branch

  /** `torch.split(x[batch_index], part_sizes)`; indexing `x` past its end raises. */
  function SplitGathered<T>(x: seq<T>, batchIndex: seq<nat>, sizes: seq<nat>): Result<seq<seq<T>>>
    requires Sum(sizes) == |batchIndex|
  {
    if !AllBelow(batchIndex, |x|) then Err(IndexOutOfRange)
    else Ok(Split(Gather(x, batchIndex), sizes))
  }

  /** The tensor branch of `dispatch`. */
  function TensorDispatch<T>(x: seq<T>, g: Gates, numExperts: nat): Result<seq<seq<T>>>
    requires IsMatrix(g, numExperts)
  {
    PartSizesCount(g, numExperts);
    SplitGathered(x, BatchIndex(g, numExperts), PartSizes(g, numExperts))
  }

  /** The tensor branch fails exactly when a routed row lies past the end of `x`. */
  lemma TensorDispatchFails<T>(x: seq<T>, g: Gates, numExperts: nat)
    requires IsMatrix(g, numExperts)
    ensures TensorDispatch(x, g, numExperts).Err? <==>
      exists b, e :: 0 <= b < |g| && 0 <= e < numExperts && g[b][e] != 0.0 && |x| <= b
  {
    assert TensorDispatch(x, g, numExperts).Err? <==> !AllBelow(BatchIndex(g, numExperts), |x|);
    BatchIndexBelow(g, numExperts, |x|);
  }

  /** The layout of the tensor branch: E chunks, chunk `e` of `part_sizes[e]`
      rows, and the chunks together are `x[batch_index]`. */
  lemma TensorChunkLayout<T>(x: seq<T>, g: Gates, numExperts: nat)
    requires IsMatrix(g, numExperts) && |g| <= |x|
    ensures TensorDispatch(x, g, numExperts).Ok?
    ensures var chunks, sizes, batchIndex := TensorDispatch(x, g, numExperts).value, PartSizes(g, numExperts),
                                             BatchIndex(g, numExperts);
      && |chunks| == numExperts
      && (forall e :: 0 <= e < numExperts ==> |chunks[e]| == sizes[e])
      && AllBelow(batchIndex, |x|)
      && Flatten(chunks) == Gather(x, batchIndex)
  {
    BatchIndexBelow(g, numExperts, |x|);
    PartSizesCount(g, numExperts);
    var sizes, batchIndex := PartSizes(g, numExperts), BatchIndex(g, numExperts);
    assert TensorDispatch(x, g, numExperts) == Ok(Split(Gather(x, batchIndex), sizes));
    FlattenSplit(Gather(x, batchIndex), sizes);
  }

  /** Row `j` of chunk `e` of the tensor branch is `x[batch_index[offset + j]]`,
      where `offset` is the sum of the part sizes of the experts before `e`. */
  lemma TensorChunkAt<T>(x: seq<T>, g: Gates, numExperts: nat, e: nat, j: nat)
    requires IsMatrix(g, numExperts) && |g| <= |x| && e < numExperts && j < PartSizes(g, numExperts)[e]
    ensures TensorDispatch(x, g, numExperts).Ok?
    ensures var sizes, batchIndex := PartSizes(g, numExperts), BatchIndex(g, numExperts);
      && Sum(sizes[..e]) + j < |batchIndex| && batchIndex[Sum(sizes[..e]) + j] < |x|
      && TensorDispatch(x, g, numExperts).value[e][j] == x[batchIndex[Sum(sizes[..e]) + j]]
  {
    BatchIndexBelow(g, numExperts, |x|);
    PartSizesCount(g, numExperts);
    var sizes, batchIndex := PartSizes(g, numExperts), BatchIndex(g, numExperts);
    var gathered := Gather(x, batchIndex);
    assert TensorDispatch(x, g, numExperts).value == Split(gathered, sizes);
    SplitElement(gathered, sizes, e, j);
    var k := Sum(sizes[..e]) + j;
    assert gathered[k] == x[batchIndex[k]];
  }

  /** The rows of every expert, in expert order. */
  function ColumnRows(g: Gates, numExperts: nat): seq<seq<nat>>
    requires IsMatrix(g, numExperts)
  {
    seq(numExperts, e requires 0 <= e < numExperts => ExpertRows(g, numExperts, e))
  }

  lemma ExpertRowsBelow(g: Gates, numExperts: nat, e: nat)
    requires IsMatrix(g, numExperts) && e < numExperts
    ensures AllBelow(ExpertRows(g, numExperts, e), |g|)
  {
    ExpertRowsFacts(g, numExperts, e);
    var r := ExpertRows(g, numExperts, e);
    forall i | 0 <= i < |r|
      ensures r[i] < |g|
    {
      assert r[i] in r;
    }
  }

  lemma ColumnRowsFacts(g: Gates, numExperts: nat)
    requires IsMatrix(g, numExperts)
    ensures |ColumnRows(g, numExperts)| == numExperts
    ensures forall e :: 0 <= e < numExperts ==> AllBelow(ColumnRows(g, numExperts)[e], |g|)
    ensures BatchIndex(g, numExperts) == Flatten(ColumnRows(g, numExperts))
    ensures PartSizes(g, numExperts) == Lengths(ColumnRows(g, numExperts))
  {
    var cols: seq<seq<Pair>> := Columns(g, numExperts);
    var rc: seq<seq<nat>> := ColumnRows(g, numExperts);
    forall e | 0 <= e < numExperts
      ensures AllBelow(rc[e], |g|)
    {
      ExpertRowsBelow(g, numExperts, e);
    }
    AssignmentsByExpert(g, numExperts);
    RowsFlatten(cols);
    assert rc == seq(numExperts, e requires 0 <= e < numExperts => Rows(cols[e]));
    PartSizesCount(g, numExperts);
  }

  /** Chunk `e` of the tensor branch holds exactly the rows routed to expert
      `e`, in ascending row order; an expert with no rows gets an empty chunk. */
  lemma TensorChunks<T>(x: seq<T>, g: Gates, numExperts: nat)
    requires IsMatrix(g, numExperts) && |g| <= |x|
    ensures forall e :: 0 <= e < numExperts ==> AllBelow(ExpertRows(g, numExperts, e), |x|)
    ensures TensorDispatch(x, g, numExperts) ==
      Ok(seq(numExperts, e requires 0 <= e < numExperts => Gather(x, ExpertRows(g, numExperts, e))))
  {
    var rc: seq<seq<nat>> := ColumnRows(g, numExperts);
    ColumnRowsFacts(g, numExperts);
    assert forall e :: 0 <= e < numExperts ==> rc[e] == ExpertRows(g, numExperts, e);
    GatherFlatten(x, rc);
    var gathered := seq(numExperts, e requires 0 <= e < numExperts => Gather(x, rc[e]));
    assert Lengths(gathered) == Lengths(rc);
    SplitFlatten(gathered);
    assert Split(Gather(x, BatchIndex(g, numExperts)), PartSizes(g, numExperts)) == gathered;
    assert gathered == seq(numExperts, e requires 0 <= e < numExperts => Gather(x, ExpertRows(g, numExperts, e)));
  }

  /** The rows of a concatenation are the concatenated rows. */
  lemma {:induction false} RowsFlatten(cs: seq<seq<Pair>>)
    ensures Rows(Flatten(cs)) == Flatten(seq(|cs|, e requires 0 <= e < |cs| => Rows(cs[e])))
  {
    if cs != [] {
      RowsFlatten(cs[1..]);
      assert seq(|cs|, e requires 0 <= e < |cs| => Rows(cs[e]))[1..]
          == seq(|cs| - 1, e requires 0 <= e < |cs| - 1 => Rows(cs[1..][e]));
      assert Rows(cs[0] + Flatten(cs[1..])) == Rows(cs[0]) + Rows(Flatten(cs[1..]));
    }
  }

  // ---------------------------------------------------------------------
  // The list branch

  /** Where piece `i` of a reshape into pieces of `width` starts: `i * width`,
      written as a repeated sum. */
  function Offset(i: nat, width: nat): nat
  {
    if i == 0 then 0 else Offset(i - 1, width) + width
  }

  lemma {:induction false} OffsetMul(i: nat, width: nat)
    ensures Offset(i, width) == i * width
  {
    if i > 0 {
      OffsetMul(i - 1, width);
      assert (i - 1) * width + width == i * width;
    }
  }

  /** `index.view(-1, width)` for an index list of `count * width` entries:
      `count` consecutive pieces of length `width`. */
  function Reshape(index: seq<nat>, width: nat, count: nat): (r: seq<seq<nat>>)
    requires |index| == Offset(count, width)
    ensures |r| == count
    ensures forall i :: 0 <= i < count ==> |r[i]| == width
  {
    if count == 0 then []
    else [index[..width]] + Reshape(index[width..], width, count - 1)
  }

  /** The pieces of the reshape together are the index list. */
  lemma {:induction false} FlattenReshape(index: seq<nat>, width: nat, count: nat)
    requires |index| == Offset(count, width)
    ensures Flatten(Reshape(index, width, count)) == index
  {
    if count > 0 {
      FlattenReshape(index[width..], width, count - 1);
      var r := Reshape(index, width, count);
      assert r[1..] == Reshape(index[width..], width, count - 1);
      assert index[..width] + index[width..] == index;
    }
  }

  /** Entry `j` of piece `i` of the reshape is entry `i * width + j` of the index list. */
  lemma {:induction false} ReshapeAt(index: seq<nat>, width: nat, count: nat, i: nat, j: nat)
    requires |index| == Offset(count, width) && i < count && j < width
    ensures Offset(i, width) + j < |index| && Reshape(index, width, count)[i][j] == index[Offset(i, width) + j]
  {
    if i == 0 {
      assert Reshape(index, width, count)[0] == index[..width];
    } else {
      var rest := index[width..];
      ReshapeAt(rest, width, count - 1, i - 1, j);
      assert Reshape(index, width, count)[i] == Reshape(rest, width, count - 1)[i - 1];
      assert rest[Offset(i - 1, width) + j] == index[Offset(i, width) + j];
    }
  }

  /** The reference result of the list branch: every piece of the reshaped
      index list gathered from `x`, or the error the first bad index raises. */
  function GatherPieces<T>(x: seq<T>, pieces: seq<seq<nat>>): Result<seq<seq<T>>>
  {
    if forall k :: 0 <= k < |pieces| ==> AllBelow(pieces[k], |x|) then
      Ok(seq(|pieces|, k requires 0 <= k < |pieces| => Gather(x, pieces[k])))
    else Err(IndexOutOfRange)
  }

  /** The nested loops of the list branch: `results[i].append(x[idx])` for every
      `idx` of piece `i`. */
  method GatherList<T>(x: seq<T>, pieces: seq<seq<nat>>) returns (r: Result<seq<seq<T>>>)
    ensures r == GatherPieces(x, pieces)
  {
    var results: seq<seq<T>> := [];
    var i := 0;
    while i < |pieces|
      invariant 0 <= i <= |pieces|
      invariant forall k :: 0 <= k < i ==> AllBelow(pieces[k], |x|)
      invariant results == seq(i, k requires 0 <= k < i => Gather(x, pieces[k]))
    {
      var row: seq<T> := [];
      var j := 0;
      while j < |pieces[i]|
        invariant 0 <= j <= |pieces[i]|
        invariant AllBelow(pieces[i][..j], |x|)
        invariant row == Gather(x, pieces[i][..j])
      {
        var idx := pieces[i][j];
        if idx >= |x| {
          return Err(IndexOutOfRange);
        }
        assert pieces[i][..j + 1] == pieces[i][..j] + [idx];
        row := row + [x[idx]];
        j := j + 1;
      }
      assert pieces[i][..j] == pieces[i];
      results := results + [row];
      i := i + 1;
    }
    r := Ok(results);
  }

  lemma DivExact(n: nat, b: nat)
    requires b > 0 && n % b == 0
    ensures (n / b) * b == n
  {
  }

  /** `index.view(-1, width)` when the length is a multiple of `width`. */
  function View(index: seq<nat>, width: nat): seq<seq<nat>>
    requires width > 0 && |index| % width == 0
  {
    DivExact(|index|, width);
    OffsetMul(|index| / width, width);
    Reshape(index, width, |index| / width)
  }

  /** `batch_index.view(-1, batchSize)`, then every piece gathered from the list `x`. */
  function ViewGathered<T>(x: seq<T>, batchIndex: seq<nat>, batchSize: nat): Result<seq<seq<T>>>
  {
    if batchSize == 0 || |batchIndex| % batchSize != 0 then Err(ReshapeFailed)
    else GatherPieces(x, View(batchIndex, batchSize))
  }

  /** The list branch of `dispatch`: `batch_index` cut into pieces of length B
      (the batch size), each gathered from `x`. */
  function ListDispatch<T>(x: seq<T>, g: Gates, numExperts: nat): Result<seq<seq<T>>>
    requires IsMatrix(g, numExperts)
  {
    ViewGathered(x, BatchIndex(g, numExperts), |g|)
  }

  /** What `dispatch` returns for either kind of input. */
  function Dispatched<T>(x: Input<T>, g: Gates, numExperts: nat): Result<seq<seq<T>>>
    requires IsMatrix(g, numExperts)
  {
    match x
    case ListItems(items) => ListDispatch(items, g, numExperts)
    case TensorRows(rows) => TensorDispatch(rows, g, numExperts)
  }

  /** The list branch succeeds exactly when the index count is a multiple of
      a positive batch size and every index lies in `x`. */
  lemma ListBranchSucceeds<T>(x: seq<T>, batchIndex: seq<nat>, b: nat)
    ensures ViewGathered(x, batchIndex, b).Ok? <==>
      b > 0 && |batchIndex| % b == 0 && AllBelow(batchIndex, |x|)
  {
    if b > 0 && |batchIndex| % b == 0 {
      var count := |batchIndex| / b;
      DivExact(|batchIndex|, b);
      OffsetMul(count, b);
      var pieces := Reshape(batchIndex, b, count);
      FlattenReshape(batchIndex, b, count);
      FlattenMembers(pieces);
      if AllBelow(batchIndex, |x|) {
        forall k | 0 <= k < |pieces| ensures AllBelow(pieces[k], |x|) {
          forall j | 0 <= j < |pieces[k]| ensures pieces[k][j] < |x| {
            assert pieces[k][j] in batchIndex;
          }
        }
      } else {
        var n :| 0 <= n < |batchIndex| && batchIndex[n] >= |x|;
        assert batchIndex[n] in Flatten(pieces);
      }
    }
  }

  /** When the list branch succeeds, it returns `|batchIndex| / B` pieces of B
      items that together are `x[batchIndex]`. */
  lemma ListBranchShape<T>(x: seq<T>, batchIndex: seq<nat>, b: nat)
    requires ViewGathered(x, batchIndex, b).Ok?
    ensures b > 0 && AllBelow(batchIndex, |x|)
    ensures var results := ViewGathered(x, batchIndex, b).value;
      && |results| == |batchIndex| / b
      && (forall i :: 0 <= i < |results| ==> |results[i]| == b)
      && Flatten(results) == Gather(x, batchIndex)
  {
    ListBranchSucceeds(x, batchIndex, b);
    var count := |batchIndex| / b;
    DivExact(|batchIndex|, b);
    OffsetMul(count, b);
    var pieces := Reshape(batchIndex, b, count);
    FlattenReshape(batchIndex, b, count);
    assert forall k :: 0 <= k < count ==> AllBelow(pieces[k], |x|);
    GatherFlatten(x, pieces);
    assert ViewGathered(x, batchIndex, b).value == seq(count, k requires 0 <= k < count => Gather(x, pieces[k]));
  }

  /** Item `j` of piece `i` of the list branch is `x[batchIndex[i * B + j]]`. */
  lemma ListBranchAt<T>(x: seq<T>, batchIndex: seq<nat>, b: nat, i: nat, j: nat)
    requires ViewGathered(x, batchIndex, b).Ok?
    requires i < |ViewGathered(x, batchIndex, b).value| && j < b
    ensures i * b + j < |batchIndex| && batchIndex[i * b + j] < |x|
    ensures ViewGathered(x, batchIndex, b).value[i][j] == x[batchIndex[i * b + j]]
  {
    ListBranchSucceeds(x, batchIndex, b);
    var count := |batchIndex| / b;
    DivExact(|batchIndex|, b);
    OffsetMul(count, b);
    var pieces := Reshape(batchIndex, b, count);
    assert forall k :: 0 <= k < count ==> AllBelow(pieces[k], |x|);
    ReshapeAt(batchIndex, b, count, i, j);
    OffsetMul(i, b);
    assert ViewGathered(x, batchIndex, b).value[i] == Gather(x, pieces[i]);
  }
}
