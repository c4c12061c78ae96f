/** What `combine` computes from what `dispatch` produced: the documented
    mixture `output[b] = Sum_e gates[b, e] * experts[e](inputs[b])`. */
module RoundTrip {
  import opened Seqs
  import opened Routing
  import opened Errors
  import opened Dispatch
  import opened Combine

  /** The experts, modelled as row-wise maps: expert `e` turns an input row `r`
      into the output row `f(e, r)`. */
  function ExpertOutputs<T>(f: (nat, T) -> seq<real>, chunks: seq<seq<T>>): seq<seq<seq<real>>>
  {
    seq(|chunks|, e requires 0 <= e < |chunks| =>
      seq(|chunks[e]|, j requires 0 <= j < |chunks[e]| => f(e, chunks[e][j])))
  }

  /** Every expert applied to every batch row gives a row of `width` features. */
  predicate ExpertsFit<T>(g: Gates, numExperts: nat, f: (nat, T) -> seq<real>, x: seq<T>, width: nat)
  {
    |g| <= |x| && forall e, b :: 0 <= e < numExperts && 0 <= b < |g| ==> |f(e, x[b])| == width
  }

  /** The factor applied to expert `e`'s output for row `b`: its gate when
      weighting, otherwise 1 for a routed pair and 0 for an unrouted one. */
  function Gain(g: Gates, numExperts: nat, b: nat, e: nat, weighted: bool): real
    requires IsMatrix(g, numExperts) && b < |g| && e < numExperts
  {
    if weighted then g[b][e] else if g[b][e] != 0.0 then 1.0 else 0.0
  }

  /** Feature `d` of `Sum_{e < k} Gain(b, e) * f(e, x[b])`; weighted, this is the
      documented `output[b] = Sum_e gates[b, e] * experts[e](inputs[b])`. */
  function Mixture<T>(g: Gates, numExperts: nat, f: (nat, T) -> seq<real>, x: seq<T>, width: nat,
                      b: nat, d: nat, k: nat, weighted: bool): real
    requires IsMatrix(g, numExperts) && ExpertsFit(g, numExperts, f, x, width)
    requires b < |g| && d < width && k <= numExperts
  {
    if k == 0 then 0.0
    else Mixture(g, numExperts, f, x, width, b, d, k - 1, weighted) + Gain(g, numExperts, b, k - 1, weighted) * f(k - 1, x[b])[d]
  }

  /** Feature `d` of what assignment `p` adds to row `p.row`: the expert's
      output for that row, times the gate when weighting. */
  function Term<T>(g: Gates, f: (nat, T) -> seq<real>, x: seq<T>, d: nat, weighted: bool, p: Pair): real
  {
    if p.row < |g| && p.row < |x| && p.expert < |g[p.row]| && d < |f(p.expert, x[p.row])| then
      (if weighted then g[p.row][p.expert] else 1.0) * f(p.expert, x[p.row])[d]
    else 0.0
  }

  /** The sum of `t(p)` over the assignments `p` of `ps` to row `b`. */
  function Contribution(ps: seq<Pair>, t: Pair -> real, b: nat): real
    decreases |ps|
  {
    if ps == [] then 0.0
    else
      var n := |ps| - 1;
      Contribution(ps[..n], t, b) + (if ps[n].row == b then t(ps[n]) else 0.0)
  }

  lemma {:induction false} ContributionAppend(ps: seq<Pair>, qs: seq<Pair>, t: Pair -> real, b: nat)
    ensures Contribution(ps + qs, t, b) == Contribution(ps, t, b) + Contribution(qs, t, b)
  {
    if qs == [] {
      assert ps + qs == ps;
    } else {
      var n := |qs| - 1;
      assert (ps + qs)[..|ps| + n] == ps + qs[..n];
      assert (ps + qs)[|ps| + n] == qs[n];
      ContributionAppend(ps, qs[..n], t, b);
    }
  }

  lemma ContributionSingle(p: Pair, t: Pair -> real, b: nat)
    ensures Contribution([p], t, b) == if p.row == b then t(p) else 0.0
  {
    assert [p][..0] == [];
  }

  /** Expert `e`'s chunk adds `t(Pair(b, e))` to row `b` when `b` is routed to `e`, and nothing otherwise. */
  lemma {:induction false} ColumnContribution(g: Gates, numExperts: nat, e: nat, n: nat, t: Pair -> real, b: nat)
    requires IsMatrix(g, numExperts) && e < numExperts && n <= |g|
    ensures Contribution(ColumnNonzeros(g, numExperts, e, n), t, b)
         == if b < n && g[b][e] != 0.0 then t(Pair(b, e)) else 0.0
  {
    if n > 0 {
      ColumnContribution(g, numExperts, e, n - 1, t, b);
      var front := ColumnNonzeros(g, numExperts, e, n - 1);
      ColumnNonzerosStep(g, numExperts, e, n);
      if g[n - 1][e] != 0.0 {
        ContributionAppend(front, [Pair(n - 1, e)], t, b);
        ContributionSingle(Pair(n - 1, e), t, b);
      }
    }
  }

  /** Sum over the experts `e < k` that row `b` is routed to of `t(Pair(b, e))`. */
  function Picked(g: Gates, numExperts: nat, t: Pair -> real, b: nat, k: nat): real
    requires IsMatrix(g, numExperts) && b < |g| && k <= numExperts
  {
    if k == 0 then 0.0
    else Picked(g, numExperts, t, b, k - 1) + (if g[b][k - 1] != 0.0 then t(Pair(b, k - 1)) else 0.0)
  }

  /** The first `k` experts' chunks add up, in row `b`, to the routed experts' terms. */
  lemma {:induction false} ColumnsContribution(g: Gates, numExperts: nat, k: nat, t: Pair -> real, b: nat)
    requires IsMatrix(g, numExperts) && k <= numExperts && b < |g|
    ensures Contribution(Flatten(Columns(g, numExperts)[..k]), t, b) == Picked(g, numExperts, t, b, k)
  {
    var cs := Columns(g, numExperts);
    if k == 0 {
      assert cs[..0] == [];
    } else {
      ColumnsContribution(g, numExperts, k - 1, t, b);
      assert cs[..k] == cs[..k - 1] + [cs[k - 1]];
      FlattenSnoc(cs[..k - 1], cs[k - 1]);
      ColumnContribution(g, numExperts, k - 1, |g|, t, b);
      ContributionAppend(Flatten(cs[..k - 1]), cs[k - 1], t, b);
    }
  }

  /** With the expert terms, the routed sum is the mixture: an expert `b` is
      not routed to has a zero gain. */
  lemma {:induction false} PickedMixture<T>(g: Gates, numExperts: nat, f: (nat, T) -> seq<real>, x: seq<T>, width: nat,
                                            b: nat, d: nat, k: nat, weighted: bool)
    requires IsMatrix(g, numExperts) && ExpertsFit(g, numExperts, f, x, width)
    requires b < |g| && d < width && k <= numExperts
    ensures Picked(g, numExperts, p => Term(g, f, x, d, weighted, p), b, k)
         == Mixture(g, numExperts, f, x, width, b, d, k, weighted)
  {
    if k > 0 {
      PickedMixture(g, numExperts, f, x, width, b, d, k - 1, weighted);
      var y := f(k - 1, x[b])[d];
      if g[b][k - 1] == 0.0 {
        assert Gain(g, numExperts, b, k - 1, weighted) * y == 0.0;
      }
    }
  }

  /** Scatter-adding rows whose feature `d` is `t` of each assignment gives the contribution. */
  lemma {:induction false} ScatterContribution(ps: seq<Pair>, src: seq<seq<real>>, t: Pair -> real, b: nat, d: nat)
    requires |src| == |ps|
    requires forall i :: 0 <= i < |ps| ==> d < |src[i]| && src[i][d] == t(ps[i])
    ensures ScatterAt(Rows(ps), src, b, d) == Contribution(ps, t, b)
  {
    if ps != [] {
      var n := |ps| - 1;
      assert Rows(ps)[..n] == Rows(ps[..n]);
      ScatterContribution(ps[..n], src[..n], t, b, d);
    }
  }

  /** The output row of assignment `p`: expert `p.expert` applied to row `p.row`. */
  function Output<T>(f: (nat, T) -> seq<real>, x: seq<T>, p: Pair): seq<real>
  {
    if p.row < |x| then f(p.expert, x[p.row]) else []
  }

  function Outputs<T>(f: (nat, T) -> seq<real>, x: seq<T>, ps: seq<Pair>): (r: seq<seq<real>>)
    ensures |r| == |ps|
  {
    seq(|ps|, i requires 0 <= i < |ps| => Output(f, x, ps[i]))
  }

  /** The outputs of concatenated chunks are the concatenated outputs. */
  lemma {:induction false} FlattenOutputs<T>(f: (nat, T) -> seq<real>, x: seq<T>, cs: seq<seq<Pair>>)
    ensures Flatten(seq(|cs|, e requires 0 <= e < |cs| => Outputs(f, x, cs[e]))) == Outputs(f, x, Flatten(cs))
  {
    if cs != [] {
      FlattenOutputs(f, x, cs[1..]);
      assert seq(|cs|, e requires 0 <= e < |cs| => Outputs(f, x, cs[e]))[1..]
          == seq(|cs| - 1, e requires 0 <= e < |cs| - 1 => Outputs(f, x, cs[1..][e]));
      assert Outputs(f, x, cs[0] + Flatten(cs[1..])) == Outputs(f, x, cs[0]) + Outputs(f, x, Flatten(cs[1..]));
    }
  }

  /** What expert `e` produces from its chunk is the output of its column of assignments. */
  lemma ChunkOutputs<T>(x: seq<T>, g: Gates, numExperts: nat, f: (nat, T) -> seq<real>, e: nat)
    requires IsMatrix(g, numExperts) && |g| <= |x| && e < numExperts
    ensures AllBelow(ExpertRows(g, numExperts, e), |x|)
    ensures seq(|ExpertRows(g, numExperts, e)|, j requires 0 <= j < |ExpertRows(g, numExperts, e)| =>
              f(e, Gather(x, ExpertRows(g, numExperts, e))[j]))
         == Outputs(f, x, Columns(g, numExperts)[e])
  {
    var col := Columns(g, numExperts)[e];
    assert col == ColumnNonzeros(g, numExperts, e, |g|);
    ColumnNonzerosFacts(g, numExperts, e, |g|);
    var rows := ExpertRows(g, numExperts, e);
    assert rows == Rows(col);
    assert AllBelow(rows, |x|);
    forall j | 0 <= j < |rows|
      ensures f(e, Gather(x, rows)[j]) == Outputs(f, x, col)[j]
    {
      assert col[j].expert == e && rows[j] == col[j].row;
    }
  }

  /** The stitched expert outputs line up with the assignment list: position
      `i` holds expert `list[i].expert` applied to row `list[i].row`. */
  lemma StitchedOutputs<T>(x: seq<T>, g: Gates, numExperts: nat, f: (nat, T) -> seq<real>)
    requires IsMatrix(g, numExperts) && |g| <= |x|
    ensures TensorDispatch(x, g, numExperts).Ok?
    ensures Flatten(ExpertOutputs(f, TensorDispatch(x, g, numExperts).value)) == Outputs(f, x, Assignments(g, numExperts))
  {
    TensorChunks(x, g, numExperts);
    var cs: seq<seq<Pair>> := Columns(g, numExperts);
    AssignmentsByExpert(g, numExperts);
    var chunks := TensorDispatch(x, g, numExperts).value;
    var outs := ExpertOutputs(f, chunks);
    forall e | 0 <= e < numExperts
      ensures outs[e] == Outputs(f, x, cs[e])
    {
      ChunkOutputs(x, g, numExperts, f, e);
    }
    FlattenOutputs(f, x, cs);
    assert outs == seq(|cs|, e requires 0 <= e < |cs| => Outputs(f, x, cs[e]));
  }

  /** What `combine` scatter-adds: the stitched rows, weighted by the gates
      of their assignments or not. */
  function Source(g: Gates, numExperts: nat, list: seq<Pair>, stitched: seq<seq<real>>, weighted: bool): seq<seq<real>>
    requires IsMatrix(g, numExperts) && |stitched| == |list|
    requires forall i :: 0 <= i < |list| ==> Assigned(g, numExperts, list[i])
  {
    if weighted then GateWeighted(g, numExperts, list, stitched) else stitched
  }

  /** With one stitched row per assignment, all of width `width`, both forms
      of `combine` scatter-add the source into a zero buffer, and agree when weighting. */
  lemma CombinedIsIndexAdd(expertOut: seq<seq<seq<real>>>, g: Gates, numExperts: nat, width: nat, weighted: bool)
    requires IsMatrix(g, numExperts) && expertOut != []
    requires HasWidth(Flatten(expertOut), width) && |Flatten(expertOut)| == |Assignments(g, numExperts)|
    ensures forall i :: 0 <= i < |Assignments(g, numExperts)| ==> Assigned(g, numExperts, Assignments(g, numExperts)[i])
    ensures HasWidth(Source(g, numExperts, Assignments(g, numExperts), Flatten(expertOut), weighted), width)
    ensures CombinedAsDocumented(expertOut, g, numExperts, width, weighted)
         == Ok(IndexAdd(|g|, width, Rows(Assignments(g, numExperts)),
                        Source(g, numExperts, Assignments(g, numExperts), Flatten(expertOut), weighted)))
    ensures weighted ==> Summed(expertOut, g, numExperts, width, true) == CombinedAsDocumented(expertOut, g, numExperts, width, weighted)
  {
    AssignmentsRouted(g, numExperts);
    GateWeightedWidth(g, numExperts, Assignments(g, numExperts), Flatten(expertOut), width);
  }

  /** Feature `d` of the source row of assignment `i` is that assignment's term. */
  lemma SourceTerms<T>(x: seq<T>, g: Gates, numExperts: nat, f: (nat, T) -> seq<real>, width: nat, weighted: bool,
                       list: seq<Pair>, d: nat)
    requires IsMatrix(g, numExperts) && ExpertsFit(g, numExperts, f, x, width) && d < width
    requires forall i :: 0 <= i < |list| ==> Assigned(g, numExperts, list[i])
    ensures var src := Source(g, numExperts, list, Outputs(f, x, list), weighted);
      && |src| == |list|
      && (forall i :: 0 <= i < |list| ==> d < |src[i]| && src[i][d] == Term(g, f, x, d, weighted, list[i]))
  {
    var stitched := Outputs(f, x, list);
    var src := Source(g, numExperts, list, stitched, weighted);
    forall i | 0 <= i < |list|
      ensures d < |src[i]| && src[i][d] == Term(g, f, x, d, weighted, list[i])
    {
      var p := list[i];
      assert |f(p.expert, x[p.row])| == width;
      assert stitched[i] == f(p.expert, x[p.row]);
    }
  }

  /** Scatter-adding the terms of the assignment list gives, in row `b`, the mixture. */
  lemma RowMixture<T>(x: seq<T>, g: Gates, numExperts: nat, f: (nat, T) -> seq<real>, width: nat, weighted: bool,
                      src: seq<seq<real>>, b: nat, d: nat)
    requires IsMatrix(g, numExperts) && ExpertsFit(g, numExperts, f, x, width) && b < |g| && d < width
    requires |src| == |Assignments(g, numExperts)|
    requires forall i :: 0 <= i < |src| ==>
      d < |src[i]| && src[i][d] == Term(g, f, x, d, weighted, Assignments(g, numExperts)[i])
    ensures ScatterAt(Rows(Assignments(g, numExperts)), src, b, d) == Mixture(g, numExperts, f, x, width, b, d, numExperts, weighted)
  {
    var list := Assignments(g, numExperts);
    var t := p => Term(g, f, x, d, weighted, p);
    ScatterContribution(list, src, t, b, d);
    AssignmentsByExpert(g, numExperts);
    var cs := Columns(g, numExperts);
    assert cs[..numExperts] == cs;
    ColumnsContribution(g, numExperts, numExperts, t, b);
    PickedMixture(g, numExperts, f, x, width, b, d, numExperts, weighted);
  }

  /** The expert outputs of a dispatch stitch together into one row of
      `width` features per assignment, in assignment order. */
  lemma StitchedFits<T>(x: seq<T>, g: Gates, numExperts: nat, f: (nat, T) -> seq<real>, width: nat)
    requires IsMatrix(g, numExperts) && 0 < numExperts && ExpertsFit(g, numExperts, f, x, width)
    ensures TensorDispatch(x, g, numExperts).Ok?
    ensures var expertOut := ExpertOutputs(f, TensorDispatch(x, g, numExperts).value);
      && |expertOut| == numExperts
      && Flatten(expertOut) == Outputs(f, x, Assignments(g, numExperts))
      && HasWidth(Flatten(expertOut), width)
  {
    StitchedOutputs(x, g, numExperts, f);
    var expertOut := ExpertOutputs(f, TensorDispatch(x, g, numExperts).value);
    var list := Assignments(g, numExperts);
    var stitched := Flatten(expertOut);
    assert stitched == Outputs(f, x, list);
    AssignmentsRouted(g, numExperts);
    forall i | 0 <= i < |stitched|
      ensures |stitched[i]| == width
    {
      assert Assigned(g, numExperts, list[i]);
    }
    TensorChunkLayout(x, g, numExperts);
  }

  /** Dispatch, the experts, then combine: row `b` of the result is the
      mixture of the experts' outputs for `x[b]` (weighted by the gates, or,
      without weighting, summed over the experts `b` is routed to); rows
      routed nowhere are zero. As written, `combine` computes the same sum
      when weighting, before its final reshape. */
  lemma CombineAfterDispatch<T>(x: seq<T>, g: Gates, numExperts: nat, f: (nat, T) -> seq<real>, width: nat, weighted: bool)
    requires IsMatrix(g, numExperts) && 0 < numExperts && ExpertsFit(g, numExperts, f, x, width)
    ensures TensorDispatch(x, g, numExperts).Ok?
    ensures var out := CombinedAsDocumented(ExpertOutputs(f, TensorDispatch(x, g, numExperts).value), g, numExperts, width, weighted);
      && out.Ok? && |out.value| == |g| && HasWidth(out.value, width)
      && (forall b, d :: 0 <= b < |g| && 0 <= d < width ==>
            out.value[b][d] == Mixture(g, numExperts, f, x, width, b, d, numExperts, weighted))
      && (weighted ==> Summed(ExpertOutputs(f, TensorDispatch(x, g, numExperts).value), g, numExperts, width, true) == out)
  {
    StitchedFits(x, g, numExperts, f, width);
    var expertOut := ExpertOutputs(f, TensorDispatch(x, g, numExperts).value);
    var list := Assignments(g, numExperts);
    var stitched := Flatten(expertOut);
    CombinedIsIndexAdd(expertOut, g, numExperts, width, weighted);
    var src := Source(g, numExperts, list, stitched, weighted);
    var out := IndexAdd(|g|, width, Rows(list), src);
    forall b, d | 0 <= b < |g| && 0 <= d < width
      ensures out[b][d] == Mixture(g, numExperts, f, x, width, b, d, numExperts, weighted)
    {
      SourceTerms(x, g, numExperts, f, width, weighted, list, d);
      RowMixture(x, g, numExperts, f, width, weighted, src, b, d);
    }
  }

  // ---------------------------------------------------------------------
  // Hard routing: one expert per row, gate 1, identity experts

  /** Every row goes to exactly one expert, with gate 1. */
  predicate OneHot(g: Gates, numExperts: nat)
    requires IsMatrix(g, numExperts)
  {
    forall b :: 0 <= b < |g| ==> RoutedOnce(g, numExperts, b)
  }

  predicate RoutedOnce(g: Gates, numExperts: nat, b: nat)
    requires IsMatrix(g, numExperts) && b < |g|
  {
    exists e :: 0 <= e < numExperts && IsOnlyExpert(g, numExperts, b, e)
  }

  predicate IsOnlyExpert(g: Gates, numExperts: nat, b: nat, e: nat)
    requires IsMatrix(g, numExperts) && b < |g| && e < numExperts
  {
    g[b][e] == 1.0 && forall k :: 0 <= k < numExperts && k != e ==> g[b][k] == 0.0
  }

  /** An expert that returns its input row unchanged. */
  function Identity(e: nat, r: seq<real>): seq<real>
  {
    r
  }

  lemma {:induction false} MixtureOneHot(g: Gates, numExperts: nat, x: seq<seq<real>>, width: nat,
                                         b: nat, d: nat, k: nat, e: nat)
    requires IsMatrix(g, numExperts) && ExpertsFit(g, numExperts, Identity, x, width)
    requires b < |g| && |x[b]| == width && d < width && k <= numExperts && e < numExperts && IsOnlyExpert(g, numExperts, b, e)
    ensures Mixture(g, numExperts, Identity, x, width, b, d, k, true) == if e < k then x[b][d] else 0.0
  {
    if k > 0 {
      MixtureOneHot(g, numExperts, x, width, b, d, k - 1, e);
      assert Identity(k - 1, x[b]) == x[b];
      if k - 1 != e {
        assert g[b][k - 1] == 0.0;
      }
    }
  }

  /** The weighted mixture of row `b` is linear in that row's gates. */
  lemma {:induction false} MixtureScaled<T>(g: Gates, h: Gates, numExperts: nat, f: (nat, T) -> seq<real>, x: seq<T>,
                                            width: nat, b: nat, d: nat, k: nat, c: real)
    requires IsMatrix(g, numExperts) && ExpertsFit(g, numExperts, f, x, width)
    requires IsMatrix(h, numExperts) && ExpertsFit(h, numExperts, f, x, width)
    requires b < |g| == |h| && h[b] == Scale(c, g[b]) && d < width && k <= numExperts
    ensures Mixture(h, numExperts, f, x, width, b, d, k, true) == c * Mixture(g, numExperts, f, x, width, b, d, k, true)
  {
    if k > 0 {
      MixtureScaled(g, h, numExperts, f, x, width, b, d, k - 1, c);
      var m, v := Mixture(g, numExperts, f, x, width, b, d, k - 1, true), f(k - 1, x[b])[d];
      assert h[b][k - 1] == c * g[b][k - 1];
      assert c * (m + g[b][k - 1] * v) == c * m + (c * g[b][k - 1]) * v;
    }
  }

  /** Feature `d` of row `b` of the weighted combine after dispatch is the mixture. */
  lemma CombinedAt<T>(x: seq<T>, g: Gates, numExperts: nat, f: (nat, T) -> seq<real>, width: nat, b: nat, d: nat)
    requires IsMatrix(g, numExperts) && 0 < numExperts && ExpertsFit(g, numExperts, f, x, width)
    requires b < |g| && d < width
    ensures TensorDispatch(x, g, numExperts).Ok?
    ensures var out := CombinedAsDocumented(ExpertOutputs(f, TensorDispatch(x, g, numExperts).value), g, numExperts, width, true);
      && out.Ok? && |out.value| == |g| && d < |out.value[b]|
      && out.value[b][d] == Mixture(g, numExperts, f, x, width, b, d, numExperts, true)
  {
    CombineAfterDispatch(x, g, numExperts, f, width, true);
  }

  /** Changing the gates of other rows leaves row `b'` of the weighted
      combine after dispatch as it was. */
  lemma CombineKeepsRow<T>(x: seq<T>, g: Gates, h: Gates, numExperts: nat, f: (nat, T) -> seq<real>, width: nat,
                           b': nat, d: nat)
    requires IsMatrix(g, numExperts) && IsMatrix(h, numExperts) && 0 < numExperts && ExpertsFit(g, numExperts, f, x, width)
    requires |h| == |g| && b' < |g| && d < width && h[b'] == g[b']
    ensures TensorDispatch(x, g, numExperts).Ok? && TensorDispatch(x, h, numExperts).Ok?
    ensures var out, other := CombinedAsDocumented(ExpertOutputs(f, TensorDispatch(x, g, numExperts).value), g, numExperts, width, true),
                              CombinedAsDocumented(ExpertOutputs(f, TensorDispatch(x, h, numExperts).value), h, numExperts, width, true);
      && out.Ok? && other.Ok? && |out.value| == |other.value| == |g|
      && d < |out.value[b']| && d < |other.value[b']|
      && other.value[b'][d] == out.value[b'][d]
  {
    assert ExpertsFit(h, numExperts, f, x, width);
    CombinedAt(x, g, numExperts, f, width, b', d);
    CombinedAt(x, h, numExperts, f, width, b', d);
    MixtureOtherRow(g, h, numExperts, f, x, width, b', d, numExperts);
  }

  /** The mixture of a row depends only on that row's gates. */
  lemma {:induction false} MixtureOtherRow<T>(g: Gates, h: Gates, numExperts: nat, f: (nat, T) -> seq<real>, x: seq<T>,
                                              width: nat, b: nat, d: nat, k: nat)
    requires IsMatrix(g, numExperts) && ExpertsFit(g, numExperts, f, x, width)
    requires IsMatrix(h, numExperts) && ExpertsFit(h, numExperts, f, x, width)
    requires b < |g| == |h| && g[b] == h[b] && d < width && k <= numExperts
    ensures Mixture(h, numExperts, f, x, width, b, d, k, true) == Mixture(g, numExperts, f, x, width, b, d, k, true)
  {
    if k > 0 {
      MixtureOtherRow(g, h, numExperts, f, x, width, b, d, k - 1);
    }
  }

  /** As written, dispatch, the experts and `combine` fail at the final
      reshape whenever the first expert does not receive the whole batch:
      its output has `part_sizes[0]` rows, not `batch_size`. */
  lemma ReshapeAfterDispatch<T>(x: seq<T>, g: Gates, numExperts: nat, f: (nat, T) -> seq<real>, width: nat)
    requires IsMatrix(g, numExperts) && 0 < numExperts && ExpertsFit(g, numExperts, f, x, width)
    requires width > 0 && PartSizes(g, numExperts)[0] != |g|
    ensures TensorDispatch(x, g, numExperts).Ok?
    ensures Combined(ExpertOutputs(f, TensorDispatch(x, g, numExperts).value), g, numExperts, width, true) == Err(ReshapeFailed)
  {
    CombineAfterDispatch(x, g, numExperts, f, width, true);
    TensorChunkLayout(x, g, numExperts);
    var expertOut := ExpertOutputs(f, TensorDispatch(x, g, numExperts).value);
    assert |expertOut[0]| == PartSizes(g, numExperts)[0];
    CombinedView(expertOut, g, numExperts, width, true);
  }

  /** With one-hot gates of weight 1 and experts that return their input,
      dispatch followed by combine gives the input batch back. */
  lemma HardRoutingRoundTrip(x: seq<seq<real>>, g: Gates, numExperts: nat, width: nat)
    requires IsMatrix(g, numExperts) && 0 < numExperts && OneHot(g, numExperts)
    requires |x| == |g| && forall b :: 0 <= b < |x| ==> |x[b]| == width
    ensures TensorDispatch(x, g, numExperts).Ok?
    ensures CombinedAsDocumented(ExpertOutputs(Identity, TensorDispatch(x, g, numExperts).value), g, numExperts, width, true) == Ok(x)
  {
    forall e, b | 0 <= e < numExperts && 0 <= b < |g|
      ensures |Identity(e, x[b])| == width
    {
    }
    assert ExpertsFit(g, numExperts, Identity, x, width);
    CombineAfterDispatch(x, g, numExperts, Identity, width, true);
    var out := CombinedAsDocumented(ExpertOutputs(Identity, TensorDispatch(x, g, numExperts).value), g, numExperts, width, true).value;
    forall b, d | 0 <= b < |g| && 0 <= d < width
      ensures out[b][d] == x[b][d]
    {
      assert RoutedOnce(g, numExperts, b);
      var e :| 0 <= e < numExperts && IsOnlyExpert(g, numExperts, b, e);
      MixtureOneHot(g, numExperts, x, width, b, d, numExperts, e);
    }
    assert forall b :: 0 <= b < |g| ==> out[b] == x[b];
    assert out == x;
  }
}
