/** Sequence bookkeeping shared by dispatch and combine: concatenation of a
    list of chunks (`torch.cat`), splitting into chunks of given sizes
    (`torch.split`) and gathering by an index list (`x[index]`). */
module Seqs {

  /** Concatenation of the chunks, in order. */
  function Flatten<X>(cs: seq<seq<X>>): seq<X>
  {
    if cs == [] then [] else cs[0] + Flatten(cs[1..])
  }

  function Sum(xs: seq<nat>): nat
  {
    if xs == [] then 0 else xs[0] + Sum(xs[1..])
  }

  /** The length of every chunk (`part_sizes` of a list of chunks). */
  function Lengths<X>(cs: seq<seq<X>>): seq<nat>
  {
    seq(|cs|, e requires 0 <= e < |cs| => |cs[e]|)
  }

  lemma {:induction false} FlattenAppend<X>(cs: seq<seq<X>>, ds: seq<seq<X>>)
    ensures Flatten(cs + ds) == Flatten(cs) + Flatten(ds)
  {
    if cs == [] {
      assert cs + ds == ds;
    } else {
      assert (cs + ds)[1..] == cs[1..] + ds;
      FlattenAppend(cs[1..], ds);
    }
  }

  /** Appending one chunk at the end appends its elements at the end. */
  lemma FlattenSnoc<X>(cs: seq<seq<X>>, c: seq<X>)
    ensures Flatten(cs + [c]) == Flatten(cs) + c
  {
    FlattenAppend(cs, [c]);
    assert Flatten([c]) == c + Flatten([c][1..]);
  }

  /** The concatenation is exactly as long as all chunks together. */
  lemma {:induction false} FlattenLength<X>(cs: seq<seq<X>>)
    ensures |Flatten(cs)| == Sum(Lengths(cs))
  {
    if cs != [] {
      FlattenLength(cs[1..]);
      assert Lengths(cs)[1..] == Lengths(cs[1..]);
    }
  }

  /** `torch.split(s, sizes)`: consecutive chunks of the given sizes. */
  function Split<X>(s: seq<X>, sizes: seq<nat>): (r: seq<seq<X>>)
    requires Sum(sizes) == |s|
    ensures |r| == |sizes|
    ensures forall e :: 0 <= e < |sizes| ==> |r[e]| == sizes[e]
  {
    if sizes == [] then []
    else [s[..sizes[0]]] + Split(s[sizes[0]..], sizes[1..])
  }

  /** The chunks of a split together are the whole sequence. */
  lemma {:induction false} FlattenSplit<X>(s: seq<X>, sizes: seq<nat>)
    requires Sum(sizes) == |s|
    ensures Flatten(Split(s, sizes)) == s
  {
    if sizes != [] {
      FlattenSplit(s[sizes[0]..], sizes[1..]);
      var r := Split(s, sizes);
      assert r[1..] == Split(s[sizes[0]..], sizes[1..]);
      assert s[..sizes[0]] + s[sizes[0]..] == s;
    }
  }

  lemma SumPrefix(sizes: seq<nat>, e: nat)
    requires 0 < e <= |sizes|
    ensures Sum(sizes[..e]) == sizes[0] + Sum(sizes[1..][..e - 1])
  {
    assert sizes[..e][1..] == sizes[1..][..e - 1];
  }

  lemma SplitCons<X>(s: seq<X>, sizes: seq<nat>, e: nat)
    requires Sum(sizes) == |s| && 0 < e < |sizes|
    ensures Split(s, sizes)[e] == Split(s[sizes[0]..], sizes[1..])[e - 1]
  {
  }

  lemma SliceShift<X>(s: seq<X>, k: nat, lo: nat, hi: nat)
    requires k <= |s| && lo <= hi <= |s| - k
    ensures s[k..][lo..hi] == s[k + lo..k + hi]
  {
  }

  /** Chunk `e` of the split starts where the sizes before it end. */
  lemma {:induction false} SplitAt<X>(s: seq<X>, sizes: seq<nat>, e: nat)
    requires Sum(sizes) == |s| && e < |sizes|
    ensures Sum(sizes[..e]) + sizes[e] <= |s|
    ensures Split(s, sizes)[e] == s[Sum(sizes[..e])..Sum(sizes[..e]) + sizes[e]]
  {
    if e == 0 {
      assert sizes[..0] == [];
    } else {
      SplitAt(s[sizes[0]..], sizes[1..], e - 1);
      SumPrefix(sizes, e);
      SplitCons(s, sizes, e);
      var lo := Sum(sizes[1..][..e - 1]);
      SliceShift(s, sizes[0], lo, lo + sizes[e]);
    }
  }

  /** Splitting a concatenation by its chunk lengths gives the chunks back. */
  lemma {:induction false} SplitFlatten<X>(cs: seq<seq<X>>)
    ensures Sum(Lengths(cs)) == |Flatten(cs)|
    ensures Split(Flatten(cs), Lengths(cs)) == cs
  {
    FlattenLength(cs);
    if cs != [] {
      SplitFlatten(cs[1..]);
      assert Lengths(cs)[1..] == Lengths(cs[1..]);
      assert Flatten(cs)[|cs[0]|..] == Flatten(cs[1..]);
      assert Flatten(cs)[..|cs[0]|] == cs[0];
    }
  }

  /** The elements of a concatenation are the elements of its chunks. */
  lemma {:induction false} FlattenMembers<X>(cs: seq<seq<X>>)
    ensures forall k, j :: 0 <= k < |cs| && 0 <= j < |cs[k]| ==> cs[k][j] in Flatten(cs)
    ensures forall y :: y in Flatten(cs) ==> exists k, j :: 0 <= k < |cs| && 0 <= j < |cs[k]| && cs[k][j] == y
  {
    if cs != [] {
      FlattenMembers(cs[1..]);
      assert Flatten(cs) == cs[0] + Flatten(cs[1..]);
      forall y | y in Flatten(cs) ensures exists k, j :: 0 <= k < |cs| && 0 <= j < |cs[k]| && cs[k][j] == y {
        if y !in cs[0] {
          var k, j :| 0 <= k < |cs[1..]| && 0 <= j < |cs[1..][k]| && cs[1..][k][j] == y;
          assert cs[k + 1][j] == y;
        } else {
          var j :| 0 <= j < |cs[0]| && cs[0][j] == y;
        }
      }
      forall k, j | 0 <= k < |cs| && 0 <= j < |cs[k]| ensures cs[k][j] in Flatten(cs) {
        if k > 0 {
          assert cs[k] == cs[1..][k - 1];
        }
      }
    }
  }

  predicate AllBelow(idx: seq<nat>, n: nat)
  {
    forall i :: 0 <= i < |idx| ==> idx[i] < n
  }

  /** `x[idx]`: the elements of `x` at the positions listed in `idx`. */
  function Gather<X>(x: seq<X>, idx: seq<nat>): (r: seq<X>)
    requires AllBelow(idx, |x|)
    ensures |r| == |idx|
  {
    seq(|idx|, i requires 0 <= i < |idx| => x[idx[i]])
  }

  /** Element `j` of chunk `e` of the split is element `Sum(sizes[..e]) + j` of `s`. */
  lemma SplitElement<X>(s: seq<X>, sizes: seq<nat>, e: nat, j: nat)
    requires Sum(sizes) == |s| && e < |sizes| && j < sizes[e]
    ensures Sum(sizes[..e]) + j < |s| && Split(s, sizes)[e][j] == s[Sum(sizes[..e]) + j]
  {
    SplitAt(s, sizes, e);
  }

  /** Gathering by a concatenation of index lists concatenates the gathers. */
  lemma {:induction false} GatherFlatten<X>(x: seq<X>, cs: seq<seq<nat>>)
    requires forall e :: 0 <= e < |cs| ==> AllBelow(cs[e], |x|)
    ensures AllBelow(Flatten(cs), |x|)
    ensures Gather(x, Flatten(cs)) == Flatten(seq(|cs|, e requires 0 <= e < |cs| => Gather(x, cs[e])))
  {
    var gs := seq(|cs|, e requires 0 <= e < |cs| => Gather(x, cs[e]));
    if cs != [] {
      GatherFlatten(x, cs[1..]);
      var gs' := seq(|cs| - 1, e requires 0 <= e < |cs| - 1 => Gather(x, cs[1..][e]));
      assert gs[1..] == gs';
      assert Flatten(cs) == cs[0] + Flatten(cs[1..]);
      var f := Flatten(cs);
      forall i | 0 <= i < |f|
        ensures f[i] < |x|
      {
        if i >= |cs[0]| {
          assert f[i] == Flatten(cs[1..])[i - |cs[0]|];
        }
      }
      assert Gather(x, Flatten(cs)) == Gather(x, cs[0]) + Gather(x, Flatten(cs[1..]));
    }
  }
}
