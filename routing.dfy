/** The sorted assignment list of a sparse mixture-of-experts router: the
    (row, expert) pairs whose gate is non-zero, ordered by expert, then row. */
module Routing {
  import opened Seqs

  /** A gate matrix: one row of gate values per batch element. */
  type Gates = seq<seq<real>>

  /** `g` has the shape `[batch_size, numExperts]` of a two-dimensional tensor. */
  predicate IsMatrix(g: Gates, numExperts: nat)
  {
    forall b :: 0 <= b < |g| ==> |g[b]| == numExperts
  }

  /** One routing decision: batch element `row` goes to expert `expert`. */
  datatype Pair = Pair(row: nat, expert: nat)

  /** Batch element `p.row` is sent to expert `p.expert` iff its gate is non-zero. */
  predicate Assigned(g: Gates, numExperts: nat, p: Pair)
    requires IsMatrix(g, numExperts)
  {
    p.row < |g| && p.expert < numExperts && g[p.row][p.expert] != 0.0
  }

  /** The sort key of the assignment list: expert first, then row, both ascending. */
  predicate Before(p: Pair, q: Pair)
  {
    p.expert < q.expert || (p.expert == q.expert && p.row < q.row)
  }

  predicate NotAfter(p: Pair, q: Pair)
  {
    p == q || Before(p, q)
  }

  /** The order in which `torch.nonzero` lists the non-zero positions: row-major. */
  predicate RowMajorBefore(p: Pair, q: Pair)
  {
    p.row < q.row || (p.row == q.row && p.expert < q.expert)
  }

  predicate Sorted(s: seq<Pair>)
  {
    forall i, j :: 0 <= i < j < |s| ==> NotAfter(s[i], s[j])
  }

  predicate StrictlySorted(s: seq<Pair>)
  {
    forall i, j :: 0 <= i < j < |s| ==> Before(s[i], s[j])
  }

  predicate Distinct(s: seq<Pair>)
  {
    forall i, j :: 0 <= i < j < |s| ==> s[i] != s[j]
  }

  // ---------------------------------------------------------------------
  // torch.nonzero(gates): the non-zero positions in row-major order

  /** The non-zero positions among the first `k` columns of row `b`, by column. */
  function RowNonzeros(g: Gates, numExperts: nat, b: nat, k: nat): seq<Pair>
    requires IsMatrix(g, numExperts) && b < |g| && k <= numExperts
  {
    if k == 0 then []
    else RowNonzeros(g, numExperts, b, k - 1) + (if g[b][k - 1] != 0.0 then [Pair(b, k - 1)] else [])
  }

  /** Every pair of row `b` up to expert `k` is a routed pair `(b, e)` with `e < k`. */
  lemma {:induction false} RowEntries(g: Gates, numExperts: nat, b: nat, k: nat)
    requires IsMatrix(g, numExperts) && b < |g| && k <= numExperts
    ensures forall i :: 0 <= i < |RowNonzeros(g, numExperts, b, k)| ==>
      var p := RowNonzeros(g, numExperts, b, k)[i];
      p.row == b && p.expert < k && Assigned(g, numExperts, p)
  {
    if k > 0 {
      RowEntries(g, numExperts, b, k - 1);
      RowStep(g, numExperts, b, k);
    }
  }

  /** Every routed pair `(b, e)` with `e < k` is in row `b` up to expert `k`. */
  lemma {:induction false} RowComplete(g: Gates, numExperts: nat, b: nat, k: nat)
    requires IsMatrix(g, numExperts) && b < |g| && k <= numExperts
    ensures forall e :: 0 <= e < k && g[b][e] != 0.0 ==> Pair(b, e) in RowNonzeros(g, numExperts, b, k)
  {
    if k > 0 {
      RowComplete(g, numExperts, b, k - 1);
      RowStep(g, numExperts, b, k);
    }
  }

  /** The experts of row `b` are strictly ascending. */
  lemma {:induction false} RowAscending(g: Gates, numExperts: nat, b: nat, k: nat)
    requires IsMatrix(g, numExperts) && b < |g| && k <= numExperts
    ensures forall i, j :: 0 <= i < j < |RowNonzeros(g, numExperts, b, k)| ==>
      RowNonzeros(g, numExperts, b, k)[i].expert < RowNonzeros(g, numExperts, b, k)[j].expert
  {
    if k > 0 {
      RowAscending(g, numExperts, b, k - 1);
      RowEntries(g, numExperts, b, k - 1);
      RowStep(g, numExperts, b, k);
    }
  }

  /** Extending a row by one expert appends that expert's pair exactly when its gate is non-zero. */
  lemma RowStep(g: Gates, numExperts: nat, b: nat, k: nat)
    requires IsMatrix(g, numExperts) && b < |g| && 0 < k <= numExperts
    ensures g[b][k - 1] != 0.0 ==> RowNonzeros(g, numExperts, b, k) == RowNonzeros(g, numExperts, b, k - 1) + [Pair(b, k - 1)]
    ensures g[b][k - 1] == 0.0 ==> RowNonzeros(g, numExperts, b, k) == RowNonzeros(g, numExperts, b, k - 1)
  {
  }

  /** Row `b` up to expert `k` holds exactly the routed pairs `(b, e)` with
      `e < k`, experts strictly ascending. */
  lemma RowNonzerosFacts(g: Gates, numExperts: nat, b: nat, k: nat)
    requires IsMatrix(g, numExperts) && b < |g| && k <= numExperts
    ensures var r := RowNonzeros(g, numExperts, b, k);
      && (forall i :: 0 <= i < |r| ==> r[i].row == b && r[i].expert < k && Assigned(g, numExperts, r[i]))
      && (forall e :: 0 <= e < k && g[b][e] != 0.0 ==> Pair(b, e) in r)
      && (forall i, j :: 0 <= i < j < |r| ==> r[i].expert < r[j].expert)
  {
    RowEntries(g, numExperts, b, k);
    RowComplete(g, numExperts, b, k);
    RowAscending(g, numExperts, b, k);
  }

  /** The non-zero positions of the first `n` rows, row by row. */
  function NonzeroUpTo(g: Gates, numExperts: nat, n: nat): seq<Pair>
    requires IsMatrix(g, numExperts) && n <= |g|
  {
    if n == 0 then []
    else NonzeroUpTo(g, numExperts, n - 1) + RowNonzeros(g, numExperts, n - 1, numExperts)
  }

  /** Every pair among the first `n` rows is routed and has a row below `n`. */
  lemma {:induction false} NonzeroEntries(g: Gates, numExperts: nat, n: nat)
    requires IsMatrix(g, numExperts) && n <= |g|
    ensures forall i :: 0 <= i < |NonzeroUpTo(g, numExperts, n)| ==>
      NonzeroUpTo(g, numExperts, n)[i].row < n && Assigned(g, numExperts, NonzeroUpTo(g, numExperts, n)[i])
  {
    if n > 0 {
      NonzeroEntries(g, numExperts, n - 1);
      RowNonzerosFacts(g, numExperts, n - 1, numExperts);
      var front := NonzeroUpTo(g, numExperts, n - 1);
      var last := RowNonzeros(g, numExperts, n - 1, numExperts);
      var r := front + last;
      assert NonzeroUpTo(g, numExperts, n) == r;
      forall i | 0 <= i < |r|
        ensures r[i].row < n && Assigned(g, numExperts, r[i])
      {
        if i < |front| {
          assert r[i] == front[i];
        } else {
          assert r[i] == last[i - |front|];
        }
      }
    }
  }

  /** Every routed pair with a row below `n` is among the first `n` rows. */
  lemma {:induction false} NonzeroComplete(g: Gates, numExperts: nat, n: nat)
    requires IsMatrix(g, numExperts) && n <= |g|
    ensures forall p :: Assigned(g, numExperts, p) && p.row < n ==> p in NonzeroUpTo(g, numExperts, n)
  {
    if n > 0 {
      NonzeroComplete(g, numExperts, n - 1);
      RowNonzerosFacts(g, numExperts, n - 1, numExperts);
      var front := NonzeroUpTo(g, numExperts, n - 1);
      var last := RowNonzeros(g, numExperts, n - 1, numExperts);
      assert NonzeroUpTo(g, numExperts, n) == front + last;
      forall p | Assigned(g, numExperts, p) && p.row < n
        ensures p in front + last
      {
        if p.row == n - 1 {
          assert p == Pair(n - 1, p.expert);
          assert p in last;
        } else {
          assert p in front;
        }
      }
    }
  }

  /** The first `n` rows are listed in row-major order. */
  lemma {:induction false} NonzeroOrdered(g: Gates, numExperts: nat, n: nat)
    requires IsMatrix(g, numExperts) && n <= |g|
    ensures forall i, j :: 0 <= i < j < |NonzeroUpTo(g, numExperts, n)| ==>
      RowMajorBefore(NonzeroUpTo(g, numExperts, n)[i], NonzeroUpTo(g, numExperts, n)[j])
  {
    if n > 0 {
      NonzeroOrdered(g, numExperts, n - 1);
      NonzeroEntries(g, numExperts, n - 1);
      RowNonzerosFacts(g, numExperts, n - 1, numExperts);
      var front := NonzeroUpTo(g, numExperts, n - 1);
      var last := RowNonzeros(g, numExperts, n - 1, numExperts);
      var r := front + last;
      assert NonzeroUpTo(g, numExperts, n) == r;
      forall i, j | 0 <= i < j < |r|
        ensures RowMajorBefore(r[i], r[j])
      {
        if j < |front| {
          assert r[i] == front[i] && r[j] == front[j];
        } else if |front| <= i {
          assert r[i] == last[i - |front|] && r[j] == last[j - |front|];
        } else {
          assert r[i] == front[i] && r[j] == last[j - |front|];
        }
      }
    }
  }

  /** `torch.nonzero(gates)`, as a list of (row, expert) pairs. */
  function Nonzero(g: Gates, numExperts: nat): seq<Pair>
    requires IsMatrix(g, numExperts)
  {
    NonzeroUpTo(g, numExperts, |g|)
  }

  /** The row column of `torch.nonzero(gates)` is already ascending, so the
      column-wise `.sort(0)` leaves it as it is, and the permutation that sorts
      the expert column pairs every expert with its own row. */
  lemma NonzeroRowsAscending(g: Gates, numExperts: nat)
    requires IsMatrix(g, numExperts)
    ensures forall i, j :: 0 <= i < j < |Nonzero(g, numExperts)| ==>
      Nonzero(g, numExperts)[i].row <= Nonzero(g, numExperts)[j].row
  {
    NonzeroOrdered(g, numExperts, |g|);
  }

  // ---------------------------------------------------------------------
  // Sorting by the explicit key (expert, row)

  function Insert(p: Pair, s: seq<Pair>): (r: seq<Pair>)
    ensures multiset(r) == multiset(s) + multiset{p}
    ensures |r| == |s| + 1
    ensures r[0] == p || (s != [] && r[0] == s[0])
  {
    if s == [] then [p]
    else if NotAfter(p, s[0]) then
      [p] + s
    else
      assert s == [s[0]] + s[1..];
      [s[0]] + Insert(p, s[1..])
  }

  /** Inserting into a sorted sequence keeps it sorted. */
  lemma {:induction false} InsertSorted(p: Pair, s: seq<Pair>)
    requires Sorted(s)
    ensures Sorted(Insert(p, s))
  {
    if s != [] && !NotAfter(p, s[0]) {
      var tail := s[1..];
      InsertSorted(p, tail);
      var rest := Insert(p, tail);
      assert Insert(p, s) == [s[0]] + rest;
      assert NotAfter(s[0], rest[0]) by {
        if rest[0] != p {
          assert rest[0] == s[1];
        }
      }
      forall j | 0 < j < |rest| ensures NotAfter(s[0], rest[j]) {
        assert NotAfter(rest[0], rest[j]);
      }
    }
  }

  /** Insertion sort by (expert, row): a sorted permutation of its input. */
  function SortByKey(s: seq<Pair>): (r: seq<Pair>)
    ensures multiset(r) == multiset(s)
    ensures Sorted(r)
  {
    if s == [] then []
    else
      assert s == [s[0]] + s[1..];
      var rest := SortByKey(s[1..]);
      InsertSorted(s[0], rest);
      Insert(s[0], rest)
  }

  lemma SortedTail(s: seq<Pair>)
    requires Sorted(s) && s != []
    ensures Sorted(s[1..])
  {
    forall i, j | 0 <= i < j < |s| - 1 ensures NotAfter(s[1..][i], s[1..][j]) {
      assert s[1..][i] == s[i + 1] && s[1..][j] == s[j + 1];
    }
  }

  /** The head of a sorted sequence comes no later than any of its elements. */
  lemma SortedHead(s: seq<Pair>, p: Pair)
    requires Sorted(s) && p in multiset(s)
    ensures NotAfter(s[0], p)
  {
    var k :| 0 <= k < |s| && s[k] == p;
  }

  lemma MultisetTail(s: seq<Pair>)
    requires s != []
    ensures multiset(s[1..]) == multiset(s) - multiset{s[0]}
  {
    assert s == [s[0]] + s[1..];
    assert multiset(s) == multiset([s[0]]) + multiset(s[1..]);
  }

  /** Two sequences sorted by the same total order with the same elements are equal. */
  lemma {:induction false} SortedUnique(s: seq<Pair>, t: seq<Pair>)
    requires Sorted(s) && Sorted(t) && multiset(s) == multiset(t)
    ensures s == t
  {
    assert |t| == |multiset(t)| == |multiset(s)| == |s|;
    if s != [] {
      assert s[0] in multiset(s) && t[0] in multiset(t);
      SortedHead(s, t[0]);
      SortedHead(t, s[0]);
      assert s[0] == t[0];
      MultisetTail(s);
      MultisetTail(t);
      SortedTail(s);
      SortedTail(t);
      SortedUnique(s[1..], t[1..]);
      assert s == [s[0]] + s[1..] && t == [t[0]] + t[1..];
    }
  }

  /** A sequence without repetitions holds each of its elements exactly once. */
  lemma {:induction false} DistinctMultiplicity(s: seq<Pair>, x: Pair)
    requires Distinct(s)
    ensures multiset(s)[x] == if x in s then 1 else 0
  {
    if s != [] {
      assert s == [s[0]] + s[1..];
      DistinctMultiplicity(s[1..], x);
      assert s[0] !in s[1..];
    }
  }

  // ---------------------------------------------------------------------
  // The reference definition: expert by expert, rows ascending

  /** The rows among the first `n` routed to expert `e`, in ascending order. */
  function ColumnNonzeros(g: Gates, numExperts: nat, e: nat, n: nat): seq<Pair>
    requires IsMatrix(g, numExperts) && e < numExperts && n <= |g|
  {
    if n == 0 then []
    else ColumnNonzeros(g, numExperts, e, n - 1) + (if g[n - 1][e] != 0.0 then [Pair(n - 1, e)] else [])
  }

  /** Every pair of column `e` up to row `n` is a routed pair `(b, e)` with `b < n`. */
  lemma {:induction false} ColumnEntries(g: Gates, numExperts: nat, e: nat, n: nat)
    requires IsMatrix(g, numExperts) && e < numExperts && n <= |g|
    ensures forall i :: 0 <= i < |ColumnNonzeros(g, numExperts, e, n)| ==>
      var p := ColumnNonzeros(g, numExperts, e, n)[i];
      p.expert == e && p.row < n && Assigned(g, numExperts, p)
  {
    if n > 0 {
      ColumnEntries(g, numExperts, e, n - 1);
      ColumnNonzerosStep(g, numExperts, e, n);
    }
  }

  /** Every routed pair `(b, e)` with `b < n` is in column `e` up to row `n`. */
  lemma {:induction false} ColumnComplete(g: Gates, numExperts: nat, e: nat, n: nat)
    requires IsMatrix(g, numExperts) && e < numExperts && n <= |g|
    ensures forall b :: 0 <= b < n && g[b][e] != 0.0 ==> Pair(b, e) in ColumnNonzeros(g, numExperts, e, n)
  {
    if n > 0 {
      ColumnComplete(g, numExperts, e, n - 1);
      ColumnNonzerosStep(g, numExperts, e, n);
    }
  }

  /** The rows of column `e` are strictly ascending. */
  lemma {:induction false} ColumnAscending(g: Gates, numExperts: nat, e: nat, n: nat)
    requires IsMatrix(g, numExperts) && e < numExperts && n <= |g|
    ensures forall i, j :: 0 <= i < j < |ColumnNonzeros(g, numExperts, e, n)| ==>
      ColumnNonzeros(g, numExperts, e, n)[i].row < ColumnNonzeros(g, numExperts, e, n)[j].row
  {
    if n > 0 {
      ColumnAscending(g, numExperts, e, n - 1);
      ColumnEntries(g, numExperts, e, n - 1);
      ColumnNonzerosStep(g, numExperts, e, n);
    }
  }

  /** Column `e` up to row `n` holds exactly the routed pairs `(b, e)` with
      `b < n`, each once, rows strictly ascending. */
  lemma ColumnNonzerosFacts(g: Gates, numExperts: nat, e: nat, n: nat)
    requires IsMatrix(g, numExperts) && e < numExperts && n <= |g|
    ensures var r := ColumnNonzeros(g, numExperts, e, n);
      && (forall i :: 0 <= i < |r| ==> r[i].expert == e && r[i].row < n && Assigned(g, numExperts, r[i]))
      && (forall b :: 0 <= b < n && g[b][e] != 0.0 ==> Pair(b, e) in r)
      && (forall i, j :: 0 <= i < j < |r| ==> r[i].row < r[j].row)
  {
    ColumnEntries(g, numExperts, e, n);
    ColumnComplete(g, numExperts, e, n);
    ColumnAscending(g, numExperts, e, n);
  }

  /** Extending a column by one row appends that row's pair exactly when its gate is non-zero. */
  lemma ColumnNonzerosStep(g: Gates, numExperts: nat, e: nat, n: nat)
    requires IsMatrix(g, numExperts) && e < numExperts && 0 < n <= |g|
    ensures g[n - 1][e] != 0.0 ==> ColumnNonzeros(g, numExperts, e, n) == ColumnNonzeros(g, numExperts, e, n - 1) + [Pair(n - 1, e)]
    ensures g[n - 1][e] == 0.0 ==> ColumnNonzeros(g, numExperts, e, n) == ColumnNonzeros(g, numExperts, e, n - 1)
  {
  }

  /** One chunk of assignments per expert, in expert order. */
  function Columns(g: Gates, numExperts: nat): (r: seq<seq<Pair>>)
    requires IsMatrix(g, numExperts)
    ensures |r| == numExperts
  {
    seq(numExperts, e requires 0 <= e < numExperts => ColumnNonzeros(g, numExperts, e, |g|))
  }

  /** The concatenation of the first `k` experts' chunks is strictly sorted by
      (expert, row) and holds exactly the assignments to those experts. */
  lemma {:induction false} ColumnsPrefix(g: Gates, numExperts: nat, k: nat)
    requires IsMatrix(g, numExperts) && k <= numExperts
    ensures StrictlySorted(Flatten(Columns(g, numExperts)[..k]))
    ensures forall p :: p in Flatten(Columns(g, numExperts)[..k]) <==> Assigned(g, numExperts, p) && p.expert < k
  {
    var cs := Columns(g, numExperts);
    if k == 0 {
      assert cs[..0] == [];
    } else {
      ColumnsPrefix(g, numExperts, k - 1);
      assert cs[..k] == cs[..k - 1] + [cs[k - 1]];
      FlattenSnoc(cs[..k - 1], cs[k - 1]);
      var a, c := Flatten(cs[..k - 1]), cs[k - 1];
      assert Flatten(cs[..k]) == a + c;
      ColumnNonzerosFacts(g, numExperts, k - 1, |g|);
      forall p | Assigned(g, numExperts, p) && p.expert == k - 1 ensures p in c {
        assert g[p.row][k - 1] != 0.0;
      }
      forall i, j | 0 <= i < j < |a + c| ensures Before((a + c)[i], (a + c)[j]) {
        if i < |a| && j >= |a| {
          assert (a + c)[i] in a;
          assert (a + c)[j] == c[j - |a|];
        }
      }
    }
  }

  /** The assignments grouped by expert, each group by ascending row. */
  function ByExpert(g: Gates, numExperts: nat): seq<Pair>
    requires IsMatrix(g, numExperts)
  {
    Flatten(Columns(g, numExperts))
  }

  // ---------------------------------------------------------------------
  // The assignment list as `dispatch` and `combine` compute it

  /** `torch.nonzero(gates)` sorted by the explicit key (expert, row). */
  function Assignments(g: Gates, numExperts: nat): seq<Pair>
    requires IsMatrix(g, numExperts)
  {
    SortByKey(Nonzero(g, numExperts))
  }

  /** Sorting the row-major list gives the expert-by-expert list: the two
      derivations of the assignment list agree. */
  lemma AssignmentsByExpert(g: Gates, numExperts: nat)
    requires IsMatrix(g, numExperts)
    ensures Assignments(g, numExperts) == ByExpert(g, numExperts)
  {
    var cs := Columns(g, numExperts);
    ColumnsPrefix(g, numExperts, numExperts);
    assert cs[..numExperts] == cs;
    var byExpert, nz := ByExpert(g, numExperts), Nonzero(g, numExperts);
    NonzeroEntries(g, numExperts, |g|);
    NonzeroComplete(g, numExperts, |g|);
    NonzeroOrdered(g, numExperts, |g|);
    assert Distinct(byExpert);
    assert Distinct(nz) by {
      forall i, j | 0 <= i < j < |nz|
        ensures nz[i] != nz[j]
      {
        assert RowMajorBefore(nz[i], nz[j]);
      }
    }
    forall x ensures multiset(byExpert)[x] == multiset(nz)[x] {
      DistinctMultiplicity(byExpert, x);
      DistinctMultiplicity(nz, x);
      if x in byExpert {
        assert Assigned(g, numExperts, x);
      }
    }
    assert multiset(byExpert) == multiset(nz);
    SortedUnique(Assignments(g, numExperts), byExpert);
  }

  /** The assignment list holds exactly the routed pairs. */
  lemma AssignmentMembership(g: Gates, numExperts: nat)
    requires IsMatrix(g, numExperts)
    ensures forall p :: p in Assignments(g, numExperts) <==> Assigned(g, numExperts, p)
  {
    AssignmentsByExpert(g, numExperts);
    ColumnsPrefix(g, numExperts, numExperts);
    assert Columns(g, numExperts)[..numExperts] == Columns(g, numExperts);
  }

  /** Every entry of the assignment list is a routed pair. */
  lemma AssignmentsRouted(g: Gates, numExperts: nat)
    requires IsMatrix(g, numExperts)
    ensures forall i :: 0 <= i < |Assignments(g, numExperts)| ==> Assigned(g, numExperts, Assignments(g, numExperts)[i])
  {
    AssignmentMembership(g, numExperts);
    var list := Assignments(g, numExperts);
    forall i | 0 <= i < |list| ensures Assigned(g, numExperts, list[i]) {
      assert list[i] in list;
    }
  }

  /** `batch_index`: the row of every assignment. */
  function Rows(ps: seq<Pair>): (r: seq<nat>)
    ensures |r| == |ps|
  {
    seq(|ps|, i requires 0 <= i < |ps| => ps[i].row)
  }

  /** `_expert_index`: the expert of every assignment. */
  function Experts(ps: seq<Pair>): (r: seq<nat>)
    ensures |r| == |ps|
  {
    seq(|ps|, i requires 0 <= i < |ps| => ps[i].expert)
  }

  function BatchIndex(g: Gates, numExperts: nat): seq<nat>
    requires IsMatrix(g, numExperts)
  {
    Rows(Assignments(g, numExperts))
  }

  function ExpertIndex(g: Gates, numExperts: nat): seq<nat>
    requires IsMatrix(g, numExperts)
  {
    Experts(Assignments(g, numExperts))
  }

  /** Position `i` of (`batch_index`, `_expert_index`) is a routed pair, and
      every routed pair sits at some position. */
  lemma IndexPairs(g: Gates, numExperts: nat)
    requires IsMatrix(g, numExperts)
    ensures |BatchIndex(g, numExperts)| == |ExpertIndex(g, numExperts)|
    ensures forall i :: 0 <= i < |BatchIndex(g, numExperts)| ==>
      Assigned(g, numExperts, Pair(BatchIndex(g, numExperts)[i], ExpertIndex(g, numExperts)[i]))
    ensures forall p :: Assigned(g, numExperts, p) ==>
      exists i :: 0 <= i < |BatchIndex(g, numExperts)| && BatchIndex(g, numExperts)[i] == p.row && ExpertIndex(g, numExperts)[i] == p.expert
  {
    var list := Assignments(g, numExperts);
    AssignmentMembership(g, numExperts);
    forall i | 0 <= i < |list| ensures Assigned(g, numExperts, Pair(BatchIndex(g, numExperts)[i], ExpertIndex(g, numExperts)[i])) {
      assert list[i] in list;
      assert list[i] == Pair(BatchIndex(g, numExperts)[i], ExpertIndex(g, numExperts)[i]);
    }
    forall p | Assigned(g, numExperts, p)
      ensures exists i :: 0 <= i < |list| && BatchIndex(g, numExperts)[i] == p.row && ExpertIndex(g, numExperts)[i] == p.expert
    {
      var i :| 0 <= i < |list| && list[i] == p;
      assert BatchIndex(g, numExperts)[i] == p.row && ExpertIndex(g, numExperts)[i] == p.expert;
    }
  }

  /** All of `batch_index` lies below `n` exactly when every routed row does. */
  lemma BatchIndexBelow(g: Gates, numExperts: nat, n: nat)
    requires IsMatrix(g, numExperts)
    ensures AllBelow(BatchIndex(g, numExperts), n) <==>
      forall b, e :: 0 <= b < |g| && 0 <= e < numExperts && g[b][e] != 0.0 ==> b < n
  {
    var batchIndex := BatchIndex(g, numExperts);
    IndexPairs(g, numExperts);
    if !AllBelow(batchIndex, n) {
      var i :| 0 <= i < |batchIndex| && batchIndex[i] >= n;
      var e := ExpertIndex(g, numExperts)[i];
      assert 0 <= batchIndex[i] < |g| && 0 <= e < numExperts && g[batchIndex[i]][e] != 0.0;
    }
    if exists b, e :: 0 <= b < |g| && 0 <= e < numExperts && g[b][e] != 0.0 && n <= b {
      var b, e :| 0 <= b < |g| && 0 <= e < numExperts && g[b][e] != 0.0 && n <= b;
      assert Assigned(g, numExperts, Pair(b, e));
      var i :| 0 <= i < |batchIndex| && batchIndex[i] == b && ExpertIndex(g, numExperts)[i] == e;
    }
  }

  /** Every entry of the assignment list is a routed pair, every routed pair
      occurs exactly once, and the list is ordered by expert, then row. */
  lemma AssignmentList(g: Gates, numExperts: nat)
    requires IsMatrix(g, numExperts)
    ensures forall i :: 0 <= i < |Assignments(g, numExperts)| ==> Assigned(g, numExperts, Assignments(g, numExperts)[i])
    ensures forall p :: multiset(Assignments(g, numExperts))[p] == if Assigned(g, numExperts, p) then 1 else 0
    ensures forall i, j :: 0 <= i < j < |Assignments(g, numExperts)| ==>
      Before(Assignments(g, numExperts)[i], Assignments(g, numExperts)[j])
    ensures forall i, j :: 0 <= i < j < |ExpertIndex(g, numExperts)| ==>
      ExpertIndex(g, numExperts)[i] <= ExpertIndex(g, numExperts)[j]
  {
    var list := Assignments(g, numExperts);
    AssignmentsByExpert(g, numExperts);
    var cs := Columns(g, numExperts);
    ColumnsPrefix(g, numExperts, numExperts);
    assert cs[..numExperts] == cs;
    assert StrictlySorted(list);
    assert forall p :: p in list <==> Assigned(g, numExperts, p);
    forall i | 0 <= i < |list| ensures Assigned(g, numExperts, list[i]) {
      assert list[i] in list;
    }
    forall p ensures multiset(list)[p] == if Assigned(g, numExperts, p) then 1 else 0 {
      DistinctMultiplicity(list, p);
    }
    var ei := ExpertIndex(g, numExperts);
    forall i, j | 0 <= i < j < |ei| ensures ei[i] <= ei[j] {
      assert Before(list[i], list[j]);
    }
  }

  // ---------------------------------------------------------------------
  // part_sizes: the per-expert counts

  /** The number of the first `n` rows whose gate for expert `e` is non-zero
      (the column sum of `gates != 0`). */
  function ColumnCount(g: Gates, numExperts: nat, e: nat, n: nat): nat
    requires IsMatrix(g, numExperts) && e < numExperts && n <= |g|
  {
    if n == 0 then 0 else ColumnCount(g, numExperts, e, n - 1) + (if g[n - 1][e] != 0.0 then 1 else 0)
  }

  /** `part_sizes = (gates != 0).sum(0)`. */
  function PartSizes(g: Gates, numExperts: nat): (r: seq<nat>)
    requires IsMatrix(g, numExperts)
    ensures |r| == numExperts
  {
    seq(numExperts, e requires 0 <= e < numExperts => ColumnCount(g, numExperts, e, |g|))
  }

  lemma {:induction false} ColumnCountLength(g: Gates, numExperts: nat, e: nat, n: nat)
    requires IsMatrix(g, numExperts) && e < numExperts && n <= |g|
    ensures ColumnCount(g, numExperts, e, n) == |ColumnNonzeros(g, numExperts, e, n)|
  {
    if n > 0 {
      ColumnCountLength(g, numExperts, e, n - 1);
    }
  }

  /** `part_sizes[e]` is the size of expert `e`'s chunk of the assignment
      list, and the sizes add up to the number of non-zero gates. */
  lemma PartSizesCount(g: Gates, numExperts: nat)
    requires IsMatrix(g, numExperts)
    ensures PartSizes(g, numExperts) == Lengths(Columns(g, numExperts))
    ensures Sum(PartSizes(g, numExperts)) == |BatchIndex(g, numExperts)| == |Nonzero(g, numExperts)|
  {
    var cs := Columns(g, numExperts);
    forall e | 0 <= e < numExperts ensures PartSizes(g, numExperts)[e] == |cs[e]| {
      ColumnCountLength(g, numExperts, e, |g|);
    }
    FlattenLength(cs);
    AssignmentsByExpert(g, numExperts);
    assert |multiset(Assignments(g, numExperts))| == |multiset(Nonzero(g, numExperts))|;
  }
}
