/** The bottom-up merge sort behind HASH_SRT as a function on sequences. */
module MergeSorting {
  import opened HashMemory

  /** A comparison of elements, by address: the elements do not change while they are sorted. */
  type Compare = (Ptr, Ptr) -> int

  ghost predicate TotalPreorder(cmp: Compare) {
    && (forall a, b :: cmp(a, b) <= 0 || cmp(b, a) <= 0)
    && (forall a, b, c :: cmp(a, b) <= 0 && cmp(b, c) <= 0 ==> cmp(a, c) <= 0)
  }

  ghost predicate Sorted(xs: seq<Ptr>, cmp: Compare) {
    forall i, j :: 0 <= i < j < |xs| ==> cmp(xs[i], xs[j]) <= 0
  }

  /** y, if it compares equal to x. */
  function Tie(y: Ptr, x: Ptr, cmp: Compare): seq<Ptr> {
    if cmp(y, x) <= 0 && cmp(x, y) <= 0 then [y] else []
  }

  /** The elements of xs that compare equal to x, in their order. */
  ghost function Ties(xs: seq<Ptr>, x: Ptr, cmp: Compare): seq<Ptr> {
    if xs == [] then [] else
    Tie(xs[0], x, cmp) + Ties(xs[1..], x, cmp)
  }

  /** ys is xs rearranged, elements that compare equal staying in order. */
  ghost predicate StablePermutation(xs: seq<Ptr>, ys: seq<Ptr>, cmp: Compare) {
    multiset(ys) == multiset(xs) && forall x :: Ties(ys, x, cmp) == Ties(xs, x, cmp)
  }

  /** Merging two runs; the first one wins ties. */
  ghost function Merge(p: seq<Ptr>, q: seq<Ptr>, cmp: Compare): seq<Ptr> {
    if p == [] then q
    else if q == [] then p
    else if cmp(p[0], q[0]) <= 0 then [p[0]] + Merge(p[1..], q, cmp)
    else [q[0]] + Merge(p, q[1..], cmp)
  }

  function Min(a: nat, b: nat): nat { if a < b then a else b }

  /** One pass over the list: neighbouring runs of length n are merged. */
  ghost function Pass(xs: seq<Ptr>, n: nat, cmp: Compare): seq<Ptr>
    requires n > 0
  {
    if xs == [] then [] else
    var k := Min(n, |xs|);
    var l := Min(2 * n, |xs|);
    Merge(xs[..k], xs[k..l], cmp) + Pass(xs[l..], n, cmp)
  }

  /** xs consists of sorted runs of length n. */
  ghost predicate Runs(xs: seq<Ptr>, n: nat, cmp: Compare)
    requires n > 0
  {
    xs == [] || (Sorted(xs[..Min(n, |xs|)], cmp) && Runs(xs[Min(n, |xs|)..], n, cmp))
  }

  // ------------------------------------------------------------------ one merge

  lemma {:induction false} MergeKeeps(p: seq<Ptr>, q: seq<Ptr>, cmp: Compare)
    ensures multiset(Merge(p, q, cmp)) == multiset(p) + multiset(q)
    ensures |Merge(p, q, cmp)| == |p| + |q|
    decreases |p| + |q|
  {
    if p != [] && q != [] {
      if cmp(p[0], q[0]) <= 0 {
        MergeKeeps(p[1..], q, cmp);
        assert p == [p[0]] + p[1..];
      } else {
        MergeKeeps(p, q[1..], cmp);
        assert q == [q[0]] + q[1..];
      }
    }
  }

  lemma SortedCons(x: Ptr, xs: seq<Ptr>, cmp: Compare)
    requires Sorted(xs, cmp) && forall y :: y in xs ==> cmp(x, y) <= 0
    ensures Sorted([x] + xs, cmp)
  {
  }

  lemma HeadIsLeast(xs: seq<Ptr>, cmp: Compare)
    requires TotalPreorder(cmp) && Sorted(xs, cmp) && xs != []
    ensures forall y :: y in xs ==> cmp(xs[0], y) <= 0
    ensures Sorted(xs[1..], cmp)
  {
    assert cmp(xs[0], xs[0]) <= 0;
  }

  lemma Precedes(x: Ptr, xs: seq<Ptr>, cmp: Compare)
    requires TotalPreorder(cmp) && Sorted(xs, cmp) && xs != [] && cmp(x, xs[0]) <= 0
    ensures forall y :: y in xs ==> cmp(x, y) <= 0
  {
    HeadIsLeast(xs, cmp);
    forall y | y in xs
      ensures cmp(x, y) <= 0
    {
      assert cmp(xs[0], y) <= 0;
    }
  }

  lemma LeastOfMerge(x: Ptr, p: seq<Ptr>, q: seq<Ptr>, cmp: Compare)
    requires (forall y :: y in p ==> cmp(x, y) <= 0) && (forall y :: y in q ==> cmp(x, y) <= 0)
    ensures forall y :: y in Merge(p, q, cmp) ==> cmp(x, y) <= 0
  {
    MergeKeeps(p, q, cmp);
    forall y | y in Merge(p, q, cmp)
      ensures cmp(x, y) <= 0
    {
      assert y in multiset(Merge(p, q, cmp));
      assert y in multiset(p) || y in multiset(q);
    }
  }

  lemma {:induction false} MergeSorts(p: seq<Ptr>, q: seq<Ptr>, cmp: Compare)
    requires TotalPreorder(cmp) && Sorted(p, cmp) && Sorted(q, cmp)
    ensures Sorted(Merge(p, q, cmp), cmp)
    decreases |p| + |q|
  {
    if p != [] && q != [] {
      HeadIsLeast(p, cmp);
      HeadIsLeast(q, cmp);
      if cmp(p[0], q[0]) <= 0 {
        MergeSorts(p[1..], q, cmp);
        Precedes(p[0], q, cmp);
        LeastOfMerge(p[0], p[1..], q, cmp);
        SortedCons(p[0], Merge(p[1..], q, cmp), cmp);
      } else {
        MergeSorts(p, q[1..], cmp);
        Precedes(q[0], p, cmp);
        LeastOfMerge(q[0], p, q[1..], cmp);
        SortedCons(q[0], Merge(p, q[1..], cmp), cmp);
      }
    }
  }

  lemma TiesCons(y: Ptr, ys: seq<Ptr>, x: Ptr, cmp: Compare)
    ensures Ties([y] + ys, x, cmp) == Tie(y, x, cmp) + Ties(ys, x, cmp)
  {
    assert ([y] + ys)[1..] == ys;
  }

  lemma Associative(a: seq<Ptr>, b: seq<Ptr>, c: seq<Ptr>)
    ensures a + b + c == a + (b + c)
  {
  }

  lemma {:induction false} TiesConcat(a: seq<Ptr>, b: seq<Ptr>, x: Ptr, cmp: Compare)
    ensures Ties(a + b, x, cmp) == Ties(a, x, cmp) + Ties(b, x, cmp)
  {
    if a == [] {
      assert a + b == b;
    } else {
      TiesConcat(a[1..], b, x, cmp);
      TiesCons(a[0], a[1..] + b, x, cmp);
      Associative([a[0]], a[1..], b);
      assert a == [a[0]] + a[1..];
      Associative(Tie(a[0], x, cmp), Ties(a[1..], x, cmp), Ties(b, x, cmp));
    }
  }

  lemma {:induction false} NoTies(p: seq<Ptr>, x: Ptr, cmp: Compare)
    requires forall y :: y in p ==> !(cmp(y, x) <= 0 && cmp(x, y) <= 0)
    ensures Ties(p, x, cmp) == []
  {
    if p != [] {
      NoTies(p[1..], x, cmp);
    }
  }

  /** If y ties with x and is strictly less than the sorted p, nothing in p ties with x. */
  lemma BeforeAll(y: Ptr, p: seq<Ptr>, x: Ptr, cmp: Compare)
    requires TotalPreorder(cmp) && Sorted(p, cmp) && p != [] && !(cmp(p[0], y) <= 0)
    requires cmp(y, x) <= 0 && cmp(x, y) <= 0
    ensures Ties(p, x, cmp) == []
  {
    HeadIsLeast(p, cmp);
    forall z | z in p
      ensures !(cmp(z, x) <= 0 && cmp(x, z) <= 0)
    {
      assert cmp(p[0], z) <= 0;
    }
    NoTies(p, x, cmp);
  }

  /** The smaller head is on the right: nothing in p ties with x if it does. */
  lemma RightFirst(p: seq<Ptr>, q: seq<Ptr>, x: Ptr, cmp: Compare)
    requires TotalPreorder(cmp) && Sorted(p, cmp) && p != [] && q != [] && !(cmp(p[0], q[0]) <= 0)
    ensures Tie(q[0], x, cmp) + Ties(p, x, cmp) == Ties(p, x, cmp) + Tie(q[0], x, cmp)
  {
    if cmp(q[0], x) <= 0 && cmp(x, q[0]) <= 0 {
      BeforeAll(q[0], p, x, cmp);
    }
  }

  /** Merging keeps the order of ties: first those of p, then those of q. */
  lemma {:induction false} MergeIsStable(p: seq<Ptr>, q: seq<Ptr>, x: Ptr, cmp: Compare)
    requires TotalPreorder(cmp) && Sorted(p, cmp)
    ensures Ties(Merge(p, q, cmp), x, cmp) == Ties(p, x, cmp) + Ties(q, x, cmp)
    decreases |p| + |q|
  {
    if p != [] && q != [] {
      HeadIsLeast(p, cmp);
      if cmp(p[0], q[0]) <= 0 {
        MergeIsStable(p[1..], q, x, cmp);
        TiesCons(p[0], Merge(p[1..], q, cmp), x, cmp);
        Associative(Tie(p[0], x, cmp), Ties(p[1..], x, cmp), Ties(q, x, cmp));
      } else {
        MergeIsStable(p, q[1..], x, cmp);
        TiesCons(q[0], Merge(p, q[1..], cmp), x, cmp);
        RightFirst(p, q, x, cmp);
        Associative(Tie(q[0], x, cmp), Ties(p, x, cmp), Ties(q[1..], x, cmp));
        Associative(Ties(p, x, cmp), Tie(q[0], x, cmp), Ties(q[1..], x, cmp));
      }
    }
  }

  // ------------------------------------------------------------------- one pass

  /** Splitting off the first two runs of a pass. */
  lemma PassUnfold(xs: seq<Ptr>, n: nat, cmp: Compare) returns (p: seq<Ptr>, q: seq<Ptr>, r: seq<Ptr>)
    requires n > 0 && xs != []
    ensures var k, l := Min(n, |xs|), Min(2 * n, |xs|); p == xs[..k] && q == xs[k..l] && r == xs[l..]
    ensures xs == p + q + r && |r| < |xs| && p != [] && |p + q| <= 2 * n && (r != [] ==> |p + q| == 2 * n)
    ensures Pass(xs, n, cmp) == Merge(p, q, cmp) + Pass(r, n, cmp)
  {
    var k, l := Min(n, |xs|), Min(2 * n, |xs|);
    p, q, r := xs[..k], xs[k..l], xs[l..];
  }

  lemma {:induction false} PassPermutes(xs: seq<Ptr>, n: nat, cmp: Compare)
    requires n > 0
    ensures multiset(Pass(xs, n, cmp)) == multiset(xs)
    decreases |xs|
  {
    if xs != [] {
      var p, q, r := PassUnfold(xs, n, cmp);
      MergeKeeps(p, q, cmp);
      PassPermutes(r, n, cmp);
    }
  }

  lemma RunsSplit(xs: seq<Ptr>, n: nat, cmp: Compare)
    requires n > 0 && xs != [] && Runs(xs, n, cmp)
    ensures var k, l := Min(n, |xs|), Min(2 * n, |xs|);
            Sorted(xs[..k], cmp) && Sorted(xs[k..l], cmp) && Runs(xs[l..], n, cmp)
  {
    var k, l := Min(n, |xs|), Min(2 * n, |xs|);
    var rest := xs[k..];
    if rest != [] {
      assert rest[..Min(n, |rest|)] == xs[k..l];
      assert rest[Min(n, |rest|)..] == xs[l..];
    } else {
      assert xs[k..l] == [] && xs[l..] == [];
    }
  }

  lemma {:induction false} PassIsStable(xs: seq<Ptr>, n: nat, x: Ptr, cmp: Compare)
    requires n > 0 && TotalPreorder(cmp) && Runs(xs, n, cmp)
    ensures Ties(Pass(xs, n, cmp), x, cmp) == Ties(xs, x, cmp)
    decreases |xs|
  {
    if xs != [] {
      var p, q, r := PassUnfold(xs, n, cmp);
      RunsSplit(xs, n, cmp);
      MergeIsStable(p, q, x, cmp);
      PassIsStable(r, n, x, cmp);
      TiesConcat(Merge(p, q, cmp), Pass(r, n, cmp), x, cmp);
      TiesConcat(p + q, r, x, cmp);
      TiesConcat(p, q, x, cmp);
    }
  }

  lemma RunsJoin(m: seq<Ptr>, rest: seq<Ptr>, n: nat, cmp: Compare)
    requires n > 0 && Sorted(m, cmp) && m != [] && Runs(rest, n, cmp)
    requires |m| <= n && (|m| == n || rest == [])
    ensures Runs(m + rest, n, cmp)
  {
    var xs := m + rest;
    assert xs[..|m|] == m && xs[|m|..] == rest;
  }

  lemma {:induction false} PassDoublesRuns(xs: seq<Ptr>, n: nat, cmp: Compare)
    requires n > 0 && TotalPreorder(cmp) && Runs(xs, n, cmp)
    ensures Runs(Pass(xs, n, cmp), 2 * n, cmp)
    decreases |xs|
  {
    if xs != [] {
      var p, q, r := PassUnfold(xs, n, cmp);
      RunsSplit(xs, n, cmp);
      MergeKeeps(p, q, cmp);
      MergeSorts(p, q, cmp);
      PassDoublesRuns(r, n, cmp);
      RunsJoin(Merge(p, q, cmp), Pass(r, n, cmp), 2 * n, cmp);
    }
  }

  /** A pass is a stable permutation that doubles the length of the sorted runs. */
  lemma PassKeeps(xs: seq<Ptr>, n: nat, cmp: Compare)
    requires n > 0 && TotalPreorder(cmp) && Runs(xs, n, cmp)
    ensures StablePermutation(xs, Pass(xs, n, cmp), cmp)
    ensures Runs(Pass(xs, n, cmp), 2 * n, cmp)
  {
    PassPermutes(xs, n, cmp);
    PassDoublesRuns(xs, n, cmp);
    forall x
      ensures Ties(Pass(xs, n, cmp), x, cmp) == Ties(xs, x, cmp)
    {
      PassIsStable(xs, n, x, cmp);
    }
  }

  lemma {:induction false} SingletonRuns(xs: seq<Ptr>, cmp: Compare)
    ensures Runs(xs, 1, cmp)
  {
    if xs != [] {
      SingletonRuns(xs[1..], cmp);
    }
  }

  lemma OneRunIsSorted(xs: seq<Ptr>, n: nat, cmp: Compare)
    requires n > 0 && |xs| <= n && Runs(xs, n, cmp)
    ensures Sorted(xs, cmp)
  {
    if xs != [] {
      assert xs[..Min(n, |xs|)] == xs;
    }
  }

  lemma StableTransitive(xs: seq<Ptr>, ys: seq<Ptr>, zs: seq<Ptr>, cmp: Compare)
    requires StablePermutation(xs, ys, cmp) && StablePermutation(ys, zs, cmp)
    ensures StablePermutation(xs, zs, cmp)
  {
  }
}
