/** The d-ary tree of ranks (helpers.c). */
module Topology {
  import opened Arithmetic

  function CDivPos(a: int, b: int): int
    requires b > 0
  {
    if a >= 0 then a / b else -((-a) / b)
  }

  /** Integer division as C computes it: the quotient is truncated toward zero. */
  function CDiv(a: int, b: int): int
    requires b != 0
  {
    if b < 0 then -CDivPos(a, -b) else CDivPos(a, b)
  }

  /** get_parent; for rank 0 this is -1 when d == 1 and 0 otherwise. */
  function ParentRank(rank: int, d: int): int
    requires d != 0
  {
    CDiv(rank - 1, d)
  }

  predicate IsLeaf(rank: int, d: int, n: int) {
    rank * d + 1 >= n && n > 1
  }

  /** How many of rank*d+1 .. rank*d+d are below n, in closed form. */
  function Degree(rank: int, d: int, n: int): nat {
    var room := n - 1 - rank * d;
    if room <= 0 || d <= 0 then 0 else if room <= d then room else d
  }

  /** get_degree_node, and the same loop inside the queue handler. */
  method CountChildren(rank: int, d: int, n: int) returns (degree: int)
    ensures degree == Degree(rank, d, n)
  {
    degree := 0;
    var i := 1;
    while i <= d
      invariant 1 <= i && (d >= 0 ==> i <= d + 1)
      invariant degree == Degree(rank, d, n) || i <= d
      invariant d > 0 ==> degree == var room := n - 1 - rank * d;
                                    if room <= 0 then 0 else if room <= i - 1 then room else i - 1
    {
      if rank * d + i < n {
        degree := degree + 1;
      }
      i := i + 1;
    }
  }

  /** The ranks that name `rank` as their parent. */
  ghost function Children(rank: int, d: int, n: int): set<int>
    requires d >= 1
  {
    set c | 1 <= c < n && ParentRank(c, d) == rank
  }

  lemma ParentBelow(x: int, d: int)
    requires d >= 1 && x >= 1
    ensures 0 <= ParentRank(x, d) < x
  {
    Monotone(x, (x - 1) / d, d);
    Monotone(1, d, x);
  }

  /** x lies at or below rank: following parents from x reaches rank. */
  ghost predicate Under(x: int, rank: int, d: int)
    requires d >= 1 && x >= 0
    decreases x
  {
    x == rank || (x >= 1 && x > rank && (ParentBelow(x, d); Under(ParentRank(x, d), rank, d)))
  }

  ghost function Subtree(rank: int, d: int, n: int): set<int>
    requires d >= 1
  {
    set x | 0 <= x < n && Under(x, rank, d)
  }

  // ---------------------------------------------------------------- arithmetic

  /** What C's division yields: the remainder is smaller than the divisor and has the dividend's sign. */
  lemma Truncates(a: int, b: int)
    requires b != 0
    ensures var r := a - CDiv(a, b) * b;
            && (a >= 0 ==> 0 <= r) && (a <= 0 ==> r <= 0)
            && (if b > 0 then -b < r < b else b < r < -b)
  {
  }

  /** The root is its own parent, except in a chain. */
  lemma ParentOfRoot(d: int)
    requires d >= 1
    ensures ParentRank(0, d) == if d == 1 then -1 else 0
  {
    if d > 1 {
      assert CDivPos(-1, d) == -(1 / d);
      DivModUnique(1, d, 0, 1);
    }
  }

  /** The child formula and the parent formula are inverse. */
  lemma ParentOfChild(rank: int, i: int, d: int)
    requires d >= 1 && 1 <= i <= d && rank >= 0
    ensures ParentRank(rank * d + i, d) == rank
  {
    assert rank * d >= 0;
    DivModUnique(rank * d + i - 1, d, rank, i - 1);
  }

  lemma ChildOfParent(c: int, d: int)
    requires d >= 1 && c >= 1
    ensures 1 <= c - ParentRank(c, d) * d <= d
  {
    var q := (c - 1) / d;
    assert c - 1 == q * d + (c - 1) % d;
  }

  /** The valid children are exactly the first Degree slots. */
  lemma ChildrenArePrefix(rank: int, d: int, n: int, c: int)
    requires d >= 1 && 0 <= rank
    ensures c in Children(rank, d, n) <==> 1 <= c - rank * d <= Degree(rank, d, n)
  {
    assert rank * d >= 0;
    if c in Children(rank, d, n) {
      ChildOfParent(c, d);
    }
    if 1 <= c - rank * d <= Degree(rank, d, n) {
      ParentOfChild(rank, c - rank * d, d);
    }
  }

  ghost function Interval(lo: int, k: nat): (s: set<int>)
    ensures |s| == k
    ensures forall x :: x in s <==> lo < x <= lo + k
  {
    if k == 0 then {} else Interval(lo, k - 1) + {lo + k}
  }

  lemma DegreeCountsChildren(rank: int, d: int, n: int)
    requires d >= 1 && 0 <= rank
    ensures |Children(rank, d, n)| == Degree(rank, d, n)
  {
    forall c
      ensures c in Children(rank, d, n) <==> rank * d < c <= rank * d + Degree(rank, d, n)
    {
      ChildrenArePrefix(rank, d, n, c);
    }
    assert Children(rank, d, n) == Interval(rank * d, Degree(rank, d, n));
  }

  lemma LeafIffNoChildren(rank: int, d: int, n: int)
    requires d >= 1 && n > 1 && 0 <= rank < n
    ensures IsLeaf(rank, d, n) <==> Degree(rank, d, n) == 0
    ensures IsLeaf(rank, d, n) <==> Children(rank, d, n) == {}
  {
    DegreeCountsChildren(rank, d, n);
  }

  ghost function DegreeSum(m: nat, d: int, n: int): nat {
    if m == 0 then 0 else DegreeSum(m - 1, d, n) + Degree(m - 1, d, n)
  }

  lemma {:induction false} DegreeSumClosed(m: nat, d: int, n: int)
    requires d >= 1 && n >= 1
    ensures DegreeSum(m, d, n) == if m * d <= n - 1 then m * d else n - 1
  {
    if m > 0 {
      DegreeSumClosed(m - 1, d, n);
      assert (m - 1) * d == m * d - d;
    }
  }

  /** Every rank but the root is the child of exactly one rank. */
  lemma DegreesSumToEdges(d: int, n: int)
    requires d >= 1 && n >= 1
    ensures DegreeSum(n, d, n) == n - 1
  {
    DegreeSumClosed(n, d, n);
    assert n * d >= n;
  }

  // ------------------------------------------------------------------ subtrees

  lemma {:induction false} EverythingUnderRoot(x: int, d: int)
    requires d >= 1 && x >= 0
    ensures Under(x, 0, d)
    decreases x
  {
    if x > 0 {
      ParentBelow(x, d);
      EverythingUnderRoot(ParentRank(x, d), d);
    }
  }

  lemma {:induction false} UnderParent(x: int, c: int, d: int)
    requires d >= 1 && x >= 0 && c >= 1 && Under(x, c, d)
    ensures Under(x, ParentRank(c, d), d)
    decreases x
  {
    ParentBelow(c, d);
    if x != c {
      ParentBelow(x, d);
      UnderParent(ParentRank(x, d), c, d);
    }
  }

  /** Going down: something strictly below rank is below one of its children. */
  lemma {:induction false} UnderSomeChild(x: int, rank: int, d: int) returns (c: int)
    requires d >= 1 && x >= 0 && rank >= 0 && Under(x, rank, d) && x != rank
    ensures 1 <= c <= x && ParentRank(c, d) == rank && Under(x, c, d)
    decreases x
  {
    ParentBelow(x, d);
    if ParentRank(x, d) == rank {
      c := x;
    } else {
      c := UnderSomeChild(ParentRank(x, d), rank, d);
    }
  }

  lemma NotUnderSibling(c: int, e: int, d: int)
    requires d >= 1 && c >= 1 && e >= 1 && c != e && ParentRank(c, d) == ParentRank(e, d)
    ensures !Under(c, e, d)
  {
    ParentBelow(c, d);
    ParentBelow(e, d);
  }

  /** No rank lies below two siblings. */
  lemma {:induction false} SiblingsDisjoint(x: int, c: int, e: int, d: int)
    requires d >= 1 && x >= 0 && c >= 1 && e >= 1 && ParentRank(c, d) == ParentRank(e, d)
    requires Under(x, c, d) && Under(x, e, d)
    ensures c == e
    decreases x
  {
    ParentBelow(c, d);
    ParentBelow(e, d);
    if x == c || x == e {
      if c != e {
        NotUnderSibling(c, e, d);
        NotUnderSibling(e, c, d);
      }
    } else {
      ParentBelow(x, d);
      SiblingsDisjoint(ParentRank(x, d), c, e, d);
    }
  }

  /** A source of events at rank stands for its subtree, the rank itself for itself only. */
  ghost predicate Covers(source: int, x: int, rank: int, d: int)
    requires d >= 1 && x >= 0
  {
    if source == rank then x == rank else Under(x, source, d)
  }

  ghost predicate CoveredBy(sources: set<int>, x: int, rank: int, d: int)
    requires d >= 1 && x >= 0
  {
    exists c :: c in sources && Covers(c, x, rank, d)
  }

  /** Whatever a set of children covers, together with the rank itself. */
  ghost function Cover(sources: set<int>, rank: int, d: int, n: int): set<int>
    requires d >= 1
  {
    set x | 0 <= x < n && CoveredBy(sources, x, rank, d)
  }

  /** A subtree is its root plus the disjoint subtrees of the children. */
  lemma SubtreeIsCover(rank: int, d: int, n: int)
    requires d >= 1 && 0 <= rank < n
    ensures Cover(Children(rank, d, n) + {rank}, rank, d, n) == Subtree(rank, d, n)
  {
    var s := Children(rank, d, n) + {rank};
    forall x | 0 <= x < n
      ensures x in Cover(s, rank, d, n) <==> Under(x, rank, d)
    {
      if Under(x, rank, d) {
        if x == rank {
          assert Covers(rank, x, rank, d);
        } else {
          var c := UnderSomeChild(x, rank, d);
          ParentBelow(c, d);
          assert c in s && Covers(c, x, rank, d);
        }
      }
      if CoveredBy(s, x, rank, d) {
        var c :| c in s && Covers(c, x, rank, d);
        if c != rank {
          UnderParent(x, c, d);
        }
      }
    }
  }

  lemma CoverDisjoint(sources: set<int>, c: int, rank: int, d: int, n: int)
    requires d >= 1 && 0 <= rank < n
    requires sources <= Children(rank, d, n) + {rank} && c in Children(rank, d, n) + {rank} && c !in sources
    ensures Cover(sources, rank, d, n) * Cover({c}, rank, d, n) == {}
    ensures Cover(sources + {c}, rank, d, n) == Cover(sources, rank, d, n) + Cover({c}, rank, d, n)
  {
    forall x | x in Cover(sources, rank, d, n) && x in Cover({c}, rank, d, n)
      ensures false
    {
      var e :| e in sources && Covers(e, x, rank, d);
      assert Covers(c, x, rank, d);
      if e == rank || c == rank {
        var other := if e == rank then c else e;
        ParentBelow(other, d);
      } else {
        SiblingsDisjoint(x, c, e, d);
      }
    }
    forall x | x in Cover({c}, rank, d, n)
      ensures x in Cover(sources + {c}, rank, d, n)
    {
      assert Covers(c, x, rank, d);
    }
  }

  /** The root's subtree is every rank. */
  lemma RootSubtree(d: int, n: int)
    requires d >= 1 && n >= 1
    ensures forall x :: x in Subtree(0, d, n) <==> 0 <= x < n
  {
    forall x | 0 <= x < n
      ensures Under(x, 0, d)
    {
      EverythingUnderRoot(x, d);
    }
  }
}
