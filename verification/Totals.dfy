/** What a set of ranks contributed to a pulse, folded in rank order: the reference for the tree. */
module Totals {
  import opened Events
  import opened Topology

  /** What one rank put into the tree for one pulse; leaves also record when they sent it. */
  datatype Sample = Sample(values: seq<int>, start: real)

  /** Folded metrics and the earliest start time of the leaves among the contributors. */
  datatype Part = Part(info: seq<Aggregate>, start: Option<real>)

  function MergeInfo(a: seq<Aggregate>, b: seq<Aggregate>): seq<Aggregate> {
    seq(if |a| < |b| then |a| else |b|,
        j requires 0 <= j < |a| && j < |b| => Combine(a[j], b[j]))
  }

  function Earliest(a: Option<real>, b: Option<real>): Option<real> {
    if a.None? then b else if b.None? then a else if b.value < a.value then b else a
  }

  function Join(a: Option<Part>, b: Option<Part>): Option<Part> {
    if a.None? then b else if b.None? then a
    else Some(Part(MergeInfo(a.value.info, b.value.info), Earliest(a.value.start, b.value.start)))
  }

  /** A tree of n ranks with fan-out d, and what every rank has contributed so far. */
  datatype Ledger = Ledger(d: int, n: int, log: seq<seq<Sample>>) {
    ghost predicate Has(s: set<int>, p: nat) {
      forall x :: x in s ==> 0 <= x < |log| && |log[x]| > p
    }

    function Own(x: int, p: nat): Part
      requires 0 <= x < |log| && p < |log[x]|
    {
      Part(Sampled(log[x][p].values), if IsLeaf(x, d, n) then Some(log[x][p].start) else None)
    }

    /** The fold over the ranks below m that are in s. */
    ghost function Total(s: set<int>, p: nat, m: nat): Option<Part>
      requires Has(s, p)
    {
      if m == 0 then None else
      Join(Total(s, p, m - 1), if m - 1 in s then Some(Own(m - 1, p)) else None)
    }
  }

  lemma MergeInfoLaws(a: seq<Aggregate>, b: seq<Aggregate>, c: seq<Aggregate>)
    ensures MergeInfo(a, b) == MergeInfo(b, a)
    ensures MergeInfo(MergeInfo(a, b), c) == MergeInfo(a, MergeInfo(b, c))
  {
  }

  lemma JoinCommutes(a: Option<Part>, b: Option<Part>)
    ensures Join(a, b) == Join(b, a)
  {
    if a.Some? && b.Some? {
      MergeInfoLaws(a.value.info, b.value.info, []);
    }
  }

  lemma JoinAssociates(a: Option<Part>, b: Option<Part>, c: Option<Part>)
    ensures Join(Join(a, b), c) == Join(a, Join(b, c))
  {
    if a.Some? && b.Some? && c.Some? {
      MergeInfoLaws(a.value.info, b.value.info, c.value.info);
    }
  }

  lemma Exchange(a: Option<Part>, b: Option<Part>, x: Option<Part>, y: Option<Part>)
    requires x.None? || y.None?
    ensures Join(Join(a, b), Join(x, y)) == Join(Join(a, x), Join(b, y))
  {
    JoinAssociates(a, b, x);
    JoinAssociates(a, b, y);
    JoinCommutes(b, x);
    JoinAssociates(a, x, b);
  }

  /** Disjoint contributors add up. */
  lemma {:induction false} TotalOfUnion(l: Ledger, s: set<int>, t: set<int>, p: nat, m: nat)
    requires l.Has(s, p) && l.Has(t, p) && s * t == {}
    ensures l.Has(s + t, p)
    ensures l.Total(s + t, p, m) == Join(l.Total(s, p, m), l.Total(t, p, m))
  {
    if m > 0 {
      TotalOfUnion(l, s, t, p, m - 1);
      assert m - 1 !in s * t;
      Exchange(l.Total(s, p, m - 1), l.Total(t, p, m - 1),
               if m - 1 in s then Some(l.Own(m - 1, p)) else None,
               if m - 1 in t then Some(l.Own(m - 1, p)) else None);
    }
  }

  lemma {:induction false} TotalOfOne(l: Ledger, x: int, p: nat, m: nat)
    requires l.Has({x}, p)
    ensures l.Total({x}, p, m) == if x < m then Some(l.Own(x, p)) else None
  {
    if m > 0 {
      TotalOfOne(l, x, p, m - 1);
    }
  }

  /** Later contributions do not change what a complete pulse adds up to. */
  lemma {:induction false} TotalFrame(l: Ledger, k: Ledger, s: set<int>, p: nat, m: nat)
    requires l.Has(s, p) && l.d == k.d && l.n == k.n && |l.log| == |k.log|
    requires forall x :: 0 <= x < |l.log| ==> l.log[x] <= k.log[x]
    ensures k.Has(s, p) && k.Total(s, p, m) == l.Total(s, p, m)
  {
    if m > 0 {
      TotalFrame(l, k, s, p, m - 1);
    }
  }
}
