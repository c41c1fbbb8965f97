/** The links of the insertion-order list while HASH_SRT is rearranging it. */
module SortLinks {
  import opened Collections
  import opened HashMemory

  ghost function Last(xs: seq<Ptr>): Ptr {
    At(xs, |xs| - 1)
  }

  /** xs is linked from each element to the next; the last link is not looked at. */
  ghost predicate Run(m: Memory, xs: seq<Ptr>) {
    forall i {:trigger m[xs[i]]} :: 0 <= i < |xs| - 1 ==> xs[i] in m && m[xs[i]].next == At(xs, i + 1)
  }

  /** xs is linked from each element to the next and ends with NULL. */
  ghost predicate Tail(m: Memory, xs: seq<Ptr>) {
    forall i {:trigger m[xs[i]]} :: 0 <= i < |xs| ==> xs[i] in m && m[xs[i]].next == At(xs, i + 1)
  }

  ghost predicate Back(m: Memory, xs: seq<Ptr>) {
    forall i {:trigger m[xs[i]]} :: 0 <= i < |xs| ==> xs[i] in m && m[xs[i]].prev == At(xs, i - 1)
  }

  ghost predicate Apart(xs: seq<Ptr>, ys: seq<Ptr>) {
    forall x :: x in xs ==> x !in ys
  }

  /** In the middle of a pass: out has been put in order, p is what is left of the run being merged
      from the left, and s is the rest of the list. */
  ghost predicate Links(m: Memory, out: seq<Ptr>, p: seq<Ptr>, s: seq<Ptr>) {
    && NoDup(out) && NoDup(p) && NoDup(s) && Apart(out, p) && Apart(out, s) && Apart(p, s)
    && InMemory(m, out) && InMemory(m, p) && InMemory(m, s)
    && Back(m, out) && Run(m, out) && Run(m, p) && Tail(m, s)
  }

  /** Putting e behind the last element that is in order. */
  function Append(m: Memory, tail: Ptr, e: Ptr): Memory
    requires e in m && (tail != NULL ==> tail in m)
  {
    var n := if tail != NULL then m[tail := m[tail].(next := e)] else m;
    n[e := n[e].(prev := tail)]
  }

  ghost predicate ListLinksOnly(m: Memory, n: Memory) {
    && n.Keys == m.Keys
    && forall x :: x in m ==> n[x] == m[x].(prev := n[x].prev, next := n[x].next)
  }

  lemma RunFrame(m: Memory, n: Memory, xs: seq<Ptr>)
    requires forall x :: x in xs ==> x in m && x in n && n[x].next == m[x].next
    ensures Run(m, xs) ==> Run(n, xs)
    ensures Tail(m, xs) ==> Tail(n, xs)
  {
    assert forall i :: 0 <= i < |xs| ==> xs[i] in xs;
    if Run(m, xs) {
      forall i | 0 <= i < |xs| - 1
        ensures xs[i] in n && n[xs[i]].next == At(xs, i + 1)
      {
        assert m[xs[i]].next == At(xs, i + 1);
      }
    }
    if Tail(m, xs) {
      forall i | 0 <= i < |xs|
        ensures xs[i] in n && n[xs[i]].next == At(xs, i + 1)
      {
        assert m[xs[i]].next == At(xs, i + 1);
      }
    }
  }

  /** Appending to the part that is in order. */
  lemma AppendOut(m: Memory, out: seq<Ptr>, e: Ptr)
    requires NoDup(out) && InMemory(m, out) && Back(m, out) && Run(m, out) && e in m && e != NULL && e !in out
    ensures Last(out) != NULL ==> Last(out) in m
    ensures var n, o := Append(m, Last(out), e), out + [e];
            && NoDup(o) && InMemory(n, o) && Back(n, o) && Run(n, o)
            && ListLinksOnly(m, n)
            && (forall x :: x in m && x !in out ==> n[x].next == m[x].next)
  {
    assert out != [] ==> Last(out) in out;
    var n, o := Append(m, Last(out), e), out + [e];
    forall i | 0 <= i < |o|
      ensures o[i] in n && n[o[i]].prev == At(o, i - 1)
      ensures i < |o| - 1 ==> n[o[i]].next == At(o, i + 1)
    {
      if i < |out| {
        assert out[i] in out && m[out[i]].prev == At(out, i - 1);
        assert i < |out| - 1 ==> m[out[i]].next == At(out, i + 1) && out[i] != Last(out);
      }
    }
  }

  lemma RunDrop(m: Memory, p: seq<Ptr>)
    requires p != [] && InMemory(m, p)
    ensures Run(m, p) ==> Run(m, p[1..])
    ensures Tail(m, p) ==> Tail(m, p[1..])
  {
    var r := p[1..];
    if Run(m, p) {
      forall i | 0 <= i < |r| - 1
        ensures r[i] in m && m[r[i]].next == At(r, i + 1)
      {
        assert p[i + 1] in p;
        assert m[p[i + 1]].next == At(p, i + 2);
      }
    }
    if Tail(m, p) {
      forall i | 0 <= i < |r|
        ensures r[i] in m && m[r[i]].next == At(r, i + 1)
      {
        assert p[i + 1] in p;
        assert m[p[i + 1]].next == At(p, i + 2);
      }
    }
  }

  lemma TakeFromRun(m: Memory, out: seq<Ptr>, p: seq<Ptr>, s: seq<Ptr>)
    requires Links(m, out, p, s) && p != []
    ensures p[0] in m && (Last(out) != NULL ==> Last(out) in m)
    ensures |p| > 1 ==> m[p[0]].next == p[1]
    ensures Links(Append(m, Last(out), p[0]), out + [p[0]], p[1..], s)
    ensures ListLinksOnly(m, Append(m, Last(out), p[0]))
  {
    assert p[0] in p && (|p| > 1 ==> m[p[0]].next == At(p, 1));
    AppendOut(m, out, p[0]);
    var n := Append(m, Last(out), p[0]);
    assert forall x :: x in p[1..] ==> x in p;
    RunDrop(m, p);
    RunFrame(m, n, p[1..]);
    RunFrame(m, n, s);
    assert p[0] !in p[1..];
  }

  lemma TakeFromRest(m: Memory, out: seq<Ptr>, p: seq<Ptr>, s: seq<Ptr>)
    requires Links(m, out, p, s) && s != []
    ensures s[0] in m && (Last(out) != NULL ==> Last(out) in m)
    ensures m[s[0]].next == At(s, 1)
    ensures Links(Append(m, Last(out), s[0]), out + [s[0]], p, s[1..])
    ensures ListLinksOnly(m, Append(m, Last(out), s[0]))
  {
    assert s[0] in s && m[s[0]].next == At(s, 1);
    AppendOut(m, out, s[0]);
    var n := Append(m, Last(out), s[0]);
    assert forall x :: x in s[1..] ==> x in s;
    RunDrop(m, s);
    RunFrame(m, n, s[1..]);
    RunFrame(m, n, p);
    assert s[0] !in s[1..];
    assert s[0] !in p;
  }

  /** Splitting a run off the rest of the list. */
  lemma SplitRun(m: Memory, out: seq<Ptr>, s: seq<Ptr>, k: nat)
    requires Links(m, out, [], s) && k <= |s|
    ensures Links(m, out, s[..k], s[k..])
  {
    assert forall x :: x in s[..k] ==> x in s;
    assert forall x :: x in s[k..] ==> x in s;
    forall i | 0 <= i < k - 1
      ensures s[..k][i] in m && m[s[..k][i]].next == At(s[..k], i + 1)
    {
      assert m[s[i]].next == At(s, i + 1);
    }
    forall i | 0 <= i < |s| - k
      ensures s[k..][i] in m && m[s[k..][i]].next == At(s[k..], i + 1)
    {
      assert m[s[k + i]].next == At(s, k + i + 1);
    }
  }

  lemma StartLinks(m: Memory, its: seq<Ptr>)
    requires NoDup(its) && InMemory(m, its) && AppLinked(m, its)
    ensures Links(m, [], [], its)
  {
    forall i | 0 <= i < |its|
      ensures its[i] in m && m[its[i]].next == At(its, i + 1)
    {
    }
  }

  /** Ending the list behind the last element. */
  lemma FinishLinks(m: Memory, out: seq<Ptr>)
    requires Links(m, out, [], []) && out != []
    ensures Last(out) in m
    ensures var n := m[Last(out) := m[Last(out)].(next := NULL)];
            AppLinked(n, out) && InMemory(n, out) && ListLinksOnly(m, n)
  {
    assert out[|out| - 1] in out;
    var n := m[Last(out) := m[Last(out)].(next := NULL)];
    forall i | 0 <= i < |out|
      ensures out[i] in n && n[out[i]].next == At(out, i + 1) && n[out[i]].prev == At(out, i - 1)
    {
      assert m[out[i]].prev == At(out, i - 1);
      assert i < |out| - 1 ==> m[out[i]].next == At(out, i + 1);
    }
  }
}
