/** The invariant of the protocol: what every rank has sent is the total of its subtree. */
module Invariants {
  import opened Events
  import opened Topology
  import opened QueueHandler
  import opened HandlerRuns
  import opened OwnMetrics
  import opened Totals
  import opened Feeds
  import opened Collections
  import opened Protocol

  ghost function LedgerOf(cfg: Config, s: Sys): Ledger {
    Ledger(cfg.d, cfg.n, s.log)
  }

  function StartOf(e: Event): Option<real> {
    if e.startTime == NO_START then None else Some(e.startTime)
  }

  /** e carries the total of the ranks in `ranks` for pulse p. */
  ghost predicate Carries(cfg: Config, s: Sys, ranks: set<int>, p: nat, e: Event) {
    var l := LedgerOf(cfg, s);
    && l.Has(ranks, p)
    && var t := l.Total(ranks, p, |s.log|);
    && t.Some? && t.value.info == e.info && |e.info| == cfg.width(p)
    && (cfg.width(p) >= 1 ==> t.value.start == StartOf(e))
  }

  ghost predicate StoppedAt(cfg: Config, s: Sys, x: int, last: int)
    requires Shape(cfg, s)
  {
    0 <= x < cfg.n && cfg.Leaf(x) && s.stopped[x] && |s.log[x]| == last
  }

  /** Some leaf below rank has sent quit as its last message, for pulse last - 1. */
  ghost predicate LeafStopped(cfg: Config, s: Sys, rank: int, last: int)
    requires cfg.Valid() && Shape(cfg, s)
  {
    exists x :: x in cfg.Below(rank) && StoppedAt(cfg, s, x, last)
  }

  /** e is the message that rank owes its parent for pulse p. */
  ghost predicate Good(cfg: Config, s: Sys, rank: int, p: nat, e: Event)
    requires cfg.Valid() && Shape(cfg, s)
  {
    && e.timestamp == p
    && e.parentRank == ParentRank(rank, cfg.d) && e.maxDegree == cfg.d && e.nprocs == cfg.n
    && Carries(cfg, s, cfg.Below(rank), p, e)
    && e.startTime != NO_START
    && (p > 0 && cfg.width(p) != cfg.width(p - 1) ==> e.updateFile)
    && (e.quit ==> LeafStopped(cfg, s, rank, p + 1))
    && (cfg.pulses.Some? ==> p < cfg.pulses.value && (e.quit <==> p == cfg.pulses.value - 1))
  }

  ghost predicate SentOk(cfg: Config, s: Sys, rank: int)
    requires cfg.Valid() && Shape(cfg, s) && 0 <= rank < cfg.n
  {
    && s.delivered[rank] <= |s.sent[rank]|
    && forall p :: 0 <= p < |s.sent[rank]| ==> Good(cfg, s, rank, p, s.sent[rank][p])
  }

  ghost predicate LeafOk(cfg: Config, s: Sys, rank: int)
    requires cfg.Valid() && Shape(cfg, s) && 0 <= rank < cfg.n
  {
    && |s.sent[rank]| == |s.log[rank]|
    && s.node[rank] == IDLE
    && (s.stopped[rank] <==> |s.sent[rank]| > 0 && s.sent[rank][|s.sent[rank]| - 1].quit)
    && (cfg.pulses.Some? ==>
          |s.log[rank]| <= cfg.pulses.value && (s.stopped[rank] <==> |s.log[rank]| == cfg.pulses.value))
  }

  /** e is an own event of rank for pulse p. */
  ghost predicate IsOwn(cfg: Config, rank: int, p: nat, e: Event)
    requires cfg.Valid()
  {
    && e.timestamp == p && e.maxDegree == cfg.d && e.nprocs == cfg.n
    && e.parentRank == ParentRank(rank, cfg.d)
    && e.info == Sampled(ValuesOf(e.info)) && |e.info| == cfg.width(p)
    && e.startTime == NO_START
  }

  /** e is the next event of child c after those in `before`. */
  ghost predicate Arrived(cfg: Config, s: Sys, rank: int, e: Event, before: seq<int>, c: int)
    requires cfg.Valid() && Shape(cfg, s)
  {
    && c in cfg.Kids(rank)
    && Occ(before, c) < |s.sent[c]|
    && e == s.sent[c][Occ(before, c)]
  }

  /** The counting stage's inbox holds the children's streams, interleaved as arr says. */
  ghost predicate InboxOk(cfg: Config, s: Sys, rank: int)
    requires cfg.Valid() && Shape(cfg, s) && 0 <= rank < cfg.n
  {
    var v := s.node[rank];
    && |v.arr| == |v.inbox| && v.counted <= |v.arr|
    && (forall i :: 0 <= i < |v.arr| ==> Arrived(cfg, s, rank, v.inbox[i], v.arr[..i], v.arr[i]))
    && (forall c :: c in cfg.Kids(rank) ==> Occ(v.arr, c) == Occ(v.src, c) == s.delivered[c])
  }

  /** The value sampled ahead for the current pulse is in place, unless that pulse cannot complete, or
      has another number of metrics, so that the sample will be thrown away. */
  ghost predicate Ahead(cfg: Config, s: Sys, rank: int, c: Counting)
    requires cfg.Valid() && Shape(cfg, s)
  {
    c.counter > 0 && cfg.width(c.counter) == cfg.width(c.counter - 1) ==>
      IsOwn(cfg, rank, c.counter, c.data) || LeafStopped(cfg, s, rank, c.counter)
  }

  ghost predicate CountOk(cfg: Config, s: Sys, rank: int)
    requires cfg.Valid() && Shape(cfg, s) && 0 <= rank < cfg.n && s.node[rank].counted <= |s.node[rank].arr|
  {
    var v := s.node[rank];
    var c := v.counting;
    && CountingInv(c, v.arr[..v.counted], cfg.Kids(rank))
    && c.counter == |s.log[rank]| == Occ(v.src, rank)
    && (c.firstPulse <==> c.counter == 0)
    && Ahead(cfg, s, rank, c)
  }

  ghost predicate SourceOk(cfg: Config, s: Sys, rank: int, x: int, p: nat, e: Event)
    requires cfg.Valid() && Shape(cfg, s)
  {
    if x == rank then Carries(cfg, s, {rank}, p, e) && e.startTime == NO_START
    else 0 <= x < cfg.n && Good(cfg, s, x, p, e) && p < |s.sent[x]| && e == s.sent[x][p]
  }

  /** Every queued event is its sender's event of that pulse. */
  ghost predicate FeedInv(cfg: Config, s: Sys, rank: int)
    requires cfg.Valid() && Shape(cfg, s) && 0 <= rank < cfg.n
  {
    var v := s.node[rank];
    && Shuffle(v.fed, v.src, cfg.At(rank), cfg.width)
    && forall i :: 0 <= i < |v.src| ==> SourceOk(cfg, s, rank, v.src[i], Occ(v.src[..i], v.src[i]), v.fed[i])
  }

  ghost predicate NodeOk(cfg: Config, s: Sys, rank: int)
    requires cfg.Valid() && Shape(cfg, s) && 0 <= rank < cfg.n
  {
    var v := s.node[rank];
    && InboxOk(cfg, s, rank)
    && CountOk(cfg, s, rank)
    && FeedInv(cfg, s, rank)
    && HandlerInv(v.statics, v.queue, v.fed, s.sent[rank], cfg.At(rank))
  }

  ghost predicate RankOk(cfg: Config, s: Sys, rank: int)
    requires cfg.Valid() && Shape(cfg, s) && 0 <= rank < cfg.n
  {
    && SentOk(cfg, s, rank)
    && if cfg.Leaf(rank) then LeafOk(cfg, s, rank) else NodeOk(cfg, s, rank)
  }

  ghost predicate Inv(cfg: Config, s: Sys) {
    && cfg.Valid() && Shape(cfg, s)
    && forall rank :: 0 <= rank < cfg.n ==> RankOk(cfg, s, rank)
  }

  // ------------------------------------------------------------------- framing

  /** Nothing that was sent or contributed is ever changed, and a stopped leaf stays silent. */
  ghost predicate Grows(cfg: Config, s: Sys, t: Sys) {
    && cfg.Valid() && Shape(cfg, s) && Shape(cfg, t)
    && forall x :: 0 <= x < cfg.n ==>
         && s.sent[x] <= t.sent[x] && s.log[x] <= t.log[x]
         && (s.stopped[x] && cfg.Leaf(x) ==> t.stopped[x] && t.log[x] == s.log[x])
  }

  lemma CarriesFrame(cfg: Config, s: Sys, t: Sys, ranks: set<int>, p: nat, e: Event)
    requires Grows(cfg, s, t) && Carries(cfg, s, ranks, p, e)
    ensures Carries(cfg, t, ranks, p, e)
  {
    TotalFrame(LedgerOf(cfg, s), LedgerOf(cfg, t), ranks, p, |s.log|);
  }

  lemma StoppedFrame(cfg: Config, s: Sys, t: Sys, rank: int, last: int)
    requires Grows(cfg, s, t) && LeafStopped(cfg, s, rank, last)
    ensures LeafStopped(cfg, t, rank, last)
  {
    var x :| x in cfg.Below(rank) && StoppedAt(cfg, s, x, last);
    assert StoppedAt(cfg, t, x, last);
  }

  lemma GoodFrame(cfg: Config, s: Sys, t: Sys, rank: int, p: nat, e: Event)
    requires Grows(cfg, s, t) && Good(cfg, s, rank, p, e)
    ensures Good(cfg, t, rank, p, e)
  {
    CarriesFrame(cfg, s, t, cfg.Below(rank), p, e);
    if e.quit {
      StoppedFrame(cfg, s, t, rank, p + 1);
    }
  }

  lemma SentFrame(cfg: Config, s: Sys, t: Sys, rank: int)
    requires Grows(cfg, s, t) && 0 <= rank < cfg.n && SentOk(cfg, s, rank)
    requires t.delivered[rank] <= |t.sent[rank]|
    requires forall p :: |s.sent[rank]| <= p < |t.sent[rank]| ==> Good(cfg, t, rank, p, t.sent[rank][p])
    ensures SentOk(cfg, t, rank)
  {
    forall p | 0 <= p < |t.sent[rank]|
      ensures Good(cfg, t, rank, p, t.sent[rank][p])
    {
      if p < |s.sent[rank]| {
        assert s.sent[rank][p] == t.sent[rank][p];
        GoodFrame(cfg, s, t, rank, p, s.sent[rank][p]);
      }
    }
  }

  lemma SourceFrame(cfg: Config, s: Sys, t: Sys, rank: int, x: int, p: nat, e: Event)
    requires Grows(cfg, s, t) && SourceOk(cfg, s, rank, x, p, e)
    ensures SourceOk(cfg, t, rank, x, p, e)
  {
    if x == rank {
      CarriesFrame(cfg, s, t, {rank}, p, e);
    } else {
      GoodFrame(cfg, s, t, x, p, e);
      assert s.sent[x] <= t.sent[x];
    }
  }

  lemma FeedFrame(cfg: Config, s: Sys, t: Sys, rank: int)
    requires Grows(cfg, s, t) && 0 <= rank < cfg.n && FeedInv(cfg, s, rank)
    requires t.node[rank].fed == s.node[rank].fed && t.node[rank].src == s.node[rank].src
    ensures FeedInv(cfg, t, rank)
  {
    var v := s.node[rank];
    forall i | 0 <= i < |v.src|
      ensures SourceOk(cfg, t, rank, v.src[i], Occ(v.src[..i], v.src[i]), v.fed[i])
    {
      SourceFrame(cfg, s, t, rank, v.src[i], Occ(v.src[..i], v.src[i]), v.fed[i]);
    }
  }

  lemma InboxFrame(cfg: Config, s: Sys, t: Sys, rank: int)
    requires Grows(cfg, s, t) && 0 <= rank < cfg.n && InboxOk(cfg, s, rank)
    requires t.node[rank].inbox == s.node[rank].inbox && t.node[rank].arr == s.node[rank].arr
    requires t.node[rank].counted <= |t.node[rank].arr|
    requires forall c :: c in cfg.Kids(rank) ==>
               t.delivered[c] == s.delivered[c] && Occ(t.node[rank].src, c) == Occ(s.node[rank].src, c)
    ensures InboxOk(cfg, t, rank)
  {
    var v := t.node[rank];
    forall i | 0 <= i < |v.arr|
      ensures Arrived(cfg, t, rank, v.inbox[i], v.arr[..i], v.arr[i])
    {
      assert Arrived(cfg, s, rank, v.inbox[i], v.arr[..i], v.arr[i]);
      var c := v.arr[i];
      assert s.sent[c] <= t.sent[c];
    }
  }

  lemma AheadFrame(cfg: Config, s: Sys, t: Sys, rank: int, c: Counting)
    requires Grows(cfg, s, t) && Ahead(cfg, s, rank, c)
    ensures Ahead(cfg, t, rank, c)
  {
    if LeafStopped(cfg, s, rank, c.counter) {
      StoppedFrame(cfg, s, t, rank, c.counter);
    }
  }

  /** What an arrival that completes no pulse leaves of the stage: all but the table. */
  lemma CountFrame(cfg: Config, s: Sys, t: Sys, rank: int)
    requires Grows(cfg, s, t) && 0 <= rank < cfg.n
    requires s.node[rank].counted <= |s.node[rank].arr| && CountOk(cfg, s, rank)
    requires t.node[rank].counted <= |t.node[rank].arr| && t.log[rank] == s.log[rank]
    requires t.node[rank].counting == s.node[rank].counting.(table := t.node[rank].counting.table)
    requires CountingInv(t.node[rank].counting, t.node[rank].arr[..t.node[rank].counted], cfg.Kids(rank))
    requires Occ(t.node[rank].src, rank) == Occ(s.node[rank].src, rank)
    ensures CountOk(cfg, t, rank)
  {
    AheadFrame(cfg, s, t, rank, s.node[rank].counting);
  }

  /** A rank that a step does not touch stays as it was. */
  lemma UntouchedRank(cfg: Config, s: Sys, t: Sys, rank: int)
    requires Grows(cfg, s, t) && 0 <= rank < cfg.n && RankOk(cfg, s, rank)
    requires t.node[rank] == s.node[rank] && t.sent[rank] == s.sent[rank] && t.log[rank] == s.log[rank]
    requires t.stopped[rank] == s.stopped[rank]
    requires t.delivered[rank] <= |t.sent[rank]|
    requires forall c :: c in cfg.Kids(rank) && !cfg.Leaf(rank) ==> t.delivered[c] == s.delivered[c]
    ensures RankOk(cfg, t, rank)
  {
    SentFrame(cfg, s, t, rank);
    if !cfg.Leaf(rank) {
      InboxFrame(cfg, s, t, rank);
      FeedFrame(cfg, s, t, rank);
      CountFrame(cfg, s, t, rank);
    }
  }

  // ------------------------------------------------ a completed pulse is a total

  lemma AbsorbIsMerge(a: Event, b: Event)
    requires |a.info| == |b.info| && a.startTime != NO_START
    ensures Absorb(a, b).info == MergeInfo(a.info, b.info)
    ensures |a.info| >= 1 ==> StartOf(Absorb(a, b)) == Earliest(StartOf(a), StartOf(b))
    ensures Absorb(a, b).startTime != NO_START
  {
  }

  /** A merged event that carries the total of `before` and one more event. */
  lemma AbsorbCarries(cfg: Config, s: Sys, before: set<int>, more: set<int>, p: nat, a: Event, b: Event)
    requires Carries(cfg, s, before, p, a) && Carries(cfg, s, more, p, b) && before * more == {}
    requires a.startTime != NO_START
    ensures Carries(cfg, s, before + more, p, Absorb(a, b)) && Absorb(a, b).startTime != NO_START
  {
    TotalOfUnion(LedgerOf(cfg, s), before, more, p, |s.log|);
    AbsorbIsMerge(a, b);
  }

  lemma FirstCarries(cfg: Config, s: Sys, rank: int, p: nat, es: seq<Event>, xs: seq<int>)
    requires cfg.Valid() && Shape(cfg, s) && 0 <= rank < cfg.n
    requires |es| == |xs| == 1 && xs[0] in cfg.Kids(rank) && SourceOk(cfg, s, rank, xs[0], p, es[0])
    requires Carries(cfg, s, Cover({xs[0]}, rank, cfg.d, cfg.n), p, es[0])
    ensures Carries(cfg, s, Cover(Members(xs), rank, cfg.d, cfg.n), p, Collect(es)) && Collect(es).startTime != NO_START
  {
    assert Members(xs) == {xs[0]};
    ParentBelow(xs[0], cfg.d);
  }

  lemma LastMember(xs: seq<int>)
    requires xs != [] && NoDup(xs)
    ensures var m := |xs| - 1; Members(xs) == Members(xs[..m]) + {xs[m]} && xs[m] !in Members(xs[..m]) && NoDup(xs[..m])
  {
    assert xs == xs[..|xs| - 1] + [xs[|xs| - 1]];
  }

  lemma OneSource(cfg: Config, s: Sys, rank: int, x: int, p: nat, e: Event)
    requires cfg.Valid() && Shape(cfg, s) && 0 <= rank < cfg.n
    requires x in cfg.Kids(rank) + {rank} && SourceOk(cfg, s, rank, x, p, e)
    ensures Carries(cfg, s, Cover({x}, rank, cfg.d, cfg.n), p, e)
  {
    var c := Cover({x}, rank, cfg.d, cfg.n);
    if x == rank {
      forall y | 0 <= y < cfg.n
        ensures y in c <==> y in {rank}
      {
        assert Covers(x, y, rank, cfg.d) <==> y == rank;
      }
      assert c == {rank};
    } else {
      forall y | 0 <= y < cfg.n
        ensures y in c <==> y in cfg.Below(x)
      {
        assert Covers(x, y, rank, cfg.d) <==> Under(y, x, cfg.d);
      }
      assert c == cfg.Below(x);
    }
  }

  /** Merging the first m events of a pulse yields the total of what their senders stand for. */
  lemma {:induction false} CollectCarries(cfg: Config, s: Sys, rank: int, p: nat, es: seq<Event>, xs: seq<int>)
    requires cfg.Valid() && Shape(cfg, s) && 0 <= rank < cfg.n
    requires |es| == |xs| >= 1 && NoDup(xs)
    requires Members(xs) <= cfg.Kids(rank) + {rank} && xs[0] in cfg.Kids(rank)
    requires forall j :: 0 <= j < |es| ==> SourceOk(cfg, s, rank, xs[j], p, es[j])
    ensures Carries(cfg, s, Cover(Members(xs), rank, cfg.d, cfg.n), p, Collect(es))
    ensures Collect(es).startTime != NO_START
  {
    var m := |xs| - 1;
    var x := xs[m];
    OneSource(cfg, s, rank, x, p, es[m]);
    if m == 0 {
      FirstCarries(cfg, s, rank, p, es, xs);
    } else {
      CollectCarries(cfg, s, rank, p, es[..m], xs[..m]);
      LastMember(xs);
      CoverDisjoint(Members(xs[..m]), x, rank, cfg.d, cfg.n);
      AbsorbCarries(cfg, s, Cover(Members(xs[..m]), rank, cfg.d, cfg.n), Cover({x}, rank, cfg.d, cfg.n), p,
                    Collect(es[..m]), es[m]);
    }
  }

  /** Everything but the metrics and the start time comes from the first event. */
  lemma {:induction false} CollectHeader(es: seq<Event>)
    requires es != []
    ensures var e := Collect(es);
            e == Seed(es[0], es[0].timestamp).(info := e.info, startTime := e.startTime)
  {
    if |es| > 1 {
      CollectHeader(es[..|es| - 1]);
    }
  }

  /** Each event of a pulse is what its sender owes for that pulse; the first is a child's. */
  lemma SourcesOfPulse(cfg: Config, s: Sys, rank: int, p: nat)
    requires cfg.Valid() && Shape(cfg, s) && 0 <= rank < cfg.n && !cfg.Leaf(rank)
    requires FeedInv(cfg, s, rank)
    ensures var es, xs := AtTs(s.node[rank].fed, p), SrcAt(s.node[rank].src, p);
            && |es| == |xs| && NoDup(xs) && Members(xs) <= cfg.Kids(rank) + {rank}
            && (|es| == cfg.At(rank).Kids() + 1 ==> Members(xs) == cfg.Kids(rank) + {rank})
            && (es != [] ==> xs[0] in cfg.Kids(rank))
            && forall j :: 0 <= j < |es| ==> SourceOk(cfg, s, rank, xs[j], p, es[j])
  {
    var v, site := s.node[rank], cfg.At(rank);
    var es, xs := AtTs(v.fed, p), SrcAt(v.src, p);
    LeafIffNoChildren(rank, cfg.d, cfg.n);
    Parallel(v.fed, v.src, site, cfg.width, p);
    SrcAtOk(v.src, p);
    SendersOfPulse(v.fed, v.src, site, cfg.width, p);
    if es != [] {
      FirstIsChild(v.fed, v.src, site, cfg.width, p);
    }
    AtTsMember(v.fed, p);
    forall j | 0 <= j < |es|
      ensures SourceOk(cfg, s, rank, xs[j], p, es[j])
    {
      assert es[j] in es;
      assert Came(v.fed, v.src, es[j], xs[j]);
      var i :| 0 <= i < |v.src| && v.src[i] == xs[j] && v.fed[i] == es[j];
      assert Fits(v.fed[i], v.src[..i], v.src[i], site, cfg.width);
    }
  }

  /** The header comes from a child's event, so it names this rank's own parent. */
  lemma HeaderOfFirst(cfg: Config, s: Sys, rank: int, p: nat, x: int, first: Event, e: Event)
    requires cfg.Valid() && Shape(cfg, s) && 0 <= rank < cfg.n
    requires x in cfg.Kids(rank) && Good(cfg, s, x, p, first)
    requires e == Seed(first, first.timestamp).(info := e.info, startTime := e.startTime)
    requires Carries(cfg, s, cfg.Below(rank), p, e) && e.startTime != NO_START
    ensures Good(cfg, s, rank, p, e)
  {
    if e.quit {
      var y :| y in cfg.Below(x) && StoppedAt(cfg, s, y, p + 1);
      UnderParent(y, x, cfg.d);
      assert y in cfg.Below(rank);
    }
  }

  /** When degree + 1 events of a pulse have come, merging them yields the rank's message. */
  lemma CompletedIsGood(cfg: Config, s: Sys, rank: int, p: nat)
    requires cfg.Valid() && Shape(cfg, s) && 0 <= rank < cfg.n && !cfg.Leaf(rank)
    requires FeedInv(cfg, s, rank)
    requires |AtTs(s.node[rank].fed, p)| == cfg.At(rank).Kids() + 1
    ensures Good(cfg, s, rank, p, Collect(AtTs(s.node[rank].fed, p)))
  {
    var es, xs := AtTs(s.node[rank].fed, p), SrcAt(s.node[rank].src, p);
    SourcesOfPulse(cfg, s, rank, p);
    CollectCarries(cfg, s, rank, p, es, xs);
    CollectHeader(es);
    SubtreeIsCover(rank, cfg.d, cfg.n);
    assert SourceOk(cfg, s, rank, xs[0], p, es[0]);
    ParentBelow(xs[0], cfg.d);
    HeaderOfFirst(cfg, s, rank, p, xs[0], es[0], Collect(es));
  }
}
