/** Where runs end if the leaves stop at different pulses. */
module Endings {
  import opened Collections
  import opened Events
  import opened Topology
  import opened QueueHandler
  import opened HandlerRuns
  import opened OwnMetrics
  import opened Feeds
  import opened Protocol
  import opened Invariants
  import opened Safety
  import opened RootSink
  import opened Theorems
  import opened Progress
  import opened Flags

  /** A handler at rest has merged every event of its pulse that has come. */
  lemma RestingHandler(st: Statics, q: seq<Event>, fed: seq<Event>, outs: seq<Event>, site: Site)
    requires HandlerInv(st, q, fed, outs, site) && FeedOk(fed, site)
    requires q == [] || Activation(st, q) == Ran(st, q, [])
    ensures st.count == |AtTs(fed, st.pulse)|
  {
    if st.count < |AtTs(fed, st.pulse)| {
      PendingTake(fed, st.pulse, st.count);
      ActivationKeeps(st, q, fed, outs, site);
    }
  }

  /** The pulse a handler is at is the first one that some sender has not reached. */
  lemma SlowestSender(fed: seq<Event>, src: seq<int>, site: Site, width: nat -> nat, p: nat) returns (slow: int)
    requires Shuffle(fed, src, site, width) && 0 <= site.rank && |AtTs(fed, p)| <= site.Kids()
    ensures slow in Children(site.rank, site.d, site.n) + {site.rank} && Occ(src, slow) <= p
  {
    var all := Children(site.rank, site.d, site.n) + {site.rank};
    Parallel(fed, src, site, width, p);
    SrcAtOk(src, p);
    SendersOfPulse(fed, src, site, width, p);
    slow :| slow in all && slow !in Members(SrcAt(src, p));
  }

  lemma SendersReach(fed: seq<Event>, src: seq<int>, site: Site, width: nat -> nat, p: nat)
    requires Shuffle(fed, src, site, width) && 0 <= site.rank && |AtTs(fed, p)| == site.Kids() + 1
    ensures forall x :: x in Children(site.rank, site.d, site.n) + {site.rank} ==> Occ(src, x) > p
  {
    Parallel(fed, src, site, width, p);
    SrcAtOk(src, p);
    SendersOfPulse(fed, src, site, width, p);
    forall x | x in Children(site.rank, site.d, site.n) + {site.rank}
      ensures Occ(src, x) > p
    {
      assert x in Members(SrcAt(src, p));
    }
  }

  /** An inner rank whose handler rests has sent what all its senders have reached, and no more. */
  lemma RestingRank(cfg: Config, s: Sys, rank: int) returns (slow: int)
    requires Inv(cfg, s) && 0 <= rank < cfg.n && !cfg.Leaf(rank) && HandlerQuiet(s.node[rank])
    ensures slow in cfg.Kids(rank) + {rank} && Occ(s.node[rank].src, slow) <= |s.sent[rank]|
    ensures forall x :: x in cfg.Kids(rank) + {rank} ==> Occ(s.node[rank].src, x) >= |s.sent[rank]|
  {
    var v, site, p := s.node[rank], cfg.At(rank), |s.sent[rank]|;
    InnerParts(cfg, s, rank);
    LeafIffNoChildren(rank, cfg.d, cfg.n);
    ShuffleIsFeed(v.fed, v.src, site, cfg.width);
    RestingHandler(v.statics, v.queue, v.fed, s.sent[rank], site);
    if p > 0 {
      SendersReach(v.fed, v.src, site, cfg.width, p - 1);
    }
    slow := SlowestSender(v.fed, v.src, site, cfg.width, p);
  }

  /** Where nothing is left to do, an inner rank has sent as many pulses as the child that sent fewest. */
  lemma AsManyAsFewest(cfg: Config, s: Sys, rank: int) returns (slow: int)
    requires Inv(cfg, s) && Quiet(cfg, s) && 0 <= rank < cfg.n && !cfg.Leaf(rank)
    ensures slow in cfg.Kids(rank) && |s.sent[slow]| == |s.sent[rank]|
    ensures forall c :: c in cfg.Kids(rank) ==> |s.sent[c]| >= |s.sent[rank]|
  {
    slow := RestingRank(cfg, s, rank);
    InnerParts(cfg, s, rank);
    var least := AllCounted(cfg, s, rank);
    if slow == rank {
      slow := least;
    }
  }

  lemma BelowSomeChild(cfg: Config, rank: int, y: int) returns (c: int)
    requires cfg.Valid() && 0 <= rank < cfg.n && y in cfg.Below(rank) && y != rank
    ensures c in cfg.Kids(rank) && rank < c < cfg.n && y in cfg.Below(c)
  {
    c := UnderSomeChild(y, rank, cfg.d);
    ParentBelow(c, cfg.d);
  }

  lemma BelowChildIsBelow(cfg: Config, rank: int, c: int)
    requires cfg.Valid() && 0 <= rank < cfg.n && c in cfg.Kids(rank)
    ensures rank < c < cfg.n && forall y :: y in cfg.Below(c) ==> y in cfg.Below(rank)
  {
    ParentBelow(c, cfg.d);
    forall y | y in cfg.Below(c)
      ensures y in cfg.Below(rank)
    {
      UnderParent(y, c, cfg.d);
    }
  }

  /** Where nothing is left to do, no leaf has sent less than a rank above it. */
  lemma {:induction false} NoLeafSentLess(cfg: Config, s: Sys, rank: int, y: int)
    requires Inv(cfg, s) && Quiet(cfg, s) && 0 <= rank < cfg.n && y in cfg.Below(rank) && cfg.Leaf(y)
    ensures |s.sent[y]| >= |s.sent[rank]|
    decreases cfg.n - rank
  {
    if y != rank {
      var c := BelowSomeChild(cfg, rank, y);
      LeafIffNoChildren(rank, cfg.d, cfg.n);
      var slow := AsManyAsFewest(cfg, s, rank);
      NoLeafSentLess(cfg, s, c, y);
    }
  }

  /** And some leaf below it has sent just as much: the one that stopped first. */
  lemma {:induction false} AsManyAsEarliest(cfg: Config, s: Sys, rank: int) returns (x: int)
    requires Inv(cfg, s) && Quiet(cfg, s) && 0 <= rank < cfg.n
    ensures x in cfg.Below(rank) && cfg.Leaf(x) && |s.sent[x]| == |s.sent[rank]|
    decreases cfg.n - rank
  {
    if cfg.Leaf(rank) {
      x := rank;
      LeafSubtree(cfg, rank);
    } else {
      var slow := AsManyAsFewest(cfg, s, rank);
      BelowChildIsBelow(cfg, rank, slow);
      x := AsManyAsEarliest(cfg, s, slow);
    }
  }

  /** A leaf says quit in its last message and in no other. */
  lemma LeafQuitsLast(cfg: Config, s: Sys, x: int, p: nat)
    requires Inv(cfg, s) && 0 <= x < cfg.n && cfg.Leaf(x) && s.stopped[x] && p < |s.sent[x]|
    ensures s.sent[x][p].quit <==> p == |s.sent[x]| - 1
  {
    assert RankOk(cfg, s, x);
    GoodSent(cfg, s, x, p);
    LeafSubtree(cfg, x);
  }

  /** The root's last message says quit exactly if the leaf that leads to it stopped at that pulse; no
      earlier message does. */
  lemma QuitReachesRoot(cfg: Config, s: Sys, p: nat)
    requires Inv(cfg, s) && Quiet(cfg, s) && p < |s.sent[0]|
    ensures var x := Leader(cfg, s, 0, p);
            && 0 <= x < cfg.n && cfg.Leaf(x)
            && (s.sent[0][p].quit <==> p == |s.sent[0]| - 1 && |s.sent[x]| == |s.sent[0]|)
  {
    FlagsOfLeader(cfg, s, 0, p);
    var x := Leader(cfg, s, 0, p);
    LeafQuitsLast(cfg, s, x, p);
    NoLeafSentLess(cfg, s, 0, x);
  }

  lemma FinishedByQuit(cfg: Config, s: Sys)
    requires Inv(cfg, s) && Quiet(cfg, s) && |s.sent[0]| > 0
    requires forall p: nat :: cfg.width(p) >= 1
    ensures var m := |s.sent[0]|;
            var x := Leader(cfg, s, 0, m - 1);
            && Published(cfg, s, m).Sunk? && Published(cfg, s, m).next.pulse == m
            && 0 <= x < cfg.n && (Published(cfg, s, m).next.finished <==> |s.sent[x]| == m)
  {
    var es, m := s.sent[0], |s.sent[0]|;
    TakeAll(es, m);
    RootStreamFlagged(cfg, s, m);
    SinkShowsLast(es, cfg.n);
    forall p | 0 <= p < m
      ensures es[p].info != [] && 0 <= Leader(cfg, s, 0, p) < cfg.n
      ensures es[p].quit <==> p == m - 1 && |s.sent[Leader(cfg, s, 0, p)]| == m
    {
      GoodSent(cfg, s, 0, p);
      QuitReachesRoot(cfg, s, p);
    }
    QuitReachesRoot(cfg, s, m - 1);
    assert es[m - 1].quit ==> exists p :: 0 <= p < |es| && (es[p].quit || es[p].info == []);
  }

  lemma EarliestAtRoot(cfg: Config, s: Sys) returns (x: int)
    requires Inv(cfg, s) && Quiet(cfg, s)
    ensures 0 <= x < cfg.n && cfg.Leaf(x) && |s.sent[x]| == |s.sent[0]| > 0
    ensures forall y :: 0 <= y < cfg.n && cfg.Leaf(y) ==> |s.sent[y]| >= |s.sent[0]|
  {
    x := AsManyAsEarliest(cfg, s, 0);
    assert RankOk(cfg, s, x);
    RootSubtree(cfg.d, cfg.n);
    forall y | 0 <= y < cfg.n && cfg.Leaf(y)
      ensures |s.sent[y]| >= |s.sent[0]|
    {
      NoLeafSentLess(cfg, s, 0, y);
    }
  }

  /** The root has published as many pulses as the leaf sent that stopped first, and has been told to
      finish exactly if the leaf that leads to the last of them stopped there too. */
  ghost predicate EndsWithEarliest(cfg: Config, s: Sys)
    requires cfg.Valid() && Shape(cfg, s)
  {
    var m := |s.sent[0]|;
    && m > 0
    && (forall y :: 0 <= y < cfg.n && cfg.Leaf(y) ==> s.stopped[y] && |s.sent[y]| >= m)
    && (exists y :: 0 <= y < cfg.n && cfg.Leaf(y) && |s.sent[y]| == m)
    && Published(cfg, s, m).Sunk? && Published(cfg, s, m).next.pulse == m
    && var x := Leader(cfg, s, 0, m - 1);
    0 <= x < cfg.n && cfg.Leaf(x) && (Published(cfg, s, m).next.finished <==> |s.sent[x]| == m)
  }

  lemma QuietEndsWithEarliest(cfg: Config, s: Sys)
    requires Inv(cfg, s) && Quiet(cfg, s) && forall p: nat :: cfg.width(p) >= 1
    ensures EndsWithEarliest(cfg, s)
  {
    var x := EarliestAtRoot(cfg, s);
    FinishedByQuit(cfg, s);
    QuitReachesRoot(cfg, s, |s.sent[0]| - 1);
  }

  /** However the leaves' last pulses differ: this is how every run ends that no step can change any more. */
  lemma StuckRunsPublishEarliest(cfg: Config, steps: seq<Step>)
    requires cfg.Valid() && Exec(cfg, steps).Next? && Stuck(cfg, Exec(cfg, steps).s)
    requires forall p: nat :: cfg.width(p) >= 1
    ensures EndsWithEarliest(cfg, Exec(cfg, steps).s)
  {
    RunKeeps(cfg, steps);
    StuckIffQuiet(cfg, Exec(cfg, steps).s);
    QuietEndsWithEarliest(cfg, Exec(cfg, steps).s);
  }
}
