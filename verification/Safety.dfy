/** Every step of the protocol keeps the invariant and none runs into undefined behaviour. */
module Safety {
  import opened Events
  import opened Topology
  import opened HandlerRuns
  import opened OwnMetrics
  import opened Totals
  import opened Feeds
  import opened Collections
  import opened Protocol
  import opened Invariants

  lemma InitialInv(cfg: Config)
    requires cfg.Valid()
    ensures Inv(cfg, Initial(cfg))
  {
    var s := Initial(cfg);
    forall rank | 0 <= rank < cfg.n
      ensures RankOk(cfg, s, rank)
    {
      if !cfg.Leaf(rank) {
        LeafIffNoChildren(rank, cfg.d, cfg.n);
        DegreeCountsChildren(rank, cfg.d, cfg.n);
        var x := SomeElement(cfg.Kids(rank));
        assert Occ([], x) == 0;
      }
    }
  }

  lemma InnerParts(cfg: Config, s: Sys, rank: int)
    requires Inv(cfg, s) && 0 <= rank < cfg.n && !cfg.Leaf(rank)
    ensures InboxOk(cfg, s, rank) && CountOk(cfg, s, rank) && FeedInv(cfg, s, rank) && SentOk(cfg, s, rank)
    ensures var v := s.node[rank]; HandlerInv(v.statics, v.queue, v.fed, s.sent[rank], cfg.At(rank))
  {
    assert RankOk(cfg, s, rank);
  }

  lemma GoodSent(cfg: Config, s: Sys, x: int, p: nat)
    requires Inv(cfg, s) && 0 <= x < cfg.n && p < |s.sent[x]|
    ensures Good(cfg, s, x, p, s.sent[x][p])
  {
    assert RankOk(cfg, s, x);
  }

  lemma ParentIsInner(cfg: Config, child: int)
    requires cfg.Valid() && 1 <= child < cfg.n
    ensures 0 <= ParentRank(child, cfg.d) < child
    ensures !cfg.Leaf(ParentRank(child, cfg.d)) && child in cfg.Kids(ParentRank(child, cfg.d))
  {
    ParentBelow(child, cfg.d);
    LeafIffNoChildren(ParentRank(child, cfg.d), cfg.d, cfg.n);
    assert child in cfg.Kids(ParentRank(child, cfg.d));
  }

  /** A step of one rank, or a delivery to it, leaves all other ranks as they were. */
  lemma OthersKeep(cfg: Config, s: Sys, t: Sys, rank: int)
    requires Inv(cfg, s) && Grows(cfg, s, t) && 0 <= rank < cfg.n && RankOk(cfg, t, rank)
    requires forall r :: 0 <= r < cfg.n && r != rank ==>
               && t.node[r] == s.node[r] && t.sent[r] == s.sent[r] && t.log[r] == s.log[r]
               && t.stopped[r] == s.stopped[r] && t.delivered[r] <= |t.sent[r]|
    requires forall c :: 1 <= c < cfg.n && ParentRank(c, cfg.d) != rank ==> t.delivered[c] == s.delivered[c]
    ensures Inv(cfg, t)
  {
    forall r | 0 <= r < cfg.n
      ensures RankOk(cfg, t, r)
    {
      if r != rank {
        assert RankOk(cfg, s, r);
        UntouchedRank(cfg, s, t, r);
      }
    }
  }

  lemma DeliveredBound(cfg: Config, s: Sys)
    requires Inv(cfg, s)
    ensures forall r :: 0 <= r < cfg.n ==> s.delivered[r] <= |s.sent[r]|
  {
    forall r | 0 <= r < cfg.n
      ensures s.delivered[r] <= |s.sent[r]|
    {
      assert RankOk(cfg, s, r);
    }
  }

  // ---------------------------------------------------------------- a leaf sends

  lemma LeafSubtree(cfg: Config, rank: int)
    requires cfg.Valid() && 0 <= rank < cfg.n && cfg.Leaf(rank)
    ensures cfg.Below(rank) == {rank}
  {
    forall x | 0 <= x < cfg.n && Under(x, rank, cfg.d)
      ensures x == rank
    {
      if x != rank {
        var c := UnderSomeChild(x, rank, cfg.d);
        ParentIsInner(cfg, c);
      }
    }
  }

  lemma LeafSendKeeps(cfg: Config, s: Sys, rank: int, values: seq<int>, update: bool, quit: bool, start: real)
    requires Inv(cfg, s) && LeafMaySend(cfg, s, rank, values, update, quit, start)
    ensures Inv(cfg, DoLeafSend(cfg, s, rank, values, update, quit, start))
  {
    var t := DoLeafSend(cfg, s, rank, values, update, quit, start);
    var p := |s.sent[rank]|;
    assert RankOk(cfg, s, rank);
    assert Grows(cfg, s, t);
    LeafSubtree(cfg, rank);
    TotalOfOne(LedgerOf(cfg, t), rank, p, cfg.n);
    if quit {
      assert StoppedAt(cfg, t, rank, p + 1);
    }
    assert Good(cfg, t, rank, p, t.sent[rank][p]);
    SentFrame(cfg, s, t, rank);
    DeliveredBound(cfg, s);
    OthersKeep(cfg, s, t, rank);
  }

  // ------------------------------------------------------------ an edge delivers

  /** Putting one more event into a rank's queue. */
  lemma FeedAppend(cfg: Config, s: Sys, t: Sys, rank: int, e: Event, x: int)
    requires Grows(cfg, s, t) && 0 <= rank < cfg.n && !cfg.Leaf(rank)
    requires FeedInv(cfg, s, rank)
    requires HandlerInv(s.node[rank].statics, s.node[rank].queue, s.node[rank].fed, s.sent[rank], cfg.At(rank))
    requires t.node[rank].fed == s.node[rank].fed + [e] && t.node[rank].src == s.node[rank].src + [x]
    requires t.node[rank].queue == s.node[rank].queue + [e]
    requires t.node[rank].statics == s.node[rank].statics && t.sent[rank] == s.sent[rank]
    requires Fits(e, s.node[rank].src, x, cfg.At(rank), cfg.width)
    requires SourceOk(cfg, t, rank, x, Occ(s.node[rank].src, x), e)
    ensures FeedInv(cfg, t, rank)
    ensures HandlerInv(t.node[rank].statics, t.node[rank].queue, t.node[rank].fed, t.sent[rank], cfg.At(rank))
  {
    var v, w := s.node[rank], t.node[rank];
    ShuffleAppend(v.fed, v.src, e, x, cfg.At(rank), cfg.width);
    forall i | 0 <= i < |w.src|
      ensures SourceOk(cfg, t, rank, w.src[i], Occ(w.src[..i], w.src[i]), w.fed[i])
    {
      if i < |v.src| {
        assert w.src[..i] == v.src[..i];
        SourceFrame(cfg, s, t, rank, v.src[i], Occ(v.src[..i], v.src[i]), v.fed[i]);
      } else {
        assert w.src[..i] == v.src;
      }
    }
    LeafIffNoChildren(rank, cfg.d, cfg.n);
    ShuffleIsFeed(w.fed, w.src, cfg.At(rank), cfg.width);
    ArrivalKeeps(v.statics, v.queue, v.fed, s.sent[rank], cfg.At(rank), e);
  }

  lemma DeliverCounts(cfg: Config, s: Sys, child: int)
    requires cfg.Valid() && Shape(cfg, s) && 1 <= child < cfg.n && s.delivered[child] < |s.sent[child]|
    requires var rank := ParentRank(child, cfg.d); 0 <= rank < cfg.n && child in cfg.Kids(rank) && InboxOk(cfg, s, rank)
    ensures var t, rank := DoDeliver(cfg, s, child), ParentRank(child, cfg.d);
            forall c :: c in cfg.Kids(rank) ==> Occ(t.node[rank].arr, c) == Occ(t.node[rank].src, c) == t.delivered[c]
  {
    var t, rank := DoDeliver(cfg, s, child), ParentRank(child, cfg.d);
    forall c | c in cfg.Kids(rank)
      ensures Occ(t.node[rank].arr, c) == Occ(t.node[rank].src, c) == t.delivered[c]
    {
      OccAppend(s.node[rank].arr, child, c);
      OccAppend(s.node[rank].src, child, c);
    }
  }

  lemma DeliverInbox(cfg: Config, s: Sys, child: int)
    requires Inv(cfg, s) && 1 <= child < cfg.n && s.delivered[child] < |s.sent[child]|
    requires ParentRank(child, cfg.d) >= 0 && !cfg.Leaf(ParentRank(child, cfg.d)) && ParentRank(child, cfg.d) < cfg.n
    requires child in cfg.Kids(ParentRank(child, cfg.d))
    ensures InboxOk(cfg, DoDeliver(cfg, s, child), ParentRank(child, cfg.d))
  {
    var t, rank := DoDeliver(cfg, s, child), ParentRank(child, cfg.d);
    assert RankOk(cfg, s, rank);
    var v, w := s.node[rank], t.node[rank];
    forall i | 0 <= i < |w.arr|
      ensures Arrived(cfg, t, rank, w.inbox[i], w.arr[..i], w.arr[i])
    {
      if i < |v.arr| {
        assert w.arr[..i] == v.arr[..i];
        assert Arrived(cfg, s, rank, v.inbox[i], v.arr[..i], v.arr[i]);
      } else {
        assert w.arr[..i] == v.arr;
      }
    }
    DeliverCounts(cfg, s, child);
  }

  /** The receiving rank's queue and handler. */
  lemma DeliverFeed(cfg: Config, s: Sys, child: int)
    requires Inv(cfg, s) && 1 <= child < cfg.n && s.delivered[child] < |s.sent[child]|
    requires var rank := ParentRank(child, cfg.d); 0 <= rank < cfg.n && !cfg.Leaf(rank) && child in cfg.Kids(rank)
    ensures var t, rank := DoDeliver(cfg, s, child), ParentRank(child, cfg.d);
            && FeedInv(cfg, t, rank)
            && HandlerInv(t.node[rank].statics, t.node[rank].queue, t.node[rank].fed, t.sent[rank], cfg.At(rank))
  {
    var t, rank := DoDeliver(cfg, s, child), ParentRank(child, cfg.d);
    var e := s.sent[child][s.delivered[child]];
    ParentBelow(child, cfg.d);
    GoodSent(cfg, s, child, s.delivered[child]);
    assert Grows(cfg, s, t);
    GoodFrame(cfg, s, t, child, s.delivered[child], e);
    assert RankOk(cfg, s, rank);
    FeedAppend(cfg, s, t, rank, e, child);
  }

  lemma DeliverCount(cfg: Config, s: Sys, child: int)
    requires Inv(cfg, s) && 1 <= child < cfg.n && s.delivered[child] < |s.sent[child]|
    requires var rank := ParentRank(child, cfg.d); 0 <= rank < cfg.n && !cfg.Leaf(rank) && rank != child
    ensures var t, rank := DoDeliver(cfg, s, child), ParentRank(child, cfg.d);
            t.node[rank].counted <= |t.node[rank].arr| && CountOk(cfg, t, rank)
  {
    var t, rank := DoDeliver(cfg, s, child), ParentRank(child, cfg.d);
    var v, w := s.node[rank], t.node[rank];
    assert RankOk(cfg, s, rank);
    assert w.arr[..w.counted] == v.arr[..v.counted];
    OccAppend(v.src, child, rank);
    assert Grows(cfg, s, t);
    CountFrame(cfg, s, t, rank);
  }

  lemma DeliverGrows(cfg: Config, s: Sys, child: int)
    requires Inv(cfg, s) && 1 <= child < cfg.n && s.delivered[child] < |s.sent[child]|
    ensures Grows(cfg, s, DoDeliver(cfg, s, child))
  {
  }

  lemma DeliverRank(cfg: Config, s: Sys, child: int)
    requires Inv(cfg, s) && 1 <= child < cfg.n && s.delivered[child] < |s.sent[child]|
    requires var rank := ParentRank(child, cfg.d);
             0 <= rank < cfg.n && !cfg.Leaf(rank) && rank != child && child in cfg.Kids(rank)
    ensures RankOk(cfg, DoDeliver(cfg, s, child), ParentRank(child, cfg.d))
  {
    var rank := ParentRank(child, cfg.d);
    DeliverInbox(cfg, s, child);
    DeliverFeed(cfg, s, child);
    DeliverCount(cfg, s, child);
    DeliverGrows(cfg, s, child);
    InnerParts(cfg, s, rank);
    SentFrame(cfg, s, DoDeliver(cfg, s, child), rank);
  }

  /** Only the receiving rank sees a delivery. */
  lemma DeliverFrame(cfg: Config, s: Sys, child: int)
    requires cfg.Valid() && Shape(cfg, s) && 1 <= child < cfg.n && s.delivered[child] < |s.sent[child]|
    requires forall r :: 0 <= r < cfg.n ==> s.delivered[r] <= |s.sent[r]|
    ensures var t, rank := DoDeliver(cfg, s, child), ParentRank(child, cfg.d);
            && t.sent == s.sent && t.log == s.log && t.stopped == s.stopped
            && (forall r :: 0 <= r < cfg.n && r != rank ==> t.node[r] == s.node[r])
            && (forall r :: 0 <= r < cfg.n ==> t.delivered[r] <= |t.sent[r]|)
            && (forall c :: 1 <= c < cfg.n && ParentRank(c, cfg.d) != rank ==> t.delivered[c] == s.delivered[c])
  {
  }

  lemma DeliverKeeps(cfg: Config, s: Sys, child: int)
    requires Inv(cfg, s) && 1 <= child < cfg.n && s.delivered[child] < |s.sent[child]|
    ensures Inv(cfg, DoDeliver(cfg, s, child))
  {
    ParentIsInner(cfg, child);
    DeliverRank(cfg, s, child);
    DeliverGrows(cfg, s, child);
    DeliveredBound(cfg, s);
    DeliverFrame(cfg, s, child);
    OthersKeep(cfg, s, DoDeliver(cfg, s, child), ParentRank(child, cfg.d));
  }

  // --------------------------------------------------------- an arrival is counted

  lemma {:induction false} OccPrefix(w: seq<int>, i: nat, x: int)
    requires i <= |w|
    ensures Occ(w[..i], x) <= Occ(w, x)
  {
    if i < |w| {
      OccPrefix(w[..|w| - 1], i, x);
      assert w[..|w| - 1][..i] == w[..i];
    } else {
      assert w[..i] == w;
    }
  }

  lemma EveryoneBelowSent(cfg: Config, s: Sys, x: int, p: nat, y: int)
    requires Inv(cfg, s) && 0 <= x < cfg.n && p < |s.sent[x]| && 0 <= y < cfg.n && Under(y, x, cfg.d)
    ensures |s.log[y]| > p
  {
    GoodSent(cfg, s, x, p);
    assert y in cfg.Below(x);
  }

  /** If every child's event of pulse p has been counted, every leaf below has sent pulse p. */
  lemma NoLeafStoppedEarly(cfg: Config, s: Sys, rank: int, p: nat)
    requires Inv(cfg, s) && 0 <= rank < cfg.n && !cfg.Leaf(rank)
    requires forall c :: c in cfg.Kids(rank) ==> |s.sent[c]| > p
    ensures !LeafStopped(cfg, s, rank, p)
  {
    if LeafStopped(cfg, s, rank, p) {
      var y :| y in cfg.Below(rank) && StoppedAt(cfg, s, y, p);
      var c := UnderSomeChild(y, rank, cfg.d);
      assert c in cfg.Kids(rank);
      EveryoneBelowSent(cfg, s, c, p, y);
    }
  }

  /** The facts about the arrival that compute_own_metrics looks at next. */
  ghost predicate NextOk(cfg: Config, s: Sys, rank: int)
    requires cfg.Valid() && Shape(cfg, s) && 0 <= rank < cfg.n
  {
    var v := s.node[rank];
    && v.counted < |v.inbox| == |v.arr|
    && var x, e, w := v.arr[v.counted], v.inbox[v.counted], v.arr[..v.counted];
    && x in cfg.Kids(rank) && 1 <= x < cfg.n
    && e.timestamp == Occ(w, x) && Good(cfg, s, x, Occ(w, x), e)
    && w + [x] == v.arr[..v.counted + 1]
    && CountingInv(v.counting, w, cfg.Kids(rank))
    && |cfg.Kids(rank)| == cfg.At(rank).Kids()
  }

  lemma ArrivalIsGood(cfg: Config, s: Sys, rank: int, i: nat)
    requires Inv(cfg, s) && 0 <= rank < cfg.n && !cfg.Leaf(rank) && i < |s.node[rank].inbox|
    ensures |s.node[rank].arr| == |s.node[rank].inbox|
    ensures var x, e, p := s.node[rank].arr[i], s.node[rank].inbox[i], Occ(s.node[rank].arr[..i], s.node[rank].arr[i]);
            x in cfg.Kids(rank) && 1 <= x < cfg.n && e.timestamp == p && Good(cfg, s, x, p, e)
  {
    var v := s.node[rank];
    InnerParts(cfg, s, rank);
    assert Arrived(cfg, s, rank, v.inbox[i], v.arr[..i], v.arr[i]);
    GoodSent(cfg, s, v.arr[i], Occ(v.arr[..i], v.arr[i]));
  }

  lemma NextArrival(cfg: Config, s: Sys, rank: int)
    requires Inv(cfg, s) && 0 <= rank < cfg.n && !cfg.Leaf(rank)
    requires s.node[rank].counted < |s.node[rank].inbox|
    ensures NextOk(cfg, s, rank)
  {
    var v := s.node[rank];
    ArrivalIsGood(cfg, s, rank, v.counted);
    InnerParts(cfg, s, rank);
    DegreeCountsChildren(rank, cfg.d, cfg.n);
    TakeNext(v.arr, v.counted);
  }

  /** What has been counted has been delivered, and what has been delivered has been sent. */
  lemma CountedIsSent(cfg: Config, s: Sys, rank: int, i: nat, c: int)
    requires Inv(cfg, s) && 0 <= rank < cfg.n && !cfg.Leaf(rank) && i <= |s.node[rank].arr| && c in cfg.Kids(rank)
    ensures Occ(s.node[rank].arr[..i], c) <= Occ(s.node[rank].src, c)
    ensures Occ(s.node[rank].arr[..i], c) <= |s.sent[c]|
  {
    InnerParts(cfg, s, rank);
    DeliveredBound(cfg, s);
    OccPrefix(s.node[rank].arr, i, c);
  }

  lemma OwnEventIsOwn(cfg: Config, rank: int, p: nat, e: Event, values: seq<int>)
    requires cfg.Valid() && |values| == cfg.width(p)
    ensures IsOwn(cfg, rank, p, OwnEvent(cfg.At(rank), p, e, values))
  {
    assert ValuesOf(Sampled(values)) == values;
  }

  lemma SubmissionFits(cfg: Config, s: Sys, rank: int, c: Counting, now: seq<int>, e: Event)
    requires cfg.Valid() && Shape(cfg, s) && 0 <= c.counter && |now| == cfg.width(c.counter)
    requires Ahead(cfg, s, rank, c) && !LeafStopped(cfg, s, rank, c.counter) && (c.firstPulse <==> c.counter == 0)
    requires c.counter > 0 && cfg.width(c.counter) != cfg.width(c.counter - 1) ==> e.updateFile
    ensures IsOwn(cfg, rank, c.counter, Submission(c.firstPulse, c.data, c.counter, e, cfg.At(rank), now))
  {
    OwnEventIsOwn(cfg, rank, c.counter, e, now);
  }

  /** What is submitted for the completed pulse really is the rank's own event of that pulse. */
  lemma SubmissionIsOwn(cfg: Config, s: Sys, rank: int, now: seq<int>, e: Event)
    requires Inv(cfg, s) && 0 <= rank < cfg.n && !cfg.Leaf(rank)
    requires var c := s.node[rank].counting;
             && 0 <= c.counter && |now| == cfg.width(c.counter)
             && (c.counter > 0 && cfg.width(c.counter) != cfg.width(c.counter - 1) ==> e.updateFile)
             && forall x :: x in cfg.Kids(rank) ==> |s.sent[x]| > c.counter
    ensures var c := s.node[rank].counting;
            IsOwn(cfg, rank, c.counter, Submission(c.firstPulse, c.data, c.counter, e, cfg.At(rank), now))
  {
    var c := s.node[rank].counting;
    InnerParts(cfg, s, rank);
    NoLeafStoppedEarly(cfg, s, rank, c.counter);
    SubmissionFits(cfg, s, rank, c, now, e);
  }

  /** A quit of the pulse just completed comes from a leaf that has stopped there. */
  lemma QuitStops(cfg: Config, s: Sys, rank: int, x: int, p: nat, e: Event)
    requires cfg.Valid() && Shape(cfg, s) && x in cfg.Kids(rank) && Good(cfg, s, x, p, e) && e.quit
    ensures LeafStopped(cfg, s, rank, p + 1)
  {
    var y :| y in cfg.Below(x) && StoppedAt(cfg, s, y, p + 1);
    UnderParent(y, x, cfg.d);
    assert y in cfg.Below(rank);
  }

  /** The state after the next arrival. */
  ghost function Counted(cfg: Config, s: Sys, rank: int, now: seq<int>, next: seq<int>): Arrival<Counting>
    requires cfg.Valid() && Shape(cfg, s) && MayCount(cfg, s, rank, now, next)
  {
    OnArrival(s.node[rank].counting, s.node[rank].inbox[s.node[rank].counted], cfg.At(rank), now, next)
  }

  /** The next arrival completes a pulse. */
  ghost predicate Completes(cfg: Config, s: Sys, rank: int, now: seq<int>, next: seq<int>)
    requires cfg.Valid() && Shape(cfg, s) && MayCount(cfg, s, rank, now, next)
  {
    var v := s.node[rank];
    var o := OnArrival(v.counting, v.inbox[v.counted], cfg.At(rank), now, next);
    o.Counted? && o.own != []
  }

  lemma CountStep(cfg: Config, s: Sys, rank: int, now: seq<int>, next: seq<int>)
    requires Inv(cfg, s) && MayCount(cfg, s, rank, now, next)
    ensures NextOk(cfg, s, rank)
    ensures var v := s.node[rank];
            var o, c, e := Counted(cfg, s, rank, now, next), v.counting, v.inbox[v.counted];
            && o.Counted? && CountingInv(o.next, v.arr[..v.counted + 1], cfg.Kids(rank))
            && (o.own == [] ==> o.next == c.(table := o.next.table))
            && (o.own != [] ==>
                  && e.timestamp == c.counter && o.next.counter == c.counter + 1 && !o.next.firstPulse
                  && o.own == [Submission(c.firstPulse, c.data, c.counter, e, cfg.At(rank), now)]
                  && forall x :: x in cfg.Kids(rank) ==> Occ(v.arr[..v.counted + 1], x) > c.counter)
  {
    var v := s.node[rank];
    NextArrival(cfg, s, rank);
    ArrivalCounted(v.counting, v.arr[..v.counted], cfg.Kids(rank), v.arr[v.counted], v.inbox[v.counted],
                   cfg.At(rank), now, next);
  }

  lemma SilentRest(cfg: Config, s: Sys, t: Sys, rank: int)
    requires Inv(cfg, s) && Grows(cfg, s, t) && 0 <= rank < cfg.n && !cfg.Leaf(rank)
    requires t.sent == s.sent && t.delivered == s.delivered
    requires var v, w := s.node[rank], t.node[rank]; w == v.(counted := w.counted, counting := w.counting)
    requires t.node[rank].counted <= |t.node[rank].arr| && CountOk(cfg, t, rank)
    ensures RankOk(cfg, t, rank)
  {
    InnerParts(cfg, s, rank);
    InboxFrame(cfg, s, t, rank);
    FeedFrame(cfg, s, t, rank);
    SentFrame(cfg, s, t, rank);
  }

  lemma SilentCount(cfg: Config, s: Sys, t: Sys, rank: int, now: seq<int>, next: seq<int>)
    requires Inv(cfg, s) && MayCount(cfg, s, rank, now, next) && Grows(cfg, s, t)
    requires Counted(cfg, s, rank, now, next).Counted? && Counted(cfg, s, rank, now, next).own == []
    requires t.log == s.log
    requires t.node[rank] == s.node[rank].(counted := s.node[rank].counted + 1,
                                           counting := Counted(cfg, s, rank, now, next).next)
    ensures t.node[rank].counted <= |t.node[rank].arr| && CountOk(cfg, t, rank)
  {
    CountStep(cfg, s, rank, now, next);
    InnerParts(cfg, s, rank);
    CountFrame(cfg, s, t, rank);
  }

  /** An arrival that does not complete a pulse. */
  lemma CountSilently(cfg: Config, s: Sys, rank: int, now: seq<int>, next: seq<int>)
    requires Inv(cfg, s) && MayCount(cfg, s, rank, now, next)
    requires !Completes(cfg, s, rank, now, next)
    ensures DoCount(cfg, s, rank, now, next).Next? && Inv(cfg, DoCount(cfg, s, rank, now, next).s)
  {
    CountStep(cfg, s, rank, now, next);
    var t := DoCount(cfg, s, rank, now, next).s;
    assert Grows(cfg, s, t);
    SilentCount(cfg, s, t, rank, now, next);
    SilentRest(cfg, s, t, rank);
    DeliveredBound(cfg, s);
    OthersKeep(cfg, s, t, rank);
  }

  /** When an arrival completes a pulse, every child's event of it is in the queue already. */
  lemma ChildrenAreAhead(cfg: Config, s: Sys, rank: int, now: seq<int>, next: seq<int>)
    requires Inv(cfg, s) && MayCount(cfg, s, rank, now, next) && Completes(cfg, s, rank, now, next)
    ensures var c := s.node[rank].counting.counter;
            forall x :: x in cfg.Kids(rank) ==> Occ(s.node[rank].src, x) > c && |s.sent[x]| > c
  {
    var v := s.node[rank];
    CountStep(cfg, s, rank, now, next);
    forall x | x in cfg.Kids(rank)
      ensures Occ(v.src, x) > v.counting.counter && |s.sent[x]| > v.counting.counter
    {
      CountedIsSent(cfg, s, rank, v.counted + 1, x);
    }
  }

  lemma SampledAhead(cfg: Config, s: Sys, t: Sys, rank: int, now: seq<int>, next: seq<int>)
    requires Inv(cfg, s) && MayCount(cfg, s, rank, now, next) && Grows(cfg, s, t)
    requires Completes(cfg, s, rank, now, next)
    ensures var o := Counted(cfg, s, rank, now, next).next;
            o.counter >= 0 && Ahead(cfg, t, rank, o)
  {
    CountStep(cfg, s, rank, now, next);
    var v := s.node[rank];
    var c, e, x := v.counting.counter, v.inbox[v.counted], v.arr[v.counted];
    if e.quit {
      QuitStops(cfg, s, rank, x, c, e);
      StoppedFrame(cfg, s, t, rank, c + 1);
    } else if cfg.width(c + 1) == cfg.width(c) {
      OwnEventIsOwn(cfg, rank, c + 1, e, next);
    }
  }

  /** The stage's own fields after an arrival that completes a pulse. */
  lemma CountAdvances(cfg: Config, s: Sys, t: Sys, rank: int, now: seq<int>, next: seq<int>)
    requires Inv(cfg, s) && MayCount(cfg, s, rank, now, next) && Grows(cfg, s, t)
    requires Completes(cfg, s, rank, now, next)
    requires var v, w := s.node[rank], t.node[rank];
             && w.counted == v.counted + 1 && w.arr == v.arr && w.src == v.src + [rank]
             && w.counting == Counted(cfg, s, rank, now, next).next
    requires |t.log[rank]| == |s.log[rank]| + 1
    ensures t.node[rank].counted <= |t.node[rank].arr| && CountOk(cfg, t, rank)
  {
    CountStep(cfg, s, rank, now, next);
    InnerParts(cfg, s, rank);
    OccAppend(s.node[rank].src, rank, rank);
    SampledAhead(cfg, s, t, rank, now, next);
  }

  lemma NotOwnChild(cfg: Config, rank: int)
    requires cfg.Valid() && 0 <= rank < cfg.n
    ensures rank !in cfg.Kids(rank)
  {
    if rank in cfg.Kids(rank) {
      ParentBelow(rank, cfg.d);
    }
  }

  lemma OwnIsSource(cfg: Config, t: Sys, rank: int, p: nat, e: Event)
    requires cfg.Valid() && Shape(cfg, t) && 0 <= rank < cfg.n && !cfg.Leaf(rank)
    requires IsOwn(cfg, rank, p, e)
    requires |t.log[rank]| == p + 1 && t.log[rank][p] == Sample(ValuesOf(e.info), NO_START)
    ensures SourceOk(cfg, t, rank, rank, p, e)
  {
    TotalOfOne(LedgerOf(cfg, t), rank, p, cfg.n);
  }

  /** The own event as a member of the queue. */
  lemma OwnJoinsFeed(cfg: Config, s: Sys, t: Sys, rank: int, now: seq<int>, next: seq<int>, e: Event)
    requires Inv(cfg, s) && MayCount(cfg, s, rank, now, next) && Grows(cfg, s, t)
    requires Completes(cfg, s, rank, now, next) && e == Counted(cfg, s, rank, now, next).own[0]
    requires t.log[rank] == s.log[rank] + [Sample(ValuesOf(e.info), NO_START)]
    ensures Fits(e, s.node[rank].src, rank, cfg.At(rank), cfg.width)
    ensures SourceOk(cfg, t, rank, rank, Occ(s.node[rank].src, rank), e)
  {
    var c := s.node[rank].counting;
    CountStep(cfg, s, rank, now, next);
    ChildrenAreAhead(cfg, s, rank, now, next);
    SubmissionIsOwn(cfg, s, rank, now, s.node[rank].inbox[s.node[rank].counted]);
    InnerParts(cfg, s, rank);
    OwnIsSource(cfg, t, rank, c.counter, e);
    NotOwnChild(cfg, rank);
  }

  lemma SubmitsOwn(cfg: Config, s: Sys, t: Sys, rank: int, now: seq<int>, next: seq<int>)
    requires Inv(cfg, s) && MayCount(cfg, s, rank, now, next)
    requires Completes(cfg, s, rank, now, next)
    requires Grows(cfg, s, t) && DoCount(cfg, s, rank, now, next) == Next(t)
    ensures RankOk(cfg, t, rank)
  {
    var v, e := s.node[rank], Counted(cfg, s, rank, now, next).own[0];
    CountAdvances(cfg, s, t, rank, now, next);
    OwnJoinsFeed(cfg, s, t, rank, now, next, e);
    InnerParts(cfg, s, rank);
    FeedAppend(cfg, s, t, rank, e, rank);
    NotOwnChild(cfg, rank);
    forall x | x in cfg.Kids(rank)
      ensures Occ(t.node[rank].src, x) == Occ(v.src, x)
    {
      OccAppend(v.src, rank, x);
    }
    InboxFrame(cfg, s, t, rank);
    SentFrame(cfg, s, t, rank);
  }

  lemma CountSubmits(cfg: Config, s: Sys, rank: int, now: seq<int>, next: seq<int>)
    requires Inv(cfg, s) && MayCount(cfg, s, rank, now, next)
    requires Completes(cfg, s, rank, now, next)
    ensures DoCount(cfg, s, rank, now, next).Next? && Inv(cfg, DoCount(cfg, s, rank, now, next).s)
  {
    var t := DoCount(cfg, s, rank, now, next).s;
    assert Grows(cfg, s, t);
    SubmitsOwn(cfg, s, t, rank, now, next);
    DeliveredBound(cfg, s);
    OthersKeep(cfg, s, t, rank);
  }

  // --------------------------------------------------------- the handler is run

  /** The handler's own state after an activation. */
  lemma ActivateHandler(cfg: Config, s: Sys, rank: int)
    requires Inv(cfg, s) && 0 <= rank < cfg.n && !cfg.Leaf(rank) && s.node[rank].queue != []
    ensures DoActivate(cfg, s, rank).Next?
    ensures var t := DoActivate(cfg, s, rank).s;
            var v := t.node[rank];
            && HandlerInv(v.statics, v.queue, v.fed, t.sent[rank], cfg.At(rank))
            && (v.statics.firstFound == -1 ==> v.queue == [])
  {
    var v := s.node[rank];
    assert RankOk(cfg, s, rank);
    LeafIffNoChildren(rank, cfg.d, cfg.n);
    ShuffleIsFeed(v.fed, v.src, cfg.At(rank), cfg.width);
    ActivationKeeps(v.statics, v.queue, v.fed, s.sent[rank], cfg.At(rank));
  }

  /** Everything the handler submits is the message the rank owes for that pulse. */
  lemma ActivateRest(cfg: Config, s: Sys, t: Sys, rank: int)
    requires Inv(cfg, s) && Grows(cfg, s, t) && 0 <= rank < cfg.n && !cfg.Leaf(rank)
    requires var v, w := s.node[rank], t.node[rank];
             && w == v.(queue := w.queue, statics := w.statics)
             && HandlerInv(w.statics, w.queue, w.fed, t.sent[rank], cfg.At(rank))
    requires t.delivered == s.delivered && t.log == s.log
    ensures RankOk(cfg, t, rank)
  {
    assert RankOk(cfg, s, rank);
    InboxFrame(cfg, s, t, rank);
    FeedFrame(cfg, s, t, rank);
    CountFrame(cfg, s, t, rank);
    forall p | |s.sent[rank]| <= p < |t.sent[rank]|
      ensures Good(cfg, t, rank, p, t.sent[rank][p])
    {
      CompletedIsGood(cfg, t, rank, p);
    }
    SentFrame(cfg, s, t, rank);
  }

  lemma ActivateKeeps(cfg: Config, s: Sys, rank: int)
    requires Inv(cfg, s) && 0 <= rank < cfg.n && !cfg.Leaf(rank) && s.node[rank].queue != []
    ensures DoActivate(cfg, s, rank).Next? && Inv(cfg, DoActivate(cfg, s, rank).s)
  {
    ActivateHandler(cfg, s, rank);
    var t := DoActivate(cfg, s, rank).s;
    assert Grows(cfg, s, t);
    ActivateRest(cfg, s, t, rank);
    DeliveredBound(cfg, s);
    OthersKeep(cfg, s, t, rank);
  }

  // -------------------------------------------------------------------- all runs

  lemma StepKeeps(cfg: Config, s: Sys, step: Step)
    requires Inv(cfg, s)
    ensures var r := Apply(cfg, s, step); !r.Failed? && (r.Next? ==> Inv(cfg, r.s))
  {
    match step
    case LeafSend(rank, values, update, quit, start) =>
      if LeafMaySend(cfg, s, rank, values, update, quit, start) {
        LeafSendKeeps(cfg, s, rank, values, update, quit, start);
      }
    case Deliver(child) =>
      if 1 <= child < cfg.n && s.delivered[child] < |s.sent[child]| {
        DeliverKeeps(cfg, s, child);
      }
    case Count(rank, now, next) =>
      if MayCount(cfg, s, rank, now, next) {
        if Completes(cfg, s, rank, now, next) {
          CountSubmits(cfg, s, rank, now, next);
        } else {
          CountSilently(cfg, s, rank, now, next);
        }
      }
    case Activate(rank) =>
      if 0 <= rank < cfg.n && !cfg.Leaf(rank) && s.node[rank].queue != [] {
        ActivateKeeps(cfg, s, rank);
      }
  }

  /** No run dereferences NULL, discards index -1 or writes past an aggregate. */
  lemma {:induction false} RunKeeps(cfg: Config, steps: seq<Step>)
    requires cfg.Valid()
    ensures !Exec(cfg, steps).Failed?
    ensures Exec(cfg, steps).Next? ==> Inv(cfg, Exec(cfg, steps).s)
  {
    if steps == [] {
      InitialInv(cfg);
    } else {
      RunKeeps(cfg, steps[..|steps| - 1]);
      var r := Exec(cfg, steps[..|steps| - 1]);
      if r.Next? {
        StepKeeps(cfg, r.s, steps[|steps| - 1]);
      }
    }
  }
}
