/** What the queue handler does over whole runs: every mix of arrivals and activations. */
module HandlerRuns {
  import opened Events
  import opened Topology
  import opened QueueHandler
  import opened Collections

  /** Where a handler runs: its rank in a tree of n ranks with fan-out d. */
  datatype Site = Site(rank: int, d: int, n: int) {
    function Kids(): nat { Degree(rank, d, n) }
  }

  /** The events with timestamp p among all that were ever queued, in order of arrival. */
  ghost function AtTs(fed: seq<Event>, p: int): seq<Event> {
    if fed == [] then [] else
    var last := fed[|fed| - 1];
    AtTs(fed[..|fed| - 1], p) + if last.timestamp == p then [last] else []
  }

  /** What is left of fed once all pulses before p and the first m events of pulse p are gone. */
  ghost function Pending(fed: seq<Event>, p: int, m: nat): seq<Event> {
    if fed == [] then [] else
    var before, last := fed[..|fed| - 1], fed[|fed| - 1];
    Pending(before, p, m) +
    if last.timestamp > p || (last.timestamp == p && |AtTs(before, p)| >= m) then [last] else []
  }

  /** The event that merging es from left to right yields. */
  ghost function Collect(es: seq<Event>): Event
    requires es != []
  {
    if |es| == 1 then Seed(es[0], es[0].timestamp)
    else Absorb(Collect(es[..|es| - 1]), es[|es| - 1])
  }

  /** The first event of a pulse comes from a child: its parent is this rank. */
  ghost predicate FirstOk(e: Event, site: Site) {
    e.parentRank == site.rank && e.maxDegree == site.d && e.nprocs == site.n
  }

  /** What the handler may rely on about the events that reach it. */
  ghost predicate FeedOk(fed: seq<Event>, site: Site) {
    && site.d >= 1 && site.Kids() >= 1
    && (forall p :: |AtTs(fed, p)| <= site.Kids() + 1)
    && (forall p, later :: 0 <= p <= later && AtTs(fed, later) != [] ==> AtTs(fed, p) != [])
    && (forall p :: AtTs(fed, p) != [] ==> 0 <= p && FirstOk(AtTs(fed, p)[0], site))
    && (forall p, i :: 0 <= i < |AtTs(fed, p)| ==> |AtTs(fed, p)[i].info| == |AtTs(fed, p)[0].info|)
  }

  /** Submission number p merges exactly degree + 1 events, all of pulse p. */
  ghost predicate OutsOk(fed: seq<Event>, outs: seq<Event>, site: Site) {
    forall p :: 0 <= p < |outs| ==>
      |AtTs(fed, p)| == site.Kids() + 1 && outs[p] == Collect(AtTs(fed, p))
  }

  /** No event before the resume index has the timestamp of the current pulse. */
  ghost predicate NoneBefore(q: seq<Event>, i: Index, p: int) {
    i <= |q| && forall x :: 0 <= x < i && x < |q| ==> q[x].timestamp != p
  }

  /** The state of the handler, told from what it was fed and what it has submitted. */
  ghost predicate HandlerInv(st: Statics, q: seq<Event>, fed: seq<Event>, outs: seq<Event>, site: Site) {
    && st.pulse == |outs|
    && 0 <= st.count <= site.Kids()
    && st.count <= |AtTs(fed, st.pulse)|
    && q == Pending(fed, st.pulse, st.count)
    && (st.firstFound == -1 <==> st.count == 0)
    && (st.firstFound != -1 ==>
          && st.degree == site.Kids() && st.maxDegree == site.d
          && st.aggregated == Collect(AtTs(fed, st.pulse)[..st.count])
          && NoneBefore(q, st.firstFound, st.pulse))
    && OutsOk(fed, outs, site)
  }

  // ----------------------------------------------------------- the pending queue

  lemma {:induction false} AtTsMember(fed: seq<Event>, p: int)
    ensures forall e :: e in AtTs(fed, p) <==> e in fed && e.timestamp == p
  {
    if fed != [] {
      AtTsMember(fed[..|fed| - 1], p);
      assert fed == fed[..|fed| - 1] + [fed[|fed| - 1]];
    }
  }

  lemma {:induction false} PendingMember(fed: seq<Event>, p: int, m: nat)
    ensures forall e :: e in Pending(fed, p, m) ==> e in fed && e.timestamp >= p
  {
    if fed != [] {
      PendingMember(fed[..|fed| - 1], p, m);
      assert fed == fed[..|fed| - 1] + [fed[|fed| - 1]];
    }
  }

  /** Once a pulse is used up, the queue is what the next pulse starts from. */
  lemma {:induction false} PendingExhausted(fed: seq<Event>, p: int, m: nat)
    requires |AtTs(fed, p)| <= m
    ensures Pending(fed, p, m) == Pending(fed, p + 1, 0) == Pending(fed, p, m + 1)
    ensures forall e :: e in Pending(fed, p, m) ==> e.timestamp != p
  {
    if fed != [] {
      PendingExhausted(fed[..|fed| - 1], p, m);
    }
  }

  /** Discarding the first event of the pulse advances the count by one. */
  lemma {:induction false} PendingTake(fed: seq<Event>, p: int, m: nat)
    requires m < |AtTs(fed, p)|
    ensures var q := Pending(fed, p, m);
            var i := Scan(q, 0, p);
            i < |q| && q[i] == AtTs(fed, p)[m] && Pending(fed, p, m + 1) == Discard(q, i)
  {
    var before, last := fed[..|fed| - 1], fed[|fed| - 1];
    var q0, q := Pending(before, p, m), Pending(fed, p, m);
    if m < |AtTs(before, p)| {
      PendingTake(before, p, m);
      assert q[..|q0|] == q0;
      assert Scan(q, 0, p) == Scan(q0, 0, p);
    } else {
      PendingExhausted(before, p, m);
      assert q == q0 + [last];
      assert forall x :: 0 <= x < |q0| ==> q[x] in q0;
      assert q[|q0|] == last && last.timestamp == p;
      assert Scan(q, 0, p) == |q0|;
    }
  }

  /** An arrival of the current or a later pulse goes to the end of the queue. */
  lemma PendingAppend(fed: seq<Event>, e: Event, p: int, m: nat)
    requires e.timestamp >= p && m <= |AtTs(fed, p)|
    ensures Pending(fed + [e], p, m) == Pending(fed, p, m) + [e]
  {
    assert (fed + [e])[..|fed|] == fed;
  }

  lemma AtTsAppend(fed: seq<Event>, e: Event, t: int)
    ensures AtTs(fed + [e], t) == AtTs(fed, t) + if e.timestamp == t then [e] else []
  {
    assert (fed + [e])[..|fed|] == fed;
  }

  // ------------------------------------------------------------- one activation

  /** The resumed scan picks the same event as a scan of the whole queue. */
  lemma ResumedScan(st: Statics, q: seq<Event>, fed: seq<Event>, outs: seq<Event>, site: Site)
    requires HandlerInv(st, q, fed, outs, site) && st.firstFound != -1
    ensures Scan(q, st.firstFound, st.pulse) == Scan(q, 0, st.pulse)
  {
    var i, k := Scan(q, st.firstFound, st.pulse), Scan(q, 0, st.pulse);
    assert k < |q| ==> q[k].timestamp == st.pulse;
  }

  /** A handler that waits for a pulse and has anything queued has an event of that pulse. */
  lemma IdleFindsPulse(st: Statics, q: seq<Event>, fed: seq<Event>, outs: seq<Event>, site: Site)
    requires HandlerInv(st, q, fed, outs, site) && FeedOk(fed, site)
    requires st.firstFound == -1 && q != []
    ensures AtTs(fed, st.pulse) != []
  {
    PendingMember(fed, st.pulse, 0);
    var e := q[0];
    AtTsMember(fed, e.timestamp);
    assert e in AtTs(fed, e.timestamp);
  }

  /** What one step of consumption does, given the events es of the pulse in order of arrival. */
  ghost predicate Took(o: Outcome, st: Statics, q: seq<Event>, es: seq<Event>, left: seq<Event>, site: Site) {
    && o.Ran? && o.submitted == [] && o.queue == left
    && o.statics.pulse == st.pulse && o.statics.firstFound != -1
    && o.statics.degree == site.Kids() && o.statics.maxDegree == site.d
    && 1 <= o.statics.count <= |es|
    && o.statics.aggregated == Collect(es[..o.statics.count])
    && o.statics.firstFound == Scan(q, 0, st.pulse) && NoneBefore(left, o.statics.firstFound, st.pulse)
  }

  lemma StillNoneBefore(q: seq<Event>, i: nat, p: int)
    requires i < |q| && i == Scan(q, 0, p)
    ensures NoneBefore(Discard(q, i), i, p)
  {
  }

  lemma TakeFirst(st: Statics, q: seq<Event>, es: seq<Event>, left: seq<Event>, site: Site)
    requires st.firstFound == -1 && es != [] && site.d >= 1
    requires var i := Scan(q, 0, st.pulse); i < |q| && q[i] == es[0] && left == Discard(q, i)
    requires FirstOk(es[0], site)
    ensures Took(Consume(st, q), st, q, es, left, site) && Consume(st, q).statics.count == 1
  {
    assert es[..1] == [es[0]];
    StillNoneBefore(q, Scan(q, 0, st.pulse), st.pulse);
  }

  lemma {:induction false} CollectInfo(es: seq<Event>)
    requires es != []
    ensures |Collect(es).info| == |es[0].info|
  {
    if |es| > 1 {
      CollectInfo(es[..|es| - 1]);
    }
  }

  lemma CollectNext(es: seq<Event>, m: nat)
    requires 1 <= m < |es|
    ensures Collect(es[..m + 1]) == Absorb(Collect(es[..m]), es[m])
    ensures |Collect(es[..m]).info| == |es[0].info|
  {
    CollectInfo(es[..m]);
    assert es[..m + 1][..m] == es[..m];
  }

  lemma TakeFurther(o: Outcome, st: Statics, q: seq<Event>, es: seq<Event>, i: nat, site: Site)
    requires 1 <= st.count < |es| && st.degree == site.Kids() && st.maxDegree == site.d
    requires i == Scan(q, 0, st.pulse) < |q|
    requires o == Ran(st.(aggregated := Absorb(Collect(es[..st.count]), es[st.count]), firstFound := i,
                          count := st.count + 1), Discard(q, i), [])
    ensures Took(o, st, q, es, Discard(q, i), site)
  {
    CollectNext(es, st.count);
    StillNoneBefore(q, i, st.pulse);
  }

  lemma ConsumeFound(st: Statics, q: seq<Event>, i: nat)
    requires st.firstFound != -1 && st.count < st.degree + 1
    requires i == Scan(q, st.firstFound, st.pulse) < |q| && |q[i].info| <= |st.aggregated.info|
    ensures Consume(st, q) ==
            Ran(st.(aggregated := Absorb(st.aggregated, q[i]), firstFound := i, count := st.count + 1),
                Discard(q, i), [])
  {
  }

  lemma ConsumeIdle(st: Statics, q: seq<Event>, fed: seq<Event>, site: Site)
    requires st.firstFound == -1 && q == Pending(fed, st.pulse, 0) && site.d >= 1
    requires AtTs(fed, st.pulse) != [] && FirstOk(AtTs(fed, st.pulse)[0], site)
    ensures Took(Consume(st, q), st, q, AtTs(fed, st.pulse), Pending(fed, st.pulse, 1), site)
    ensures Consume(st, q).statics.count == 1 && |Consume(st, q).queue| == |q| - 1
  {
    PendingTake(fed, st.pulse, 0);
    TakeFirst(st, q, AtTs(fed, st.pulse), Pending(fed, st.pulse, 1), site);
  }

  lemma ConsumeBusy(st: Statics, q: seq<Event>, fed: seq<Event>, site: Site)
    requires st.firstFound != -1 && 1 <= st.count <= st.degree == site.Kids() && st.maxDegree == site.d
    requires q == Pending(fed, st.pulse, st.count)
    requires Scan(q, st.firstFound, st.pulse) == Scan(q, 0, st.pulse)
    requires var es := AtTs(fed, st.pulse);
             st.count < |es| && st.aggregated == Collect(es[..st.count]) && |es[st.count].info| == |es[0].info|
    ensures Took(Consume(st, q), st, q, AtTs(fed, st.pulse), Pending(fed, st.pulse, st.count + 1), site)
    ensures Consume(st, q).statics.count == st.count + 1 && |Consume(st, q).queue| == |q| - 1
  {
    var es, i := AtTs(fed, st.pulse), Scan(q, 0, st.pulse);
    PendingTake(fed, st.pulse, st.count);
    CollectNext(es, st.count);
    ConsumeFound(st, q, i);
    TakeFurther(Consume(st, q), st, q, es, i, site);
  }

  lemma ConsumeNothing(st: Statics, q: seq<Event>, fed: seq<Event>)
    requires st.firstFound != -1 && st.count >= 0 && q == Pending(fed, st.pulse, st.count)
    requires |AtTs(fed, st.pulse)| <= st.count
    ensures Consume(st, q) == Ran(st, q, [])
  {
    PendingExhausted(fed, st.pulse, st.count);
  }

  /** Consuming takes the first queued event of the pulse, if there is one. */
  lemma ConsumeKeeps(st: Statics, q: seq<Event>, fed: seq<Event>, outs: seq<Event>, site: Site)
    requires HandlerInv(st, q, fed, outs, site) && FeedOk(fed, site)
    requires st.firstFound == -1 ==> q != []
    ensures var es := AtTs(fed, st.pulse);
            if st.count < |es| then
              && Took(Consume(st, q), st, q, es, Pending(fed, st.pulse, st.count + 1), site)
              && Consume(st, q).statics.count == st.count + 1
              && |Consume(st, q).queue| == |q| - 1
            else
              st.firstFound != -1 && Consume(st, q) == Ran(st, q, [])
  {
    if st.firstFound == -1 {
      IdleFindsPulse(st, q, fed, outs, site);
      ConsumeIdle(st, q, fed, site);
    } else {
      ResumedScan(st, q, fed, outs, site);
      if st.count < |AtTs(fed, st.pulse)| {
        ConsumeBusy(st, q, fed, site);
      } else {
        ConsumeNothing(st, q, fed);
      }
    }
  }

  lemma OutsAppend(fed: seq<Event>, outs: seq<Event>, e: Event, site: Site)
    requires OutsOk(fed, outs, site)
    requires |AtTs(fed, |outs|)| == site.Kids() + 1 && e == Collect(AtTs(fed, |outs|))
    ensures OutsOk(fed, outs + [e], site)
  {
  }

  /** After the last event of a pulse its aggregate goes out and the next pulse begins. */
  lemma PulseDone(c: Outcome, st: Statics, q: seq<Event>, fed: seq<Event>, outs: seq<Event>, site: Site)
    requires HandlerInv(st, q, fed, outs, site) && |AtTs(fed, st.pulse)| <= site.Kids() + 1
    requires c.Ran? && c.statics.count == site.Kids() + 1
    requires Took(c, st, q, AtTs(fed, st.pulse), Pending(fed, st.pulse, c.statics.count), site)
    ensures HandlerInv(c.statics.(pulse := st.pulse + 1, firstFound := -1, count := 0), c.queue, fed,
                       outs + [c.statics.aggregated], site)
  {
    TakeAll(AtTs(fed, st.pulse), c.statics.count);
    PendingExhausted(fed, st.pulse, c.statics.count);
    OutsAppend(fed, outs, c.statics.aggregated, site);
  }

  lemma PassKeeps(st: Statics, q: seq<Event>, fed: seq<Event>, outs: seq<Event>, site: Site)
    requires HandlerInv(st, q, fed, outs, site) && FeedOk(fed, site)
    requires st.firstFound == -1 ==> q != []
    ensures var o := OnePass(st, q);
            && o.Ran? && HandlerInv(o.statics, o.queue, fed, outs + o.submitted, site)
            && (o.statics.firstFound == -1 <==> o.submitted != [])
            && (if st.count < |AtTs(fed, st.pulse)| then |o.queue| == |q| - 1 else o == Ran(st, q, []))
  {
    ConsumeKeeps(st, q, fed, outs, site);
    var c := Consume(st, q);
    if c.statics.count == site.Kids() + 1 {
      PulseDone(c, st, q, fed, outs, site);
    } else {
      assert outs + [] == outs;
    }
  }

  /** A defined outcome that keeps the invariant, and is only idle with an empty queue. */
  ghost predicate Advanced(o: Outcome, fed: seq<Event>, outs: seq<Event>, site: Site) {
    && o.Ran? && HandlerInv(o.statics, o.queue, fed, outs + o.submitted, site)
    && (o.statics.firstFound == -1 ==> o.queue == [])
  }

  lemma PrependAdvances(first: seq<Event>, o: Outcome, fed: seq<Event>, outs: seq<Event>, site: Site)
    requires Advanced(o, fed, outs + first, site)
    ensures Advanced(Prepend(first, o), fed, outs, site)
  {
    assert outs + first + o.submitted == outs + (first + o.submitted);
  }

  /** A handler between two pulses that finds no event of the next one has an empty queue. */
  lemma NothingFoundMeansEmpty(st: Statics, q: seq<Event>, fed: seq<Event>, outs: seq<Event>, site: Site)
    requires HandlerInv(st, q, fed, outs, site) && FeedOk(fed, site)
    requires st.firstFound == -1 && Scan(q, 0, st.pulse) == |q|
    ensures q == []
  {
    if q != [] {
      IdleFindsPulse(st, q, fed, outs, site);
      PendingTake(fed, st.pulse, 0);
    }
  }

  /** An activation with work to look at never runs into undefined behaviour; it submits the next
      pulses in order, and if it ends idle the queue is empty. It takes at least one event if the
      queue holds one of the current pulse, and otherwise does nothing at all. */
  lemma {:induction false} ActivationKeeps(st: Statics, q: seq<Event>, fed: seq<Event>, outs: seq<Event>, site: Site)
    requires HandlerInv(st, q, fed, outs, site) && FeedOk(fed, site)
    requires st.firstFound == -1 ==> q != []
    ensures Advanced(Activation(st, q), fed, outs, site)
    ensures if st.count < |AtTs(fed, st.pulse)| then |Activation(st, q).queue| < |q|
            else Activation(st, q) == Ran(st, q, [])
    decreases |q|, if st.firstFound == -1 then 0 else 1
  {
    PassKeeps(st, q, fed, outs, site);
    var o := OnePass(st, q);
    if o.submitted != [] {
      if Scan(o.queue, 0, o.statics.pulse) < |o.queue| {
        ActivationKeeps(o.statics, o.queue, fed, outs + o.submitted, site);
        PrependAdvances(o.submitted, Activation(o.statics, o.queue), fed, outs, site);
      } else {
        NothingFoundMeansEmpty(o.statics, o.queue, fed, outs + o.submitted, site);
      }
    }
  }

  /** In a state that a run can reach, an activation is undefined exactly when it finds nothing. */
  lemma CrashIffIdleAndEmpty(st: Statics, q: seq<Event>, fed: seq<Event>, outs: seq<Event>, site: Site)
    requires HandlerInv(st, q, fed, outs, site) && FeedOk(fed, site)
    ensures Activation(st, q).Crash? <==> st.firstFound == -1 && q == []
  {
    if !(st.firstFound == -1 && q == []) {
      ActivationKeeps(st, q, fed, outs, site);
    }
  }

  /** An arrival keeps the invariant. */
  lemma ArrivalKeeps(st: Statics, q: seq<Event>, fed: seq<Event>, outs: seq<Event>, site: Site, e: Event)
    requires HandlerInv(st, q, fed, outs, site) && FeedOk(fed + [e], site)
    ensures HandlerInv(st, q + [e], fed + [e], outs, site)
  {
    AtTsAppend(fed, e, e.timestamp);
    assert AtTs(fed + [e], e.timestamp) != [];
    assert 0 <= e.timestamp < st.pulse ==> |AtTs(fed, e.timestamp)| == site.Kids() + 1;
    PendingAppend(fed, e, st.pulse, st.count);
    AtTsAppend(fed, e, st.pulse);
    assert AtTs(fed + [e], st.pulse)[..st.count] == AtTs(fed, st.pulse)[..st.count];
    forall p | 0 <= p < |outs|
      ensures AtTs(fed + [e], p) == AtTs(fed, p)
    {
      AtTsAppend(fed, e, p);
    }
    assert NoneBefore(q, st.firstFound, st.pulse) ==> NoneBefore(q + [e], st.firstFound, st.pulse);
  }
}
