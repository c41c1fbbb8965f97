/** Running the handler of one node again until it makes no progress. */
module Settling {
  import opened Events
  import opened QueueHandler
  import opened HandlerRuns
  import opened Totals

  /** Activations until the queue is empty or stays as it is. */
  ghost function Settle(st: Statics, q: seq<Event>): Outcome
    decreases |q|
  {
    if q == [] then Ran(st, q, []) else
    var o := Activation(st, q);
    if o.Ran? && |o.queue| < |q| then Prepend(o.submitted, Settle(o.statics, o.queue)) else o
  }

  /** Running the handler changes something exactly if an event of the current pulse is queued. */
  lemma AtRestIff(st: Statics, q: seq<Event>, fed: seq<Event>, outs: seq<Event>, site: Site)
    requires HandlerInv(st, q, fed, outs, site) && FeedOk(fed, site) && q != []
    ensures Activation(st, q) == Ran(st, q, []) <==> forall e :: e in q ==> e.timestamp != st.pulse
  {
    ActivationKeeps(st, q, fed, outs, site);
    if st.count < |AtTs(fed, st.pulse)| {
      PendingTake(fed, st.pulse, st.count);
      assert q[Scan(q, 0, st.pulse)] in q;
    } else {
      PendingExhausted(fed, st.pulse, st.count);
    }
  }

  /** Every one of the pulses before `pulses` is complete, and nothing later has come. */
  ghost predicate Complete(fed: seq<Event>, site: Site, pulses: nat) {
    && (forall p :: 0 <= p < pulses ==> |AtTs(fed, p)| == site.Kids() + 1)
    && AtTs(fed, pulses) == []
  }

  ghost predicate Finished(o: Outcome, fed: seq<Event>, outs: seq<Event>, site: Site, pulses: nat) {
    o.Ran? && o.queue == [] && |outs + o.submitted| == pulses && OutsOk(fed, outs + o.submitted, site)
  }

  lemma PrependFinishes(first: seq<Event>, o: Outcome, fed: seq<Event>, outs: seq<Event>, site: Site, pulses: nat)
    requires Finished(o, fed, outs + first, site, pulses)
    ensures Finished(Prepend(first, o), fed, outs, site, pulses)
  {
    assert outs + first + o.submitted == outs + (first + o.submitted);
  }

  lemma HandlerDone(st: Statics, fed: seq<Event>, outs: seq<Event>, site: Site, pulses: nat)
    requires HandlerInv(st, [], fed, outs, site) && Complete(fed, site, pulses)
    ensures |outs| == pulses
  {
    if st.pulse < pulses {
      PendingTake(fed, st.pulse, st.count);
    }
    assert st.pulse > pulses ==> |AtTs(fed, pulses)| == site.Kids() + 1;
  }

  lemma StillBusy(st: Statics, q: seq<Event>, fed: seq<Event>, outs: seq<Event>, site: Site, pulses: nat)
    requires HandlerInv(st, q, fed, outs, site) && FeedOk(fed, site) && Complete(fed, site, pulses) && q != []
    ensures st.count < |AtTs(fed, st.pulse)|
  {
    if st.pulse >= pulses {
      assert st.pulse > pulses ==> |AtTs(fed, pulses)| == site.Kids() + 1;
      IdleFindsPulse(st, q, fed, outs, site);
    }
  }

  /** With complete streams, wherever the handler stands, settling submits every remaining pulse, each
      merged from its degree + 1 events, and empties the queue. */
  lemma {:induction false} SettleFinishes(st: Statics, q: seq<Event>, fed: seq<Event>, outs: seq<Event>, site: Site,
                                          pulses: nat)
    requires HandlerInv(st, q, fed, outs, site) && FeedOk(fed, site) && Complete(fed, site, pulses)
    ensures Finished(Settle(st, q), fed, outs, site, pulses)
    decreases |q|
  {
    if q == [] {
      HandlerDone(st, fed, outs, site, pulses);
      assert outs + [] == outs;
    } else {
      StillBusy(st, q, fed, outs, site, pulses);
      ActivationKeeps(st, q, fed, outs, site);
      var o := Activation(st, q);
      SettleFinishes(o.statics, o.queue, fed, outs + o.submitted, site, pulses);
      PrependFinishes(o.submitted, Settle(o.statics, o.queue), fed, outs, site, pulses);
    }
  }

  // ------------------------------------------------------- the order of arrival

  function Both(a: Option<seq<Aggregate>>, b: Option<seq<Aggregate>>): Option<seq<Aggregate>> {
    if a.None? then b else if b.None? then a else Some(MergeInfo(a.value, b.value))
  }

  /** What several events of one pulse add up to, whatever comes first. */
  ghost function Merged(es: seq<Event>): Option<seq<Aggregate>> {
    if es == [] then None else Both(Merged(es[..|es| - 1]), Some(es[|es| - 1].info))
  }

  lemma BothLaws(a: Option<seq<Aggregate>>, b: Option<seq<Aggregate>>, c: Option<seq<Aggregate>>)
    ensures Both(a, b) == Both(b, a)
    ensures Both(Both(a, b), c) == Both(a, Both(b, c))
  {
    MergeInfoLaws(if a.Some? then a.value else [], if b.Some? then b.value else [], if c.Some? then c.value else []);
  }

  lemma {:induction false} CollectMerges(es: seq<Event>)
    requires es != [] && forall j :: 0 <= j < |es| ==> |es[j].info| == |es[0].info|
    ensures Merged(es) == Some(Collect(es).info)
  {
    var m := |es| - 1;
    if m > 0 {
      CollectMerges(es[..m]);
      CollectInfo(es[..m]);
      assert Collect(es).info == MergeInfo(Collect(es[..m]).info, es[m].info);
    } else {
      assert es[..m] == [];
    }
  }

  /** Any of the events may be taken last. */
  lemma {:induction false} TakeAnyLast(es: seq<Event>, i: nat)
    requires i < |es|
    ensures Merged(es) == Both(Merged(Discard(es, i)), Some(es[i].info))
  {
    var m := |es| - 1;
    if i == m {
      assert Discard(es, i) == es[..m];
    } else {
      TakeAnyLast(es[..m], i);
      var rest := Discard(es[..m], i);
      assert Discard(es, i) == rest + [es[m]] && (rest + [es[m]])[..|rest|] == rest;
      BothLaws(Merged(rest), Some(es[i].info), Some(es[m].info));
      BothLaws(Some(es[i].info), Some(es[m].info), None);
      BothLaws(Merged(rest), Some(es[m].info), Some(es[i].info));
    }
  }

  lemma WithoutOne(fs: seq<Event>, i: nat)
    requires i < |fs|
    ensures multiset(fs) == multiset(Discard(fs, i)) + multiset{fs[i]}
  {
    assert fs == fs[..i] + [fs[i]] + fs[i + 1..];
  }

  lemma Occurrence(es: seq<Event>, fs: seq<Event>) returns (i: nat)
    requires es != [] && multiset(es) == multiset(fs)
    ensures i < |fs| && fs[i] == es[|es| - 1] && multiset(es[..|es| - 1]) == multiset(Discard(fs, i))
  {
    var m := |es| - 1;
    assert es == es[..m] + [es[m]];
    assert es[m] in multiset(es);
    i :| 0 <= i < |fs| && fs[i] == es[m];
    WithoutOne(fs, i);
    assert multiset(es[..m]) == multiset(es) - multiset{es[m]};
  }

  lemma {:induction false} OrderOfPulse(es: seq<Event>, fs: seq<Event>)
    requires multiset(es) == multiset(fs)
    ensures Merged(es) == Merged(fs)
  {
    if es == [] {
      assert |multiset(fs)| == |fs|;
    } else {
      var i := Occurrence(es, fs);
      OrderOfPulse(es[..|es| - 1], Discard(fs, i));
      TakeAnyLast(fs, i);
    }
  }

  /** A handler somewhere in its work: its state, its queue, what it was fed and has submitted. */
  datatype Handler = Handler(st: Statics, q: seq<Event>, fed: seq<Event>, outs: seq<Event>) {
    ghost predicate Reached(site: Site, pulses: nat) {
      HandlerInv(st, q, fed, outs, site) && FeedOk(fed, site) && Complete(fed, site, pulses)
    }

    ghost function Settled(): Outcome {
      Settle(st, q)
    }
  }

  ghost function Infos(es: seq<Event>): seq<seq<Aggregate>> {
    seq(|es|, p requires 0 <= p < |es| => es[p].info)
  }

  /** Two interleavings of the same streams: pulse by pulse the same events in any order. */
  ghost predicate SameStreams(fed: seq<Event>, other: seq<Event>) {
    forall p :: multiset(AtTs(fed, p)) == multiset(AtTs(other, p))
  }

  lemma SamePulse(es: seq<Event>, fs: seq<Event>)
    requires es != [] && fs != [] && multiset(es) == multiset(fs)
    requires forall j :: 0 <= j < |es| ==> |es[j].info| == |es[0].info|
    requires forall j :: 0 <= j < |fs| ==> |fs[j].info| == |fs[0].info|
    ensures Collect(es).info == Collect(fs).info
  {
    CollectMerges(es);
    CollectMerges(fs);
    OrderOfPulse(es, fs);
  }

  lemma SameOuts(fed: seq<Event>, other: seq<Event>, outs: seq<Event>, outs': seq<Event>, site: Site)
    requires FeedOk(fed, site) && FeedOk(other, site) && SameStreams(fed, other)
    requires OutsOk(fed, outs, site) && OutsOk(other, outs', site) && |outs| == |outs'|
    ensures Infos(outs) == Infos(outs')
  {
    forall p | 0 <= p < |outs|
      ensures outs[p].info == outs'[p].info
    {
      SamePulse(AtTs(fed, p), AtTs(other, p));
    }
  }

  /** However the streams are interleaved, and wherever two handlers stand in their work on them, once
      both have settled they have submitted the same minima, maxima and sums in the same order. */
  lemma InterleavingDoesNotMatter(one: Handler, two: Handler, site: Site, pulses: nat)
    requires one.Reached(site, pulses) && two.Reached(site, pulses) && SameStreams(one.fed, two.fed)
    ensures one.Settled().Ran? && two.Settled().Ran?
    ensures Infos(one.outs + one.Settled().submitted) == Infos(two.outs + two.Settled().submitted)
  {
    SettleFinishes(one.st, one.q, one.fed, one.outs, site, pulses);
    SettleFinishes(two.st, two.q, two.fed, two.outs, site, pulses);
    SameOuts(one.fed, two.fed, one.outs + one.Settled().submitted, two.outs + two.Settled().submitted, site);
  }

  lemma {:induction false} NothingGone(fed: seq<Event>)
    requires forall e :: e in fed ==> e.timestamp >= 0
    ensures Pending(fed, 0, 0) == fed
  {
    if fed != [] {
      var m := |fed| - 1;
      assert fed == fed[..m] + [fed[m]];
      NothingGone(fed[..m]);
    }
  }

  /** At the start everything that has come is pending. */
  lemma AllPending(fed: seq<Event>, site: Site)
    requires FeedOk(fed, site)
    ensures HandlerInv(INITIAL, fed, fed, [], site)
  {
    forall e | e in fed
      ensures e.timestamp >= 0
    {
      AtTsMember(fed, e.timestamp);
      assert e in AtTs(fed, e.timestamp);
    }
    NothingGone(fed);
  }

  /** In particular for handlers that first see the whole of either interleaving at once. */
  lemma FromTheStart(fed: seq<Event>, other: seq<Event>, site: Site, pulses: nat)
    requires FeedOk(fed, site) && Complete(fed, site, pulses) && FeedOk(other, site) && Complete(other, site, pulses)
    requires SameStreams(fed, other)
    ensures Settle(INITIAL, fed).Ran? && Settle(INITIAL, other).Ran?
    ensures Infos(Settle(INITIAL, fed).submitted) == Infos(Settle(INITIAL, other).submitted)
  {
    AllPending(fed, site);
    AllPending(other, site);
    var one, two := Handler(INITIAL, fed, fed, []), Handler(INITIAL, other, other, []);
    InterleavingDoesNotMatter(one, two, site, pulses);
    assert [] + one.Settled().submitted == one.Settled().submitted;
    assert [] + two.Settled().submitted == two.Settled().submitted;
  }
}
