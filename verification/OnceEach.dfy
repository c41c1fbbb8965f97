/** What happens if the handler of one node is run exactly once for every arrival. */
module OnceEach {
  import opened Events
  import opened QueueHandler
  import opened HandlerRuns
  import opened Collections
  import opened Feeds
  import opened Settling

  /** From the start, each arrival is followed by one activation. */
  ghost function OneEach(es: seq<Event>): Outcome {
    if es == [] then Ran(INITIAL, [], []) else
    var o := OneEach(es[..|es| - 1]);
    if o.Crash? then o else Prepend(o.submitted, Activation(o.statics, o.queue + [es[|es| - 1]]))
  }

  /** The pulse a handler is at, and how many of its events it has merged. */
  datatype Place = Place(pulse: nat, count: nat)

  /** One activation, when `here` events of the pulse and `next` of the following one have come. */
  function Further(at: Place, here: nat, next: nat, kids: nat): Place {
    if at.count >= here then at
    else if at.count < kids then Place(at.pulse, at.count + 1)
    else Place(at.pulse + 1, if next > 0 then 1 else 0)
  }

  /** An activation took the handler from st to after, when fed had come. */
  ghost predicate Moved(st: Statics, after: Statics, fed: seq<Event>, kids: nat) {
    && 0 <= st.pulse && 0 <= st.count && 0 <= after.pulse && 0 <= after.count
    && Place(after.pulse, after.count) ==
       Further(Place(st.pulse, st.count), |AtTs(fed, st.pulse)|, |AtTs(fed, st.pulse + 1)|, kids)
  }

  lemma NothingPending(st: Statics, fed: seq<Event>)
    requires Pending(fed, st.pulse, 0) == []
    ensures AtTs(fed, st.pulse) == []
  {
    if AtTs(fed, st.pulse) != [] {
      PendingTake(fed, st.pulse, 0);
    }
  }

  /** The second pass of an activation takes one event and cannot complete its pulse. */
  lemma StartsNext(st: Statics, q: seq<Event>, fed: seq<Event>, outs: seq<Event>, site: Site)
    requires HandlerInv(st, q, fed, outs, site) && FeedOk(fed, site) && st.firstFound == -1 && q != []
    ensures AtTs(fed, st.pulse) != []
    ensures var o := Activation(st, q);
            o.Ran? && o.statics.pulse == st.pulse && o.statics.count == 1 && o.submitted == []
  {
    IdleFindsPulse(st, q, fed, outs, site);
    ConsumeKeeps(st, q, fed, outs, site);
  }

  /** How far one activation gets: at most one event of the pulse it finds, and if that completes the
      pulse, at most one of the next. */
  lemma ActivationMoves(st: Statics, q: seq<Event>, fed: seq<Event>, outs: seq<Event>, site: Site)
    requires HandlerInv(st, q, fed, outs, site) && FeedOk(fed, site)
    requires st.firstFound == -1 ==> q != []
    ensures Activation(st, q).Ran? && Moved(st, Activation(st, q).statics, fed, site.Kids())
  {
    PassKeeps(st, q, fed, outs, site);
    ConsumeKeeps(st, q, fed, outs, site);
    var o := OnePass(st, q);
    if o.submitted != [] {
      if Scan(o.queue, 0, o.statics.pulse) < |o.queue| {
        StartsNext(o.statics, o.queue, fed, outs + o.submitted, site);
      } else {
        NothingFoundMeansEmpty(o.statics, o.queue, fed, outs + o.submitted, site);
        NothingPending(o.statics, fed);
      }
    }
  }

  lemma OneMore(es: seq<Event>, e: Event)
    requires OneEach(es).Ran?
    ensures var o := OneEach(es);
            OneEach(es + [e]) == Prepend(o.submitted, Activation(o.statics, o.queue + [e]))
  {
    assert (es + [e])[..|es|] == es;
  }

  lemma OneMoreKeeps(es: seq<Event>, e: Event, site: Site)
    requires FeedOk(es, site) && FeedOk(es + [e], site)
    requires var o := OneEach(es); o.Ran? && HandlerInv(o.statics, o.queue, es, o.submitted, site)
    ensures var o := OneEach(es + [e]); o.Ran? && HandlerInv(o.statics, o.queue, es + [e], o.submitted, site)
    ensures Moved(OneEach(es).statics, OneEach(es + [e]).statics, es + [e], site.Kids())
  {
    var o := OneEach(es);
    OneMore(es, e);
    ArrivalKeeps(o.statics, o.queue, es, o.submitted, site, e);
    ActivationKeeps(o.statics, o.queue + [e], es + [e], o.submitted, site);
    ActivationMoves(o.statics, o.queue + [e], es + [e], o.submitted, site);
  }

  /** With one activation per arrival the handler never fails and keeps its invariant. */
  lemma {:induction false} OneEachKeeps(fed: seq<Event>, src: seq<int>, site: Site, width: nat -> nat)
    requires Shuffle(fed, src, site, width) && 0 <= site.rank && site.Kids() >= 1
    ensures FeedOk(fed, site)
    ensures var o := OneEach(fed); o.Ran? && HandlerInv(o.statics, o.queue, fed, o.submitted, site)
  {
    ShuffleIsFeed(fed, src, site, width);
    if fed != [] {
      var before, e := fed[..|fed| - 1], fed[|fed| - 1];
      SplitLast(fed);
      ShufflePrefix(fed, src, site, width);
      OneEachKeeps(before, src[..|src| - 1], site, width);
      OneMoreKeeps(before, e, site);
    }
  }

  /** One activation, when the events that have come are from src. */
  ghost function Onward(at: Place, src: seq<int>, kids: nat): Place {
    Further(at, |SrcAt(src, at.pulse)|, |SrcAt(src, at.pulse + 1)|, kids)
  }

  /** Where one activation per arrival leads, told from the word of senders alone. */
  ghost function Track(src: seq<int>, kids: nat): Place {
    if src == [] then Place(0, 0) else Onward(Track(src[..|src| - 1], kids), src, kids)
  }

  lemma MovedOnward(st: Statics, after: Statics, fed: seq<Event>, src: seq<int>, site: Site, width: nat -> nat)
    requires Shuffle(fed, src, site, width) && Moved(st, after, fed, site.Kids())
    ensures Place(after.pulse, after.count) == Onward(Place(st.pulse, st.count), src, site.Kids())
  {
    Parallel(fed, src, site, width, st.pulse);
    Parallel(fed, src, site, width, st.pulse + 1);
  }

  lemma TrackAppend(src: seq<int>, kids: nat, x: int)
    ensures Track(src + [x], kids) == Onward(Track(src, kids), src + [x], kids)
  {
    var w := src + [x];
    assert w[..|w| - 1] == src;
  }

  ghost predicate StandsAt(o: Outcome, at: Place) {
    o.Ran? && o.statics.pulse == at.pulse && o.statics.count == at.count
  }

  lemma OneMoreOnward(before: seq<Event>, e: Event, w: seq<int>, x: int, site: Site, width: nat -> nat, at: Place)
    requires Shuffle(before, w, site, width) && Shuffle(before + [e], w + [x], site, width)
    requires 0 <= site.rank && site.Kids() >= 1 && StandsAt(OneEach(before), at)
    ensures StandsAt(OneEach(before + [e]), Onward(at, w + [x], site.Kids()))
  {
    OneEachKeeps(before, w, site, width);
    ShuffleIsFeed(before + [e], w + [x], site, width);
    OneMoreKeeps(before, e, site);
    MovedOnward(OneEach(before).statics, OneEach(before + [e]).statics, before + [e], w + [x], site, width);
  }

  lemma TrackStep(before: seq<Event>, e: Event, w: seq<int>, x: int, site: Site, width: nat -> nat)
    requires Shuffle(before, w, site, width) && Shuffle(before + [e], w + [x], site, width)
    requires 0 <= site.rank && site.Kids() >= 1 && StandsAt(OneEach(before), Track(w, site.Kids()))
    ensures StandsAt(OneEach(before + [e]), Track(w + [x], site.Kids()))
  {
    var at := Track(w, site.Kids());
    TrackAppend(w, site.Kids(), x);
    OneMoreOnward(before, e, w, x, site, width, at);
  }

  lemma TrackLast(fed: seq<Event>, src: seq<int>, site: Site, width: nat -> nat)
    requires Shuffle(fed, src, site, width) && 0 <= site.rank && site.Kids() >= 1 && fed != []
    requires Shuffle(fed[..|fed| - 1], src[..|src| - 1], site, width)
    requires StandsAt(OneEach(fed[..|fed| - 1]), Track(src[..|src| - 1], site.Kids()))
    ensures StandsAt(OneEach(fed), Track(src, site.Kids()))
  {
    var before, e, w, x := fed[..|fed| - 1], fed[|fed| - 1], src[..|src| - 1], src[|src| - 1];
    SplitLast(fed);
    SplitLast(src);
    TrackStep(before, e, w, x, site, width);
  }

  lemma {:induction false} TrackFollows(fed: seq<Event>, src: seq<int>, site: Site, width: nat -> nat)
    requires Shuffle(fed, src, site, width) && 0 <= site.rank && site.Kids() >= 1
    ensures StandsAt(OneEach(fed), Track(src, site.Kids()))
  {
    if fed != [] {
      ShufflePrefix(fed, src, site, width);
      TrackFollows(fed[..|fed| - 1], src[..|src| - 1], site, width);
      TrackLast(fed, src, site, width);
    }
  }

  /** After one activation per arrival, no event of the current pulse is left in the queue. */
  ghost predicate Rest(es: seq<Event>) {
    var o := OneEach(es);
    o.Ran? && forall e :: e in o.queue ==> e.timestamp != o.statics.pulse
  }

  /** If e is the last event of its pulse, at most one event of the next pulse came before it. */
  ghost predicate Tame(before: seq<Event>, e: Event, kids: nat) {
    |AtTs(before, e.timestamp)| == kids ==> |AtTs(before, e.timestamp + 1)| <= 1
  }

  lemma RestMeansAllMerged(fed: seq<Event>, site: Site)
    requires var o := OneEach(fed); o.Ran? && HandlerInv(o.statics, o.queue, fed, o.submitted, site)
    ensures Rest(fed) <==> OneEach(fed).statics.count == |AtTs(fed, OneEach(fed).statics.pulse)|
  {
    var o := OneEach(fed);
    if o.statics.count < |AtTs(fed, o.statics.pulse)| {
      PendingTake(fed, o.statics.pulse, o.statics.count);
      assert o.queue[Scan(o.queue, 0, o.statics.pulse)] in o.queue;
    } else {
      PendingExhausted(fed, o.statics.pulse, o.statics.count);
    }
  }

  /** A later pulse never has more events than an earlier one. */
  lemma LaterHasFewer(fed: seq<Event>, src: seq<int>, site: Site, width: nat -> nat, p: nat, later: nat)
    requires Shuffle(fed, src, site, width) && p <= later
    ensures |AtTs(fed, later)| <= |AtTs(fed, p)|
  {
    Parallel(fed, src, site, width, p);
    Parallel(fed, src, site, width, later);
    SrcAtOk(src, p);
    SrcAtOk(src, later);
    NoDupSize(SrcAt(src, p));
    NoDupSize(SrcAt(src, later));
    assert Members(SrcAt(src, later)) <= Members(SrcAt(src, p));
    SubsetSize(Members(SrcAt(src, later)), Members(SrcAt(src, p)));
  }

  /** Of pulse ts one more event has come, and of all other pulses none. */
  ghost predicate OneMoreOf(before: seq<Event>, fed: seq<Event>, ts: int) {
    forall p :: |AtTs(fed, p)| == |AtTs(before, p)| + if p == ts then 1 else 0
  }

  lemma AppendIsOneMore(before: seq<Event>, e: Event)
    ensures OneMoreOf(before, before + [e], e.timestamp)
  {
    forall p
      ensures |AtTs(before + [e], p)| == |AtTs(before, p)| + if p == e.timestamp then 1 else 0
    {
      AtTsAppend(before, e, p);
    }
  }

  lemma FurtherHere(at: Place, next: nat, kids: nat)
    requires kids >= 1 && at.count <= kids
    ensures var to := Further(at, at.count + 1, next, kids);
            if at.count == kids then to == Place(at.pulse + 1, if next > 0 then 1 else 0)
            else to == Place(at.pulse, at.count + 1)
  {
  }

  /** One more event of the pulse that a handler at rest is at. */
  lemma OneMoreHere(before: seq<Event>, fed: seq<Event>, st: Statics, after: Statics, kids: nat)
    requires kids >= 1 && OneMoreOf(before, fed, st.pulse) && Moved(st, after, fed, kids)
    requires st.count == |AtTs(before, st.pulse)| <= kids
    ensures after.count == |AtTs(fed, after.pulse)| <==>
            (|AtTs(before, st.pulse)| == kids ==> |AtTs(before, st.pulse + 1)| <= 1)
  {
    var here, next := |AtTs(fed, st.pulse)|, |AtTs(fed, st.pulse + 1)|;
    assert here == st.count + 1;
    assert next == |AtTs(before, st.pulse + 1)|;
    FurtherHere(Place(st.pulse, st.count), next, kids);
  }

  /** One more event of another pulse. */
  lemma OneMoreElsewhere(before: seq<Event>, fed: seq<Event>, ts: int, st: Statics, after: Statics, kids: nat)
    requires OneMoreOf(before, fed, ts) && ts != st.pulse && Moved(st, after, fed, kids)
    requires st.count == |AtTs(before, st.pulse)|
    ensures after.count == |AtTs(fed, after.pulse)|
  {
    assert |AtTs(fed, st.pulse)| == st.count;
  }

  /** What the numbers of events say about one more arrival at a handler at rest. */
  lemma TameOrNot(before: seq<Event>, fed: seq<Event>, e: Event, st: Statics, after: Statics, kids: nat)
    requires kids >= 1 && OneMoreOf(before, fed, e.timestamp) && Moved(st, after, fed, kids)
    requires st.count == |AtTs(before, st.pulse)| <= kids
    requires e.timestamp > st.pulse ==> |AtTs(before, e.timestamp)| < kids
    requires e.timestamp < st.pulse ==> |AtTs(before, e.timestamp)| > kids
    ensures after.count == |AtTs(fed, after.pulse)| <==> Tame(before, e, kids)
  {
    if e.timestamp == st.pulse {
      OneMoreHere(before, fed, st, after, kids);
    } else {
      OneMoreElsewhere(before, fed, e.timestamp, st, after, kids);
    }
  }

  /** The last event of a later pulse cannot come while the current one is incomplete, nor can one more of
      an earlier pulse. */
  lemma OthersAreNotLast(before: seq<Event>, e: Event, src: seq<int>, x: int, st: Statics, outs: seq<Event>, site: Site,
                         width: nat -> nat)
    requires Shuffle(before + [e], src + [x], site, width) && 0 <= st.pulse == |outs| && OutsOk(before, outs, site)
    requires |AtTs(before, st.pulse)| <= site.Kids() && AtTs(before + [e], e.timestamp) != []
    requires FeedOk(before + [e], site)
    ensures e.timestamp > st.pulse ==> |AtTs(before, e.timestamp)| < site.Kids()
    ensures e.timestamp < st.pulse ==> |AtTs(before, e.timestamp)| > site.Kids()
  {
    AtTsAppend(before, e, st.pulse);
    AtTsAppend(before, e, e.timestamp);
    if e.timestamp > st.pulse {
      LaterHasFewer(before + [e], src + [x], site, width, st.pulse, e.timestamp);
    }
  }

  /** From rest, an arrival leads to rest exactly if it is tame. */
  lemma TameArrival(before: seq<Event>, e: Event, src: seq<int>, x: int, site: Site, width: nat -> nat)
    requires Shuffle(before, src, site, width) && Shuffle(before + [e], src + [x], site, width)
    requires 0 <= site.rank && site.Kids() >= 1 && Rest(before)
    ensures Rest(before + [e]) <==> Tame(before, e, site.Kids())
  {
    var o := OneEach(before);
    OneEachKeeps(before, src, site, width);
    OneEachKeeps(before + [e], src + [x], site, width);
    OneMoreKeeps(before, e, site);
    RestMeansAllMerged(before, site);
    RestMeansAllMerged(before + [e], site);
    AtTsAppend(before, e, e.timestamp);
    OthersAreNotLast(before, e, src, x, o.statics, o.submitted, site, width);
    AppendIsOneMore(before, e);
    TameOrNot(before, before + [e], e, o.statics, OneEach(before + [e]).statics, site.Kids());
  }

  /** p holds at the start and after every arrival. */
  ghost predicate Always(p: seq<Event> -> bool, fed: seq<Event>) {
    forall k :: 0 <= k <= |fed| ==> p(fed[..k])
  }

  ghost predicate AlwaysTame(fed: seq<Event>, kids: nat) {
    forall k :: 0 <= k < |fed| ==> Tame(fed[..k], fed[k], kids)
  }

  lemma AlwaysAppend(p: seq<Event> -> bool, fed: seq<Event>, e: Event)
    ensures Always(p, fed + [e]) <==> Always(p, fed) && p(fed + [e])
    ensures Always(p, fed) ==> p(fed)
  {
    var all := fed + [e];
    assert forall k :: 0 <= k <= |fed| ==> all[..k] == fed[..k];
    assert all[..|all|] == all && fed[..|fed|] == fed;
    if Always(p, all) {
      assert forall k :: 0 <= k <= |fed| ==> p(all[..k]);
    }
  }

  lemma AlwaysTameAppend(fed: seq<Event>, e: Event, kids: nat)
    ensures AlwaysTame(fed + [e], kids) <==> AlwaysTame(fed, kids) && Tame(fed, e, kids)
  {
    var all := fed + [e];
    assert forall k :: 0 <= k <= |fed| ==> all[..k] == fed[..k];
    assert fed[..|fed|] == fed && all[|fed|] == e;
    if AlwaysTame(all, kids) {
      assert forall k :: 0 <= k <= |fed| ==> Tame(all[..k], all[k], kids);
    }
  }

  /** Exactly when one activation per arrival never falls behind: it never leaves an event of the current
      pulse in the queue, if and only if whenever the last event of a pulse arrives, at most one event of the
      next pulse has arrived before it. */
  lemma {:induction false} NeverBehindIff(fed: seq<Event>, src: seq<int>, site: Site, width: nat -> nat)
    requires Shuffle(fed, src, site, width) && 0 <= site.rank && site.Kids() >= 1
    ensures Always(Rest, fed) <==> AlwaysTame(fed, site.Kids())
  {
    if fed != [] {
      var before, e, w, x := fed[..|fed| - 1], fed[|fed| - 1], src[..|src| - 1], src[|src| - 1];
      SplitLast(fed);
      SplitLast(src);
      ShufflePrefix(fed, src, site, width);
      NeverBehindIff(before, w, site, width);
      AlwaysAppend(Rest, before, e);
      AlwaysTameAppend(before, e, site.Kids());
      if Always(Rest, before) {
        TameArrival(before, e, w, x, site, width);
      }
    }
  }

  lemma RestIsDone(st: Statics, q: seq<Event>, fed: seq<Event>, outs: seq<Event>, site: Site, pulses: nat)
    requires HandlerInv(st, q, fed, outs, site) && FeedOk(fed, site) && Complete(fed, site, pulses)
    requires st.count == |AtTs(fed, st.pulse)|
    ensures q == [] && |outs| == pulses
  {
    if q != [] {
      StillBusy(st, q, fed, outs, site, pulses);
    }
    HandlerDone(st, fed, outs, site, pulses);
  }

  /** With complete streams, a handler at rest after the last arrival has submitted every pulse. */
  lemma RestIsFinished(fed: seq<Event>, src: seq<int>, site: Site, width: nat -> nat, pulses: nat)
    requires Shuffle(fed, src, site, width) && 0 <= site.rank && site.Kids() >= 1 && Complete(fed, site, pulses)
    requires Rest(fed)
    ensures Finished(OneEach(fed), fed, [], site, pulses)
  {
    OneEachKeeps(fed, src, site, width);
    RestMeansAllMerged(fed, site);
    var o := OneEach(fed);
    RestIsDone(o.statics, o.queue, fed, o.submitted, site, pulses);
    assert [] + o.submitted == o.submitted;
  }

  /** So complete streams on which it never falls behind are published; but this is more than it takes. */
  lemma TameStreamsArePublished(fed: seq<Event>, src: seq<int>, site: Site, width: nat -> nat, pulses: nat)
    requires Shuffle(fed, src, site, width) && 0 <= site.rank && site.Kids() >= 1 && Complete(fed, site, pulses)
    requires AlwaysTame(fed, site.Kids())
    ensures Finished(OneEach(fed), fed, [], site, pulses)
  {
    NeverBehindIff(fed, src, site, width);
    assert Rest(fed[..|fed|]);
    TakeAll(fed, |fed|);
    RestIsFinished(fed, src, site, width, pulses);
  }

  // ---------------------------------------------------- falling behind and catching up

  /** count and kids for every pulse before this one. */
  ghost function Height(pulse: int, count: int, kids: nat): int
    decreases pulse
  {
    if pulse <= 0 then count else kids + Height(pulse - 1, count, kids)
  }

  /** How far one activation per arrival has got: it climbs by at most one with each. */
  ghost function Level(fed: seq<Event>, kids: nat): int
    requires OneEach(fed).Ran?
  {
    Height(OneEach(fed).statics.pulse, OneEach(fed).statics.count, kids)
  }

  lemma {:induction false} HeightIs(pulse: nat, count: int, kids: nat)
    ensures Height(pulse, count, kids) == kids * pulse + count
  {
    if pulse > 0 {
      HeightIs(pulse - 1, count, kids);
      assert kids * pulse == kids * (pulse - 1) + kids;
    }
  }

  lemma {:induction false} HeightUp(pulse: int, count: int, more: int, kids: nat)
    ensures Height(pulse, count + more, kids) == Height(pulse, count, kids) + more
    decreases pulse
  {
    if pulse > 0 {
      HeightUp(pulse - 1, count, more, kids);
    }
  }

  lemma {:induction false} HeightMonotone(low: int, high: int, kids: nat)
    requires low <= high
    ensures Height(low, kids, kids) <= Height(high, kids, kids)
    decreases high
  {
    if low < high && high > 0 {
      HeightMonotone(low, high - 1, kids);
    }
  }

  lemma HeightBelow(pulse: int, count: int, q: int, kids: nat)
    requires pulse <= q && count <= kids
    ensures Height(pulse, count, kids) <= Height(q, kids, kids)
  {
    HeightUp(pulse, count, kids - count, kids);
    HeightMonotone(pulse, q, kids);
  }

  /** An activation climbs by at most one, and by exactly one if there is something to do before and after. */
  lemma FurtherClimbs(at: Place, here: nat, next: nat, kids: nat)
    requires kids >= 1 && at.count <= kids
    ensures var to := Further(at, here, next, kids);
            && Height(to.pulse, to.count, kids) <= Height(at.pulse, at.count, kids) + 1
            && (at.count < here && to.count < (if to.pulse == at.pulse then here else next) ==>
                  Height(to.pulse, to.count, kids) == Height(at.pulse, at.count, kids) + 1)
  {
    HeightUp(at.pulse, at.count, 1, kids);
    HeightUp(at.pulse, 0, kids, kids);
    HeightUp(at.pulse + 1, 0, 1, kids);
  }

  lemma ClimbByNumbers(before: seq<Event>, fed: seq<Event>, ts: int, st: Statics, after: Statics, kids: nat)
    requires kids >= 1 && OneMoreOf(before, fed, ts) && Moved(st, after, fed, kids) && st.count <= kids
    ensures Height(after.pulse, after.count, kids) <= Height(st.pulse, st.count, kids) + 1
    ensures st.count < |AtTs(before, st.pulse)| && after.count < |AtTs(fed, after.pulse)| ==>
              Height(after.pulse, after.count, kids) == Height(st.pulse, st.count, kids) + 1
  {
    var here, next := |AtTs(fed, st.pulse)|, |AtTs(fed, st.pulse + 1)|;
    assert here >= |AtTs(before, st.pulse)|;
    FurtherClimbs(Place(st.pulse, st.count), here, next, kids);
  }

  lemma ClimbStep(before: seq<Event>, e: Event, w: seq<int>, x: int, site: Site, width: nat -> nat, kids: nat)
    requires Shuffle(before, w, site, width) && Shuffle(before + [e], w + [x], site, width)
    requires 0 <= site.rank && kids == site.Kids() >= 1
    ensures OneEach(before).Ran? && OneEach(before + [e]).Ran?
    ensures Level(before + [e], kids) <= Level(before, kids) + 1
    ensures !Rest(before) && !Rest(before + [e]) ==> Level(before + [e], kids) == Level(before, kids) + 1
  {
    var o, o' := OneEach(before), OneEach(before + [e]);
    OneEachKeeps(before, w, site, width);
    OneEachKeeps(before + [e], w + [x], site, width);
    OneMoreKeeps(before, e, site);
    RestMeansAllMerged(before, site);
    RestMeansAllMerged(before + [e], site);
    AppendIsOneMore(before, e);
    ClimbByNumbers(before, before + [e], e.timestamp, o.statics, o'.statics, kids);
  }

  /** Event j is the last one of its pulse to come. */
  ghost predicate IsLast(fed: seq<Event>, j: nat, kids: nat)
    requires j < |fed|
  {
    |AtTs(fed[..j], fed[j].timestamp)| == kids
  }

  lemma BehindByNumbers(before: seq<Event>, fed: seq<Event>, st: Statics, after: Statics, kids: nat)
    requires kids >= 1 && OneMoreOf(before, fed, st.pulse) && Moved(st, after, fed, kids)
    requires st.count == |AtTs(before, st.pulse)| == kids && |AtTs(before, st.pulse + 1)| > 1
    ensures after.pulse == st.pulse + 1 && after.count == 1
  {
    assert |AtTs(fed, st.pulse)| == kids + 1;
    assert |AtTs(fed, st.pulse + 1)| > 1;
  }

  lemma BacklogBegins(before: seq<Event>, e: Event, w: seq<int>, x: int, site: Site, width: nat -> nat, kids: nat)
    requires Shuffle(before, w, site, width) && Shuffle(before + [e], w + [x], site, width)
    requires 0 <= site.rank && kids == site.Kids() >= 1 && Rest(before) && !Rest(before + [e])
    ensures |AtTs(before, e.timestamp)| == kids && OneEach(before + [e]).Ran?
    ensures Level(before + [e], kids) == Height(e.timestamp + 1, 1, kids)
  {
    var o := OneEach(before);
    TameArrival(before, e, w, x, site, width);
    OneEachKeeps(before, w, site, width);
    OneEachKeeps(before + [e], w + [x], site, width);
    OneMoreKeeps(before, e, site);
    RestMeansAllMerged(before, site);
    AppendIsOneMore(before, e);
    assert AtTs(before + [e], e.timestamp) != [];
    OthersAreNotLast(before, e, w, x, o.statics, o.submitted, site, width);
    BehindByNumbers(before, before + [e], o.statics, OneEach(before + [e]).statics, kids);
  }

  // ----------------------------------------------------------- published in the end

  /** Pulse q has just become complete, and `left` arrivals are still to come. */
  ghost predicate Enough(q: int, left: int, kids: nat, pulses: nat) {
    left >= kids * (pulses - 1 - q)
  }

  /** Whenever the last event of a pulse arrives, enough arrivals are still to come to merge the rest. */
  ghost predicate InTime(fed: seq<Event>, kids: nat, pulses: nat) {
    forall j :: 0 <= j < |fed| && IsLast(fed, j, kids) ==> Enough(fed[j].timestamp, |fed| - j - 1, kids, pulses)
  }

  /** Before its last event has come, a pulse is not complete. */
  lemma NotPastLast(fed: seq<Event>, src: seq<int>, site: Site, width: nat -> nat, kids: nat, q: int)
    requires Shuffle(fed, src, site, width) && 0 <= site.rank && kids == site.Kids() >= 1
    requires 0 <= q && |AtTs(fed, q)| <= kids
    ensures OneEach(fed).Ran? && Level(fed, kids) <= Height(q, kids, kids)
  {
    OneEachKeeps(fed, src, site, width);
    var st := OneEach(fed).statics;
    assert st.pulse <= q;
    HeightBelow(st.pulse, st.count, q, kids);
  }

  /** Before the last event has come, not every pulse has been submitted. */
  lemma OneStillMissing(before: seq<Event>, e: Event, outs: seq<Event>, site: Site, pulses: nat)
    requires OutsOk(before, outs, site) && FeedOk(before + [e], site) && Complete(before + [e], site, pulses)
    ensures |outs| != pulses
  {
    AtTsAppend(before, e, e.timestamp);
    assert AtTs(before + [e], e.timestamp) != [];
    assert 0 <= e.timestamp < pulses;
    assert |AtTs(before + [e], e.timestamp)| == site.Kids() + 1;
  }

  lemma TopByNumbers(st: Statics, after: Statics, fed: seq<Event>, kids: nat, pulses: nat)
    requires kids >= 1 && Moved(st, after, fed, kids) && st.count <= kids
    requires after.pulse == pulses != st.pulse
    ensures pulses > 0 && st.pulse == pulses - 1 && st.count == kids
  {
  }

  /** Before and after one more arrival. */
  lemma TwoInARow(before: seq<Event>, e: Event, w: seq<int>, x: int, site: Site, width: nat -> nat)
    requires Shuffle(before, w, site, width) && Shuffle(before + [e], w + [x], site, width)
    requires 0 <= site.rank && site.Kids() >= 1
    ensures FeedOk(before + [e], site)
    ensures var o := OneEach(before); o.Ran? && HandlerInv(o.statics, o.queue, before, o.submitted, site)
    ensures var o := OneEach(before + [e]);
            && o.Ran? && HandlerInv(o.statics, o.queue, before + [e], o.submitted, site)
            && Moved(OneEach(before).statics, o.statics, before + [e], site.Kids())
  {
    OneEachKeeps(before, w, site, width);
    ShuffleIsFeed(before + [e], w + [x], site, width);
    OneMoreKeeps(before, e, site);
  }

  lemma PulseWhenFinished(o: Outcome, fed: seq<Event>, site: Site, pulses: nat)
    requires o.Ran? && HandlerInv(o.statics, o.queue, fed, o.submitted, site) && Finished(o, fed, [], site, pulses)
    ensures o.statics.pulse == pulses
  {
    assert [] + o.submitted == o.submitted;
  }

  lemma FromTop(before: seq<Event>, e: Event, site: Site, pulses: nat)
    requires site.Kids() >= 1 && FeedOk(before + [e], site) && Complete(before + [e], site, pulses)
    requires var o := OneEach(before); o.Ran? && HandlerInv(o.statics, o.queue, before, o.submitted, site)
    requires var o := OneEach(before + [e]);
             && o.Ran? && o.statics.pulse == pulses
             && Moved(OneEach(before).statics, o.statics, before + [e], site.Kids())
    ensures pulses > 0 && OneEach(before).statics.pulse == pulses - 1 && OneEach(before).statics.count == site.Kids()
  {
    var st := OneEach(before).statics;
    OneStillMissing(before, e, OneEach(before).submitted, site, pulses);
    TopByNumbers(st, OneEach(before + [e]).statics, before + [e], site.Kids(), pulses);
  }

  /** The last activation of a handler that finishes begins at the top. */
  lemma LastFromTop(before: seq<Event>, e: Event, w: seq<int>, x: int, site: Site, width: nat -> nat, kids: nat,
                    pulses: nat)
    requires Shuffle(before, w, site, width) && Shuffle(before + [e], w + [x], site, width)
    requires 0 <= site.rank && kids == site.Kids() >= 1 && Complete(before + [e], site, pulses)
    requires Finished(OneEach(before + [e]), before + [e], [], site, pulses)
    ensures pulses > 0 && OneEach(before).Ran?
    ensures Level(before, kids) == Height(pulses - 1, kids, kids)
  {
    TwoInARow(before, e, w, x, site, width);
    PulseWhenFinished(OneEach(before + [e]), before + [e], site, pulses);
    FromTop(before, e, site, pulses);
  }

  lemma Spread(k: int, a: int, b: int)
    ensures k * (a - b) == k * a - k * b && k * (b + 1) == k * b + k
  {
  }

  lemma EnoughLeft(kids: nat, pulses: nat, q: nat, left: int)
    requires pulses > 0
    ensures Height(pulses - 1, kids, kids) <= Height(q, kids, kids) + left <==> Enough(q, left, kids, pulses)
    ensures Height(q + 1, left + 1, kids) <= Height(pulses - 1, kids, kids) ==> !Enough(q, left, kids, pulses)
  {
    HeightIs(pulses - 1, kids, kids);
    HeightIs(q, kids, kids);
    HeightIs(q + 1, left + 1, kids);
    Spread(kids, pulses - 1, q);
  }

  lemma NotDoneYet(st: Statics, fed: seq<Event>, outs: seq<Event>, site: Site, pulses: nat)
    requires OutsOk(fed, outs, site) && 0 <= st.pulse == |outs| && 0 <= st.count < |AtTs(fed, st.pulse)|
    requires Complete(fed, site, pulses)
    ensures st.pulse < pulses
  {
    assert st.pulse > pulses ==> |AtTs(fed, pulses)| == site.Kids() + 1;
  }

  lemma PlaceBelow(fed: seq<Event>, src: seq<int>, site: Site, width: nat -> nat, kids: nat, pulses: nat)
    requires Shuffle(fed, src, site, width) && 0 <= site.rank && kids == site.Kids() >= 1 && Complete(fed, site, pulses)
    requires !Rest(fed)
    ensures var o := OneEach(fed); o.Ran? && 0 <= o.statics.pulse < pulses && o.statics.count <= kids
  {
    OneEachKeeps(fed, src, site, width);
    RestMeansAllMerged(fed, site);
    var o := OneEach(fed);
    NotDoneYet(o.statics, fed, o.submitted, site, pulses);
  }

  lemma LevelBelow(fed: seq<Event>, q: int, kids: nat)
    requires OneEach(fed).Ran? && OneEach(fed).statics.pulse <= q && OneEach(fed).statics.count <= kids
    ensures Level(fed, kids) <= Height(q, kids, kids)
  {
    var st := OneEach(fed).statics;
    HeightBelow(st.pulse, st.count, q, kids);
  }

  /** What one arrival does to the level of a handler that is at rest now and then. */
  ghost predicate StepOk(level: seq<Event> -> int, rest: seq<Event> -> bool, before: seq<Event>, fed: seq<Event>,
                         ts: int, kids: nat) {
    && ts >= 0 && level(fed) <= level(before) + 1
    && (!rest(before) && !rest(fed) ==> level(fed) == level(before) + 1)
    && (rest(before) && !rest(fed) ==> |AtTs(before, ts)| == kids && level(fed) == Height(ts + 1, 1, kids))
    && (|AtTs(before, ts)| == kids ==> level(before) <= Height(ts, kids, kids))
  }

  /** So it went with every arrival. */
  ghost predicate Steady(level: seq<Event> -> int, rest: seq<Event> -> bool, fed: seq<Event>, kids: nat) {
    if fed == [] then rest(fed) else
    var before, ts := fed[..|fed| - 1], fed[|fed| - 1].timestamp;
    Steady(level, rest, before, kids) && StepOk(level, rest, before, fed, ts, kids)
  }

  lemma {:induction false} Climbs(level: seq<Event> -> int, rest: seq<Event> -> bool, fed: seq<Event>, kids: nat,
                                  j: nat)
    requires Steady(level, rest, fed, kids) && j < |fed| && IsLast(fed, j, kids)
    ensures fed[j].timestamp >= 0
    ensures level(fed[..|fed| - 1]) <= Height(fed[j].timestamp, kids, kids) + |fed| - 1 - j
  {
    var m := |fed| - 1;
    if j < m {
      TakeOfTake(fed, m, j);
      Climbs(level, rest, fed[..m], kids, j);
    }
  }

  /** A handler that is behind has climbed by exactly one with every arrival since the one that put it
      behind, which was the last of its pulse. */
  lemma {:induction false} BacklogSince(level: seq<Event> -> int, rest: seq<Event> -> bool, fed: seq<Event>, kids: nat)
    returns (j: nat)
    requires Steady(level, rest, fed, kids) && !rest(fed)
    ensures j < |fed| && IsLast(fed, j, kids) && fed[j].timestamp >= 0
    ensures level(fed) == Height(fed[j].timestamp + 1, |fed| - j, kids)
  {
    var m := |fed| - 1;
    if rest(fed[..m]) {
      j := m;
    } else {
      j := BacklogSince(level, rest, fed[..m], kids);
      TakeOfTake(fed, m, j);
      HeightUp(fed[j].timestamp + 1, m - j, 1, kids);
    }
  }

  /** Published in the end: the last activation began at the top. Otherwise the handler is behind. */
  ghost predicate EndsWell(level: seq<Event> -> int, rest: seq<Event> -> bool, fed: seq<Event>, kids: nat, pulses: nat,
                           well: bool) {
    && (well && fed != [] ==> pulses > 0 && level(fed[..|fed| - 1]) == Height(pulses - 1, kids, kids))
    && (!well ==> pulses > 0 && !rest(fed) && level(fed) <= Height(pulses - 1, kids, kids))
  }

  lemma WellHasEnough(level: seq<Event> -> int, rest: seq<Event> -> bool, fed: seq<Event>, kids: nat, pulses: nat,
                      j: nat)
    requires Steady(level, rest, fed, kids) && EndsWell(level, rest, fed, kids, pulses, true)
    requires j < |fed| && IsLast(fed, j, kids)
    ensures Enough(fed[j].timestamp, |fed| - j - 1, kids, pulses)
  {
    Climbs(level, rest, fed, kids, j);
    EnoughLeft(kids, pulses, fed[j].timestamp, |fed| - j - 1);
  }

  lemma WellMeansInTime(level: seq<Event> -> int, rest: seq<Event> -> bool, fed: seq<Event>, kids: nat, pulses: nat,
                        well: bool)
    requires Steady(level, rest, fed, kids) && EndsWell(level, rest, fed, kids, pulses, well)
    ensures well <==> InTime(fed, kids, pulses)
  {
    if well {
      forall j | 0 <= j < |fed| && IsLast(fed, j, kids)
        ensures Enough(fed[j].timestamp, |fed| - j - 1, kids, pulses)
      {
        WellHasEnough(level, rest, fed, kids, pulses, j);
      }
    } else {
      var j := BacklogSince(level, rest, fed, kids);
      EnoughLeft(kids, pulses, fed[j].timestamp, |fed| - j - 1);
    }
  }

  /** The level as a function of what has come. */
  ghost function LevelOf(kids: nat): seq<Event> -> int {
    fed => if OneEach(fed).Ran? then Level(fed, kids) else 0
  }

  lemma StepIsOk(before: seq<Event>, e: Event, w: seq<int>, x: int, site: Site, width: nat -> nat, kids: nat)
    requires Shuffle(before, w, site, width) && Shuffle(before + [e], w + [x], site, width)
    requires 0 <= site.rank && kids == site.Kids() >= 1
    ensures StepOk(LevelOf(kids), Rest, before, before + [e], e.timestamp, kids)
  {
    ClimbStep(before, e, w, x, site, width, kids);
    if Rest(before) && !Rest(before + [e]) {
      BacklogBegins(before, e, w, x, site, width, kids);
    }
    OneEachKeeps(before + [e], w + [x], site, width);
    AppendIsOneMore(before, e);
    assert AtTs(before + [e], e.timestamp) != [];
    if |AtTs(before, e.timestamp)| == kids {
      NotPastLast(before, w, site, width, kids, e.timestamp);
    }
  }

  lemma {:induction false} IsSteady(fed: seq<Event>, src: seq<int>, site: Site, width: nat -> nat, kids: nat)
    requires Shuffle(fed, src, site, width) && 0 <= site.rank && kids == site.Kids() >= 1
    ensures Steady(LevelOf(kids), Rest, fed, kids)
  {
    if fed != [] {
      var m := |fed| - 1;
      ShufflePrefix(fed, src, site, width);
      IsSteady(fed[..m], src[..m], site, width, kids);
      SplitLast(fed);
      SplitLast(src);
      StepIsOk(fed[..m], fed[m], src[..m], src[m], site, width, kids);
    }
  }

  lemma EndsAtTop(fed: seq<Event>, src: seq<int>, site: Site, width: nat -> nat, kids: nat, pulses: nat)
    requires Shuffle(fed, src, site, width) && 0 <= site.rank && kids == site.Kids() >= 1 && Complete(fed, site, pulses)
    requires Finished(OneEach(fed), fed, [], site, pulses) && fed != []
    ensures var before := fed[..|fed| - 1];
            pulses > 0 && OneEach(before).Ran? && Level(before, kids) == Height(pulses - 1, kids, kids)
  {
    var m := |fed| - 1;
    ShufflePrefix(fed, src, site, width);
    SplitLast(fed);
    SplitLast(src);
    LastFromTop(fed[..m], fed[m], src[..m], src[m], site, width, kids, pulses);
  }

  lemma UnfinishedIsBehind(fed: seq<Event>, src: seq<int>, site: Site, width: nat -> nat, pulses: nat)
    requires Shuffle(fed, src, site, width) && 0 <= site.rank && site.Kids() >= 1 && Complete(fed, site, pulses)
    requires !Finished(OneEach(fed), fed, [], site, pulses)
    ensures !Rest(fed)
  {
    if Rest(fed) {
      RestIsFinished(fed, src, site, width, pulses);
    }
  }

  lemma EndsBelow(fed: seq<Event>, src: seq<int>, site: Site, width: nat -> nat, kids: nat, pulses: nat)
    requires Shuffle(fed, src, site, width) && 0 <= site.rank && kids == site.Kids() >= 1 && Complete(fed, site, pulses)
    requires !Rest(fed)
    ensures pulses > 0 && OneEach(fed).Ran? && Level(fed, kids) <= Height(pulses - 1, kids, kids)
  {
    PlaceBelow(fed, src, site, width, kids, pulses);
    LevelBelow(fed, pulses - 1, kids);
  }

  lemma EndIsKnown(fed: seq<Event>, src: seq<int>, site: Site, width: nat -> nat, kids: nat, pulses: nat)
    requires Shuffle(fed, src, site, width) && 0 <= site.rank && kids == site.Kids() >= 1 && Complete(fed, site, pulses)
    ensures EndsWell(LevelOf(kids), Rest, fed, kids, pulses, Finished(OneEach(fed), fed, [], site, pulses))
  {
    if !Finished(OneEach(fed), fed, [], site, pulses) {
      UnfinishedIsBehind(fed, src, site, width, pulses);
      EndsBelow(fed, src, site, width, kids, pulses);
    } else if fed != [] {
      EndsAtTop(fed, src, site, width, kids, pulses);
    }
  }

  /** Exactly when complete streams are published by one activation per arrival: whenever the last event
      of a pulse q arrives, at least degree * (pulses - 1 - q) arrivals are still to come. */
  lemma OneActivationPublishesIff(fed: seq<Event>, src: seq<int>, site: Site, width: nat -> nat, pulses: nat)
    requires Shuffle(fed, src, site, width) && 0 <= site.rank && site.Kids() >= 1 && Complete(fed, site, pulses)
    ensures Finished(OneEach(fed), fed, [], site, pulses) <==> InTime(fed, site.Kids(), pulses)
  {
    IsSteady(fed, src, site, width, site.Kids());
    EndIsKnown(fed, src, site, width, site.Kids(), pulses);
    var well := Finished(OneEach(fed), fed, [], site, pulses);
    WellMeansInTime(LevelOf(site.Kids()), Rest, fed, site.Kids(), pulses, well);
  }

  // ------------------------------------------------------------------ the same in words

  /** How many events of pulses after q have come. */
  ghost function Later(fed: seq<Event>, q: int): nat {
    if fed == [] then 0 else Later(fed[..|fed| - 1], q) + if fed[|fed| - 1].timestamp > q then 1 else 0
  }

  lemma {:induction false} LaterIsNext(fed: seq<Event>, q: int)
    ensures Later(fed, q - 1) == Later(fed, q) + |AtTs(fed, q)|
  {
    if fed != [] {
      LaterIsNext(fed[..|fed| - 1], q);
    }
  }

  lemma {:induction false} LaterAll(fed: seq<Event>)
    requires forall e :: e in fed ==> e.timestamp >= 0
    ensures Later(fed, -1) == |fed|
  {
    if fed != [] {
      var m := |fed| - 1;
      SplitLast(fed);
      assert fed[m].timestamp >= 0;
      LaterAll(fed[..m]);
    }
  }

  /** The number of events of the pulses up to q. */
  ghost function UpTo(q: int, kids: nat): int
    decreases q
  {
    if q < 0 then 0 else kids + 1 + UpTo(q - 1, kids)
  }

  lemma {:induction false} UpToIs(q: int, kids: nat)
    requires q >= -1
    ensures UpTo(q, kids) == (kids + 1) * (q + 1)
    decreases q
  {
    if q >= 0 {
      UpToIs(q - 1, kids);
      assert (kids + 1) * (q + 1) == (kids + 1) * q + kids + 1;
    }
  }

  /** With the pulses up to q complete, the rest is later. */
  lemma {:induction false} LaterIsRest(fed: seq<Event>, kids: nat, q: int)
    requires q >= -1 && (forall e :: e in fed ==> e.timestamp >= 0)
    requires forall p :: 0 <= p <= q ==> |AtTs(fed, p)| == kids + 1
    ensures |fed| == UpTo(q, kids) + Later(fed, q)
    decreases q
  {
    if q == -1 {
      LaterAll(fed);
    } else {
      LaterIsRest(fed, kids, q - 1);
      LaterIsNext(fed, q);
    }
  }

  lemma {:induction false} NoneLater(fed: seq<Event>, q: int)
    requires forall e :: e in fed ==> e.timestamp <= q
    ensures Later(fed, q) == 0
  {
    if fed != [] {
      var m := |fed| - 1;
      SplitLast(fed);
      assert fed[m] in fed;
      NoneLater(fed[..m], q);
    }
  }

  lemma PulsesInRange(fed: seq<Event>, site: Site, pulses: nat)
    requires FeedOk(fed, site) && Complete(fed, site, pulses)
    ensures forall e :: e in fed ==> 0 <= e.timestamp <= pulses - 1
  {
    forall e | e in fed
      ensures 0 <= e.timestamp <= pulses - 1
    {
      AtTsMember(fed, e.timestamp);
      assert e in AtTs(fed, e.timestamp);
    }
  }

  /** When the last event of pulse q has come, all pulses up to q are complete. */
  lemma CompleteUpTo(fed: seq<Event>, src: seq<int>, site: Site, width: nat -> nat, kids: nat, q: nat)
    requires Shuffle(fed, src, site, width) && FeedOk(fed, site) && kids == site.Kids()
    requires |AtTs(fed, q)| == kids + 1
    ensures forall p :: 0 <= p <= q ==> |AtTs(fed, p)| == kids + 1
  {
    forall p | 0 <= p <= q
      ensures |AtTs(fed, p)| == kids + 1
    {
      LaterHasFewer(fed, src, site, width, p, q);
    }
  }

  lemma LaterAppend(before: seq<Event>, e: Event, q: int)
    ensures Later(before + [e], q) == Later(before, q) + if e.timestamp > q then 1 else 0
  {
    assert (before + [e])[..|before|] == before;
  }

  lemma CountAtLast(before: seq<Event>, e: Event, w: seq<int>, x: int, site: Site, width: nat -> nat, kids: nat)
    requires Shuffle(before + [e], w + [x], site, width) && 0 <= site.rank && kids == site.Kids() >= 1
    requires |AtTs(before, e.timestamp)| == kids
    ensures |before| + 1 == UpTo(e.timestamp, kids) + Later(before, e.timestamp) && e.timestamp >= 0
  {
    var fed := before + [e];
    ShuffleIsFeed(fed, w + [x], site, width);
    AtTsAppend(before, e, e.timestamp);
    assert AtTs(fed, e.timestamp) != [];
    forall f | f in fed
      ensures f.timestamp >= 0
    {
      AtTsMember(fed, f.timestamp);
      assert f in AtTs(fed, f.timestamp);
    }
    CompleteUpTo(fed, w + [x], site, width, kids, e.timestamp);
    LaterIsRest(fed, kids, e.timestamp);
    LaterAppend(before, e, e.timestamp);
  }

  lemma {:induction false} ShuffleTake(fed: seq<Event>, src: seq<int>, site: Site, width: nat -> nat, j: nat)
    requires Shuffle(fed, src, site, width) && j <= |fed|
    ensures Shuffle(fed[..j], src[..j], site, width)
  {
    if j == |fed| {
      TakeAll(fed, j);
      TakeAll(src, j);
    } else {
      ShufflePrefix(fed, src, site, width);
      ShuffleTake(fed[..|fed| - 1], src[..|src| - 1], site, width, j);
      TakeOfTake(fed, |fed| - 1, j);
      TakeOfTake(src, |src| - 1, j);
    }
  }

  lemma CountsAtLast(fed: seq<Event>, src: seq<int>, site: Site, width: nat -> nat, kids: nat, pulses: nat, j: nat)
    requires Shuffle(fed, src, site, width) && 0 <= site.rank && kids == site.Kids() >= 1 && Complete(fed, site, pulses)
    requires j < |fed| && IsLast(fed, j, kids)
    ensures var q := fed[j].timestamp;
            |fed| == UpTo(pulses - 1, kids) && q >= 0 && j + 1 == UpTo(q, kids) + Later(fed[..j], q)
  {
    ShuffleIsFeed(fed, src, site, width);
    PulsesInRange(fed, site, pulses);
    NoneLater(fed, pulses - 1);
    LaterIsRest(fed, kids, pulses - 1);
    ShuffleTake(fed, src, site, width, j + 1);
    TakeNext(fed, j);
    TakeNext(src, j);
    CountAtLast(fed[..j], fed[j], src[..j], src[j], site, width, kids);
  }

  /** How many arrivals are still to come says how many later events have come already. */
  lemma SlackByNumbers(n: int, j: int, kids: nat, pulses: nat, q: nat, later: int)
    requires n == UpTo(pulses - 1, kids) && j + 1 == UpTo(q, kids) + later
    ensures Enough(q, n - j - 1, kids, pulses) <==> later <= pulses - 1 - q
  {
    UpToIs(pulses - 1, kids);
    UpToIs(q, kids);
    assert (kids + 1) * pulses - (kids + 1) * (q + 1) == kids * (pulses - 1 - q) + (pulses - 1 - q);
  }

  /** Whenever the last event of a pulse q arrives, at most pulses - 1 - q events of later pulses have
      come before it. */
  ghost predicate FewAhead(fed: seq<Event>, kids: nat, pulses: nat) {
    forall j :: 0 <= j < |fed| && IsLast(fed, j, kids) ==>
      Later(fed[..j], fed[j].timestamp) <= pulses - 1 - fed[j].timestamp
  }

  /** The condition in words: children may run ahead, but less and less far. */
  lemma InTimeIffFewAhead(fed: seq<Event>, src: seq<int>, site: Site, width: nat -> nat, kids: nat, pulses: nat)
    requires Shuffle(fed, src, site, width) && 0 <= site.rank && kids == site.Kids() >= 1 && Complete(fed, site, pulses)
    ensures InTime(fed, kids, pulses) <==> FewAhead(fed, kids, pulses)
  {
    forall j | 0 <= j < |fed| && IsLast(fed, j, kids)
      ensures Enough(fed[j].timestamp, |fed| - j - 1, kids, pulses)
              <==> Later(fed[..j], fed[j].timestamp) <= pulses - 1 - fed[j].timestamp
    {
      CountsAtLast(fed, src, site, width, kids, pulses, j);
      SlackByNumbers(|fed|, j, kids, pulses, fed[j].timestamp, Later(fed[..j], fed[j].timestamp));
    }
  }
}
