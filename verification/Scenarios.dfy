/** Whole runs of small trees, turn by turn. */
module Scenarios {
  import opened Events
  import opened Topology
  import opened QueueHandler
  import opened HandlerRuns
  import opened OwnMetrics
  import opened Feeds
  import opened Collections
  import opened Protocol
  import opened Invariants
  import opened Safety
  import opened Settling
  import opened OnceEach
  import opened Progress

  /** A root with d children that are all leaves, one metric, and no agreed last pulse. */
  function Star(d: int): Config {
    Config(d + 1, d, _ => 1, None)
  }

  lemma StarShape(d: int)
    requires d >= 1
    ensures Star(d).n > 1 && !Star(d).Leaf(0) && Star(d).At(0).Kids() == d
    ensures forall c :: 1 <= c <= d ==> Star(d).Leaf(c) && ParentRank(c, d) == 0
    ensures forall c :: c in Star(d).Kids(0) <==> 1 <= c <= d
  {
    forall c | 1 <= c <= d
      ensures c * d + 1 >= d + 1
    {
      assert c * d >= d;
    }
  }

  /** One pulse of one child, as early as everything it causes can happen: the child sends, the root
      receives it, its handler runs, its counting stage looks at it, and if this makes the root's own
      event come, its handler runs once more. */
  function Turn(c: int, p: nat, last: nat, update: bool, own: bool): seq<Step> {
    [LeafSend(c, [7], update, p + 1 == last, 1.0), Deliver(c), Activate(0), Count(0, [7], [7])]
    + if own then [Activate(0)] else []
  }

  ghost predicate Stood(s: Sys, d: int, occ: seq<nat>)
    requires d >= 1
  {
    && |s.sent| == |s.delivered| == |s.node| == |occ| == d + 1
    && var v := s.node[0];
    && v.counted == |v.inbox|
    && (forall x :: 0 <= x <= d ==> Occ(v.src, x) == occ[x])
    && (forall c :: 1 <= c <= d ==> s.delivered[c] == |s.sent[c]| == occ[c])
    && OneEach(v.fed) == Ran(v.statics, v.queue, s.sent[0])
  }

  /** Where the root stands: occ[x] is how many events of sender x have come (of the root itself for
      x == 0); everything sent has been delivered and counted; the handler was run once per arrival. */
  ghost predicate Stands(s: Sys, d: int, occ: seq<nat>)
    requires d >= 1
  {
    Inv(Star(d), s) && Stood(s, d, occ)
  }

  lemma ExecThen(cfg: Config, steps: seq<Step>, step: Step)
    requires cfg.Valid() && Exec(cfg, steps).Next?
    ensures Exec(cfg, steps + [step]) == Apply(cfg, Exec(cfg, steps).s, step)
  {
    assert (steps + [step])[..|steps|] == steps;
  }

  /** Nothing but the root's handler and what it sends is different. */
  ghost predicate HandlerOnly(s: Sys, t: Sys)
    requires |s.sent| > 0 && |s.node| > 0
  {
    && |t.sent| == |s.sent| && |t.node| == |s.node|
    && t == s.(sent := s.sent[0 := t.sent[0]], node := s.node[0 := t.node[0]])
    && t.node[0] == s.node[0].(queue := t.node[0].queue, statics := t.node[0].statics)
  }

  /** The handler runs once on what has just come. */
  lemma RunsOnce(cfg: Config, s: Sys, before: seq<Event>, e: Event, q: seq<Event>)
    requires Inv(cfg, s) && !cfg.Leaf(0) && s.node[0].fed == before + [e] && s.node[0].queue == q + [e]
    requires OneEach(before) == Ran(s.node[0].statics, q, s.sent[0])
    ensures var r := Apply(cfg, s, Activate(0));
            && r.Next? && Inv(cfg, r.s) && HandlerOnly(s, r.s)
            && OneEach(r.s.node[0].fed) == Ran(r.s.node[0].statics, r.s.node[0].queue, r.s.sent[0])
  {
    StepKeeps(cfg, s, Activate(0));
    OneMore(before, e);
  }

  /** A child sends and the root receives. */
  lemma Arrives(s: Sys, d: int, last: nat, occ: seq<nat>, c: int, update: bool) returns (m: Sys, t: Sys)
    requires d >= 1 && Stands(s, d, occ) && 1 <= c <= d && occ[c] < last && !s.stopped[c]
    ensures var cfg := Star(d);
            var e := LeafEvent(cfg, c, occ[c], [7], update, occ[c] + 1 == last, 1.0);
            && Apply(cfg, s, LeafSend(c, [7], update, occ[c] + 1 == last, 1.0)) == Next(m)
            && Apply(cfg, m, Deliver(c)) == Next(t) && Inv(cfg, t)
            && t.node[0] == s.node[0].(inbox := s.node[0].inbox + [e], arr := s.node[0].arr + [c],
                                       queue := s.node[0].queue + [e], fed := s.node[0].fed + [e],
                                       src := s.node[0].src + [c])
            && t.sent == s.sent[c := s.sent[c] + [e]] && t.delivered == s.delivered[c := s.delivered[c] + 1]
  {
    var cfg := Star(d);
    StarShape(d);
    assert RankOk(cfg, s, c);
    assert LeafMaySend(cfg, s, c, [7], update, occ[c] + 1 == last, 1.0);
    StepKeeps(cfg, s, LeafSend(c, [7], update, occ[c] + 1 == last, 1.0));
    m := DoLeafSend(cfg, s, c, [7], update, occ[c] + 1 == last, 1.0);
    StepKeeps(cfg, m, Deliver(c));
    t := DoDeliver(cfg, m, c);
  }

  /** The arrival of c's next event is the last one that the root's next own event waits for. */
  predicate Completing(occ: seq<nat>, c: int)
    requires 1 <= c < |occ|
  {
    forall y :: 1 <= y < |occ| ==> (if y == c then occ[y] + 1 else occ[y]) > occ[0]
  }

  /** The own event, if it is due, went to the end of the queue. */
  ghost predicate Extended(v: Node, w: Node, own: bool) {
    if own then
      && w.fed != [] && w.fed == v.fed + [w.fed[|w.fed| - 1]]
      && w.queue == v.queue + [w.fed[|w.fed| - 1]] && w.src == v.src + [0]
    else w.fed == v.fed && w.queue == v.queue && w.src == v.src
  }

  lemma OwnIffComplete(cfg: Config, s: Sys, rank: int, now: seq<int>, next: seq<int>)
    requires Inv(cfg, s) && MayCount(cfg, s, rank, now, next)
    requires s.node[rank].counted + 1 == |s.node[rank].inbox|
    ensures Completes(cfg, s, rank, now, next)
            <==> forall y :: y in cfg.Kids(rank) ==> Occ(s.node[rank].src, y) > Occ(s.node[rank].src, rank)
  {
    var v := s.node[rank];
    NextArrival(cfg, s, rank);
    InnerParts(cfg, s, rank);
    assert v.arr[..v.counted + 1] == v.arr;
    ArrivalCounted(v.counting, v.arr[..v.counted], cfg.Kids(rank), v.arr[v.counted], v.inbox[v.counted],
                   cfg.At(rank), now, next);
  }

  /** What the counting stage of the root leaves behind. */
  ghost predicate CountedOnce(t: Sys, u: Sys, own: bool)
    requires |t.node| > 0
  {
    && u.sent == t.sent && u.delivered == t.delivered && |u.node| == |t.node|
    && u.node[0].counted == t.node[0].counted + 1 && u.node[0].inbox == t.node[0].inbox
    && u.node[0].statics == t.node[0].statics && Extended(t.node[0], u.node[0], own)
  }

  lemma EnqueueCounts(s: Sys, counting: Counting, own: seq<Event>)
    requires |s.node| > 0 && |s.log| > 0
    ensures var v := s.node[0].(counted := s.node[0].counted + 1, counting := counting);
            CountedOnce(s, Enqueue(s, 0, v, own), own != [])
  {
  }

  lemma CountOutcome(cfg: Config, t: Sys, now: seq<int>, next: seq<int>) returns (u: Sys)
    requires Inv(cfg, t) && MayCount(cfg, t, 0, now, next)
    ensures Apply(cfg, t, Count(0, now, next)) == Next(u) && Inv(cfg, u)
    ensures CountedOnce(t, u, Completes(cfg, t, 0, now, next))
  {
    StepKeeps(cfg, t, Count(0, now, next));
    u := DoCount(cfg, t, 0, now, next).s;
    var o := OnArrival(t.node[0].counting, t.node[0].inbox[t.node[0].counted], cfg.At(0), now, next);
    EnqueueCounts(t, o.next, o.own);
  }

  lemma CompletingIff(src: seq<int>, d: int, occ: seq<nat>, c: int)
    requires d >= 1 && |occ| == d + 1 && 1 <= c <= d && Occ(src, 0) == occ[0]
    requires forall x :: 1 <= x <= d ==> Occ(src, x) == if x == c then occ[x] + 1 else occ[x]
    ensures Completing(occ, c) <==> forall y :: y in Star(d).Kids(0) ==> Occ(src, y) > Occ(src, 0)
  {
    StarShape(d);
    forall y | 1 <= y <= d
      ensures (if y == c then occ[y] + 1 else occ[y]) == Occ(src, y) && y in Star(d).Kids(0)
    {
    }
  }

  /** The root's counting stage looks at the one arrival it has not seen. */
  lemma Counts(t: Sys, d: int, occ: seq<nat>, c: int) returns (u: Sys)
    requires d >= 1 && Inv(Star(d), t) && |occ| == d + 1 && 1 <= c <= d
    requires t.node[0].counted + 1 == |t.node[0].inbox|
    requires Occ(t.node[0].src, 0) == occ[0]
    requires forall x :: 1 <= x <= d ==> Occ(t.node[0].src, x) == if x == c then occ[x] + 1 else occ[x]
    ensures Apply(Star(d), t, Count(0, [7], [7])) == Next(u) && Inv(Star(d), u)
    ensures CountedOnce(t, u, Completing(occ, c))
  {
    var cfg := Star(d);
    StarShape(d);
    InnerParts(cfg, t, 0);
    assert MayCount(cfg, t, 0, [7], [7]);
    OwnIffComplete(cfg, t, 0, [7], [7]);
    CompletingIff(t.node[0].src, d, occ, c);
    u := CountOutcome(cfg, t, [7], [7]);
  }

  ghost function AfterTurn(occ: seq<nat>, c: int): seq<nat>
    requires 1 <= c < |occ|
  {
    occ[c := occ[c] + 1][0 := if Completing(occ, c) then occ[0] + 1 else occ[0]]
  }

  /** What the word of senders is after the turn. */
  function AfterSrc(src: seq<int>, occ: seq<nat>, c: int): seq<int>
    requires 1 <= c < |occ|
  {
    src + [c] + if Completing(occ, c) then [0] else []
  }

  /** Child c, and no other, has sent e, and the root has received it. */
  ghost predicate SentOne(s: Sys, t: Sys, d: int, c: int, e: Event) {
    && |s.sent| == |t.sent| == |t.delivered| == d + 1
    && forall x :: 1 <= x <= d ==>
         t.sent[x] == (s.sent[x] + if x == c then [e] else []) && t.delivered[x] == |t.sent[x]|
  }

  function MessageOf(d: int, last: nat, c: int, p: nat, update: bool): Event
    requires d != 0
  {
    LeafEvent(Star(d), c, p, [7], update, p + 1 == last, 1.0)
  }

  /** After the first four steps of a turn; v is the root's node before its counting stage ran. */
  ghost predicate Half(s: Sys, v: Node, w: Sys, d: int, last: nat, occ: seq<nat>, c: int, update: bool)
    requires d >= 1 && |occ| == d + 1 && 1 <= c <= d && |s.node| > 0
  {
    && SentOne(s, w, d, c, MessageOf(d, last, c, occ[c], update))
    && |w.node| == d + 1 && w.node[0].counted == |w.node[0].inbox|
    && v.src == s.node[0].src + [c] && Extended(v, w.node[0], Completing(occ, c))
    && OneEach(v.fed) == Ran(w.node[0].statics, v.queue, w.sent[0])
  }

  lemma TurnInParts(steps: seq<Step>, c: int, p: nat, last: nat, update: bool)
    ensures var send := LeafSend(c, [7], update, p + 1 == last, 1.0);
            steps + Turn(c, p, last, update, false) == steps + [send, Deliver(c)] + [Activate(0), Count(0, [7], [7])]
    ensures steps + Turn(c, p, last, update, true) == steps + Turn(c, p, last, update, false) + [Activate(0)]
  {
  }

  lemma AppendedOcc(src: seq<int>, y: int, d: int)
    ensures forall x :: 0 <= x <= d ==> Occ(src + [y], x) == Occ(src, x) + if x == y then 1 else 0
  {
    forall x | 0 <= x <= d
      ensures Occ(src + [y], x) == Occ(src, x) + if x == y then 1 else 0
    {
      OccAppend(src, y, x);
    }
  }

  lemma ThenTwo(cfg: Config, steps: seq<Step>, one: Step, two: Step, s: Sys, t: Sys, u: Sys)
    requires cfg.Valid() && Exec(cfg, steps) == Next(s)
    requires Shape(cfg, s) && Apply(cfg, s, one) == Next(t) && Shape(cfg, t) && Apply(cfg, t, two) == Next(u)
    ensures Exec(cfg, steps + [one, two]) == Next(u)
  {
    ExecThen(cfg, steps, one);
    ExecThen(cfg, steps + [one], two);
    assert steps + [one] + [two] == steps + [one, two];
  }

  lemma OneHasSent(s: Sys, t: Sys, u: Sys, w: Sys, d: int, c: int, e: Event)
    requires |s.sent| == |s.delivered| == |s.node| == d + 1 && 1 <= c <= d
    requires forall x :: 1 <= x <= d ==> s.delivered[x] == |s.sent[x]|
    requires t.sent == s.sent[c := s.sent[c] + [e]] && t.delivered == s.delivered[c := s.delivered[c] + 1]
    requires |t.node| > 0 && HandlerOnly(t, u) && w.sent == u.sent && w.delivered == u.delivered
    ensures SentOne(s, w, d, c, e)
  {
  }

  /** The states that the first four steps lead through. */
  lemma FourStates(s: Sys, d: int, last: nat, occ: seq<nat>, c: int, update: bool)
    returns (m: Sys, t: Sys, u: Sys, w: Sys)
    requires d >= 1 && Stands(s, d, occ) && 1 <= c <= d && occ[c] < last && !s.stopped[c]
    ensures var cfg := Star(d);
            && Shape(cfg, s) && Apply(cfg, s, LeafSend(c, [7], update, occ[c] + 1 == last, 1.0)) == Next(m)
            && Shape(cfg, m) && Apply(cfg, m, Deliver(c)) == Next(t)
            && Shape(cfg, t) && Apply(cfg, t, Activate(0)) == Next(u)
            && Shape(cfg, u) && Apply(cfg, u, Count(0, [7], [7])) == Next(w) && Inv(cfg, w)
    ensures |u.node| > 0 && Half(s, u.node[0], w, d, last, occ, c, update)
  {
    var cfg := Star(d);
    StarShape(d);
    m, t := Arrives(s, d, last, occ, c, update);
    RunsOnce(cfg, t, s.node[0].fed, MessageOf(d, last, c, occ[c], update), s.node[0].queue);
    u := Apply(cfg, t, Activate(0)).s;
    AppendedOcc(s.node[0].src, c, d);
    w := Counts(u, d, occ, c);
    OneHasSent(s, t, u, w, d, c, MessageOf(d, last, c, occ[c], update));
  }

  lemma FourSteps(steps: seq<Step>, s: Sys, d: int, last: nat, occ: seq<nat>, c: int, update: bool)
    returns (v: Node, more: seq<Step>, w: Sys)
    requires d >= 1 && Exec(Star(d), steps) == Next(s)
    requires Stands(s, d, occ) && 1 <= c <= d && occ[c] < last && !s.stopped[c]
    ensures more == steps + Turn(c, occ[c], last, update, false) && Exec(Star(d), more) == Next(w)
    ensures Inv(Star(d), w) && Half(s, v, w, d, last, occ, c, update)
  {
    var cfg := Star(d);
    StarShape(d);
    var m, t, u;
    m, t, u, w := FourStates(s, d, last, occ, c, update);
    v := u.node[0];
    more := steps + Turn(c, occ[c], last, update, false);
    var send := LeafSend(c, [7], update, occ[c] + 1 == last, 1.0);
    ThenTwo(cfg, steps, send, Deliver(c), s, m, t);
    ThenTwo(cfg, steps + [send, Deliver(c)], Activate(0), Count(0, [7], [7]), t, u, w);
    TurnInParts(steps, c, occ[c], last, update);
  }

  lemma OccAfterTurn(src: seq<int>, d: int, occ: seq<nat>, c: int)
    requires |occ| == d + 1 && 1 <= c <= d && forall x :: 0 <= x <= d ==> Occ(src, x) == occ[x]
    ensures forall x :: 0 <= x <= d ==> Occ(AfterSrc(src, occ, c), x) == AfterTurn(occ, c)[x]
  {
    AppendedOcc(src, c, d);
    if Completing(occ, c) {
      AppendedOcc(src + [c], 0, d);
    } else {
      assert src + [c] + [] == src + [c];
    }
  }

  lemma DeliveredAfterTurn(s: Sys, t: Sys, d: int, occ: seq<nat>, c: int, e: Event)
    requires SentOne(s, t, d, c, e) && |occ| == d + 1 && 1 <= c <= d
    requires forall x :: 1 <= x <= d ==> |s.sent[x]| == occ[x]
    ensures forall x :: 1 <= x <= d ==> t.delivered[x] == |t.sent[x]| == AfterTurn(occ, c)[x]
  {
  }

  lemma HalfToEnd(s: Sys, v: Node, w: Sys, t: Sys, d: int, last: nat, occ: seq<nat>, c: int, update: bool)
    requires d >= 1 && Stood(s, d, occ) && 1 <= c <= d
    requires Half(s, v, w, d, last, occ, c, update) && HandlerOnly(w, t)
    requires OneEach(t.node[0].fed) == Ran(t.node[0].statics, t.node[0].queue, t.sent[0])
    ensures t.node[0].src == AfterSrc(s.node[0].src, occ, c)
    ensures SentOne(s, t, d, c, MessageOf(d, last, c, occ[c], update))
    ensures Stood(t, d, AfterTurn(occ, c))
  {
    OccAfterTurn(s.node[0].src, d, occ, c);
    assert t.node[0].src == AfterSrc(s.node[0].src, occ, c);
    DeliveredAfterTurn(s, t, d, occ, c, MessageOf(d, last, c, occ[c], update));
  }

  /** The handler runs once on the own event. */
  lemma ThenOwn(cfg: Config, steps: seq<Step>, s: Sys, v: Node) returns (more: seq<Step>)
    requires cfg.Valid() && Exec(cfg, steps) == Next(s) && Inv(cfg, s) && !cfg.Leaf(0)
    requires Extended(v, s.node[0], true) && OneEach(v.fed) == Ran(s.node[0].statics, v.queue, s.sent[0])
    ensures more == steps + [Activate(0)] && Exec(cfg, more).Next?
    ensures var t := Exec(cfg, more).s;
            && Inv(cfg, t) && HandlerOnly(s, t)
            && OneEach(t.node[0].fed) == Ran(t.node[0].statics, t.node[0].queue, t.sent[0])
  {
    RunsOnce(cfg, s, v.fed, s.node[0].fed[|s.node[0].fed| - 1], v.queue);
    ExecThen(cfg, steps, Activate(0));
    more := steps + [Activate(0)];
  }

  /** A turn is a run of the protocol, and leaves the root standing one event of c further. */
  lemma TurnLeads(steps: seq<Step>, s: Sys, d: int, last: nat, occ: seq<nat>, c: int, update: bool)
    returns (more: seq<Step>, t: Sys)
    requires d >= 1 && Exec(Star(d), steps) == Next(s)
    requires Stands(s, d, occ) && 1 <= c <= d && occ[c] < last && !s.stopped[c]
    ensures more == steps + Turn(c, occ[c], last, update, Completing(occ, c))
    ensures Exec(Star(d), more) == Next(t)
    ensures Stands(t, d, AfterTurn(occ, c)) && t.node[0].src == AfterSrc(s.node[0].src, occ, c)
    ensures SentOne(s, t, d, c, MessageOf(d, last, c, occ[c], update))
  {
    var cfg := Star(d);
    StarShape(d);
    var v, w;
    v, more, w := FourSteps(steps, s, d, last, occ, c, update);
    t := w;
    if Completing(occ, c) {
      var four := more;
      more := ThenOwn(cfg, four, w, v);
      t := Exec(cfg, more).s;
      TurnInParts(steps, c, occ[c], last, update);
    }
    HalfToEnd(s, v, w, t, d, last, occ, c, update);
  }

  lemma NothingYet(d: int)
    requires d >= 1
    ensures Exec(Star(d), []).Next?
    ensures Stands(Exec(Star(d), []).s, d, seq(d + 1, _ => 0))
    ensures Exec(Star(d), []).s.node[0].src == []
  {
    InitialInv(Star(d));
  }

  // ------------------------------------------------- words of senders, letter by letter

  /** How many events of each sender and of each pulse have come, in which order, and where the handler
      is after one activation for each. */
  datatype Scene = Scene(occ: seq<nat>, src: seq<int>, at: map<nat, nat>, place: Place)

  function Get(at: map<nat, nat>, p: nat): nat {
    if p in at then at[p] else 0
  }

  ghost predicate SendersAre(src: seq<int>, occ: seq<nat>) {
    forall x :: 0 <= x < |occ| ==> Occ(src, x) == occ[x]
  }

  ghost predicate PulsesAre(src: seq<int>, at: map<nat, nat>) {
    forall p: nat :: |SrcAt(src, p)| == Get(at, p)
  }

  ghost predicate Consistent(z: Scene, kids: nat) {
    SendersAre(z.src, z.occ) && PulsesAre(z.src, z.at) && Track(z.src, kids) == z.place
  }

  /** One more event comes, from x. */
  function Come(z: Scene, x: int, kids: nat): Scene
    requires 0 <= x < |z.occ|
  {
    var at := z.at[z.occ[x] := Get(z.at, z.occ[x]) + 1];
    Scene(z.occ[x := z.occ[x] + 1], z.src + [x], at,
          Further(z.place, Get(at, z.place.pulse), Get(at, z.place.pulse + 1), kids))
  }

  lemma SendersNow(src: seq<int>, occ: seq<nat>, x: int)
    requires SendersAre(src, occ) && 0 <= x < |occ|
    ensures SendersAre(src + [x], occ[x := occ[x] + 1])
  {
    forall y | 0 <= y < |occ|
      ensures Occ(src + [x], y) == occ[x := occ[x] + 1][y]
    {
      OccAppend(src, x, y);
    }
  }

  lemma PulsesNow(src: seq<int>, at: map<nat, nat>, x: int)
    requires PulsesAre(src, at)
    ensures var p := Occ(src, x); PulsesAre(src + [x], at[p := Get(at, p) + 1])
  {
    var p := Occ(src, x);
    forall q: nat
      ensures |SrcAt(src + [x], q)| == Get(at[p := Get(at, p) + 1], q)
    {
      SrcAtAppend(src, x, q);
    }
  }

  lemma OnwardNow(place: Place, src: seq<int>, kids: nat, at: map<nat, nat>)
    requires PulsesAre(src, at)
    ensures Onward(place, src, kids) == Further(place, Get(at, place.pulse), Get(at, place.pulse + 1), kids)
  {
  }

  lemma TrackNow(src: seq<int>, kids: nat, at: map<nat, nat>, x: int)
    requires PulsesAre(src + [x], at)
    ensures var place := Track(src, kids);
            Track(src + [x], kids) == Further(place, Get(at, place.pulse), Get(at, place.pulse + 1), kids)
  {
    TrackAppend(src, kids, x);
    OnwardNow(Track(src, kids), src + [x], kids, at);
  }

  lemma ComeSenders(z: Scene, x: int, kids: nat)
    requires 0 <= x < |z.occ| && SendersAre(z.src, z.occ)
    ensures SendersAre(Come(z, x, kids).src, Come(z, x, kids).occ)
  {
    SendersNow(z.src, z.occ, x);
  }

  lemma ComePulses(z: Scene, x: int, kids: nat)
    requires 0 <= x < |z.occ| && Occ(z.src, x) == z.occ[x] && PulsesAre(z.src, z.at)
    ensures PulsesAre(Come(z, x, kids).src, Come(z, x, kids).at)
  {
    PulsesNow(z.src, z.at, x);
  }

  lemma ComePlace(z: Scene, x: int, kids: nat)
    requires 0 <= x < |z.occ| && PulsesAre(Come(z, x, kids).src, Come(z, x, kids).at) && Track(z.src, kids) == z.place
    ensures Track(Come(z, x, kids).src, kids) == Come(z, x, kids).place
  {
    TrackNow(z.src, kids, Come(z, x, kids).at, x);
  }

  lemma ComeIsConsistent(z: Scene, x: int, kids: nat)
    requires 0 <= x < |z.occ| && Consistent(z, kids)
    ensures Consistent(Come(z, x, kids), kids)
  {
    ComeSenders(z, x, kids);
    ComePulses(z, x, kids);
    ComePlace(z, x, kids);
  }

  /** One more event of child c, and the own event if it makes it come. */
  function NextScene(z: Scene, c: int, kids: nat): Scene
    requires 1 <= c < |z.occ|
  {
    if Completing(z.occ, c) then Come(Come(z, c, kids), 0, kids) else Come(z, c, kids)
  }

  lemma NextIsConsistent(z: Scene, c: int, kids: nat)
    requires 1 <= c < |z.occ| && Consistent(z, kids)
    ensures Consistent(NextScene(z, c, kids), kids)
    ensures NextScene(z, c, kids).occ == AfterTurn(z.occ, c) && NextScene(z, c, kids).src == AfterSrc(z.src, z.occ, c)
  {
    ComeIsConsistent(z, c, kids);
    if Completing(z.occ, c) {
      ComeIsConsistent(Come(z, c, kids), 0, kids);
    } else {
      assert z.src + [c] + [] == z.src + [c];
    }
  }

  // ------------------------------------------------- whole runs, told by their arrivals

  ghost predicate Letters(w: seq<int>, d: int) {
    forall i :: 0 <= i < |w| ==> 1 <= w[i] <= d
  }

  /** The scene after the children's events have arrived in the order w. */
  ghost function Play(d: nat, w: seq<int>): (z: Scene)
    requires d >= 1 && Letters(w, d)
    ensures |z.occ| == d + 1
  {
    if w == [] then Scene(seq(d + 1, _ => 0), [], map[], Place(0, 0)) else
    NextScene(Play(d, w[..|w| - 1]), w[|w| - 1], d)
  }

  /** The run in which they do; child c sends last(c) pulses and sets its update flag if update(c). */
  ghost function Tell(d: nat, last: int -> nat, update: int -> bool, w: seq<int>): seq<Step>
    requires d >= 1 && Letters(w, d)
  {
    if w == [] then [] else
    var before, c := w[..|w| - 1], w[|w| - 1];
    var occ := Play(d, before).occ;
    Tell(d, last, update, before) + Turn(c, occ[c], last(c), update(c), Completing(occ, c))
  }

  lemma PlayOne(d: nat, w: seq<int>, c: int)
    requires d >= 1 && Letters(w, d) && 1 <= c <= d
    ensures Letters(w + [c], d) && Play(d, w + [c]) == NextScene(Play(d, w), c, d)
  {
    assert (w + [c])[..|w|] == w;
  }

  lemma TellOne(d: nat, last: int -> nat, update: int -> bool, w: seq<int>, c: int)
    requires d >= 1 && Letters(w, d) && 1 <= c <= d
    ensures var occ := Play(d, w).occ;
            && Letters(w + [c], d)
            && Tell(d, last, update, w + [c]) ==
               Tell(d, last, update, w) + Turn(c, occ[c], last(c), update(c), Completing(occ, c))
  {
    assert (w + [c])[..|w|] == w;
  }

  lemma {:induction false} PlayIsConsistent(d: nat, w: seq<int>)
    requires d >= 1 && Letters(w, d)
    ensures Consistent(Play(d, w), d)
  {
    if w != [] {
      PlayIsConsistent(d, w[..|w| - 1]);
      NextIsConsistent(Play(d, w[..|w| - 1]), w[|w| - 1], d);
    }
  }

  lemma {:induction false} PlayCounts(d: nat, w: seq<int>, c: int)
    requires d >= 1 && Letters(w, d) && 1 <= c <= d
    ensures Play(d, w).occ[c] == Occ(w, c)
  {
    if w != [] {
      PlayCounts(d, w[..|w| - 1], c);
    }
  }

  /** Every child has sent the messages of its first occ[c] pulses. */
  ghost predicate AllSent(t: Sys, d: int, last: int -> nat, occ: seq<nat>, update: int -> bool)
    requires d >= 1 && |occ| == d + 1 && |t.sent| == d + 1
  {
    forall c, p :: 1 <= c <= d && 0 <= p < |t.sent[c]| ==> t.sent[c][p] == MessageOf(d, last(c), c, p, update(c))
  }

  /** The run leads to t. */
  ghost predicate Happens(d: nat, last: int -> nat, update: int -> bool, w: seq<int>, t: Sys)
    requires d >= 1 && Letters(w, d)
  {
    var z := Play(d, w);
    && Exec(Star(d), Tell(d, last, update, w)) == Next(t) && Stands(t, d, z.occ)
    && t.node[0].src == z.src && AllSent(t, d, last, z.occ, update)
  }

  lemma SentOneMore(s: Sys, t: Sys, d: int, last: int -> nat, occ: seq<nat>, c: int, update: int -> bool)
    requires d >= 1 && 1 <= c <= d && Stood(s, d, occ)
    requires SentOne(s, t, d, c, MessageOf(d, last(c), c, occ[c], update(c))) && AllSent(s, d, last, occ, update)
    ensures AllSent(t, d, last, AfterTurn(occ, c), update)
  {
  }

  /** A child that still has pulses to send has not stopped. */
  lemma NotStoppedYet(s: Sys, d: int, last: int -> nat, occ: seq<nat>, update: int -> bool, c: int)
    requires d >= 1 && Stands(s, d, occ) && AllSent(s, d, last, occ, update) && 1 <= c <= d && occ[c] < last(c)
    ensures !s.stopped[c]
  {
    StarShape(d);
    assert RankOk(Star(d), s, c);
    if occ[c] > 0 {
      assert s.sent[c][occ[c] - 1] == MessageOf(d, last(c), c, occ[c] - 1, update(c));
    }
  }

  lemma StoppedAtLast(s: Sys, d: int, last: int -> nat, occ: seq<nat>, update: int -> bool, c: int)
    requires d >= 1 && Stands(s, d, occ) && AllSent(s, d, last, occ, update) && 1 <= c <= d && occ[c] == last(c) > 0
    ensures s.stopped[c]
  {
    StarShape(d);
    assert RankOk(Star(d), s, c);
    assert s.sent[c][occ[c] - 1] == MessageOf(d, last(c), c, occ[c] - 1, update(c));
  }

  lemma GoesOn(d: nat, last: int -> nat, update: int -> bool, w: seq<int>, s: Sys, c: int) returns (t: Sys)
    requires d >= 1 && Letters(w, d) && Happens(d, last, update, w, s)
    requires 1 <= c <= d && Play(d, w).occ[c] < last(c)
    ensures Letters(w + [c], d) && Happens(d, last, update, w + [c], t)
  {
    var z := Play(d, w);
    NotStoppedYet(s, d, last, z.occ, update, c);
    var more;
    more, t := TurnLeads(Tell(d, last, update, w), s, d, last(c), z.occ, c, update(c));
    SentOneMore(s, t, d, last, z.occ, c, update);
    PlayIsConsistent(d, w);
    NextIsConsistent(z, c, d);
    PlayOne(d, w, c);
    TellOne(d, last, update, w, c);
  }

  lemma FewerBefore(before: seq<int>, c: int, d: int, last: int -> nat)
    requires Letters(before + [c], d) && forall x :: 1 <= x <= d ==> Occ(before + [c], x) <= last(x)
    ensures Letters(before, d) && 1 <= c <= d
    ensures (forall x :: 1 <= x <= d ==> Occ(before, x) <= last(x)) && Occ(before, c) < last(c)
  {
    AppendedOcc(before, c, d);
    var w := before + [c];
    assert w[|before|] == c && forall i :: 0 <= i < |before| ==> w[i] == before[i];
  }

  /** Every order in which the children's streams can be interleaved is the order of some run in which
      the handler is run once per arrival. */
  lemma {:induction false} EveryOrderRuns(d: nat, last: int -> nat, update: int -> bool, w: seq<int>) returns (t: Sys)
    requires d >= 1 && Letters(w, d) && forall c :: 1 <= c <= d ==> Occ(w, c) <= last(c)
    ensures Happens(d, last, update, w, t)
  {
    if w == [] {
      NothingYet(d);
      t := Initial(Star(d));
    } else {
      var before, c := w[..|w| - 1], w[|w| - 1];
      SplitLast(w);
      FewerBefore(before, c, d, last);
      PlayCounts(d, before, c);
      var s := EveryOrderRuns(d, last, update, before);
      t := GoesOn(d, last, update, before, s, c);
    }
  }

  /** What is left in the queue of a rank whose handler has run once per arrival. */
  lemma LeftBehind(cfg: Config, s: Sys, rank: int)
    requires Inv(cfg, s) && 0 <= rank < cfg.n && !cfg.Leaf(rank)
    requires OneEach(s.node[rank].fed) == Ran(s.node[rank].statics, s.node[rank].queue, s.sent[rank])
    ensures var v := s.node[rank];
            var at := Track(v.src, cfg.At(rank).Kids());
            && |s.sent[rank]| == at.pulse
            && (|SrcAt(v.src, at.pulse)| > at.count ==> v.queue != [])
            && (|SrcAt(v.src, at.pulse)| <= at.count ==> HandlerQuiet(v))
  {
    var v := s.node[rank];
    InnerParts(cfg, s, rank);
    LeafIffNoChildren(rank, cfg.d, cfg.n);
    ShuffleIsFeed(v.fed, v.src, cfg.At(rank), cfg.width);
    TrackFollows(v.fed, v.src, cfg.At(rank), cfg.width);
    Parallel(v.fed, v.src, cfg.At(rank), cfg.width, v.statics.pulse);
    if v.statics.count < |AtTs(v.fed, v.statics.pulse)| {
      PendingTake(v.fed, v.statics.pulse, v.statics.count);
    } else if v.queue != [] {
      ActivationKeeps(v.statics, v.queue, v.fed, s.sent[rank], cfg.At(rank));
    }
  }

  /** Where the handler is at the end of a run. */
  lemma EndOfRun(d: nat, last: int -> nat, update: int -> bool, w: seq<int>, t: Sys)
    requires d >= 1 && Letters(w, d) && Happens(d, last, update, w, t)
    ensures var z := Play(d, w);
            && |t.sent[0]| == z.place.pulse
            && (Get(z.at, z.place.pulse) > z.place.count ==> t.node[0].queue != [])
            && (Get(z.at, z.place.pulse) <= z.place.count ==> HandlerQuiet(t.node[0]))
  {
    PlayIsConsistent(d, w);
    StarShape(d);
    LeftBehind(Star(d), t, 0);
  }

  lemma StreamsComplete(t: Sys, d: nat, occ: seq<nat>, pulses: nat)
    requires d >= 1 && Stands(t, d, occ) && forall c :: 1 <= c <= d ==> occ[c] == pulses
    ensures Complete(t.node[0].fed, Star(d).At(0), pulses)
  {
    var cfg, v := Star(d), t.node[0];
    StarShape(d);
    InnerParts(cfg, t, 0);
    var slow := AllCounted(cfg, t, 0);
    forall p | 0 <= p <= pulses
      ensures |AtTs(v.fed, p)| == if p < pulses then d + 1 else 0
    {
      FeedComplete(v.fed, v.src, cfg.At(0), cfg.width, pulses, p);
    }
  }

  lemma FinishedByNumber(st: Statics, q: seq<Event>, fed: seq<Event>, outs: seq<Event>, site: Site, pulses: nat)
    requires HandlerInv(st, q, fed, outs, site) && FeedOk(fed, site) && Complete(fed, site, pulses)
    ensures |outs| == pulses <==> Finished(Ran(st, q, outs), fed, [], site, pulses)
  {
    assert [] + outs == outs;
    if |outs| == pulses && q != [] {
      IdleFindsPulse(st, q, fed, outs, site);
    }
  }

  /** When all children have sent T pulses, with one activation per arrival, all of them have been published
      exactly if the events came in time. */
  lemma RunPublishesIff(t: Sys, d: nat, occ: seq<nat>, pulses: nat)
    requires d >= 1 && Stands(t, d, occ) && forall c :: 1 <= c <= d ==> occ[c] == pulses
    ensures |t.sent[0]| == pulses <==> InTime(t.node[0].fed, d, pulses)
  {
    var cfg, v := Star(d), t.node[0];
    StarShape(d);
    InnerParts(cfg, t, 0);
    ShuffleIsFeed(v.fed, v.src, cfg.At(0), cfg.width);
    StreamsComplete(t, d, occ, pulses);
    OneActivationPublishesIff(v.fed, v.src, cfg.At(0), cfg.width, pulses);
    FinishedByNumber(v.statics, v.queue, v.fed, t.sent[0], cfg.At(0), pulses);
  }
}
