/** With an agreed number of pulses, every run that goes on as long as it can publishes them all. */
module Progress {
  import opened Events
  import opened Topology
  import opened QueueHandler
  import opened HandlerRuns
  import opened OwnMetrics
  import opened Feeds
  import opened Collections
  import opened Protocol
  import opened Invariants
  import opened Safety
  import opened RootSink
  import opened Theorems

  ghost predicate HandlerQuiet(v: Node) {
    v.queue == [] || Activation(v.statics, v.queue) == Ran(v.statics, v.queue, [])
  }

  /** Nothing is left to do: every leaf has left its loop, nothing is under way or uncounted, and
      running a handler again would change nothing. */
  ghost predicate Quiet(cfg: Config, s: Sys)
    requires cfg.Valid() && Shape(cfg, s)
  {
    && (forall r :: 0 <= r < cfg.n && cfg.Leaf(r) ==> s.stopped[r])
    && (forall c :: 1 <= c < cfg.n ==> s.delivered[c] == |s.sent[c]|)
    && (forall r :: 0 <= r < cfg.n && !cfg.Leaf(r) ==> s.node[r].counted == |s.node[r].inbox|)
    && (forall r :: 0 <= r < cfg.n && !cfg.Leaf(r) ==> HandlerQuiet(s.node[r]))
  }

  lemma SentBound(cfg: Config, s: Sys, rank: int)
    requires Inv(cfg, s) && cfg.pulses.Some? && 0 <= rank < cfg.n
    ensures |s.sent[rank]| <= cfg.pulses.value
  {
    if |s.sent[rank]| > cfg.pulses.value {
      GoodSent(cfg, s, rank, cfg.pulses.value);
    }
  }

  /** When everything that came has been counted, the own events keep up with the slowest child. */
  lemma AllCounted(cfg: Config, s: Sys, rank: int) returns (slow: int)
    requires cfg.Valid() && Shape(cfg, s) && 0 <= rank < cfg.n && InboxOk(cfg, s, rank) && CountOk(cfg, s, rank)
    requires s.node[rank].counted == |s.node[rank].inbox|
    ensures slow in cfg.Kids(rank) && Occ(s.node[rank].src, rank) == s.delivered[slow]
    ensures forall c :: c in cfg.Kids(rank) ==> Occ(s.node[rank].src, c) == s.delivered[c]
  {
    var v := s.node[rank];
    assert v.arr[..v.counted] == v.arr;
    slow :| slow in cfg.Kids(rank) && Occ(v.arr, slow) == v.counting.counter;
  }

  /** Once all children have delivered all pulses, all own events have been submitted as well. */
  lemma OwnEventsComplete(cfg: Config, s: Sys, rank: int, pulses: nat)
    requires Inv(cfg, s) && Quiet(cfg, s) && 0 <= rank < cfg.n && !cfg.Leaf(rank)
    requires forall c :: c in cfg.Kids(rank) ==> |s.sent[c]| == pulses
    ensures forall x :: x in cfg.Kids(rank) + {rank} ==> Occ(s.node[rank].src, x) == pulses
  {
    InnerParts(cfg, s, rank);
    var slow := AllCounted(cfg, s, rank);
    assert s.delivered[slow] == |s.sent[slow]|;
  }

  /** Then every pulse has its degree + 1 events in the handler's input, and no later one has any. */
  lemma FeedComplete(fed: seq<Event>, src: seq<int>, site: Site, width: nat -> nat, pulses: nat, p: nat)
    requires Shuffle(fed, src, site, width) && 0 <= site.rank
    requires forall x :: x in Children(site.rank, site.d, site.n) + {site.rank} ==> Occ(src, x) == pulses
    requires p <= pulses
    ensures |AtTs(fed, p)| == if p < pulses then site.Kids() + 1 else 0
  {
    var all := Children(site.rank, site.d, site.n) + {site.rank};
    Parallel(fed, src, site, width, p);
    SrcAtOk(src, p);
    SendersOfPulse(fed, src, site, width, p);
    if p < pulses {
      assert Members(SrcAt(src, p)) == all;
    } else {
      NoDupSize(SrcAt(src, p));
      assert Members(SrcAt(src, p)) == {};
    }
  }

  /** A handler at rest with complete input has submitted every pulse and emptied its queue. */
  lemma HandlerComplete(st: Statics, q: seq<Event>, fed: seq<Event>, outs: seq<Event>, site: Site, pulses: nat)
    requires HandlerInv(st, q, fed, outs, site) && FeedOk(fed, site)
    requires q == [] || Activation(st, q) == Ran(st, q, [])
    requires forall p :: 0 <= p < pulses ==> |AtTs(fed, p)| == site.Kids() + 1
    requires AtTs(fed, pulses) == []
    ensures |outs| == pulses && q == []
  {
    if st.pulse < pulses {
      PendingTake(fed, st.pulse, st.count);
      ActivationKeeps(st, q, fed, outs, site);
    } else {
      assert st.pulse > pulses ==> |AtTs(fed, pulses)| == site.Kids() + 1;
      if q != [] {
        IdleFindsPulse(st, q, fed, outs, site);
      }
    }
  }

  lemma {:induction false} RankComplete(cfg: Config, s: Sys, rank: int)
    requires Inv(cfg, s) && cfg.pulses.Some? && Quiet(cfg, s) && 0 <= rank < cfg.n
    ensures |s.sent[rank]| == cfg.pulses.value
    ensures !cfg.Leaf(rank) ==> s.node[rank].queue == []
    decreases cfg.n - rank
  {
    if cfg.Leaf(rank) {
      assert RankOk(cfg, s, rank);
    } else {
      var v, site := s.node[rank], cfg.At(rank);
      forall c | c in cfg.Kids(rank)
        ensures |s.sent[c]| == cfg.pulses.value
      {
        ParentBelow(c, cfg.d);
        RankComplete(cfg, s, c);
      }
      OwnEventsComplete(cfg, s, rank, cfg.pulses.value);
      InnerParts(cfg, s, rank);
      forall p | 0 <= p <= cfg.pulses.value
        ensures |AtTs(v.fed, p)| == if p < cfg.pulses.value then site.Kids() + 1 else 0
      {
        FeedComplete(v.fed, v.src, site, cfg.width, cfg.pulses.value, p);
      }
      LeafIffNoChildren(rank, cfg.d, cfg.n);
      ShuffleIsFeed(v.fed, v.src, site, cfg.width);
      HandlerComplete(v.statics, v.queue, v.fed, s.sent[rank], site, cfg.pulses.value);
    }
  }

  /** No run gets stuck early: where nothing is left to do, every rank has sent every pulse, the root
      included, and every handler's queue is empty. */
  lemma QuietMeansComplete(cfg: Config, steps: seq<Step>)
    requires cfg.Valid() && cfg.pulses.Some? && Exec(cfg, steps).Next? && Quiet(cfg, Exec(cfg, steps).s)
    ensures var s := Exec(cfg, steps).s;
            forall r :: 0 <= r < cfg.n ==>
              |s.sent[r]| == cfg.pulses.value && (!cfg.Leaf(r) ==> s.node[r].queue == [])
  {
    RunKeeps(cfg, steps);
    var s := Exec(cfg, steps).s;
    forall r | 0 <= r < cfg.n
      ensures |s.sent[r]| == cfg.pulses.value && (!cfg.Leaf(r) ==> s.node[r].queue == [])
    {
      RankComplete(cfg, s, r);
    }
  }

  /** The root's wait for root_finished ends where nothing is left to do, and not a pulse earlier. */
  lemma RootIsReleased(cfg: Config, steps: seq<Step>)
    requires cfg.Valid() && cfg.pulses.Some? && Exec(cfg, steps).Next? && Quiet(cfg, Exec(cfg, steps).s)
    requires forall p: nat :: cfg.width(p) >= 1
    ensures var s := Exec(cfg, steps).s;
            && |s.sent[0]| == cfg.pulses.value
            && forall m :: 0 <= m <= |s.sent[0]| ==>
                 Published(cfg, s, m).Sunk? && (Published(cfg, s, m).next.finished <==> m == cfg.pulses.value)
  {
    QuietMeansComplete(cfg, steps);
    var s := Exec(cfg, steps).s;
    forall m | 0 <= m <= |s.sent[0]|
      ensures Published(cfg, s, m).Sunk? && (Published(cfg, s, m).next.finished <==> m == cfg.pulses.value)
    {
      MonitoringFinishesWithLastPulse(cfg, steps, m);
    }
  }

  // --------------------------------------------------- only so many steps change anything

  /** What rank r has done so far: events sent, received, counted and merged. */
  ghost function Done(s: Sys, r: nat): int
    requires r < |s.sent| && r < |s.delivered| && r < |s.node|
  {
    |s.sent[r]| + s.delivered[r] + s.node[r].counted + |s.node[r].fed| - |s.node[r].queue|
  }

  ghost function AllDone(cfg: Config, s: Sys, m: nat): int
    requires Shape(cfg, s) && m <= cfg.n
  {
    if m == 0 then 0 else AllDone(cfg, s, m - 1) + Done(s, m - 1)
  }

  lemma {:induction false} AllDoneGrows(cfg: Config, s: Sys, t: Sys, m: nat, r: nat)
    requires Shape(cfg, s) && Shape(cfg, t) && m <= cfg.n
    requires forall x :: 0 <= x < cfg.n ==> Done(s, x) <= Done(t, x)
    requires r < cfg.n && Done(s, r) < Done(t, r)
    ensures AllDone(cfg, s, m) <= AllDone(cfg, t, m)
    ensures m > r ==> AllDone(cfg, s, m) < AllDone(cfg, t, m)
  {
    if m > 0 {
      AllDoneGrows(cfg, s, t, m - 1, r);
    }
  }

  lemma ActivationIdles(cfg: Config, s: Sys, rank: int)
    requires cfg.Valid() && Shape(cfg, s) && 0 <= rank < cfg.n
    ensures var v := s.node[rank];
            Activation(v.statics, v.queue) == Ran(v.statics, v.queue, []) ==> DoActivate(cfg, s, rank) == Next(s)
  {
    assert s.sent[rank] + [] == s.sent[rank];
    assert s.sent[rank := s.sent[rank]] == s.sent && s.node[rank := s.node[rank]] == s.node;
  }

  lemma ActivationTakes(cfg: Config, s: Sys, rank: int)
    requires Inv(cfg, s) && 0 <= rank < cfg.n && !cfg.Leaf(rank) && s.node[rank].queue != []
    ensures var v := s.node[rank];
            var o := Activation(v.statics, v.queue);
            o.Ran? && (|o.queue| < |v.queue| || o == Ran(v.statics, v.queue, []))
  {
    var v := s.node[rank];
    InnerParts(cfg, s, rank);
    LeafIffNoChildren(rank, cfg.d, cfg.n);
    ShuffleIsFeed(v.fed, v.src, cfg.At(rank), cfg.width);
    ActivationKeeps(v.statics, v.queue, v.fed, s.sent[rank], cfg.At(rank));
  }

  /** Every step that changes the state gets something done. */
  lemma StepGetsDone(cfg: Config, s: Sys, step: Step)
    requires Inv(cfg, s) && Apply(cfg, s, step).Next? && Apply(cfg, s, step).s != s
    ensures AllDone(cfg, s, cfg.n) < AllDone(cfg, Apply(cfg, s, step).s, cfg.n)
  {
    var t := Apply(cfg, s, step).s;
    match step
    case LeafSend(rank, values, update, quit, start) =>
      AllDoneGrows(cfg, s, t, cfg.n, rank);
    case Deliver(child) =>
      ParentBelow(child, cfg.d);
      AllDoneGrows(cfg, s, t, cfg.n, child);
    case Count(rank, now, next) =>
      AllDoneGrows(cfg, s, t, cfg.n, rank);
    case Activate(rank) =>
      ActivationTakes(cfg, s, rank);
      ActivationIdles(cfg, s, rank);
      AllDoneGrows(cfg, s, t, cfg.n, rank);
  }

  ghost function Without(w: seq<int>, x: int): seq<int> {
    if w == [] then [] else
    Without(w[..|w| - 1], x) + if w[|w| - 1] == x then [] else [w[|w| - 1]]
  }

  lemma {:induction false} WithoutOcc(w: seq<int>, x: int)
    ensures |w| == |Without(w, x)| + Occ(w, x)
    ensures forall y :: y != x ==> Occ(Without(w, x), y) == Occ(w, y)
    ensures forall y :: y in Without(w, x) ==> y in w && y != x
  {
    if w != [] {
      var m := |w| - 1;
      WithoutOcc(w[..m], x);
      if w[m] != x {
        forall y
          ensures Occ(Without(w, x), y) == Occ(Without(w[..m], x), y) + if w[m] == y then 1 else 0
        {
          OccAppend(Without(w[..m], x), w[m], y);
        }
      } else {
        assert Without(w, x) == Without(w[..m], x);
      }
      assert w == w[..m] + [w[m]];
    }
  }

  lemma OneLess(k: int, t: int)
    ensures k * t == (k - 1) * t + t
  {
  }

  /** A word over k letters, none of which occurs more than t times, has at most k * t letters. */
  lemma {:induction false} WordBound(w: seq<int>, letters: set<int>, t: nat)
    requires forall x :: x in w ==> x in letters
    requires forall x :: x in letters ==> Occ(w, x) <= t
    ensures |w| <= |letters| * t
    decreases |letters|
  {
    if w != [] {
      var x := w[0];
      assert x in w;
      WithoutOcc(w, x);
      WordBound(Without(w, x), letters - {x}, t);
      OneLess(|letters|, t);
    }
  }

  lemma InnerLetters(cfg: Config, s: Sys, r: int)
    requires Inv(cfg, s) && 0 <= r < cfg.n && !cfg.Leaf(r)
    ensures forall x :: x in s.node[r].arr ==> x in cfg.Kids(r)
    ensures forall x :: x in s.node[r].src ==> x in cfg.Kids(r) + {r}
  {
    var v := s.node[r];
    InnerParts(cfg, s, r);
    forall x | x in v.arr
      ensures x in cfg.Kids(r)
    {
      var i :| 0 <= i < |v.arr| && v.arr[i] == x;
      assert Arrived(cfg, s, r, v.inbox[i], v.arr[..i], v.arr[i]);
    }
    forall x | x in v.src
      ensures x in cfg.Kids(r) + {r}
    {
      var i :| 0 <= i < |v.src| && v.src[i] == x;
      assert Fits(v.fed[i], v.src[..i], v.src[i], cfg.At(r), cfg.width);
    }
  }

  lemma InnerCounts(cfg: Config, s: Sys, r: int, c: int)
    requires Inv(cfg, s) && cfg.pulses.Some? && 0 <= r < cfg.n && !cfg.Leaf(r) && c in cfg.Kids(r)
    ensures Occ(s.node[r].arr, c) == Occ(s.node[r].src, c) <= cfg.pulses.value
    ensures Occ(s.node[r].src, r) <= cfg.pulses.value
  {
    var v := s.node[r];
    InnerParts(cfg, s, r);
    DeliveredBound(cfg, s);
    SentBound(cfg, s, c);
    CountedIsSent(cfg, s, r, v.counted, c);
    assert Occ(v.arr[..v.counted], c) >= v.counting.counter;
  }

  lemma InnerSizes(cfg: Config, s: Sys, r: int)
    requires Inv(cfg, s) && 0 <= r < cfg.n && !cfg.Leaf(r)
    ensures var v := s.node[r]; v.counted <= |v.arr| && |v.fed| == |v.src|
    ensures |cfg.Kids(r)| == Degree(r, cfg.d, cfg.n) >= 1 && |cfg.Kids(r) + {r}| == |cfg.Kids(r)| + 1
  {
    InnerParts(cfg, s, r);
    LeafIffNoChildren(r, cfg.d, cfg.n);
    DegreeCountsChildren(r, cfg.d, cfg.n);
    NotOwnChild(cfg, r);
  }

  lemma InnerWordsBound(cfg: Config, s: Sys, r: int)
    requires Inv(cfg, s) && cfg.pulses.Some? && 0 <= r < cfg.n && !cfg.Leaf(r)
    ensures s.node[r].counted <= Degree(r, cfg.d, cfg.n) * cfg.pulses.value
    ensures |s.node[r].fed| <= (Degree(r, cfg.d, cfg.n) + 1) * cfg.pulses.value
  {
    InnerSizes(cfg, s, r);
    InnerLetters(cfg, s, r);
    var some := SomeElement(cfg.Kids(r));
    InnerCounts(cfg, s, r, some);
    forall c | c in cfg.Kids(r)
      ensures Occ(s.node[r].arr, c) == Occ(s.node[r].src, c) <= cfg.pulses.value
    {
      InnerCounts(cfg, s, r, c);
    }
    WordBound(s.node[r].arr, cfg.Kids(r), cfg.pulses.value);
    WordBound(s.node[r].src, cfg.Kids(r) + {r}, cfg.pulses.value);
  }

  lemma LeafNodeIdle(cfg: Config, s: Sys, r: int)
    requires Inv(cfg, s) && 0 <= r < cfg.n && cfg.Leaf(r)
    ensures s.node[r].counted + |s.node[r].fed| <= |s.node[r].queue|
  {
    assert RankOk(cfg, s, r);
  }

  /** Each rank has only so much to do. */
  lemma DoneBound(cfg: Config, s: Sys, r: int)
    requires Inv(cfg, s) && cfg.pulses.Some? && 0 <= r < cfg.n
    ensures Done(s, r) <= cfg.pulses.value * (2 * Degree(r, cfg.d, cfg.n) + 3)
  {
    var v, t, k := s.node[r], cfg.pulses.value, Degree(r, cfg.d, cfg.n);
    SentBound(cfg, s, r);
    DeliveredBound(cfg, s);
    if cfg.Leaf(r) {
      LeafNodeIdle(cfg, s, r);
    } else {
      InnerWordsBound(cfg, s, r);
    }
    assert t * (2 * k + 3) == k * t + (k + 1) * t + 2 * t;
  }

  /** The most that can get done in the whole tree. */
  ghost function Budget(cfg: Config, m: nat): int
    requires cfg.pulses.Some?
  {
    if m == 0 then 0 else Budget(cfg, m - 1) + cfg.pulses.value * (2 * Degree(m - 1, cfg.d, cfg.n) + 3)
  }

  lemma {:induction false} AllDoneBound(cfg: Config, s: Sys, m: nat)
    requires Inv(cfg, s) && cfg.pulses.Some? && m <= cfg.n
    ensures AllDone(cfg, s, m) <= Budget(cfg, m)
  {
    if m > 0 {
      AllDoneBound(cfg, s, m - 1);
      DoneBound(cfg, s, m - 1);
    }
  }

  lemma Distribute(t: int, a: int, b: int)
    ensures t * (a + b) == t * a + t * b
  {
  }

  lemma {:induction false} BudgetClosed(cfg: Config, m: nat)
    requires cfg.pulses.Some?
    ensures Budget(cfg, m) == cfg.pulses.value * (2 * DegreeSum(m, cfg.d, cfg.n) + 3 * m)
  {
    if m > 0 {
      BudgetClosed(cfg, m - 1);
      Distribute(cfg.pulses.value, 2 * DegreeSum(m - 1, cfg.d, cfg.n) + 3 * (m - 1),
                 2 * Degree(m - 1, cfg.d, cfg.n) + 3);
    }
  }

  /** How many steps of a run change anything. (Starting a handler that has nothing to do does not.) */
  ghost function Changes(cfg: Config, steps: seq<Step>): nat
    requires cfg.Valid()
  {
    if steps == [] then 0 else
    var before := steps[..|steps| - 1];
    Changes(cfg, before) + if Exec(cfg, before) != Exec(cfg, steps) then 1 else 0
  }

  /** How many steps of a run can change anything. */
  ghost function Most(cfg: Config): int
    requires cfg.pulses.Some?
  {
    cfg.pulses.value * (5 * cfg.n - 2)
  }

  lemma BudgetIsMost(cfg: Config)
    requires cfg.Valid() && cfg.pulses.Some?
    ensures Budget(cfg, cfg.n) == Most(cfg)
  {
    BudgetClosed(cfg, cfg.n);
    DegreesSumToEdges(cfg.d, cfg.n);
  }

  lemma DoneByMost(cfg: Config, steps: seq<Step>)
    requires cfg.Valid() && cfg.pulses.Some? && Exec(cfg, steps).Next?
    ensures AllDone(cfg, Exec(cfg, steps).s, cfg.n) <= Most(cfg)
  {
    RunKeeps(cfg, steps);
    AllDoneBound(cfg, Exec(cfg, steps).s, cfg.n);
    BudgetIsMost(cfg);
  }

  lemma {:induction false} InitialDone(cfg: Config, m: nat)
    requires cfg.Valid() && m <= cfg.n
    ensures AllDone(cfg, Initial(cfg), m) == 0
  {
    if m > 0 {
      InitialDone(cfg, m - 1);
    }
  }

  lemma {:induction false} ChangesGetDone(cfg: Config, steps: seq<Step>)
    requires cfg.Valid() && Exec(cfg, steps).Next?
    ensures Changes(cfg, steps) <= AllDone(cfg, Exec(cfg, steps).s, cfg.n)
  {
    if steps == [] {
      InitialDone(cfg, cfg.n);
    } else {
      var before := steps[..|steps| - 1];
      RunKeeps(cfg, before);
      ChangesGetDone(cfg, before);
      if Exec(cfg, before) != Exec(cfg, steps) {
        StepGetsDone(cfg, Exec(cfg, before).s, steps[|steps| - 1]);
      }
    }
  }

  /** No run goes on for ever: with T pulses and n ranks at most T * (5n - 2) steps of any run change
      anything. */
  lemma RunsEnd(cfg: Config, steps: seq<Step>)
    requires cfg.Valid() && cfg.pulses.Some? && Exec(cfg, steps).Next?
    ensures Changes(cfg, steps) <= Most(cfg) == cfg.pulses.value * (5 * cfg.n - 2)
  {
    ChangesGetDone(cfg, steps);
    DoneByMost(cfg, steps);
  }

  // ------------------------------------------------------------- runs that cannot go on

  /** No step that is possible changes the state any more. */
  ghost predicate Stuck(cfg: Config, s: Sys)
    requires cfg.Valid() && Shape(cfg, s)
  {
    forall step :: Apply(cfg, s, step).Next? ==> Apply(cfg, s, step).s == s
  }

  lemma NextSend(cfg: Config, s: Sys, r: int) returns (step: Step)
    requires cfg.Valid() && Shape(cfg, s) && 0 <= r < cfg.n && cfg.Leaf(r) && !s.stopped[r]
    ensures Apply(cfg, s, step).Next? && Apply(cfg, s, step).s != s
  {
    var p := |s.sent[r]|;
    var values := seq(cfg.width(p), _ => 0);
    var quit := cfg.pulses.Some? && p == cfg.pulses.value - 1;
    assert LeafMaySend(cfg, s, r, values, true, quit, 0.0);
    step := LeafSend(r, values, true, quit, 0.0);
    assert |Apply(cfg, s, step).s.sent[r]| == p + 1;
  }

  lemma CountMoves(cfg: Config, s: Sys, r: int, now: seq<int>, next: seq<int>)
    requires Inv(cfg, s) && MayCount(cfg, s, r, now, next)
    ensures Apply(cfg, s, Count(r, now, next)).Next? && Apply(cfg, s, Count(r, now, next)).s != s
  {
    StepKeeps(cfg, s, Count(r, now, next));
    assert DoCount(cfg, s, r, now, next).s.node[r].counted == s.node[r].counted + 1;
  }

  lemma NextCount(cfg: Config, s: Sys, r: int) returns (step: Step)
    requires Inv(cfg, s) && 0 <= r < cfg.n && !cfg.Leaf(r) && s.node[r].counted != |s.node[r].inbox|
    ensures Apply(cfg, s, step).Next? && Apply(cfg, s, step).s != s
  {
    InnerParts(cfg, s, r);
    var p := s.node[r].counting.counter;
    var now, next := seq(cfg.width(p), _ => 0), seq(cfg.width(p + 1), _ => 0);
    step := Count(r, now, next);
    CountMoves(cfg, s, r, now, next);
  }

  lemma NextActivate(cfg: Config, s: Sys, r: int) returns (step: Step)
    requires Inv(cfg, s) && 0 <= r < cfg.n && !cfg.Leaf(r) && !HandlerQuiet(s.node[r])
    ensures Apply(cfg, s, step).Next? && Apply(cfg, s, step).s != s
  {
    ActivateKeeps(cfg, s, r);
    step := Activate(r);
    var o, t := Activation(s.node[r].statics, s.node[r].queue), DoActivate(cfg, s, r).s;
    assert t.node[r].statics == o.statics && t.node[r].queue == o.queue && t.sent[r] == s.sent[r] + o.submitted;
    assert t.sent[r] == s.sent[r] ==> o.submitted == [];
  }

  /** Where something is left to do, some step does part of it. */
  lemma NotQuietCanStep(cfg: Config, s: Sys) returns (step: Step)
    requires Inv(cfg, s) && !Quiet(cfg, s)
    ensures Apply(cfg, s, step).Next? && Apply(cfg, s, step).s != s
  {
    if r :| 0 <= r < cfg.n && cfg.Leaf(r) && !s.stopped[r] {
      step := NextSend(cfg, s, r);
    } else if c :| 1 <= c < cfg.n && s.delivered[c] != |s.sent[c]| {
      DeliveredBound(cfg, s);
      step := Deliver(c);
    } else if r :| 0 <= r < cfg.n && !cfg.Leaf(r) && s.node[r].counted != |s.node[r].inbox| {
      step := NextCount(cfg, s, r);
    } else {
      var r :| 0 <= r < cfg.n && !cfg.Leaf(r) && !HandlerQuiet(s.node[r]);
      step := NextActivate(cfg, s, r);
    }
  }

  lemma QuietStays(cfg: Config, s: Sys, step: Step)
    requires cfg.Valid() && Shape(cfg, s) && Quiet(cfg, s) && Apply(cfg, s, step).Next?
    ensures Apply(cfg, s, step).s == s
  {
    if step.Activate? {
      ActivationIdles(cfg, s, step.rank);
    }
  }

  /** Being stuck is the same as having nothing left to do. */
  lemma StuckIffQuiet(cfg: Config, s: Sys)
    requires Inv(cfg, s)
    ensures Stuck(cfg, s) <==> Quiet(cfg, s)
  {
    if !Quiet(cfg, s) {
      var step := NotQuietCanStep(cfg, s);
    } else {
      forall step | Apply(cfg, s, step).Next?
        ensures Apply(cfg, s, step).s == s
      {
        QuietStays(cfg, s, step);
      }
    }
  }

  /** The message of the last pulse says quit, so the root finishes. */
  lemma LastSaysQuit(cfg: Config, s: Sys)
    requires Inv(cfg, s) && cfg.pulses.Some? && |s.sent[0]| == cfg.pulses.value
    ensures Published(cfg, s, cfg.pulses.value).Sunk? && Published(cfg, s, cfg.pulses.value).next.finished
  {
    var last := cfg.pulses.value - 1;
    var es := s.sent[0][..cfg.pulses.value];
    GoodSent(cfg, s, 0, last);
    RootStreamFlagged(cfg, s, cfg.pulses.value);
    SinkShowsLast(es, cfg.n);
    assert es[last].quit;
  }

  /** A run that cannot be continued has sent every pulse from every rank, the root included; the root
      has published them all, and then told its application to finish. */
  lemma MaximalRunsPublishAll(cfg: Config, steps: seq<Step>)
    requires cfg.Valid() && cfg.pulses.Some? && Exec(cfg, steps).Next? && Stuck(cfg, Exec(cfg, steps).s)
    ensures var s := Exec(cfg, steps).s;
            && (forall r :: 0 <= r < cfg.n ==>
                  |s.sent[r]| == cfg.pulses.value && (!cfg.Leaf(r) ==> s.node[r].queue == []))
            && Published(cfg, s, cfg.pulses.value).Sunk?
            && Published(cfg, s, cfg.pulses.value).next.pulse == cfg.pulses.value
            && Published(cfg, s, cfg.pulses.value).next.finished
  {
    RunKeeps(cfg, steps);
    var s := Exec(cfg, steps).s;
    StuckIffQuiet(cfg, s);
    QuietMeansComplete(cfg, steps);
    RootPublishesTotals(cfg, steps, cfg.pulses.value);
    LastSaysQuit(cfg, s);
  }

  /** What can at most be left to do. */
  ghost function Remaining(cfg: Config, s: Sys): int
    requires Shape(cfg, s) && cfg.pulses.Some?
  {
    Most(cfg) - AllDone(cfg, s, cfg.n)
  }

  lemma RemainingBound(cfg: Config, steps: seq<Step>)
    requires cfg.Valid() && cfg.pulses.Some? && Exec(cfg, steps).Next?
    ensures 0 <= Remaining(cfg, Exec(cfg, steps).s) <= Most(cfg)
  {
    ChangesGetDone(cfg, steps);
    DoneByMost(cfg, steps);
  }

  lemma OneMoreStep(cfg: Config, steps: seq<Step>) returns (longer: seq<Step>)
    requires cfg.Valid() && cfg.pulses.Some? && Exec(cfg, steps).Next? && !Stuck(cfg, Exec(cfg, steps).s)
    ensures steps <= longer && |longer| == |steps| + 1 && Exec(cfg, longer).Next?
    ensures Remaining(cfg, Exec(cfg, longer).s) < Remaining(cfg, Exec(cfg, steps).s)
  {
    RunKeeps(cfg, steps);
    var s := Exec(cfg, steps).s;
    StuckIffQuiet(cfg, s);
    var step := NotQuietCanStep(cfg, s);
    longer := steps + [step];
    assert longer[..|longer| - 1] == steps;
    StepGetsDone(cfg, s, step);
  }

  /** And every run can be continued to such an end, in no more than T * (5n - 2) further steps. */
  lemma {:induction false} EveryRunCanFinish(cfg: Config, steps: seq<Step>) returns (all: seq<Step>)
    requires cfg.Valid() && cfg.pulses.Some? && Exec(cfg, steps).Next?
    ensures steps <= all && Exec(cfg, all).Next? && Stuck(cfg, Exec(cfg, all).s)
    ensures |all| - |steps| <= Remaining(cfg, Exec(cfg, steps).s) <= Most(cfg)
    decreases Remaining(cfg, Exec(cfg, steps).s)
  {
    RemainingBound(cfg, steps);
    all := steps;
    if !Stuck(cfg, Exec(cfg, steps).s) {
      var longer := OneMoreStep(cfg, steps);
      RemainingBound(cfg, longer);
      all := EveryRunCanFinish(cfg, longer);
    }
  }
}
