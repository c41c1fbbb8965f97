/** Any leaf can be the one whose flags the root's message carries. */
module Leading {
  import opened Topology
  import opened QueueHandler
  import opened HandlerRuns
  import opened Feeds
  import opened Protocol
  import opened Invariants
  import opened Safety
  import opened Progress
  import opened Endings
  import opened Flags

  /** The leaves set the update flag of their first message as update says. */
  ghost predicate Follows(cfg: Config, s: Sys, update: int -> bool)
    requires Shape(cfg, s)
  {
    forall x :: 0 <= x < cfg.n && cfg.Leaf(x) && s.sent[x] != [] ==> s.sent[x][0].updateFile == update(x)
  }

  /** Nothing outside the subtree of rank has changed, and rank's edge has delivered nothing. */
  ghost predicate OnlyBelow(cfg: Config, s: Sys, t: Sys, rank: int)
    requires cfg.Valid() && Shape(cfg, s) && Shape(cfg, t)
  {
    && (forall a :: 0 <= a < cfg.n && a !in cfg.Below(rank) ==> t.node[a] == s.node[a])
    && (forall c :: 1 <= c < cfg.n && ParentRank(c, cfg.d) !in cfg.Below(rank) ==> t.delivered[c] == s.delivered[c])
  }

  /** The words of senders and the messages sent only grow. */
  ghost predicate Longer(cfg: Config, s: Sys, t: Sys)
    requires Shape(cfg, s) && Shape(cfg, t)
  {
    && (forall a :: 0 <= a < cfg.n ==> s.node[a].src <= t.node[a].src)
    && (forall a :: 0 <= a < cfg.n ==> s.sent[a] <= t.sent[a])
  }

  lemma StepGrows(cfg: Config, s: Sys, step: Step)
    requires Inv(cfg, s) && Apply(cfg, s, step).Next?
    ensures Longer(cfg, s, Apply(cfg, s, step).s)
  {
    if step.Deliver? {
      ParentBelow(step.child, cfg.d);
    }
  }

  lemma OnlyBelowChild(cfg: Config, s: Sys, t: Sys, rank: int, c: int)
    requires cfg.Valid() && Shape(cfg, s) && Shape(cfg, t) && 0 <= rank < cfg.n && c in cfg.Kids(rank)
    requires OnlyBelow(cfg, s, t, c)
    ensures OnlyBelow(cfg, s, t, rank)
  {
    BelowChildIsBelow(cfg, rank, c);
  }

  /** A step of rank itself, or of one of its incoming edges, that does part of what is left to do. */
  ghost predicate Useful(cfg: Config, s: Sys, step: Step, rank: int, update: int -> bool)
    requires cfg.Valid() && Shape(cfg, s) && 0 <= rank < cfg.n
  {
    && Apply(cfg, s, step).Next? && Apply(cfg, s, step).s != s
    && OnlyBelow(cfg, s, Apply(cfg, s, step).s, rank) && Follows(cfg, Apply(cfg, s, step).s, update)
  }

  lemma LeafStep(cfg: Config, s: Sys, rank: int, update: int -> bool) returns (step: Step)
    requires Inv(cfg, s) && cfg.pulses.Some? && Follows(cfg, s, update)
    requires 0 <= rank < cfg.n && cfg.Leaf(rank) && s.sent[rank] == []
    ensures Useful(cfg, s, step, rank, update)
  {
    assert RankOk(cfg, s, rank);
    LeafSubtree(cfg, rank);
    var values, quit := seq(cfg.width(0), _ => 0), cfg.pulses.value == 1;
    step := LeafSend(rank, values, update(rank), quit, 0.0);
    assert LeafMaySend(cfg, s, rank, values, update(rank), quit, 0.0);
    assert |Apply(cfg, s, step).s.sent[rank]| == 1;
  }

  lemma EdgeStep(cfg: Config, s: Sys, rank: int, c: int, update: int -> bool)
    requires Inv(cfg, s) && Follows(cfg, s, update) && 0 <= rank < cfg.n && c in cfg.Kids(rank)
    requires s.delivered[c] == 0 && s.sent[c] != []
    ensures Useful(cfg, s, Deliver(c), rank, update)
  {
    ParentBelow(c, cfg.d);
    assert rank in cfg.Below(rank);
    assert DoDeliver(cfg, s, c).delivered[c] == 1;
  }

  /** A step of an inner rank's own stages. */
  lemma InnerStep(cfg: Config, s: Sys, t: Sys, rank: int, update: int -> bool)
    requires cfg.Valid() && Shape(cfg, s) && Shape(cfg, t) && 0 <= rank < cfg.n && !cfg.Leaf(rank)
    requires t.delivered == s.delivered
    requires forall a :: 0 <= a < cfg.n && a != rank ==> t.node[a] == s.node[a] && t.sent[a] == s.sent[a]
    requires Follows(cfg, s, update)
    ensures OnlyBelow(cfg, s, t, rank) && Follows(cfg, t, update)
  {
    assert rank in cfg.Below(rank);
  }

  lemma CountingHere(cfg: Config, s: Sys, rank: int, now: seq<int>, next: seq<int>)
    requires cfg.Valid() && Shape(cfg, s) && MayCount(cfg, s, rank, now, next) && DoCount(cfg, s, rank, now, next).Next?
    ensures var t := DoCount(cfg, s, rank, now, next).s;
            && t.delivered == s.delivered && t.sent == s.sent
            && forall a :: 0 <= a < cfg.n && a != rank ==> t.node[a] == s.node[a]
  {
  }

  lemma MayCountNow(cfg: Config, s: Sys, rank: int) returns (now: seq<int>, next: seq<int>)
    requires Inv(cfg, s) && 0 <= rank < cfg.n && !cfg.Leaf(rank) && s.node[rank].counted != |s.node[rank].inbox|
    ensures MayCount(cfg, s, rank, now, next)
  {
    InnerParts(cfg, s, rank);
    var p := s.node[rank].counting.counter;
    now, next := seq(cfg.width(p), _ => 0), seq(cfg.width(p + 1), _ => 0);
  }

  lemma CountingStep(cfg: Config, s: Sys, rank: int, update: int -> bool) returns (step: Step)
    requires Inv(cfg, s) && Follows(cfg, s, update) && 0 <= rank < cfg.n && !cfg.Leaf(rank)
    requires s.node[rank].counted != |s.node[rank].inbox|
    ensures Useful(cfg, s, step, rank, update)
  {
    var now, next := MayCountNow(cfg, s, rank);
    step := Count(rank, now, next);
    CountMoves(cfg, s, rank, now, next);
    CountingHere(cfg, s, rank, now, next);
    InnerStep(cfg, s, DoCount(cfg, s, rank, now, next).s, rank, update);
  }

  /** When every child has been heard from and counted, pulse 0 is complete in the queue. */
  lemma FirstPulseIsThere(cfg: Config, s: Sys, rank: int)
    requires Inv(cfg, s) && 0 <= rank < cfg.n && !cfg.Leaf(rank) && s.node[rank].counted == |s.node[rank].inbox|
    requires forall c :: c in cfg.Kids(rank) ==> s.delivered[c] > 0
    ensures |AtTs(s.node[rank].fed, 0)| > cfg.At(rank).Kids()
  {
    var v := s.node[rank];
    InnerParts(cfg, s, rank);
    var slow := AllCounted(cfg, s, rank);
    if |AtTs(v.fed, 0)| <= cfg.At(rank).Kids() {
      var x := SlowestSender(v.fed, v.src, cfg.At(rank), cfg.width, 0);
    }
  }

  lemma HandlerHasWork(cfg: Config, s: Sys, rank: int)
    requires Inv(cfg, s) && 0 <= rank < cfg.n && !cfg.Leaf(rank)
    requires |AtTs(s.node[rank].fed, 0)| > cfg.At(rank).Kids() && s.sent[rank] == []
    ensures var v := s.node[rank];
            var o := Activation(v.statics, v.queue);
            v.queue != [] && o.Ran? && |o.queue| < |v.queue|
  {
    var v, site := s.node[rank], cfg.At(rank);
    InnerParts(cfg, s, rank);
    LeafIffNoChildren(rank, cfg.d, cfg.n);
    ShuffleIsFeed(v.fed, v.src, site, cfg.width);
    PendingTake(v.fed, 0, v.statics.count);
    ActivationKeeps(v.statics, v.queue, v.fed, s.sent[rank], site);
  }

  lemma HandlerStep(cfg: Config, s: Sys, rank: int, update: int -> bool)
    requires Inv(cfg, s) && Follows(cfg, s, update) && 0 <= rank < cfg.n && !cfg.Leaf(rank)
    requires |AtTs(s.node[rank].fed, 0)| > cfg.At(rank).Kids() && s.sent[rank] == []
    ensures Useful(cfg, s, Activate(rank), rank, update)
  {
    HandlerHasWork(cfg, s, rank);
    var t := DoActivate(cfg, s, rank).s;
    assert |t.node[rank].queue| < |s.node[rank].queue|;
    InnerStep(cfg, s, t, rank, update);
  }

  /** As long as a rank has sent nothing, something can be done for its first message inside its subtree. */
  lemma {:induction false} SubtreeStep(cfg: Config, s: Sys, rank: int, update: int -> bool) returns (step: Step)
    requires Inv(cfg, s) && cfg.pulses.Some? && Follows(cfg, s, update)
    requires 0 <= rank < cfg.n && s.sent[rank] == []
    ensures Useful(cfg, s, step, rank, update)
    decreases cfg.n - rank
  {
    if cfg.Leaf(rank) {
      step := LeafStep(cfg, s, rank, update);
    } else if c :| c in cfg.Kids(rank) && s.sent[c] == [] {
      ParentBelow(c, cfg.d);
      step := SubtreeStep(cfg, s, c, update);
      OnlyBelowChild(cfg, s, Apply(cfg, s, step).s, rank, c);
    } else if c :| c in cfg.Kids(rank) && s.delivered[c] == 0 {
      step := Deliver(c);
      EdgeStep(cfg, s, rank, c, update);
    } else if s.node[rank].counted != |s.node[rank].inbox| {
      step := CountingStep(cfg, s, rank, update);
    } else {
      step := Activate(rank);
      FirstPulseIsThere(cfg, s, rank);
      HandlerStep(cfg, s, rank, update);
    }
  }

  /** A run that has gone on inside the subtree of rank only. */
  ghost predicate Goes(cfg: Config, s: Sys, steps: seq<Step>, t: Sys, rank: int, update: int -> bool)
    requires cfg.Valid() && Shape(cfg, s)
  {
    Exec(cfg, steps) == Next(t) && OnlyBelow(cfg, s, t, rank) && Longer(cfg, s, t) && Follows(cfg, t, update)
  }

  lemma OneStepOn(cfg: Config, steps: seq<Step>, s: Sys, step: Step, rank: int, update: int -> bool) returns (t: Sys)
    requires cfg.Valid() && cfg.pulses.Some? && Exec(cfg, steps) == Next(s) && 0 <= rank < cfg.n
    requires Useful(cfg, s, step, rank, update)
    ensures Goes(cfg, s, steps + [step], t, rank, update) && Remaining(cfg, t) < Remaining(cfg, s)
  {
    RunKeeps(cfg, steps);
    StepGetsDone(cfg, s, step);
    StepGrows(cfg, s, step);
    assert (steps + [step])[..|steps|] == steps;
    t := Apply(cfg, s, step).s;
  }

  /** Until rank has sent its first message. */
  lemma {:induction false} FirstMessage(cfg: Config, steps: seq<Step>, s: Sys, rank: int, update: int -> bool)
    returns (more: seq<Step>, t: Sys)
    requires cfg.Valid() && cfg.pulses.Some? && Exec(cfg, steps) == Next(s) && 0 <= rank < cfg.n
    requires Follows(cfg, s, update)
    ensures Goes(cfg, s, more, t, rank, update) && t.sent[rank] != []
    decreases Remaining(cfg, s)
  {
    RemainingBound(cfg, steps);
    RunKeeps(cfg, steps);
    if s.sent[rank] != [] {
      more, t := steps, s;
    } else {
      var step := SubtreeStep(cfg, s, rank, update);
      var u := OneStepOn(cfg, steps, s, step, rank, update);
      RemainingBound(cfg, steps + [step]);
      more, t := FirstMessage(cfg, steps + [step], u, rank, update);
    }
  }

  /** Once a rank has sent pulse 0, the leaf that led to it stays the same. */
  lemma {:induction false} LeaderStays(cfg: Config, s: Sys, t: Sys, rank: int)
    requires Inv(cfg, s) && Shape(cfg, t) && Longer(cfg, s, t) && 0 <= rank < cfg.n && s.sent[rank] != []
    ensures Leader(cfg, t, rank, 0) == Leader(cfg, s, rank, 0)
    decreases cfg.n - rank
  {
    if !cfg.Leaf(rank) {
      var x := FlagsOfFirst(cfg, s, rank, 0);
      var u, v := s.node[rank].src, t.node[rank].src;
      assert v == u + v[|u|..];
      FirstStays(u, v[|u|..], 0);
      LeaderStays(cfg, s, t, x);
    }
  }

  lemma NotBelowChild(cfg: Config, rank: int, c: int)
    requires cfg.Valid() && 0 <= rank < cfg.n && c in cfg.Kids(rank)
    ensures rank !in cfg.Below(c)
  {
    ParentBelow(c, cfg.d);
  }

  lemma FirstIs(cfg: Config, u: Sys, t: Sys, rank: int, c: int)
    requires Shape(cfg, u) && Shape(cfg, t) && Longer(cfg, u, t) && 0 <= rank < cfg.n && u.node[rank].src == [c]
    ensures SrcAt(t.node[rank].src, 0) != [] && SrcAt(t.node[rank].src, 0)[0] == c
  {
    var v := t.node[rank].src;
    assert v == [c] + v[1..];
    assert [c][..0] == [];
    FirstStays([c], v[1..], 0);
  }

  /** From the child's first message to the rank's own, with the child's event coming first. */
  lemma LeadOn(cfg: Config, rank: int, c: int, before: seq<Step>, s: Sys, update: int -> bool)
    returns (steps: seq<Step>, t: Sys)
    requires cfg.Valid() && cfg.pulses.Some? && 0 <= rank < cfg.n && c in cfg.Kids(rank)
    requires Goes(cfg, Initial(cfg), before, s, c, update) && s.sent[c] != []
    ensures rank < c < cfg.n && Goes(cfg, Initial(cfg), steps, t, rank, update) && t.sent[rank] != []
    ensures Leader(cfg, t, rank, 0) == Leader(cfg, s, c, 0)
  {
    RunKeeps(cfg, before);
    BelowChildIsBelow(cfg, rank, c);
    NotBelowChild(cfg, rank, c);
    EdgeStep(cfg, s, rank, c, update);
    var u := OneStepOn(cfg, before, s, Deliver(c), rank, update);
    steps, t := FirstMessage(cfg, before + [Deliver(c)], u, rank, update);
    LeaderStays(cfg, s, t, c);
    FirstIs(cfg, u, t, rank, c);
    ParentIsInner(cfg, c);
  }

  /** A leaf can lead to the first message of any rank above it. */
  lemma {:induction false} LeadTo(cfg: Config, rank: int, x: int, update: int -> bool)
    returns (steps: seq<Step>, t: Sys)
    requires cfg.Valid() && cfg.pulses.Some? && 0 <= rank < cfg.n && x in cfg.Below(rank) && cfg.Leaf(x)
    ensures Goes(cfg, Initial(cfg), steps, t, rank, update) && t.sent[rank] != [] && Leader(cfg, t, rank, 0) == x
    decreases cfg.n - rank
  {
    if x == rank {
      steps, t := FirstMessage(cfg, [], Initial(cfg), rank, update);
    } else {
      var c := BelowSomeChild(cfg, rank, x);
      var before, s := LeadTo(cfg, c, x, update);
      steps, t := LeadOn(cfg, rank, c, before, s, update);
    }
  }

  /** The runs in which the leaves set their flags like that and the root has published pulse 0. */
  ghost predicate Shown(cfg: Config, update: int -> bool, steps: seq<Step>)
    requires cfg.Valid()
  {
    && Exec(cfg, steps).Next? && Follows(cfg, Exec(cfg, steps).s, update)
    && Exec(cfg, steps).s.sent[0] != []
  }

  ghost predicate ShowsUpdate(cfg: Config, steps: seq<Step>)
    requires cfg.Valid() && Exec(cfg, steps).Next? && Exec(cfg, steps).s.sent[0] != []
  {
    Exec(cfg, steps).s.sent[0][0].updateFile
  }

  /** Any leaf that does not say update can hide that all others do. */
  lemma OneCanHide(cfg: Config, update: int -> bool, x: int) returns (steps: seq<Step>)
    requires cfg.Valid() && cfg.pulses.Some? && 0 <= x < cfg.n && cfg.Leaf(x) && !update(x)
    ensures Shown(cfg, update, steps) && !ShowsUpdate(cfg, steps)
  {
    RootSubtree(cfg.d, cfg.n);
    var t;
    steps, t := LeadTo(cfg, 0, x, update);
    RunKeeps(cfg, steps);
    FlagsOfLeader(cfg, t, 0, 0);
  }

  /** In every tree: the root's first message says update in every run, if and only if every leaf does. */
  lemma UpdateIsShownIff(cfg: Config, update: int -> bool)
    requires cfg.Valid() && cfg.pulses.Some?
    ensures (forall steps :: Shown(cfg, update, steps) ==> ShowsUpdate(cfg, steps))
            <==> forall x :: 0 <= x < cfg.n && cfg.Leaf(x) ==> update(x)
  {
    if x :| 0 <= x < cfg.n && cfg.Leaf(x) && !update(x) {
      var steps := OneCanHide(cfg, update, x);
      assert Shown(cfg, update, steps) && !ShowsUpdate(cfg, steps);
    } else {
      forall steps | Shown(cfg, update, steps)
        ensures ShowsUpdate(cfg, steps)
      {
        RunKeeps(cfg, steps);
        FlagsOfLeader(cfg, Exec(cfg, steps).s, 0, 0);
      }
    }
  }
}
