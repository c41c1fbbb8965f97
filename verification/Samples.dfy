/** Which sampled values an inner rank contributes to a pulse. */
module Samples {
  import opened Collections
  import opened Events
  import opened Topology
  import opened HandlerRuns
  import opened OwnMetrics
  import opened Totals
  import opened Protocol
  import opened Invariants
  import opened Safety

  ghost function StateAt(cfg: Config, steps: seq<Step>, i: nat): Result<Sys>
    requires cfg.Valid() && i <= |steps|
  {
    Exec(cfg, steps[..i])
  }

  /** Step i is the look of rank's counting stage that completes pulse p. */
  ghost predicate Completes(cfg: Config, steps: seq<Step>, rank: int, p: nat, i: nat)
    requires cfg.Valid() && 0 <= rank < cfg.n
  {
    && i < |steps| && steps[i].Count? && steps[i].rank == rank
    && StateAt(cfg, steps, i).Next? && StateAt(cfg, steps, i + 1).Next?
    && |StateAt(cfg, steps, i).s.log[rank]| == p && |StateAt(cfg, steps, i + 1).s.log[rank]| == p + 1
    && StateAt(cfg, steps, i).s.node[rank].counted < |StateAt(cfg, steps, i).s.node[rank].inbox|
  }

  /** The arrival that the stage looks at in step i. */
  ghost function Trigger(cfg: Config, steps: seq<Step>, rank: int, i: nat): Event
    requires cfg.Valid() && 0 <= rank < cfg.n && i < |steps| && StateAt(cfg, steps, i).Next?
    requires StateAt(cfg, steps, i).s.node[rank].counted < |StateAt(cfg, steps, i).s.node[rank].inbox|
  {
    var v := StateAt(cfg, steps, i).s.node[rank];
    v.inbox[v.counted]
  }

  lemma CompletesLater(cfg: Config, steps: seq<Step>, rank: int, p: nat, i: nat, m: nat)
    requires cfg.Valid() && 0 <= rank < cfg.n && m <= |steps| && Completes(cfg, steps[..m], rank, p, i)
    ensures Completes(cfg, steps, rank, p, i) && Trigger(cfg, steps, rank, i) == Trigger(cfg, steps[..m], rank, i)
  {
    TakeOfTake(steps, m, i);
    TakeOfTake(steps, m, i + 1);
  }

  /** What has been put into the queue stays on record. */
  ghost predicate Prefixed(v: Node, w: Node) {
    v.fed <= w.fed && v.src <= w.src
  }

  /** A step that completes no pulse of rank leaves its log and its sample alone. */
  ghost predicate Untouched(s: Sys, t: Sys, rank: int)
    requires 0 <= rank < |s.node| && rank < |t.node| && rank < |s.log| && rank < |t.log|
  {
    && t.log[rank] == s.log[rank] && t.node[rank].counting.counter == s.node[rank].counting.counter
    && t.node[rank].counting.data == s.node[rank].counting.data
    && Prefixed(s.node[rank], t.node[rank])
    && forall k :: |s.node[rank].src| <= k < |t.node[rank].src| ==> t.node[rank].src[k] != rank
  }

  /** One that does adds the values of the submitted event, and samples ahead unless told to quit. */
  ghost predicate Added(cfg: Config, s: Sys, t: Sys, rank: int, step: Step)
    requires cfg.Valid() && Shape(cfg, s) && Shape(cfg, t) && 0 <= rank < cfg.n
  {
    && step.Count? && step.rank == rank
    && var v := s.node[rank];
    && v.counted < |v.inbox|
    && var c, e := v.counting, v.inbox[v.counted];
    && var own := Submission(c.firstPulse, c.data, c.counter, e, cfg.At(rank), step.now);
    && t.log[rank] == s.log[rank] + [Sample(ValuesOf(own.info), NO_START)] && own.timestamp == c.counter
    && t.node[rank].fed == v.fed + [own] && t.node[rank].src == v.src + [rank]
    && (c.firstPulse <==> c.counter == 0) && c.counter == |s.log[rank]| == Occ(v.src, rank)
    && t.node[rank].counting.data == if e.quit then own else OwnEvent(cfg.At(rank), c.counter + 1, e, step.next)
  }

  lemma CompletingAdds(cfg: Config, s: Sys, rank: int, now: seq<int>, next: seq<int>)
    requires Inv(cfg, s) && MayCount(cfg, s, rank, now, next) && Safety.Completes(cfg, s, rank, now, next)
    ensures DoCount(cfg, s, rank, now, next).Next?
    ensures Added(cfg, s, DoCount(cfg, s, rank, now, next).s, rank, Count(rank, now, next))
  {
    CountStep(cfg, s, rank, now, next);
    ChildrenAreAhead(cfg, s, rank, now, next);
    SubmissionIsOwn(cfg, s, rank, now, s.node[rank].inbox[s.node[rank].counted]);
    InnerParts(cfg, s, rank);
  }

  lemma CountAdds(cfg: Config, s: Sys, rank: int, now: seq<int>, next: seq<int>)
    requires Inv(cfg, s) && MayCount(cfg, s, rank, now, next)
    ensures DoCount(cfg, s, rank, now, next).Next?
    ensures var t := DoCount(cfg, s, rank, now, next).s;
            Untouched(s, t, rank) || Added(cfg, s, t, rank, Count(rank, now, next))
  {
    if Safety.Completes(cfg, s, rank, now, next) {
      CompletingAdds(cfg, s, rank, now, next);
    } else {
      CountStep(cfg, s, rank, now, next);
    }
  }

  lemma StepAdds(cfg: Config, s: Sys, step: Step, rank: int)
    requires Inv(cfg, s) && Apply(cfg, s, step).Next? && 0 <= rank < cfg.n && !cfg.Leaf(rank)
    ensures Untouched(s, Apply(cfg, s, step).s, rank) || Added(cfg, s, Apply(cfg, s, step).s, rank, step)
  {
    match step
    case LeafSend(r, values, update, quit, start) =>
    case Deliver(child) =>
      ParentBelow(child, cfg.d);
    case Count(r, now, next) =>
      CountAdds(cfg, s, r, now, next);
    case Activate(r) =>
  }

  lemma LastStep(cfg: Config, steps: seq<Step>)
    requires cfg.Valid() && steps != [] && Exec(cfg, steps).Next?
    ensures var m := |steps| - 1;
            && StateAt(cfg, steps, m).Next? && Inv(cfg, StateAt(cfg, steps, m).s)
            && StateAt(cfg, steps, m + 1) == Exec(cfg, steps) == Apply(cfg, StateAt(cfg, steps, m).s, steps[m])
  {
    TakeAll(steps, |steps|);
    RunKeeps(cfg, steps[..|steps| - 1]);
  }

  /** Where the value sampled ahead for pulse p comes from: from the step that completed the last pulse,
      unless its arrival said quit, in which case nothing newer has been sampled. */
  ghost predicate AheadFrom(cfg: Config, steps: seq<Step>, rank: int, p: nat, data: Event, h: nat)
    requires cfg.Valid() && 0 <= rank < cfg.n
  {
    && p > 0 && Completes(cfg, steps, rank, p - 1, h)
    && if Trigger(cfg, steps, rank, h).quit then data.timestamp == p - 1
       else data == OwnEvent(cfg.At(rank), p, Trigger(cfg, steps, rank, h), steps[h].next)
  }

  lemma AheadLater(cfg: Config, steps: seq<Step>, rank: int, p: nat, data: Event, h: nat, m: nat)
    requires cfg.Valid() && 0 <= rank < cfg.n && m <= |steps| && AheadFrom(cfg, steps[..m], rank, p, data, h)
    ensures AheadFrom(cfg, steps, rank, p, data, h)
  {
    CompletesLater(cfg, steps, rank, p - 1, h, m);
  }

  lemma AheadNow(cfg: Config, steps: seq<Step>, rank: int)
    requires cfg.Valid() && steps != [] && Exec(cfg, steps).Next? && 0 <= rank < cfg.n && !cfg.Leaf(rank)
    requires StateAt(cfg, steps, |steps| - 1).Next?
    requires Added(cfg, StateAt(cfg, steps, |steps| - 1).s, Exec(cfg, steps).s, rank, steps[|steps| - 1])
    ensures var t := Exec(cfg, steps).s;
            AheadFrom(cfg, steps, rank, |t.log[rank]|, t.node[rank].counting.data, |steps| - 1)
  {
    LastStep(cfg, steps);
  }

  lemma {:induction false} DataFrom(cfg: Config, steps: seq<Step>, rank: int) returns (h: nat)
    requires cfg.Valid() && Exec(cfg, steps).Next? && 0 <= rank < cfg.n && !cfg.Leaf(rank)
    requires Exec(cfg, steps).s.log[rank] != []
    ensures var t := Exec(cfg, steps).s;
            AheadFrom(cfg, steps, rank, |t.log[rank]|, t.node[rank].counting.data, h)
    decreases |steps|
  {
    LastStep(cfg, steps);
    var m := |steps| - 1;
    var s := StateAt(cfg, steps, m).s;
    StepAdds(cfg, s, steps[m], rank);
    if Untouched(s, Exec(cfg, steps).s, rank) {
      h := DataFrom(cfg, steps[..m], rank);
      AheadLater(cfg, steps, rank, |s.log[rank]|, s.node[rank].counting.data, h, m);
    } else {
      h := m;
      AheadNow(cfg, steps, rank);
    }
  }

  lemma ValuesAreSampled(values: seq<int>)
    ensures ValuesOf(Sampled(values)) == values
  {
  }

  lemma SubmittedValues(c: Counting, e: Event, site: Site, now: seq<int>)
    requires site.d != 0
    ensures c.firstPulse || e.updateFile || e.quit ==>
              ValuesOf(Submission(c.firstPulse, c.data, c.counter, e, site, now).info) == now
    ensures !(c.firstPulse || e.updateFile || e.quit) ==>
              Submission(c.firstPulse, c.data, c.counter, e, site, now) == c.data
  {
    ValuesAreSampled(now);
  }

  /** Step i completed pulse p, and the values were sampled in it; or else ahead, in step h, which completed
      the pulse before. */
  ghost predicate SampledIn(cfg: Config, steps: seq<Step>, rank: int, p: nat, values: seq<int>, i: nat, h: nat)
    requires cfg.Valid() && 0 <= rank < cfg.n
  {
    && Completes(cfg, steps, rank, p, i)
    && var e := Trigger(cfg, steps, rank, i);
    if p == 0 || e.updateFile || e.quit then values == steps[i].now
    else Completes(cfg, steps, rank, p - 1, h) && values == steps[h].next
  }

  lemma SampledLater(cfg: Config, steps: seq<Step>, rank: int, p: nat, values: seq<int>, i: nat, h: nat, m: nat)
    requires cfg.Valid() && 0 <= rank < cfg.n && m <= |steps| && SampledIn(cfg, steps[..m], rank, p, values, i, h)
    ensures SampledIn(cfg, steps, rank, p, values, i, h)
  {
    CompletesLater(cfg, steps, rank, p, i, m);
    var e := Trigger(cfg, steps, rank, i);
    if !(p == 0 || e.updateFile || e.quit) {
      CompletesLater(cfg, steps, rank, p - 1, h, m);
    }
  }

  /** The values that the last step of the run has added to the log. */
  lemma NewValues(cfg: Config, steps: seq<Step>, rank: int) returns (h: nat)
    requires cfg.Valid() && steps != [] && Exec(cfg, steps).Next? && 0 <= rank < cfg.n && !cfg.Leaf(rank)
    requires StateAt(cfg, steps, |steps| - 1).Next?
    requires Added(cfg, StateAt(cfg, steps, |steps| - 1).s, Exec(cfg, steps).s, rank, steps[|steps| - 1])
    ensures var p := |StateAt(cfg, steps, |steps| - 1).s.log[rank]|;
            SampledIn(cfg, steps, rank, p, Exec(cfg, steps).s.log[rank][p].values, |steps| - 1, h)
  {
    LastStep(cfg, steps);
    var i := |steps| - 1;
    var s := StateAt(cfg, steps, i).s;
    SubmittedValues(s.node[rank].counting, Trigger(cfg, steps, rank, i), cfg.At(rank), steps[i].now);
    h := 0;
    if s.log[rank] != [] {
      h := DataFrom(cfg, steps[..i], rank);
      CompletesLater(cfg, steps, rank, |s.log[rank]| - 1, h, i);
      ValuesAreSampled(steps[h].next);
    }
  }

  lemma LogKept(cfg: Config, steps: seq<Step>, rank: int, p: nat)
    requires cfg.Valid() && steps != [] && Exec(cfg, steps).Next? && 0 <= rank < cfg.n && !cfg.Leaf(rank)
    requires p < |Exec(cfg, steps).s.log[rank]|
    ensures var m := |steps| - 1;
            && StateAt(cfg, steps, m).Next?
            && var s, t := StateAt(cfg, steps, m).s, Exec(cfg, steps).s;
            if p < |s.log[rank]| then s.log[rank][p] == t.log[rank][p]
            else p == |s.log[rank]| && Added(cfg, s, t, rank, steps[m])
  {
    LastStep(cfg, steps);
    StepAdds(cfg, StateAt(cfg, steps, |steps| - 1).s, steps[|steps| - 1], rank);
  }

  /** The values an inner rank contributes to pulse p were sampled by its counting stage in the step that
      completed p, or ahead for p in the step that completed p - 1. */
  lemma {:induction false} OwnValues(cfg: Config, steps: seq<Step>, rank: int, p: nat) returns (i: nat, h: nat)
    requires cfg.Valid() && Exec(cfg, steps).Next? && 0 <= rank < cfg.n && !cfg.Leaf(rank)
    requires p < |Exec(cfg, steps).s.log[rank]|
    ensures SampledIn(cfg, steps, rank, p, Exec(cfg, steps).s.log[rank][p].values, i, h)
    decreases |steps|
  {
    LogKept(cfg, steps, rank, p);
    var m := |steps| - 1;
    var s := StateAt(cfg, steps, m).s;
    if p < |s.log[rank]| {
      i, h := OwnValues(cfg, steps[..m], rank, p);
      SampledLater(cfg, steps, rank, p, s.log[rank][p].values, i, h, m);
    } else {
      i := m;
      h := NewValues(cfg, steps, rank);
    }
  }

  // ------------------------------------------------------------- the own event itself

  ghost predicate AreValues(info: seq<Aggregate>, values: seq<int>) {
    && |info| == |values|
    && forall j :: 0 <= j < |info| ==> info[j].min == info[j].max == info[j].sum == values[j]
  }

  /** Step i completed pulse p and own is the event that it has caused. Its values and flags are those of
      step i and of its arrival, or else they were set ahead, in step h, which completed the pulse before. */
  ghost predicate SetIn(cfg: Config, steps: seq<Step>, rank: int, p: nat, own: Event, i: nat, h: nat)
    requires cfg.Valid() && 0 <= rank < cfg.n
  {
    && Completes(cfg, steps, rank, p, i) && own.timestamp == p
    && var e := Trigger(cfg, steps, rank, i);
    if p == 0 || e.updateFile || e.quit then
      own.updateFile == e.updateFile && own.quit == e.quit && AreValues(own.info, steps[i].now)
    else
      && Completes(cfg, steps, rank, p - 1, h)
      && var f := Trigger(cfg, steps, rank, h);
      own.updateFile == f.updateFile && own.quit == f.quit && AreValues(own.info, steps[h].next)
  }

  lemma SetLater(cfg: Config, steps: seq<Step>, rank: int, p: nat, own: Event, i: nat, h: nat, m: nat)
    requires cfg.Valid() && 0 <= rank < cfg.n && m <= |steps| && SetIn(cfg, steps[..m], rank, p, own, i, h)
    ensures SetIn(cfg, steps, rank, p, own, i, h)
  {
    CompletesLater(cfg, steps, rank, p, i, m);
    var e := Trigger(cfg, steps, rank, i);
    if !(p == 0 || e.updateFile || e.quit) {
      CompletesLater(cfg, steps, rank, p - 1, h, m);
    }
  }

  lemma SubmittedFlags(c: Counting, e: Event, site: Site, now: seq<int>)
    requires site.d != 0
    ensures var own := Submission(c.firstPulse, c.data, c.counter, e, site, now);
            c.firstPulse || e.updateFile || e.quit ==>
              own.updateFile == e.updateFile && own.quit == e.quit && AreValues(own.info, now)
  {
  }

  lemma SetAhead(e: Event, site: Site, ts: int, next: seq<int>)
    requires site.d != 0
    ensures var data := OwnEvent(site, ts, e, next);
            data.updateFile == e.updateFile && data.quit == e.quit && AreValues(data.info, next)
  {
  }

  /** The own event that the last step of the run has queued. */
  lemma NewOwn(cfg: Config, steps: seq<Step>, rank: int) returns (h: nat)
    requires cfg.Valid() && steps != [] && Exec(cfg, steps).Next? && 0 <= rank < cfg.n && !cfg.Leaf(rank)
    requires StateAt(cfg, steps, |steps| - 1).Next?
    requires Added(cfg, StateAt(cfg, steps, |steps| - 1).s, Exec(cfg, steps).s, rank, steps[|steps| - 1])
    ensures var p, fed := |StateAt(cfg, steps, |steps| - 1).s.log[rank]|, Exec(cfg, steps).s.node[rank].fed;
            fed != [] && SetIn(cfg, steps, rank, p, fed[|fed| - 1], |steps| - 1, h)
  {
    LastStep(cfg, steps);
    var i := |steps| - 1;
    var s := StateAt(cfg, steps, i).s;
    SubmittedValues(s.node[rank].counting, Trigger(cfg, steps, rank, i), cfg.At(rank), steps[i].now);
    SubmittedFlags(s.node[rank].counting, Trigger(cfg, steps, rank, i), cfg.At(rank), steps[i].now);
    h := 0;
    if s.log[rank] != [] {
      var p := |s.log[rank]|;
      h := DataFrom(cfg, steps[..i], rank);
      CompletesLater(cfg, steps, rank, p - 1, h, i);
      SetAhead(Trigger(cfg, steps, rank, h), cfg.At(rank), p, steps[h].next);
    }
  }

  lemma PrefixTake(v: seq<int>, w: seq<int>, k: nat)
    requires v <= w && k <= |v|
    ensures v[..k] == w[..k]
  {
  }

  lemma QueueLengths(cfg: Config, s: Sys, rank: int)
    requires Inv(cfg, s) && 0 <= rank < cfg.n && !cfg.Leaf(rank)
    ensures |s.node[rank].fed| == |s.node[rank].src|
  {
    InnerParts(cfg, s, rank);
  }

  lemma QueueKept(cfg: Config, steps: seq<Step>, rank: int, k: nat)
    requires cfg.Valid() && steps != [] && Exec(cfg, steps).Next? && 0 <= rank < cfg.n && !cfg.Leaf(rank)
    requires k < |Exec(cfg, steps).s.node[rank].src| && Exec(cfg, steps).s.node[rank].src[k] == rank
    ensures var m := |steps| - 1;
            && StateAt(cfg, steps, m).Next?
            && var s, t := StateAt(cfg, steps, m).s, Exec(cfg, steps).s;
            && var v, w := s.node[rank], t.node[rank];
            && |v.fed| == |v.src| && |w.fed| == |w.src|
            && if k < |v.src| then v.src[k] == rank && v.fed[k] == w.fed[k] && v.src[..k] == w.src[..k]
               else k == |v.src| == |w.src| - 1 && Occ(w.src[..k], rank) == |s.log[rank]|
                    && Added(cfg, s, t, rank, steps[m])
  {
    LastStep(cfg, steps);
    RunKeeps(cfg, steps);
    var s, t := StateAt(cfg, steps, |steps| - 1).s, Exec(cfg, steps).s;
    StepAdds(cfg, s, steps[|steps| - 1], rank);
    QueueLengths(cfg, s, rank);
    QueueLengths(cfg, t, rank);
    var v, w := s.node[rank].src, t.node[rank].src;
    if k <= |v| {
      PrefixTake(v, w, k);
      TakeAll(v, |v|);
    }
  }

  /** In every run, every own event in a rank's queue, field by field. */
  lemma {:induction false} OwnEvents(cfg: Config, steps: seq<Step>, rank: int, k: nat) returns (i: nat, h: nat)
    requires cfg.Valid() && Exec(cfg, steps).Next? && 0 <= rank < cfg.n && !cfg.Leaf(rank)
    requires k < |Exec(cfg, steps).s.node[rank].src| && Exec(cfg, steps).s.node[rank].src[k] == rank
    ensures var v := Exec(cfg, steps).s.node[rank];
            k < |v.fed| && SetIn(cfg, steps, rank, Occ(v.src[..k], rank), v.fed[k], i, h)
    decreases |steps|
  {
    QueueKept(cfg, steps, rank, k);
    var m := |steps| - 1;
    var v := StateAt(cfg, steps, m).s.node[rank];
    if k < |v.src| {
      i, h := OwnEvents(cfg, steps[..m], rank, k);
      SetLater(cfg, steps, rank, Occ(v.src[..k], rank), v.fed[k], i, h, m);
    } else {
      i := m;
      h := NewOwn(cfg, steps, rank);
    }
  }

  // ------------------------------------------------------------------ what leaves send

  /** Step i is the turn in which the leaf sends pulse p, and this is what it has put into its message and
      contributed: the values it measured, each being its own minimum, maximum and sum, the flags and the
      start time. */
  ghost predicate SentIn(cfg: Config, steps: seq<Step>, x: int, p: nat, e: Event, own: Sample, i: nat)
    requires cfg.Valid() && 0 <= x < cfg.n
  {
    && i < |steps| && steps[i].LeafSend? && steps[i].rank == x
    && StateAt(cfg, steps, i).Next? && |StateAt(cfg, steps, i).s.log[x]| == p
    && var v, u, q, t := steps[i].values, steps[i].update, steps[i].quit, steps[i].start;
    && own.values == v && own.start == t
    && e.timestamp == p && e.updateFile == u && e.quit == q && e.startTime == t && |e.info| == |v|
    && forall j :: 0 <= j < |e.info| ==> e.info[j].min == e.info[j].max == e.info[j].sum == v[j]
  }

  lemma SentLater(cfg: Config, steps: seq<Step>, x: int, p: nat, e: Event, own: Sample, i: nat, m: nat)
    requires cfg.Valid() && 0 <= x < cfg.n && m <= |steps| && SentIn(cfg, steps[..m], x, p, e, own, i)
    ensures SentIn(cfg, steps, x, p, e, own, i)
  {
    TakeOfTake(steps, m, i);
  }

  /** One step of a leaf's life: either it keeps what it has sent and contributed, or it sends one more. */
  lemma LeafStepAdds(cfg: Config, s: Sys, step: Step, x: int)
    requires Inv(cfg, s) && Apply(cfg, s, step).Next? && 0 <= x < cfg.n && cfg.Leaf(x)
    ensures var t := Apply(cfg, s, step).s;
            if step.LeafSend? && step.rank == x then
              && |t.sent[x]| == |s.sent[x]| + 1 && |t.log[x]| == |s.log[x]| + 1
              && s.sent[x] <= t.sent[x] && s.log[x] <= t.log[x]
            else t.sent[x] == s.sent[x] && t.log[x] == s.log[x]
  {
    if step.Deliver? {
      ParentBelow(step.child, cfg.d);
    }
  }

  lemma LastIsSent(cfg: Config, steps: seq<Step>, x: int)
    requires cfg.Valid() && steps != [] && Exec(cfg, steps).Next? && 0 <= x < cfg.n && cfg.Leaf(x)
    requires StateAt(cfg, steps, |steps| - 1).Next? && Inv(cfg, StateAt(cfg, steps, |steps| - 1).s)
    requires Exec(cfg, steps) == Apply(cfg, StateAt(cfg, steps, |steps| - 1).s, steps[|steps| - 1])
    requires steps[|steps| - 1].LeafSend? && steps[|steps| - 1].rank == x
    ensures var t, p := Exec(cfg, steps).s, |StateAt(cfg, steps, |steps| - 1).s.log[x]|;
            p < |t.sent[x]| && p < |t.log[x]| && SentIn(cfg, steps, x, p, t.sent[x][p], t.log[x][p], |steps| - 1)
  {
    assert RankOk(cfg, StateAt(cfg, steps, |steps| - 1).s, x);
  }

  /** In every run, message p of a leaf and its contribution to pulse p are what it measured in turn p. */
  lemma {:induction false} LeafValues(cfg: Config, steps: seq<Step>, x: int, p: nat) returns (i: nat)
    requires cfg.Valid() && Exec(cfg, steps).Next? && 0 <= x < cfg.n && cfg.Leaf(x)
    requires p < |Exec(cfg, steps).s.log[x]|
    ensures var s := Exec(cfg, steps).s;
            p < |s.sent[x]| && SentIn(cfg, steps, x, p, s.sent[x][p], s.log[x][p], i)
    decreases |steps|
  {
    LastStep(cfg, steps);
    var m := |steps| - 1;
    var s := StateAt(cfg, steps, m).s;
    LeafStepAdds(cfg, s, steps[m], x);
    if p < |s.log[x]| {
      i := LeafValues(cfg, steps[..m], x, p);
      SentLater(cfg, steps, x, p, s.sent[x][p], s.log[x][p], i, m);
    } else {
      i := m;
      LastIsSent(cfg, steps, x);
    }
  }
}
