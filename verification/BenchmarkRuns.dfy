/** Runs of the benchmarking build, whose counting stages keep one array cell per pulse. */
module BenchmarkRuns {
  import opened Events
  import opened Topology
  import opened OwnMetrics
  import opened Protocol
  import opened Invariants
  import opened Safety
  import opened RootSink
  import opened Theorems

  /** The protocol's state with the array stage of every rank; the table stages in s stay unused. */
  datatype BenchState = BenchState(s: Sys, stage: seq<ArrayCounting>)

  ghost function BenchInitial(cfg: Config): BenchState
    requires cfg.Valid() && cfg.pulses.Some?
  {
    BenchState(Initial(cfg), seq(cfg.n, _ => ArrayStart(cfg.pulses.value)))
  }

  ghost predicate BenchShape(cfg: Config, b: BenchState) {
    Shape(cfg, b.s) && |b.stage| == cfg.n
  }

  ghost predicate MayCountBench(cfg: Config, b: BenchState, rank: int, now: seq<int>, next: seq<int>)
    requires BenchShape(cfg, b)
  {
    && 0 <= rank < cfg.n && !cfg.Leaf(rank) && b.s.node[rank].counted < |b.s.node[rank].inbox|
    && MaySample(cfg, b.stage[rank].counter, now, next)
  }

  /** compute_own_metrics of this build; leaving its array is a failure. */
  ghost function DoCountBench(cfg: Config, b: BenchState, rank: int, now: seq<int>, next: seq<int>)
    : (r: Result<BenchState>)
    requires cfg.Valid() && BenchShape(cfg, b) && MayCountBench(cfg, b, rank, now, next)
    ensures r.Next? ==> BenchShape(cfg, r.s)
  {
    var v := b.s.node[rank];
    var o := OnArrivalArray(b.stage[rank], v.inbox[v.counted], cfg.At(rank), now, next);
    if o.Undefined? then Failed else
    Next(BenchState(Enqueue(b.s, rank, v.(counted := v.counted + 1), o.own), b.stage[rank := o.next]))
  }

  ghost function ApplyBench(cfg: Config, b: BenchState, step: Step): (r: Result<BenchState>)
    requires cfg.Valid() && BenchShape(cfg, b)
    ensures r.Next? ==> BenchShape(cfg, r.s)
  {
    if step.Count? then
      if MayCountBench(cfg, b, step.rank, step.now, step.next)
      then DoCountBench(cfg, b, step.rank, step.now, step.next) else Disabled
    else
      match Apply(cfg, b.s, step)
      case Failed => Failed
      case Disabled => Disabled
      case Next(t) => Next(BenchState(t, b.stage))
  }

  ghost function ExecBench(cfg: Config, steps: seq<Step>): (r: Result<BenchState>)
    requires cfg.Valid() && cfg.pulses.Some?
    ensures r.Next? ==> BenchShape(cfg, r.s)
  {
    if steps == [] then Next(BenchInitial(cfg)) else
    var r := ExecBench(cfg, steps[..|steps| - 1]);
    if r.Next? then ApplyBench(cfg, r.s, steps[|steps| - 1]) else r
  }

  // ------------------------------------------------------- the two builds in step

  /** The two nodes differ at most in the variables of the table stage. */
  ghost predicate SameNode(u: Node, v: Node) {
    u == v.(counting := u.counting)
  }

  ghost predicate StageAgrees(cfg: Config, a: ArrayCounting, v: Node, rank: int)
    requires cfg.Valid() && cfg.pulses.Some?
  {
    v.counted <= |v.arr| && SameCounting(v.counting, a, v.arr[..v.counted], cfg.Kids(rank), cfg.pulses.value)
  }

  /** Everything that leaves a counting stage is the same, and each array agrees with its table. */
  ghost predicate Alike(cfg: Config, b: BenchState, s: Sys)
    requires cfg.Valid() && cfg.pulses.Some?
  {
    && BenchShape(cfg, b) && Shape(cfg, s)
    && b.s.sent == s.sent && b.s.delivered == s.delivered && b.s.stopped == s.stopped && b.s.log == s.log
    && (forall r :: 0 <= r < cfg.n ==> SameNode(b.s.node[r], s.node[r]))
    && (forall r :: 0 <= r < cfg.n && !cfg.Leaf(r) ==> StageAgrees(cfg, b.stage[r], s.node[r], r))
  }

  ghost predicate Matches(cfg: Config, x: Result<BenchState>, y: Result<Sys>)
    requires cfg.Valid() && cfg.pulses.Some?
  {
    && !x.Failed? && !y.Failed? && (x.Next? <==> y.Next?)
    && (x.Next? ==> Alike(cfg, x.s, y.s))
  }

  /** The arrivals a stage has seen are an interleaving of the children's streams 0, 1, 2, ... */
  lemma ArrivalsInterleave(cfg: Config, s: Sys, rank: int)
    requires Inv(cfg, s) && cfg.pulses.Some? && 0 <= rank < cfg.n && !cfg.Leaf(rank)
    ensures Interleaving(s.node[rank].arr, s.node[rank].inbox, cfg.Kids(rank), cfg.pulses.value)
  {
    InnerParts(cfg, s, rank);
    forall i | 0 <= i < |s.node[rank].arr|
      ensures s.node[rank].arr[i] in cfg.Kids(rank)
      ensures s.node[rank].inbox[i].timestamp == Occ(s.node[rank].arr[..i], s.node[rank].arr[i]) < cfg.pulses.value
      ensures s.node[rank].inbox[i].quit <==> s.node[rank].inbox[i].timestamp == cfg.pulses.value - 1
    {
      ArrivalIsGood(cfg, s, rank, i);
    }
  }

  /** One arrival in both stages: the same own event, and the array still agrees with the table. */
  lemma StagesMatch(cfg: Config, a: ArrayCounting, s: Sys, rank: int, now: seq<int>, next: seq<int>)
    requires Inv(cfg, s) && cfg.pulses.Some? && MayCount(cfg, s, rank, now, next)
    requires StageAgrees(cfg, a, s.node[rank], rank)
    ensures var v := s.node[rank];
            var o := OnArrival(v.counting, v.inbox[v.counted], cfg.At(rank), now, next);
            var p := OnArrivalArray(a, v.inbox[v.counted], cfg.At(rank), now, next);
            && o.Counted? && p.Counted? && o.own == p.own && v.counted + 1 <= |v.arr|
            && SameCounting(o.next, p.next, v.arr[..v.counted + 1], cfg.Kids(rank), cfg.pulses.value)
  {
    var v := s.node[rank];
    NextArrival(cfg, s, rank);
    ArrivalsInterleave(cfg, s, rank);
    ArrivalAgrees(v.counting, a, v.arr[..v.counted], cfg.Kids(rank), cfg.pulses.value, v.arr[v.counted],
                  v.inbox[v.counted], cfg.At(rank), now, next);
  }

  /** Both builds queue the same own event. */
  lemma EnqueueAlike(cfg: Config, b: BenchState, s: Sys, rank: int, u: Node, v: Node, a: ArrayCounting, own: seq<Event>)
    requires cfg.Valid() && cfg.pulses.Some? && Alike(cfg, b, s) && 0 <= rank < cfg.n
    requires SameNode(u, v) && StageAgrees(cfg, a, v, rank)
    ensures Alike(cfg, BenchState(Enqueue(b.s, rank, u, own), b.stage[rank := a]), Enqueue(s, rank, v, own))
  {
  }

  lemma CountMatches(cfg: Config, b: BenchState, s: Sys, rank: int, now: seq<int>, next: seq<int>)
    requires Inv(cfg, s) && cfg.pulses.Some? && Alike(cfg, b, s) && MayCount(cfg, s, rank, now, next)
    ensures MayCountBench(cfg, b, rank, now, next)
    ensures Matches(cfg, DoCountBench(cfg, b, rank, now, next), DoCount(cfg, s, rank, now, next))
  {
    StagesMatch(cfg, b.stage[rank], s, rank, now, next);
    var v := s.node[rank];
    var o := OnArrival(v.counting, v.inbox[v.counted], cfg.At(rank), now, next);
    var p := OnArrivalArray(b.stage[rank], v.inbox[v.counted], cfg.At(rank), now, next);
    var u := b.s.node[rank].(counted := v.counted + 1);
    EnqueueAlike(cfg, b, s, rank, u, v.(counted := v.counted + 1, counting := o.next), p.next, o.own);
  }

  lemma SendMatches(cfg: Config, b: BenchState, s: Sys, rank: int, values: seq<int>, update: bool, quit: bool,
                    start: real)
    requires cfg.Valid() && cfg.pulses.Some? && Alike(cfg, b, s)
    ensures var step := LeafSend(rank, values, update, quit, start);
            Matches(cfg, ApplyBench(cfg, b, step), Apply(cfg, s, step))
  {
  }

  lemma DeliverMatches(cfg: Config, b: BenchState, s: Sys, child: int)
    requires cfg.Valid() && cfg.pulses.Some? && Alike(cfg, b, s)
    ensures Matches(cfg, ApplyBench(cfg, b, Deliver(child)), Apply(cfg, s, Deliver(child)))
  {
    if 1 <= child < cfg.n && s.delivered[child] < |s.sent[child]| {
      ParentBelow(child, cfg.d);
      var rank := ParentRank(child, cfg.d);
      var v, w := s.node[rank], DoDeliver(cfg, s, child).node[rank];
      assert v.counted <= |v.arr| ==> w.arr[..v.counted] == v.arr[..v.counted];
    }
  }

  lemma ActivateMatches(cfg: Config, b: BenchState, s: Sys, rank: int)
    requires Inv(cfg, s) && cfg.pulses.Some? && Alike(cfg, b, s)
    ensures Matches(cfg, ApplyBench(cfg, b, Activate(rank)), Apply(cfg, s, Activate(rank)))
  {
    StepKeeps(cfg, s, Activate(rank));
  }

  /** A step of anything but a counting stage does not look at one. */
  lemma OtherStepsMatch(cfg: Config, b: BenchState, s: Sys, step: Step)
    requires Inv(cfg, s) && cfg.pulses.Some? && Alike(cfg, b, s) && !step.Count?
    ensures Matches(cfg, ApplyBench(cfg, b, step), Apply(cfg, s, step))
  {
    match step
    case LeafSend(rank, values, update, quit, start) => SendMatches(cfg, b, s, rank, values, update, quit, start);
    case Deliver(child) => DeliverMatches(cfg, b, s, child);
    case Activate(rank) => ActivateMatches(cfg, b, s, rank);
  }

  lemma BenchStart(cfg: Config)
    requires cfg.Valid() && cfg.pulses.Some?
    ensures Alike(cfg, BenchInitial(cfg), Initial(cfg))
  {
    forall r, ts: nat | 0 <= r < cfg.n
      ensures |Above([], cfg.Kids(r), ts)| == 0
    {
      assert Above([], cfg.Kids(r), ts) == {};
    }
  }

  /** The builds do the same: no run of the benchmarking build leaves an array, it allows the same steps
      as the hash-table build, and everything but the counting stages' own variables is the same. */
  lemma {:induction false} BenchmarkRefines(cfg: Config, steps: seq<Step>)
    requires cfg.Valid() && cfg.pulses.Some?
    ensures Matches(cfg, ExecBench(cfg, steps), Exec(cfg, steps))
  {
    if steps == [] {
      BenchStart(cfg);
    } else {
      var before, step := steps[..|steps| - 1], steps[|steps| - 1];
      BenchmarkRefines(cfg, before);
      RunKeeps(cfg, before);
      if Exec(cfg, before).Next? {
        var b, s := ExecBench(cfg, before).s, Exec(cfg, before).s;
        if step.Count? {
          if MayCount(cfg, s, step.rank, step.now, step.next) {
            CountMatches(cfg, b, s, step.rank, step.now, step.next);
          }
        } else {
          OtherStepsMatch(cfg, b, s, step);
        }
      }
    }
  }

  /** With an agreed number of pulses and at least one metric per pulse, the benchmarking root
      measures pulse p at index p, never leaves its array, closes its file once, and finishes exactly
      when the last pulse is published. */
  lemma BenchmarkFinishesWithLastPulse(cfg: Config, steps: seq<Step>, m: nat, ends: seq<real>)
    requires cfg.Valid() && cfg.pulses.Some? && ExecBench(cfg, steps).Next?
    requires m <= |ExecBench(cfg, steps).s.s.sent[0]| && |ends| == m
    requires forall p: nat :: cfg.width(p) >= 1
    ensures var s := ExecBench(cfg, steps).s.s;
            var k := RunBench(s.sent[0][..m], ends, cfg.pulses.value);
            && k.Sunk? && k.next.pulse == m <= cfg.pulses.value
            && (k.next.finished <==> m == cfg.pulses.value)
            && forall p :: 0 <= p < m ==>
                 && |k.next.times| == cfg.pulses.value
                 && k.next.times[p] == ends[p] - s.sent[0][p].startTime
                 && Correct(cfg, s, 0, p, s.sent[0][p])
  {
    BenchmarkRefines(cfg, steps);
    RunKeeps(cfg, steps);
    var s := Exec(cfg, steps).s;
    RootIsBenchStream(cfg, s, m);
    BenchMeasures(s.sent[0][..m], ends, cfg.pulses.value);
    forall p | 0 <= p < m
      ensures Correct(cfg, s, 0, p, s.sent[0][p])
    {
      EveryMessageIsCorrect(cfg, steps, 0, p);
    }
  }
}
