/** The tree-aggregation protocol as a transition system over all ranks. */
module Protocol {
  import opened Events
  import opened Topology
  import opened QueueHandler
  import opened HandlerRuns
  import opened OwnMetrics
  import opened Totals

  /** n ranks with fan-out d; width(p) is the number of metrics of pulse p; pulses is the agreed
      number of pulses, if there is one (the benchmarking build has one, and a monitored run may). */
  datatype Config = Config(n: int, d: int, width: nat -> nat, pulses: Option<nat>) {
    ghost predicate Valid() {
      n > 1 && d >= 1 && (pulses.Some? ==> pulses.value >= 1)
    }

    function At(rank: int): Site { Site(rank, d, n) }

    ghost function Kids(rank: int): set<int>
      requires d >= 1
    {
      Children(rank, d, n)
    }

    predicate Leaf(rank: int) { IsLeaf(rank, d, n) }

    ghost function Below(rank: int): set<int>
      requires d >= 1
    {
      Subtree(rank, d, n)
    }
  }

  /** One inner rank. A first-in-first-out queue is kept as the list of everything put into it and
      the number of items taken out; the last three fields are history that no step reads. */
  datatype Node = Node(
    inbox: seq<Event>,      // the terminal stone's queue
    counted: nat,           //   and how many of it compute_own_metrics has seen
    counting: Counting,
    queue: seq<Event>,      // the multi stone's queue
    statics: Statics,
    arr: seq<int>,          // which child sent inbox[i]
    fed: seq<Event>,        // everything ever put into the multi stone's queue
    src: seq<int>)          //   and which child, or the rank itself, it came from

  const IDLE := Node([], 0, START, [], INITIAL, [], [], [])

  /** sent[r] is everything rank r has sent up its edge (the root: to final_result), delivered[r] how
      much of it has arrived; log[r] is what r contributed, one sample per pulse. */
  datatype Sys = Sys(
    sent: seq<seq<Event>>,
    delivered: seq<nat>,
    node: seq<Node>,
    stopped: seq<bool>,
    log: seq<seq<Sample>>)

  function Initial(cfg: Config): Sys
    requires cfg.n >= 0
  {
    Sys(seq(cfg.n, _ => []), seq(cfg.n, _ => 0), seq(cfg.n, _ => IDLE),
        seq(cfg.n, _ => false), seq(cfg.n, _ => []))
  }

  datatype Step =
    | LeafSend(rank: int, values: seq<int>, update: bool, quit: bool, start: real)
    | Deliver(child: int)
    | Count(rank: int, now: seq<int>, next: seq<int>)
    | Activate(rank: int)

  /** What a step does: it may run into undefined behaviour, or not be possible. */
  datatype Result<S> = Failed | Disabled | Next(s: S)

  ghost predicate Shape(cfg: Config, s: Sys) {
    |s.sent| == |s.delivered| == |s.node| == |s.stopped| == |s.log| == cfg.n
  }

  /** The message a leaf builds in its send loop (start_communication). */
  function LeafEvent(cfg: Config, rank: int, p: int, values: seq<int>, update: bool, quit: bool, start: real): Event
    requires cfg.d != 0
  {
    Event(Sampled(values), cfg.d, update, ParentRank(rank, cfg.d), cfg.n, p, quit, start)
  }

  ghost predicate LeafMaySend(cfg: Config, s: Sys, rank: int, values: seq<int>, update: bool, quit: bool, start: real)
    requires Shape(cfg, s)
  {
    && 0 <= rank < cfg.n && cfg.Leaf(rank) && !s.stopped[rank]
    && var p := |s.sent[rank]|;
    && |values| == cfg.width(p)
    && (p > 0 && cfg.width(p) != cfg.width(p - 1) ==> update)
    && start != NO_START
    && (cfg.pulses.Some? ==> (quit <==> p == cfg.pulses.value - 1))
  }

  /** A leaf sends its next pulse and leaves the loop after the message that says quit. */
  ghost function DoLeafSend(cfg: Config, s: Sys, rank: int, values: seq<int>, update: bool, quit: bool, start: real)
    : (t: Sys)
    requires cfg.Valid() && Shape(cfg, s) && LeafMaySend(cfg, s, rank, values, update, quit, start)
    ensures Shape(cfg, t)
  {
    var p := |s.sent[rank]|;
    s.(sent := s.sent[rank := s.sent[rank] + [LeafEvent(cfg, rank, p, values, update, quit, start)]],
       stopped := s.stopped[rank := quit],
       log := s.log[rank := s.log[rank] + [Sample(values, start)]])
  }

  /** The split stone hands the next event of an edge to the counting stage and to the queue. */
  ghost function DoDeliver(cfg: Config, s: Sys, child: int): (t: Sys)
    requires cfg.Valid() && Shape(cfg, s) && 1 <= child < cfg.n && s.delivered[child] < |s.sent[child]|
    ensures Shape(cfg, t)
  {
    ParentBelow(child, cfg.d);
    var rank, e := ParentRank(child, cfg.d), s.sent[child][s.delivered[child]];
    var v := s.node[rank];
    s.(delivered := s.delivered[child := s.delivered[child] + 1],
       node := s.node[rank := v.(inbox := v.inbox + [e], arr := v.arr + [child],
                                 queue := v.queue + [e], fed := v.fed + [e], src := v.src + [child])])
  }

  /** now is sampled for the current pulse; next is sampled ahead for the one after it, and while the
      number of metrics stays the same it has that many values. Where the number changes, the code may
      still sample the old one, so nothing is known about next. */
  ghost predicate MaySample(cfg: Config, p: int, now: seq<int>, next: seq<int>) {
    0 <= p && |now| == cfg.width(p) && (cfg.width(p + 1) == cfg.width(p) ==> |next| == cfg.width(p + 1))
  }

  ghost predicate MayCount(cfg: Config, s: Sys, rank: int, now: seq<int>, next: seq<int>)
    requires Shape(cfg, s)
  {
    && 0 <= rank < cfg.n && !cfg.Leaf(rank) && s.node[rank].counted < |s.node[rank].inbox|
    && MaySample(cfg, s.node[rank].counting.counter, now, next)
  }

  function ValuesOf(info: seq<Aggregate>): seq<int> {
    seq(|info|, j requires 0 <= j < |info| => info[j].sum)
  }

  /** v becomes the node of rank, with its own event, if there is one, at the end of its queue. */
  ghost function Enqueue(s: Sys, rank: int, v: Node, own: seq<Event>): Sys
    requires 0 <= rank < |s.node| && rank < |s.log|
  {
    if own == [] then s.(node := s.node[rank := v]) else
    s.(node := s.node[rank := v.(queue := v.queue + [own[0]], fed := v.fed + [own[0]], src := v.src + [rank])],
       log := s.log[rank := s.log[rank] + [Sample(ValuesOf(own[0].info), NO_START)]])
  }

  /** compute_own_metrics looks at the next arrival; an own event goes to the end of the queue. */
  ghost function DoCount(cfg: Config, s: Sys, rank: int, now: seq<int>, next: seq<int>): (r: Result<Sys>)
    requires cfg.Valid() && Shape(cfg, s) && MayCount(cfg, s, rank, now, next)
    ensures r.Next? ==> Shape(cfg, r.s)
  {
    var v := s.node[rank];
    var o := OnArrival(v.counting, v.inbox[v.counted], cfg.At(rank), now, next);
    if o.Undefined? then Failed else
    var v1 := v.(counted := v.counted + 1, counting := o.next);
    Next(Enqueue(s, rank, v1, o.own))
  }

  /** The queue handler runs; it is only ever started on a queue that holds something. */
  ghost function DoActivate(cfg: Config, s: Sys, rank: int): (r: Result<Sys>)
    requires cfg.Valid() && Shape(cfg, s) && 0 <= rank < cfg.n
    ensures r.Next? ==> Shape(cfg, r.s)
  {
    var v := s.node[rank];
    var o := Activation(v.statics, v.queue);
    if o.Crash? then Failed else
    Next(s.(node := s.node[rank := v.(queue := o.queue, statics := o.statics)],
            sent := s.sent[rank := s.sent[rank] + o.submitted]))
  }

  ghost function Apply(cfg: Config, s: Sys, step: Step): (r: Result<Sys>)
    requires cfg.Valid() && Shape(cfg, s)
    ensures r.Next? ==> Shape(cfg, r.s)
  {
    match step
    case LeafSend(rank, values, update, quit, start) =>
      if LeafMaySend(cfg, s, rank, values, update, quit, start)
      then Next(DoLeafSend(cfg, s, rank, values, update, quit, start)) else Disabled
    case Deliver(child) =>
      if 1 <= child < cfg.n && s.delivered[child] < |s.sent[child]|
      then Next(DoDeliver(cfg, s, child)) else Disabled
    case Count(rank, now, next) =>
      if MayCount(cfg, s, rank, now, next) then DoCount(cfg, s, rank, now, next) else Disabled
    case Activate(rank) =>
      if 0 <= rank < cfg.n && !cfg.Leaf(rank) && s.node[rank].queue != []
      then DoActivate(cfg, s, rank) else Disabled
  }

  /** Where a list of steps leads, from the state in which nothing has happened. */
  ghost function Exec(cfg: Config, steps: seq<Step>): (r: Result<Sys>)
    requires cfg.Valid()
    ensures r.Next? ==> Shape(cfg, r.s)
  {
    if steps == [] then Next(Initial(cfg)) else
    var r := Exec(cfg, steps[..|steps| - 1]);
    if r.Next? then Apply(cfg, r.s, steps[|steps| - 1]) else r
  }
}
