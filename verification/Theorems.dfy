/** What every run guarantees about the messages of a rank and about what the root publishes. */
module Theorems {
  import opened Events
  import opened Topology
  import opened Totals
  import opened HandlerRuns
  import opened QueueHandler
  import opened OwnMetrics
  import opened Protocol
  import opened Invariants
  import opened Safety
  import opened RootSink
  import Feeds

  predicate HasMetric(log: seq<seq<Sample>>, x: int, p: nat, j: nat) {
    0 <= x < |log| && p < |log[x]| && j < |log[x][p].values|
  }

  /** The value that rank x measured for metric j of pulse p. */
  function Measured(log: seq<seq<Sample>>, x: int, p: nat, j: nat): int
    requires HasMetric(log, x, p, j)
  {
    log[x][p].values[j]
  }

  /** The plain sum over the ranks of s below m. */
  ghost function SumOver(log: seq<seq<Sample>>, s: set<int>, p: nat, j: nat, m: nat): int
    requires forall x :: x in s && x < m ==> HasMetric(log, x, p, j)
  {
    if m == 0 then 0 else
    SumOver(log, s, p, j, m - 1) + if m - 1 in s then Measured(log, m - 1, p, j) else 0
  }

  /** a is the minimum, maximum and sum of metric j over the ranks of s below m. */
  ghost predicate Summarizes(a: Aggregate, log: seq<seq<Sample>>, s: set<int>, p: nat, j: nat, m: nat) {
    && (forall x :: x in s && x < m ==> HasMetric(log, x, p, j))
    && (forall x :: x in s && x < m ==> a.min <= Measured(log, x, p, j) <= a.max)
    && (exists x :: x in s && x < m && Measured(log, x, p, j) == a.min)
    && (exists x :: x in s && x < m && Measured(log, x, p, j) == a.max)
    && a.sum == SumOver(log, s, p, j, m)
  }

  /** t is the earliest start time among the leaves of s below m. */
  ghost predicate EarliestStart(t: real, l: Ledger, s: set<int>, p: nat, m: nat)
    requires l.Has(s, p)
  {
    && (exists x :: x in s && x < m && IsLeaf(x, l.d, l.n) && l.log[x][p].start == t)
    && (forall x :: x in s && x < m && IsLeaf(x, l.d, l.n) ==> t <= l.log[x][p].start)
  }

  /** Nobody below m contributes, if the fold is empty. */
  lemma {:induction false} TotalEmpty(l: Ledger, s: set<int>, p: nat, m: nat)
    requires l.Has(s, p) && l.Total(s, p, m).None?
    ensures forall x :: x in s ==> x >= m
  {
    if m > 0 {
      TotalEmpty(l, s, p, m - 1);
    }
  }

  lemma {:induction false} NoneBelow(l: Ledger, s: set<int>, p: nat, j: nat, m: nat)
    requires forall x :: x in s ==> x >= m
    ensures SumOver(l.log, s, p, j, m) == 0
  {
    if m > 0 {
      NoneBelow(l, s, p, j, m - 1);
    }
  }

  lemma StepSummarizes(a: Aggregate, l: Ledger, s: set<int>, p: nat, j: nat, m: nat)
    requires m >= 1 && Summarizes(a, l.log, s, p, j, m - 1)
    requires m - 1 in s ==> HasMetric(l.log, m - 1, p, j)
    ensures m - 1 !in s ==> Summarizes(a, l.log, s, p, j, m)
    ensures m - 1 in s ==> var v := Measured(l.log, m - 1, p, j);
                           Summarizes(Combine(a, Aggregate(v, v, v)), l.log, s, p, j, m)
  {
    var lo :| lo in s && lo < m - 1 && Measured(l.log, lo, p, j) == a.min;
    var hi :| hi in s && hi < m - 1 && Measured(l.log, hi, p, j) == a.max;
    if m - 1 in s {
      var v := Measured(l.log, m - 1, p, j);
      var b := Combine(a, Aggregate(v, v, v));
      assert Measured(l.log, if a.min > v then m - 1 else lo, p, j) == b.min;
      assert Measured(l.log, if a.max < v then m - 1 else hi, p, j) == b.max;
    }
  }

  /** The fold that the tree is proved to compute means what the plain definitions say. */
  lemma {:induction false} TotalSummarizes(l: Ledger, s: set<int>, p: nat, m: nat, j: nat)
    requires l.Has(s, p) && l.Total(s, p, m).Some? && j < |l.Total(s, p, m).value.info|
    ensures Summarizes(l.Total(s, p, m).value.info[j], l.log, s, p, j, m)
    decreases m
  {
    var before := l.Total(s, p, m - 1);
    if before.None? {
      TotalEmpty(l, s, p, m - 1);
      NoneBelow(l, s, p, j, m - 1);
      assert Measured(l.log, m - 1, p, j) == l.Total(s, p, m).value.info[j].min;
    } else {
      TotalSummarizes(l, s, p, m - 1, j);
      StepSummarizes(before.value.info[j], l, s, p, j, m);
    }
  }

  lemma {:induction false} TotalStart(l: Ledger, s: set<int>, p: nat, m: nat)
    requires l.Has(s, p)
    ensures var t := l.Total(s, p, m);
            if t.Some? && t.value.start.Some? then EarliestStart(t.value.start.value, l, s, p, m)
            else forall x :: x in s && x < m ==> !IsLeaf(x, l.d, l.n)
  {
    if m > 0 {
      TotalStart(l, s, p, m - 1);
      var before := l.Total(s, p, m - 1);
      if before.Some? && before.value.start.Some? {
        var x :| x in s && x < m - 1 && IsLeaf(x, l.d, l.n) && l.log[x][p].start == before.value.start.value;
        var t := l.Total(s, p, m).value.start.value;
        if t == before.value.start.value {
          assert l.log[x][p].start == t;
        } else {
          assert l.log[m - 1][p].start == t;
        }
      } else if m - 1 in s && IsLeaf(m - 1, l.d, l.n) {
        assert l.log[m - 1][p].start == l.Total(s, p, m).value.start.value;
      }
    }
  }

  /** What a rank's message for a pulse must say, in plain terms. */
  ghost predicate Correct(cfg: Config, s: Sys, rank: int, p: nat, e: Event)
    requires cfg.Valid() && Shape(cfg, s)
  {
    var below := cfg.Below(rank);
    && e.timestamp == p && e.parentRank == ParentRank(rank, cfg.d)
    && |e.info| == cfg.width(p)
    && LedgerOf(cfg, s).Has(below, p)
    && (forall j :: 0 <= j < |e.info| ==> Summarizes(e.info[j], s.log, below, p, j, cfg.n))
    && e.startTime != NO_START
    && (cfg.width(p) >= 1 ==> EarliestStart(e.startTime, LedgerOf(cfg, s), below, p, cfg.n))
  }

  lemma GoodIsCorrect(cfg: Config, s: Sys, rank: int, p: nat, e: Event)
    requires cfg.Valid() && Shape(cfg, s) && Good(cfg, s, rank, p, e)
    ensures Correct(cfg, s, rank, p, e)
  {
    var l := LedgerOf(cfg, s);
    forall j | 0 <= j < |e.info|
      ensures Summarizes(e.info[j], s.log, cfg.Below(rank), p, j, cfg.n)
    {
      TotalSummarizes(l, cfg.Below(rank), p, cfg.n, j);
    }
    TotalStart(l, cfg.Below(rank), p, cfg.n);
  }

  /** In every run, the messages a rank has sent are those of pulses 0, 1, 2, ... without gap or
      repeat, and message p is the minimum, maximum and sum of what the ranks of its subtree
      contributed to pulse p, each counted once, with the earliest start time of its leaves. */
  lemma EveryMessageIsCorrect(cfg: Config, steps: seq<Step>, rank: int, p: nat)
    requires cfg.Valid() && Exec(cfg, steps).Next? && 0 <= rank < cfg.n
    requires p < |Exec(cfg, steps).s.sent[rank]|
    ensures var s := Exec(cfg, steps).s; Correct(cfg, s, rank, p, s.sent[rank][p])
  {
    RunKeeps(cfg, steps);
    var s := Exec(cfg, steps).s;
    GoodSent(cfg, s, rank, p);
    GoodIsCorrect(cfg, s, rank, p, s.sent[rank][p]);
  }

  /** The state of the root's sink once it has received its first m events. */
  ghost function Published(cfg: Config, s: Sys, m: nat): RootSink.Outcome<Sink>
    requires cfg.Valid() && Shape(cfg, s) && m <= |s.sent[0]|
  {
    RunSink(s.sent[0][..m], cfg.n)
  }

  /** a is what the root shows for metric j after pulse p: over all ranks, each counted once. */
  ghost predicate ShowsAll(a: SysMetric, cfg: Config, s: Sys, p: nat, j: nat)
    requires cfg.Valid() && Shape(cfg, s)
  {
    exists sum :: Summarizes(Aggregate(a.min, a.max, sum), s.log, cfg.Below(0), p, j, cfg.n)
                  && a.avg == sum as real / cfg.n as real
  }

  lemma RootStreamFlagged(cfg: Config, s: Sys, m: nat)
    requires Inv(cfg, s) && m <= |s.sent[0]|
    ensures Flagged(s.sent[0][..m])
  {
    var es := s.sent[0][..m];
    forall p | 0 < p < m && |es[p].info| != |es[p - 1].info|
      ensures es[p].updateFile
    {
      GoodSent(cfg, s, 0, p);
      GoodSent(cfg, s, 0, p - 1);
    }
  }

  /** The main theorem: after its m-th event the root's buffer holds, for every metric of pulse m - 1,
      the minimum, the maximum and the average over all n ranks, and nothing was overrun. */
  lemma RootPublishesTotals(cfg: Config, steps: seq<Step>, m: nat)
    requires cfg.Valid() && Exec(cfg, steps).Next? && m <= |Exec(cfg, steps).s.sent[0]|
    ensures var s := Exec(cfg, steps).s;
            var k := Published(cfg, s, m);
            && k.Sunk? && k.next.pulse == m
            && (forall x :: x in cfg.Below(0) <==> 0 <= x < cfg.n)
            && (m > 0 ==> |k.next.results| == cfg.width(m - 1)
                          && forall j :: 0 <= j < cfg.width(m - 1) ==> ShowsAll(k.next.results[j], cfg, s, m - 1, j))
  {
    RunKeeps(cfg, steps);
    var s := Exec(cfg, steps).s;
    var es := s.sent[0][..m];
    RootSubtree(cfg.d, cfg.n);
    RootStreamFlagged(cfg, s, m);
    SinkShowsLast(es, cfg.n);
    if m > 0 {
      var e := es[m - 1];
      EveryMessageIsCorrect(cfg, steps, 0, m - 1);
      forall j | 0 <= j < cfg.width(m - 1)
        ensures ShowsAll(Published(cfg, s, m).next.results[j], cfg, s, m - 1, j)
      {
        assert Summarizes(e.info[j], s.log, cfg.Below(0), m - 1, j, cfg.n);
        assert Aggregate(e.info[j].min, e.info[j].max, e.info[j].sum) == e.info[j];
      }
    }
  }

  /** Every rank of s contributed the same values to pulse p in both ledgers; and the same start. */
  ghost predicate SameValues(l: Ledger, k: Ledger, s: set<int>, p: nat)
    requires l.Has(s, p) && k.Has(s, p)
  {
    forall x :: x in s ==> l.log[x][p].values == k.log[x][p].values
  }

  ghost predicate SameStarts(l: Ledger, k: Ledger, s: set<int>, p: nat)
    requires l.Has(s, p) && k.Has(s, p)
  {
    forall x :: x in s && IsLeaf(x, l.d, l.n) ==> l.log[x][p].start == k.log[x][p].start
  }

  lemma {:induction false} SameTotals(l: Ledger, k: Ledger, s: set<int>, p: nat, m: nat)
    requires l.Has(s, p) && k.Has(s, p) && l.d == k.d && l.n == k.n && SameValues(l, k, s, p)
    ensures var t, u := l.Total(s, p, m), k.Total(s, p, m);
            && (t.Some? <==> u.Some?) && (t.Some? ==> t.value.info == u.value.info)
            && (t.Some? && SameStarts(l, k, s, p) ==> t.value.start == u.value.start)
  {
    if m > 0 {
      SameTotals(l, k, s, p, m - 1);
    }
  }

  lemma SameMessage(cfg: Config, s: Sys, t: Sys, rank: int, p: nat, e: Event, f: Event)
    requires cfg.Valid() && Shape(cfg, s) && Shape(cfg, t)
    requires Carries(cfg, s, cfg.Below(rank), p, e) && Carries(cfg, t, cfg.Below(rank), p, f)
    requires SameValues(LedgerOf(cfg, s), LedgerOf(cfg, t), cfg.Below(rank), p)
    ensures e.info == f.info
    ensures SameStarts(LedgerOf(cfg, s), LedgerOf(cfg, t), cfg.Below(rank), p) && cfg.width(p) >= 1 ==>
              e.startTime == f.startTime
  {
    SameTotals(LedgerOf(cfg, s), LedgerOf(cfg, t), cfg.Below(rank), p, cfg.n);
  }

  /** The order of sends, deliveries and activations does not matter: two runs in which the ranks at
      and below some rank contributed the same values to a pulse send the same aggregate for it; and
      the same start time, if its leaves also recorded the same ones. */
  lemma OrderDoesNotMatter(cfg: Config, one: seq<Step>, two: seq<Step>, rank: int, p: nat)
    requires cfg.Valid() && Exec(cfg, one).Next? && Exec(cfg, two).Next? && 0 <= rank < cfg.n
    requires p < |Exec(cfg, one).s.sent[rank]| && p < |Exec(cfg, two).s.sent[rank]|
    ensures var s, t := Exec(cfg, one).s, Exec(cfg, two).s;
            var l, k := LedgerOf(cfg, s), LedgerOf(cfg, t);
            && l.Has(cfg.Below(rank), p) && k.Has(cfg.Below(rank), p)
            && (SameValues(l, k, cfg.Below(rank), p) ==> s.sent[rank][p].info == t.sent[rank][p].info)
            && (SameValues(l, k, cfg.Below(rank), p) && SameStarts(l, k, cfg.Below(rank), p) && cfg.width(p) >= 1 ==>
                  s.sent[rank][p].startTime == t.sent[rank][p].startTime)
  {
    RunKeeps(cfg, one);
    RunKeeps(cfg, two);
    var s, t := Exec(cfg, one).s, Exec(cfg, two).s;
    GoodSent(cfg, s, rank, p);
    GoodSent(cfg, t, rank, p);
    if SameValues(LedgerOf(cfg, s), LedgerOf(cfg, t), cfg.Below(rank), p) {
      SameMessage(cfg, s, t, rank, p, s.sent[rank][p], t.sent[rank][p]);
    }
  }

  lemma RootIsBenchStream(cfg: Config, s: Sys, m: nat)
    requires Inv(cfg, s) && cfg.pulses.Some? && m <= |s.sent[0]|
    requires forall p: nat :: cfg.width(p) >= 1
    ensures BenchStream(s.sent[0][..m], cfg.pulses.value)
  {
    forall p | 0 <= p < m
      ensures var e := s.sent[0][..m][p];
              e.timestamp == p < cfg.pulses.value && e.info != [] && (e.quit <==> p == cfg.pulses.value - 1)
    {
      GoodSent(cfg, s, 0, p);
    }
  }

  /** With an agreed number of pulses the flag that the monitoring root's finalize waits for is raised
      by the last pulse and not before. */
  lemma MonitoringFinishesWithLastPulse(cfg: Config, steps: seq<Step>, m: nat)
    requires cfg.Valid() && cfg.pulses.Some? && Exec(cfg, steps).Next? && m <= |Exec(cfg, steps).s.sent[0]|
    requires forall p: nat :: cfg.width(p) >= 1
    ensures m <= cfg.pulses.value
    ensures var k := Published(cfg, Exec(cfg, steps).s, m);
            k.Sunk? && (k.next.finished <==> m == cfg.pulses.value) && (k.next.available <==> m > 0)
  {
    RunKeeps(cfg, steps);
    var s := Exec(cfg, steps).s;
    var es := s.sent[0][..m];
    RootStreamFlagged(cfg, s, m);
    SinkShowsLast(es, cfg.n);
    RootIsBenchStream(cfg, s, m);
    if m > 0 {
      assert es[m - 1].timestamp == m - 1;
    }
  }

  /** At every node and at every moment of every run: an activation of the handler is undefined
      exactly if nothing is queued and no pulse is being merged, which is never when it is started;
      after it, the handler is idle only with an empty queue; a resumed scan equals a full scan; and
      the degree it took from the message is the node's own. */
  lemma HandlerIsSafe(cfg: Config, steps: seq<Step>, rank: int)
    requires cfg.Valid() && Exec(cfg, steps).Next? && 0 <= rank < cfg.n && !cfg.Leaf(rank)
    ensures var s := Exec(cfg, steps).s;
            var v := s.node[rank];
            && (Activation(v.statics, v.queue).Crash? <==> v.statics.firstFound == -1 && v.queue == [])
            && (v.queue != [] ==>
                  var o := Activation(v.statics, v.queue);
                  o.Ran? && (o.statics.firstFound == -1 ==> o.queue == []))
            && (v.statics.firstFound != -1 ==>
                  && Scan(v.queue, v.statics.firstFound, v.statics.pulse) == Scan(v.queue, 0, v.statics.pulse)
                  && v.statics.degree == Degree(rank, cfg.d, cfg.n) && v.statics.maxDegree == cfg.d
                  && 1 <= v.statics.count <= Degree(rank, cfg.d, cfg.n))
            && v.statics.pulse == |s.sent[rank]|
  {
    RunKeeps(cfg, steps);
    var s := Exec(cfg, steps).s;
    var v, site := s.node[rank], cfg.At(rank);
    InnerParts(cfg, s, rank);
    LeafIffNoChildren(rank, cfg.d, cfg.n);
    Feeds.ShuffleIsFeed(v.fed, v.src, site, cfg.width);
    CrashIffIdleAndEmpty(v.statics, v.queue, v.fed, s.sent[rank], site);
    if v.queue != [] {
      ActivationKeeps(v.statics, v.queue, v.fed, s.sent[rank], site);
    }
    if v.statics.firstFound != -1 {
      ResumedScan(v.statics, v.queue, v.fed, s.sent[rank], site);
    }
  }

  /** At every inner node and moment: the number of own events submitted is the number of pulses that
      every child has been heard from on, and the next one is not complete. */
  lemma OwnEventsKeepPace(cfg: Config, steps: seq<Step>, rank: int)
    requires cfg.Valid() && Exec(cfg, steps).Next? && 0 <= rank < cfg.n && !cfg.Leaf(rank)
    ensures var s := Exec(cfg, steps).s;
            var v := s.node[rank];
            && v.counted <= |v.arr|
            && v.counting.counter == |s.log[rank]|
            && (forall c :: c in cfg.Kids(rank) ==> |s.log[rank]| <= Occ(v.arr[..v.counted], c) <= |s.sent[c]|)
            && (exists c :: c in cfg.Kids(rank) && Occ(v.arr[..v.counted], c) == |s.log[rank]|)
            && (forall hi, lo :: hi in v.counting.table && |s.log[rank]| <= lo <= hi ==>
                  lo in v.counting.table && v.counting.table[lo] >= v.counting.table[hi])
            && (|s.log[rank]| in v.counting.table ==> v.counting.table[|s.log[rank]|] < Degree(rank, cfg.d, cfg.n))
  {
    RunKeeps(cfg, steps);
    var s := Exec(cfg, steps).s;
    var v := s.node[rank];
    InnerParts(cfg, s, rank);
    DegreeCountsChildren(rank, cfg.d, cfg.n);
    forall c | c in cfg.Kids(rank)
      ensures |s.log[rank]| <= Occ(v.arr[..v.counted], c) <= |s.sent[c]|
    {
      CountedIsSent(cfg, s, rank, v.counted, c);
    }
    forall hi, lo | hi in v.counting.table && |s.log[rank]| <= lo <= hi
      ensures lo in v.counting.table && v.counting.table[lo] >= v.counting.table[hi]
    {
      TableIsInterval(v.counting, v.arr[..v.counted], cfg.Kids(rank), lo, hi);
    }
    if |s.log[rank]| in v.counting.table {
      TableIsInterval(v.counting, v.arr[..v.counted], cfg.Kids(rank), |s.log[rank]|, |s.log[rank]|);
    }
  }
}
