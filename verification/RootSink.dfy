/** What the root does with its aggregated events (final_result), in both builds. */
module RootSink {
  import opened Events

  /** One published metric. */
  datatype SysMetric = SysMetric(min: int, max: int, avg: real)

  function Publish(a: Aggregate, nprocs: int): SysMetric
    requires nprocs != 0
  {
    SysMetric(a.min, a.max, a.sum as real / nprocs as real)
  }

  function PublishAll(info: seq<Aggregate>, nprocs: int): seq<SysMetric>
    requires nprocs != 0
  {
    seq(|info|, j requires 0 <= j < |info| => Publish(info[j], nprocs))
  }

  datatype Outcome<S> = Undefined | Sunk(next: S)

  // ------------------------------------------------------------- monitoring build

  /** The static pulse number, the result buffer and the two flags. */
  datatype Sink = Sink(pulse: nat, results: seq<SysMetric>, available: bool, finished: bool)

  const EMPTY := Sink(0, [], false, false)

  const ZERO_METRIC := SysMetric(0, 0, 0.0)

  function FinalResult(k: Sink, e: Event, nprocs: int): Outcome<Sink>
    requires nprocs != 0
  {
    var renew := k.pulse == 0 || e.updateFile;
    var buffer := if renew then seq(|e.info|, _ => ZERO_METRIC) else k.results;
    // a wider event would be written past the end of the buffer
    if |e.info| > |buffer| then Undefined else
    Sunk(Sink(k.pulse + 1, PublishAll(e.info, nprocs) + buffer[|e.info|..],
              k.available || renew, k.finished || e.quit || e.info == []))
  }

  ghost function RunSink(es: seq<Event>, nprocs: int): Outcome<Sink>
    requires nprocs != 0
  {
    if es == [] then Sunk(EMPTY) else
    var o := RunSink(es[..|es| - 1], nprocs);
    if o.Undefined? then o else FinalResult(o.next, es[|es| - 1], nprocs)
  }

  /** The event up to p with which the root last got a new buffer. */
  ghost function Renewal(es: seq<Event>, p: nat): (r: nat)
    requires p < |es|
    ensures r <= p && (r == 0 || es[r].updateFile) && forall q :: r < q <= p ==> !es[q].updateFile
  {
    if p == 0 || es[p].updateFile then p else Renewal(es, p - 1)
  }

  /** Event p is not wider than the buffer that it finds or brings. */
  ghost predicate InBuffer(es: seq<Event>, p: nat)
    requires p < |es|
  {
    |es[p].info| <= |es[Renewal(es, p)].info|
  }

  ghost predicate AllFit(es: seq<Event>) {
    forall p :: 0 <= p < |es| ==> InBuffer(es, p)
  }

  lemma {:induction false} RenewalTake(es: seq<Event>, m: nat, p: nat)
    requires p < m <= |es|
    ensures Renewal(es[..m], p) == Renewal(es, p) && (InBuffer(es[..m], p) <==> InBuffer(es, p))
  {
    if p > 0 {
      RenewalTake(es, m, p - 1);
    }
  }

  lemma FitsTake(es: seq<Event>)
    requires es != []
    ensures AllFit(es) <==> AllFit(es[..|es| - 1]) && InBuffer(es, |es| - 1)
  {
    var m := |es| - 1;
    forall p | 0 <= p < m
      ensures InBuffer(es[..m], p) <==> InBuffer(es, p)
    {
      RenewalTake(es, m, p);
    }
  }

  /** a shows metric j of event p, the last one that has a metric j. */
  ghost predicate ShownFrom(a: SysMetric, es: seq<Event>, nprocs: int, j: nat, p: nat)
    requires nprocs != 0
  {
    && p < |es| && j < |es[p].info| && a.min == es[p].info[j].min && a.max == es[p].info[j].max
    && a.avg == es[p].info[j].sum as real / nprocs as real
    && forall q :: p < q < |es| ==> |es[q].info| <= j
  }

  /** a shows the last event with a metric j, since the buffer is there. */
  ghost predicate Shown(a: SysMetric, es: seq<Event>, nprocs: int, j: nat)
    requires nprocs != 0 && es != []
  {
    exists p: nat :: Renewal(es, |es| - 1) <= p && ShownFrom(a, es, nprocs, j, p)
  }

  /** What the buffer shows: it has the width that its first event brought, and for each metric the last
      event that has it. */
  ghost predicate Displays(results: seq<SysMetric>, es: seq<Event>, nprocs: int)
    requires nprocs != 0 && es != []
  {
    && |results| == |es[Renewal(es, |es| - 1)].info|
    && forall j :: 0 <= j < |results| ==> Shown(results[j], es, nprocs, j)
  }

  lemma DisplaysNext(k: Sink, es: seq<Event>, nprocs: int)
    requires nprocs != 0 && es != [] && k.pulse == |es| - 1
    requires |es| > 1 ==> Displays(k.results, es[..|es| - 1], nprocs)
    ensures var o := FinalResult(k, es[|es| - 1], nprocs);
            && (o.Sunk? <==> InBuffer(es, |es| - 1))
            && (o.Sunk? ==> Displays(o.next.results, es, nprocs))
  {
    var m := |es| - 1;
    var o := FinalResult(k, es[m], nprocs);
    if m > 0 {
      RenewalTake(es, m, m - 1);
    }
    if o.Sunk? {
      forall j | 0 <= j < |o.next.results|
        ensures Shown(o.next.results[j], es, nprocs, j)
      {
        if j < |es[m].info| {
          assert ShownFrom(o.next.results[j], es, nprocs, j, m);
        } else {
          var p: nat :| Renewal(es[..m], m - 1) <= p && ShownFrom(k.results[j], es[..m], nprocs, j, p);
          assert ShownFrom(o.next.results[j], es, nprocs, j, p);
        }
      }
    }
  }

  ghost predicate SaysFinish(es: seq<Event>) {
    exists p :: 0 <= p < |es| && (es[p].quit || es[p].info == [])
  }

  lemma SaysFinishTake(es: seq<Event>)
    requires es != []
    ensures SaysFinish(es) <==> SaysFinish(es[..|es| - 1]) || es[|es| - 1].quit || es[|es| - 1].info == []
  {
    var m := |es| - 1;
    assert forall p :: 0 <= p < m ==> es[..m][p] == es[p];
  }

  /** For every stream: the buffer is overrun exactly if some event is wider than the buffer that it finds,
      and as long as none is, the buffer displays the stream. */
  lemma {:induction false} SinkExactly(es: seq<Event>, nprocs: int)
    requires nprocs != 0
    ensures var o := RunSink(es, nprocs);
            && (o.Sunk? <==> AllFit(es))
            && (o.Sunk? ==> o.next.pulse == |es| && (o.next.available <==> es != []))
            && (o.Sunk? ==> (o.next.finished <==> exists p :: 0 <= p < |es| && (es[p].quit || es[p].info == [])))
            && (o.Sunk? && es != [] ==> Displays(o.next.results, es, nprocs))
  {
    if es != [] {
      var m := |es| - 1;
      SinkExactly(es[..m], nprocs);
      FitsTake(es);
      SaysFinishTake(es);
      assert SaysFinish(es[..m]) <==> exists p :: 0 <= p < m && (es[..m][p].quit || es[..m][p].info == []);
      assert SaysFinish(es) <==> exists p :: 0 <= p < |es| && (es[p].quit || es[p].info == []);
      if RunSink(es[..m], nprocs).Sunk? {
        DisplaysNext(RunSink(es[..m], nprocs).next, es, nprocs);
      }
    }
  }

  /** A stream whose widths only change together with the update flag. */
  ghost predicate Flagged(es: seq<Event>) {
    forall p :: 0 < p < |es| && |es[p].info| != |es[p - 1].info| ==> es[p].updateFile
  }

  lemma {:induction false} FlaggedWidth(es: seq<Event>, p: nat, q: nat)
    requires Flagged(es) && p < |es| && Renewal(es, p) <= q <= p
    ensures |es[q].info| == |es[p].info|
  {
    if q < p {
      FlaggedWidth(es, p - 1, q);
    }
  }

  /** Such a stream never overruns the buffer, and the buffer always shows exactly the last event;
      the root is told to finish by the first event that says quit or carries no metric. */
  lemma SinkShowsLast(es: seq<Event>, nprocs: int)
    requires nprocs != 0 && Flagged(es)
    ensures var o := RunSink(es, nprocs);
            && o.Sunk? && o.next.pulse == |es|
            && (es != [] ==> o.next.results == PublishAll(es[|es| - 1].info, nprocs))
            && (o.next.available <==> es != [])
            && (o.next.finished <==> exists p :: 0 <= p < |es| && (es[p].quit || es[p].info == []))
  {
    SinkExactly(es, nprocs);
    forall p | 0 <= p < |es|
      ensures InBuffer(es, p)
    {
      FlaggedWidth(es, p, Renewal(es, p));
    }
    if es != [] {
      var m := |es| - 1;
      var results := RunSink(es, nprocs).next.results;
      FlaggedWidth(es, m, Renewal(es, m));
      forall j | 0 <= j < |results|
        ensures results[j] == Publish(es[m].info[j], nprocs)
      {
        var p: nat :| Renewal(es, m) <= p && ShownFrom(results[j], es, nprocs, j, p);
        assert p == m;
      }
    }
  }

  /** The root's state as the source keeps it: the buffer is an array that is filled in place. */
  class MonitoringRoot {
    const nprocs: int
    var pulse: nat
    var results: array<SysMetric>
    var available: bool
    var finished: bool

    ghost function State(): Sink
      reads this, results
    {
      Sink(pulse, results[..], available, finished)
    }

    constructor (nprocs: int)
      ensures this.nprocs == nprocs && State() == EMPTY && fresh(results)
    {
      this.nprocs := nprocs;
      pulse, available, finished := 0, false, false;
      results := new SysMetric[0];
    }

    method Fill(info: seq<Aggregate>)
      requires nprocs != 0 && |info| <= results.Length
      modifies results
      ensures results[..] == PublishAll(info, nprocs) + old(results[..])[|info|..]
    {
      var i := 0;
      while i < |info|
        invariant 0 <= i <= |info|
        invariant forall x :: 0 <= x < results.Length ==>
                    results[x] == if x < i then Publish(info[x], nprocs) else old(results[x])
      {
        results[i] := Publish(info[i], nprocs);
        i := i + 1;
      }
    }

    method Receive(e: Event) returns (ok: bool)
      requires nprocs != 0
      modifies this, results
      ensures var o := FinalResult(old(State()), e, nprocs); ok == o.Sunk? && (ok ==> o.next == State())
      ensures results == old(results) || fresh(results)
    {
      ghost var k := State();
      if pulse == 0 || e.updateFile {
        results := new SysMetric[|e.info|](_ => ZERO_METRIC);
      }
      assert results[..] == if pulse == 0 || e.updateFile then seq(|e.info|, _ => ZERO_METRIC) else k.results;
      if |e.info| > results.Length {
        return false;
      }
      Fill(e.info);
      if pulse == 0 || e.updateFile {
        available := true;
      }
      pulse := pulse + 1;
      if e.quit || |e.info| == 0 {
        finished := true;
      }
      ok := true;
    }
  }

  // ----------------------------------------------------------- benchmarking build

  /** The latency per pulse; the result file is closed when the root finishes. */
  datatype BenchSink = BenchSink(pulse: nat, times: seq<real>, finished: bool)

  const BENCH_EMPTY := BenchSink(0, [], false)

  function FinalResultBench(k: BenchSink, e: Event, pulses: nat, end: real): Outcome<BenchSink> {
    var times := if k.pulse == 0 then seq(pulses, _ => 0.0) else k.times;
    var done := e.timestamp == pulses - 1 || e.quit || e.info == [];
    // a pulse past the end leaves the array; finishing twice closes the file twice
    if k.pulse >= |times| || (done && k.finished) then Undefined else
    Sunk(BenchSink(k.pulse + 1, times[k.pulse := end - e.startTime], k.finished || done))
  }

  ghost function RunBench(es: seq<Event>, ends: seq<real>, pulses: nat): Outcome<BenchSink>
    requires |es| == |ends|
  {
    if es == [] then Sunk(BENCH_EMPTY) else
    var m := |es| - 1;
    var o := RunBench(es[..m], ends[..m], pulses);
    if o.Undefined? then o else FinalResultBench(o.next, es[m], pulses, ends[m])
  }

  /** The event with which the root finishes. */
  ghost predicate Ends(e: Event, pulses: nat) {
    e.timestamp == pulses - 1 || e.quit || e.info == []
  }

  ghost predicate EndsOnce(es: seq<Event>, pulses: nat) {
    forall p, q :: 0 <= p < q < |es| ==> !(Ends(es[p], pulses) && Ends(es[q], pulses))
  }

  ghost predicate Ended(es: seq<Event>, pulses: nat) {
    exists p :: 0 <= p < |es| && Ends(es[p], pulses)
  }

  lemma EndsTake(es: seq<Event>, pulses: nat)
    requires es != []
    ensures var m := |es| - 1;
            && (Ended(es, pulses) <==> Ended(es[..m], pulses) || Ends(es[m], pulses))
            && (EndsOnce(es, pulses) <==> EndsOnce(es[..m], pulses) && !(Ended(es[..m], pulses) && Ends(es[m], pulses)))
  {
    var m := |es| - 1;
    assert forall p :: 0 <= p < m ==> es[..m][p] == es[p];
    assert forall p :: 0 <= p < m && Ends(es[..m][p], pulses) ==> Ended(es[..m], pulses);
  }

  /** For every stream: what the root does is defined exactly if there are not more events than pulses and
      at most one of them ends the run, and then event p is measured at index p. */
  lemma {:induction false} BenchExactly(es: seq<Event>, ends: seq<real>, pulses: nat)
    requires |es| == |ends|
    ensures var o := RunBench(es, ends, pulses);
            && (o.Sunk? <==> |es| <= pulses && EndsOnce(es, pulses))
            && (o.Sunk? ==> o.next.pulse == |es| && (o.next.finished <==> Ended(es, pulses)))
            && (o.Sunk? && es != [] ==> |o.next.times| == pulses)
            && (o.Sunk? ==> forall p :: 0 <= p < |o.next.times| ==>
                  o.next.times[p] == if p < |es| then ends[p] - es[p].startTime else 0.0)
  {
    if es != [] {
      BenchExactly(es[..|es| - 1], ends[..|es| - 1], pulses);
      EndsTake(es, pulses);
    }
  }

  /** Event p of the stream is pulse p of `pulses`, carries a metric, and only the last says quit. */
  ghost predicate BenchStream(es: seq<Event>, pulses: nat) {
    forall p :: 0 <= p < |es| ==>
      es[p].timestamp == p < pulses && es[p].info != [] && (es[p].quit <==> p == pulses - 1)
  }

  /** The local pulse number is the event's timestamp and stays inside the array, the file is closed
      once, and the root finishes exactly with the last pulse. */
  lemma BenchMeasures(es: seq<Event>, ends: seq<real>, pulses: nat)
    requires |es| == |ends| && BenchStream(es, pulses)
    ensures var o := RunBench(es, ends, pulses);
            && o.Sunk? && o.next.pulse == |es| <= pulses
            && (es != [] ==> |o.next.times| == pulses)
            && (forall p :: 0 <= p < |es| ==> o.next.times[p] == ends[p] - es[p].startTime)
            && (o.next.finished <==> |es| == pulses && es != [])
  {
    BenchExactly(es, ends, pulses);
    assert es != [] ==> es[|es| - 1].timestamp == |es| - 1;
    assert |es| == pulses && es != [] ==> Ends(es[|es| - 1], pulses);
  }

  class BenchmarkRoot {
    const pulses: nat
    var pulse: nat
    var times: array<real>
    var finished: bool

    ghost function State(): BenchSink
      reads this, times
    {
      BenchSink(pulse, times[..], finished)
    }

    constructor (pulses: nat)
      ensures this.pulses == pulses && State() == BENCH_EMPTY && fresh(times)
    {
      this.pulses := pulses;
      pulse, finished := 0, false;
      times := new real[0];
    }

    method Receive(e: Event, end: real) returns (ok: bool)
      modifies this, times
      ensures var o := FinalResultBench(old(State()), e, pulses, end); ok == o.Sunk? && (ok ==> o.next == State())
      ensures times == old(times) || fresh(times)
    {
      ghost var k := State();
      if pulse == 0 {
        times := new real[pulses](_ => 0.0);
      }
      assert times[..] == if k.pulse == 0 then seq(pulses, _ => 0.0) else k.times;
      var done := e.timestamp == pulses - 1 || e.quit || |e.info| == 0;
      if pulse >= times.Length || (done && finished) {
        return false;
      }
      times[pulse] := end - e.startTime;
      pulse := pulse + 1;
      if done {
        finished := true;
      }
      ok := true;
    }
  }
}
