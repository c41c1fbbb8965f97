/** The handler of the multi-event stone (multi_func in cod.h): one per inner rank. */
module QueueHandler {
  import opened Events
  import opened Topology

  type Index = i: int | -1 <= i

  /** The static variables of the handler; firstFound == -1 means that no pulse is being merged. */
  datatype Statics = Statics(
    maxDegree: int,
    firstFound: Index,
    aggregated: Event,
    degree: int,
    pulse: int,
    count: int)

  const INITIAL := Statics(-1, -1, ZERO_EVENT, 0, 0, 0)

  /** What an activation does: it may run into undefined behaviour, or end normally. */
  datatype Outcome =
    | Crash
    | Ran(statics: Statics, queue: seq<Event>, submitted: seq<Event>)

  /** The first index at or after i whose event has timestamp ts; |q| if there is none. */
  function Scan(q: seq<Event>, i: nat, ts: int): (k: nat)
    ensures k <= |q|
    ensures k < |q| ==> i <= k && q[k].timestamp == ts
    ensures forall x :: i <= x < k ==> q[x].timestamp != ts
    decreases |q| - i
  {
    if i >= |q| then |q| else if q[i].timestamp == ts then i else Scan(q, i + 1, ts)
  }

  function Discard(q: seq<Event>, i: nat): (r: seq<Event>)
    requires i < |q|
  {
    q[..i] + q[i + 1..]
  }

  /** The first event of a pulse becomes the aggregate; its sender's parent is this rank. */
  function Seed(a: Event, pulse: int): Event
  {
    a.(timestamp := pulse,
       parentRank := if a.maxDegree == 0 then 0 else CDiv(a.parentRank - 1, a.maxDegree))
  }

  /** Folding a further event of the pulse into the aggregate. */
  function Absorb(agg: Event, a: Event): Event {
    agg.(info := seq(|agg.info|, j requires 0 <= j < |agg.info| =>
                       if j < |a.info| then Combine(agg.info[j], a.info[j]) else agg.info[j]),
         startTime := if |a.info| > 0 && a.startTime != NO_START && a.startTime < agg.startTime
                      then a.startTime else agg.startTime)
  }

  /** The branch for an idle handler and the branch for a pulse in progress. */
  function Consume(st: Statics, q: seq<Event>): Outcome {
    if st.firstFound == -1 then
      var i := Scan(q, 0, st.pulse);
      // without a match the handler reads a stale event and discards index -1
      if i == |q| || q[i].maxDegree == 0 then Crash else
      var a := q[i];
      Ran(Statics(a.maxDegree, i, Seed(a, st.pulse), Degree(a.parentRank, a.maxDegree, a.nprocs), st.pulse, 1),
          Discard(q, i), [])
    else if st.count < st.degree + 1 then
      var i := Scan(q, st.firstFound, st.pulse);
      if i == |q| then Ran(st, q, [])
      // an event with more metrics than the aggregate would be written past its end
      else if |q[i].info| > |st.aggregated.info| then Crash
      else Ran(st.(aggregated := Absorb(st.aggregated, q[i]), firstFound := i, count := st.count + 1),
               Discard(q, i), [])
    else
      Ran(st, q, [])
  }

  /** One pass from the label `start` to the end of the handler. */
  function OnePass(st: Statics, q: seq<Event>): Outcome {
    var o := Consume(st, q);
    if o.Ran? && o.statics.count == o.statics.degree + 1 then
      Ran(o.statics.(pulse := st.pulse + 1, firstFound := -1, count := 0), o.queue, [o.statics.aggregated])
    else
      o
  }

  function Prepend(first: seq<Event>, o: Outcome): Outcome {
    if o.Crash? then Crash else o.(submitted := first + o.submitted)
  }

  /** A whole activation: after a submission the handler starts over if the next pulse has begun. */
  function Activation(st: Statics, q: seq<Event>): Outcome
    decreases |q|, if st.firstFound == -1 then 0 else 1
  {
    var o := OnePass(st, q);
    if o.Ran? && o.submitted != [] && Scan(o.queue, 0, o.statics.pulse) < |o.queue| then
      Prepend(o.submitted, Activation(o.statics, o.queue))
    else
      o
  }

  lemma PrependNothing(o: Outcome)
    ensures Prepend([], o) == o
  {
    assert o.Ran? ==> [] + o.submitted == o.submitted;
  }

  lemma PrependTwice(a: seq<Event>, b: seq<Event>, o: Outcome)
    ensures Prepend(a, Prepend(b, o)) == Prepend(a + b, o)
  {
    assert o.Ran? ==> a + (b + o.submitted) == a + b + o.submitted;
  }

  /** The stone as the source has it: a queue and static variables that every activation updates. */
  class MultiStone {
    var queue: seq<Event>
    var maxDegree: int
    var firstFound: Index
    var aggregated: Event
    var degree: int
    var pulse: int
    var count: int

    function State(): Statics
      reads this
    {
      Statics(maxDegree, firstFound, aggregated, degree, pulse, count)
    }

    constructor ()
      ensures State() == INITIAL && queue == []
    {
      queue := [];
      maxDegree, firstFound, aggregated, degree, pulse, count := -1, -1, ZERO_EVENT, 0, 0, 0;
    }

    /** The loop over the metrics of one event. */
    method Fold(a: Event)
      requires |a.info| <= |aggregated.info|
      modifies this`aggregated
      ensures aggregated == Absorb(old(aggregated), a)
    {
      var j := 0;
      ghost var agg := aggregated;
      while j < |a.info|
        invariant 0 <= j <= |a.info| && |aggregated.info| == |agg.info|
        invariant aggregated == agg.(info := aggregated.info, startTime := aggregated.startTime)
        invariant forall x :: 0 <= x < |agg.info| ==>
                    aggregated.info[x] == if x < j then Combine(agg.info[x], a.info[x]) else agg.info[x]
        invariant aggregated.startTime == if j > 0 then Absorb(agg, a).startTime else agg.startTime
      {
        var m := aggregated.info[j];
        m := m.(sum := m.sum + a.info[j].sum);
        if m.min > a.info[j].min {
          m := m.(min := a.info[j].min);
        }
        if m.max < a.info[j].max {
          m := m.(max := a.info[j].max);
        }
        aggregated := aggregated.(info := aggregated.info[j := m]);
        if a.startTime != NO_START && a.startTime < aggregated.startTime {
          aggregated := aggregated.(startTime := a.startTime);
        }
        j := j + 1;
      }
      assert aggregated.info == Absorb(agg, a).info;
    }

    method ConsumeOne() returns (ok: bool)
      modifies this
      ensures var o := Consume(old(State()), old(queue));
              ok == o.Ran? && (ok ==> o == Ran(State(), queue, []))
    {
      ok := true;
      if firstFound == -1 {
        count := 0;
        var i := 0;
        while i < |queue| && queue[i].timestamp != pulse
          invariant i <= |queue| && Scan(queue, 0, pulse) == Scan(queue, i, pulse)
        {
          i := i + 1;
        }
        if i == |queue| || queue[i].maxDegree == 0 {
          return false;
        }
        var a := queue[i];
        maxDegree, aggregated := a.maxDegree, Seed(a, pulse);
        firstFound := i;
        degree := CountChildren(a.parentRank, maxDegree, a.nprocs);
        count := 1;
        queue := Discard(queue, i);
      } else if count < degree + 1 {
        var i := firstFound;
        while i < |queue| && queue[i].timestamp != pulse
          invariant firstFound <= i && (i <= |queue| || i == firstFound)
          invariant Scan(queue, firstFound, pulse) == Scan(queue, i, pulse)
        {
          i := i + 1;
        }
        if i < |queue| {
          if |queue[i].info| > |aggregated.info| {
            return false;
          }
          Fold(queue[i]);
          count, firstFound := count + 1, i;
          queue := Discard(queue, i);
        }
      }
    }

    method Pass() returns (ok: bool, submitted: seq<Event>, again: bool)
      modifies this
      ensures var o := OnePass(old(State()), old(queue));
              && ok == o.Ran?
              && (ok ==> o == Ran(State(), queue, submitted))
              && (ok ==> again == (submitted != [] && Scan(queue, 0, pulse) < |queue|))
    {
      submitted, again := [], false;
      ok := ConsumeOne();
      if ok && count == degree + 1 {
        submitted := [aggregated];
        pulse, firstFound, count := pulse + 1, -1, 0;
        var i := 0;
        while i < |queue| && queue[i].timestamp != pulse
          invariant i <= |queue| && Scan(queue, 0, pulse) == Scan(queue, i, pulse)
        {
          i := i + 1;
        }
        again := i < |queue|;
      }
    }

    /** Running the handler: the loop stands for `goto start`. */
    method Activate() returns (ok: bool, submitted: seq<Event>)
      modifies this
      ensures var o := Activation(old(State()), old(queue));
              ok == o.Ran? && (ok ==> o == Ran(State(), queue, submitted))
    {
      submitted := [];
      var again := true;
      PrependNothing(Activation(State(), queue));
      while again
        invariant Activation(old(State()), old(queue)) ==
                  if again then Prepend(submitted, Activation(State(), queue)) else Ran(State(), queue, submitted)
        decreases again, |queue|, if firstFound == -1 then 0 else 1
      {
        ghost var before := submitted;
        var out;
        ok, out, again := Pass();
        if !ok {
          return;
        }
        submitted := submitted + out;
        if again {
          PrependTwice(before, out, Activation(State(), queue));
        }
      }
      ok := true;
    }
  }
}
