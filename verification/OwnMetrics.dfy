/** Counting the arrivals of a pulse and submitting the node's own event (compute_own_metrics). */
module OwnMetrics {
  import opened Events
  import opened Topology
  import opened HandlerRuns
  import opened Collections

  /** The static variables of the stage, with hash_ts as the finite map it stands for. */
  datatype Counting = Counting(counter: int, table: map<int, nat>, firstPulse: bool, data: Event)

  const START := Counting(0, map[], true, ZERO_EVENT)

  /** The benchmarking build counts in an array with one cell per pulse. */
  datatype ArrayCounting = ArrayCounting(counter: int, counts: seq<nat>, firstPulse: bool, data: Event)

  function ArrayStart(pulses: nat): ArrayCounting {
    ArrayCounting(0, seq(pulses, _ => 0), true, ZERO_EVENT)
  }

  /** What one arrival does: it may dereference NULL or leave the array, or submit own events. */
  datatype Arrival<S> =
    | Undefined
    | Counted(next: S, own: seq<Event>)

  /** get_metrics_values: the header of the node's own event and the values sampled for it. */
  function OwnEvent(site: Site, ts: int, trigger: Event, values: seq<int>): Event
    requires site.d != 0
  {
    Event(Sampled(values), site.d, trigger.updateFile, ParentRank(site.rank, site.d), site.n, ts,
          trigger.quit, NO_START)
  }

  function Tally(table: map<int, nat>, ts: int): map<int, nat> {
    table[ts := if ts in table then table[ts] + 1 else 1]
  }

  /** What the arrival submits when it completes a pulse; `now` is sampled for that pulse. */
  function Submission(firstPulse: bool, data: Event, counter: int, e: Event, site: Site, now: seq<int>): Event
    requires site.d != 0
  {
    if firstPulse || e.updateFile || e.quit then OwnEvent(site, counter, e, now) else data
  }

  /** The pulse is complete if its count has reached the number of children; `next` is sampled ahead
      for the following pulse. */
  function Decided(c: Counting, e: Event, site: Site, now: seq<int>, next: seq<int>): (o: Arrival<Counting>)
    requires site.d != 0 && c.counter in c.table
    ensures o.Counted?
  {
    if c.table[c.counter] != site.Kids() then Counted(c, []) else
    var data := Submission(c.firstPulse, c.data, c.counter, e, site, now);
    Counted(Counting(c.counter + 1, c.table - {c.counter}, false,
                     if e.quit then data else OwnEvent(site, c.counter + 1, e, next)),
            [data])
  }

  /** The hash-table build: the arrival is counted, and then the current pulse must have a count. */
  function OnArrival(c: Counting, e: Event, site: Site, now: seq<int>, next: seq<int>): Arrival<Counting>
    requires site.d != 0
  {
    var mid := c.(table := Tally(c.table, e.timestamp));
    if mid.counter !in mid.table then Undefined else Decided(mid, e, site, now, next)
  }

  /** The array build. */
  function OnArrivalArray(a: ArrayCounting, e: Event, site: Site, now: seq<int>, next: seq<int>)
    : Arrival<ArrayCounting>
    requires site.d != 0
  {
    if !(0 <= e.timestamp < |a.counts|) || !(0 <= a.counter < |a.counts|) then Undefined else
    var counts := a.counts[e.timestamp := a.counts[e.timestamp] + 1];
    if counts[a.counter] != site.Kids() then Counted(a.(counts := counts), [])
    else
      var data := Submission(a.firstPulse, a.data, a.counter, e, site, now);
      Counted(ArrayCounting(a.counter + 1, counts, false,
                            if data.timestamp == |counts| - 1 then data
                            else OwnEvent(site, a.counter + 1, e, next)),
              [data])
  }

  // ------------------------------------------------- arrivals as words of senders

  /** How often x occurs in w: the number of events of x that have arrived. */
  ghost function Occ(w: seq<int>, x: int): nat {
    if w == [] then 0 else Occ(w[..|w| - 1], x) + if w[|w| - 1] == x then 1 else 0
  }

  lemma OccAppend(w: seq<int>, y: int, x: int)
    ensures Occ(w + [y], x) == Occ(w, x) + if y == x then 1 else 0
  {
    assert (w + [y])[..|w|] == w;
  }

  /** The children whose event of pulse ts has arrived. */
  ghost function Above(w: seq<int>, kids: set<int>, ts: int): set<int> {
    set x | x in kids && Occ(w, x) > ts
  }

  /** The stage's state, told from the word of arrivals: the counter is the number of complete
      pulses, and the table counts, for every later pulse with an arrival, the children heard from. */
  ghost predicate CountingInv(c: Counting, w: seq<int>, kids: set<int>) {
    && 0 <= c.counter
    && (forall x :: x in kids ==> Occ(w, x) >= c.counter)
    && (exists x :: x in kids && Occ(w, x) == c.counter)
    && (forall ts :: ts in c.table <==> ts >= c.counter && Above(w, kids, ts) != {})
    && (forall ts :: ts in c.table ==> c.table[ts] == |Above(w, kids, ts)|)
  }

  lemma AboveAppend(w: seq<int>, kids: set<int>, x: int, ts: int)
    requires x in kids
    ensures Above(w + [x], kids, ts) == Above(w, kids, ts) + if Occ(w, x) == ts then {x} else {}
    ensures Occ(w, x) == ts ==> x !in Above(w, kids, ts)
  {
    forall y
      ensures Occ(w + [x], y) == Occ(w, y) + if x == y then 1 else 0
    {
      OccAppend(w, x, y);
    }
  }

  lemma TallyCounts(c: Counting, w: seq<int>, kids: set<int>, x: int, ts: int)
    requires CountingInv(c, w, kids) && x in kids
    requires ts >= c.counter
    ensures var t := Tally(c.table, Occ(w, x));
            && (ts in t <==> Above(w + [x], kids, ts) != {})
            && (ts in t ==> t[ts] == |Above(w + [x], kids, ts)|)
  {
    AboveAppend(w, kids, x, ts);
  }

  /** No arrival finds the current pulse missing from the table; the pulse is submitted exactly when
      the last child has reported it, and by an arrival of that very pulse. */
  lemma ArrivalCounted(c: Counting, w: seq<int>, kids: set<int>, x: int, e: Event, site: Site,
                       now: seq<int>, next: seq<int>)
    requires site.d != 0 && CountingInv(c, w, kids) && x in kids && |kids| == site.Kids()
    requires e.timestamp == Occ(w, x)
    ensures var o := OnArrival(c, e, site, now, next);
            && o.Counted?
            && CountingInv(o.next, w + [x], kids)
            && (o.own != [] <==> forall y :: y in kids ==> Occ(w + [x], y) > c.counter)
            && (o.own != [] ==> e.timestamp == c.counter)
            && (o.own != [] ==> o.next.counter == c.counter + 1 && !o.next.firstPulse
                                && o.own == [Submission(c.firstPulse, c.data, c.counter, e, site, now)])
            && (o.own == [] ==> o.next == c.(table := o.next.table))
  {
    var v, t := w + [x], Tally(c.table, e.timestamp);
    forall y
      ensures Occ(v, y) == Occ(w, y) + if x == y then 1 else 0
    {
      OccAppend(w, x, y);
    }
    forall ts | ts >= c.counter
      ensures ts in t <==> Above(v, kids, ts) != {}
      ensures ts in t ==> t[ts] == |Above(v, kids, ts)|
    {
      TallyCounts(c, w, kids, x, ts);
    }
    assert x in Above(v, kids, c.counter);
    var o := OnArrival(c, e, site, now, next);
    var slow :| slow in kids && Occ(w, slow) == c.counter;
    if o.own != [] {
      SubsetOfSameSize(Above(v, kids, c.counter), kids);
      assert slow in Above(v, kids, c.counter);
      assert Occ(v, slow) == o.next.counter;
    } else {
      assert Above(v, kids, c.counter) != kids;
      var y :| y in kids && y !in Above(v, kids, c.counter);
      assert Occ(v, y) == c.counter;
    }
  }

  /** The table's keys form an interval that starts at the counter, with counts that never grow. */
  lemma TableIsInterval(c: Counting, w: seq<int>, kids: set<int>, lo: int, hi: int)
    requires CountingInv(c, w, kids) && hi in c.table && c.counter <= lo <= hi
    ensures lo in c.table && c.table[lo] >= c.table[hi]
    ensures c.table[c.counter] < |kids|
  {
    assert Above(w, kids, hi) <= Above(w, kids, lo) <= Above(w, kids, c.counter) <= kids;
    SubsetSize(Above(w, kids, hi), Above(w, kids, lo));
    var slow :| slow in kids && Occ(w, slow) == c.counter;
    assert Above(w, kids, c.counter) <= kids - {slow};
    SubsetSize(Above(w, kids, c.counter), kids - {slow});
  }

  // ----------------------------------------------------------- the two builds agree

  /** The array holds the same counts, for the finished pulses as well. */
  ghost predicate SameCounting(c: Counting, a: ArrayCounting, w: seq<int>, kids: set<int>, pulses: nat) {
    && a.counter == c.counter && a.firstPulse == c.firstPulse && a.data == c.data
    && |a.counts| == pulses
    && (forall ts :: 0 <= ts < pulses ==> a.counts[ts] == |Above(w, kids, ts)|)
    && (forall x :: x in kids ==> Occ(w, x) <= pulses)
    && (c.firstPulse <==> c.counter == 0)
    && (0 < c.counter < pulses ==> c.data.timestamp == c.counter)
  }

  lemma CellsAgree(counts: seq<nat>, w: seq<int>, kids: set<int>, pulses: nat, x: int)
    requires x in kids && Occ(w, x) < pulses == |counts|
    requires forall ts :: 0 <= ts < pulses ==> counts[ts] == |Above(w, kids, ts)|
    ensures forall ts :: 0 <= ts < pulses ==>
              counts[Occ(w, x) := counts[Occ(w, x)] + 1][ts] == |Above(w + [x], kids, ts)|
  {
    forall ts | 0 <= ts < pulses
      ensures counts[Occ(w, x) := counts[Occ(w, x)] + 1][ts] == |Above(w + [x], kids, ts)|
    {
      AboveAppend(w, kids, x, ts);
    }
  }

  lemma ArrivalAgrees(c: Counting, a: ArrayCounting, w: seq<int>, kids: set<int>, pulses: nat,
                      x: int, e: Event, site: Site, now: seq<int>, next: seq<int>)
    requires site.d != 0 && CountingInv(c, w, kids) && x in kids && |kids| == site.Kids()
    requires SameCounting(c, a, w, kids, pulses)
    requires e.timestamp == Occ(w, x) < pulses && (e.quit <==> e.timestamp == pulses - 1)
    ensures var o, p := OnArrival(c, e, site, now, next), OnArrivalArray(a, e, site, now, next);
            && o.Counted? && p.Counted? && o.own == p.own
            && SameCounting(o.next, p.next, w + [x], kids, pulses)
  {
    ArrivalCounted(c, w, kids, x, e, site, now, next);
    TallyCounts(c, w, kids, x, c.counter);
    CellsAgree(a.counts, w, kids, pulses, x);
    forall y | y in kids
      ensures Occ(w + [x], y) <= pulses
    {
      OccAppend(w, x, y);
    }
  }

  ghost function ThenTable(o: Arrival<Counting>, e: Event, site: Site, now: seq<int>, next: seq<int>)
    : Arrival<Counting>
    requires site.d != 0
  {
    if o.Undefined? then o else
    var s := OnArrival(o.next, e, site, now, next);
    if s.Undefined? then s else Counted(s.next, o.own + s.own)
  }

  /** The own events each build submits over a whole word of arrivals. */
  ghost function RunTable(es: seq<Event>, site: Site, now: seq<seq<int>>, next: seq<seq<int>>): Arrival<Counting>
    requires site.d != 0 && |now| == |next| == |es|
  {
    if es == [] then Counted(START, []) else
    var m := |es| - 1;
    ThenTable(RunTable(es[..m], site, now[..m], next[..m]), es[m], site, now[m], next[m])
  }

  ghost function ThenArray(o: Arrival<ArrayCounting>, e: Event, site: Site, now: seq<int>, next: seq<int>)
    : Arrival<ArrayCounting>
    requires site.d != 0
  {
    if o.Undefined? then o else
    var s := OnArrivalArray(o.next, e, site, now, next);
    if s.Undefined? then s else Counted(s.next, o.own + s.own)
  }

  ghost function RunArray(es: seq<Event>, site: Site, now: seq<seq<int>>, next: seq<seq<int>>, pulses: nat)
    : Arrival<ArrayCounting>
    requires site.d != 0 && |now| == |next| == |es|
  {
    if es == [] then Counted(ArrayStart(pulses), []) else
    var m := |es| - 1;
    ThenArray(RunArray(es[..m], site, now[..m], next[..m], pulses), es[m], site, now[m], next[m])
  }

  /** Both builds are defined, have submitted the same own events and hold the same counts. */
  ghost predicate Agree(o: Arrival<Counting>, p: Arrival<ArrayCounting>, w: seq<int>, kids: set<int>, pulses: nat) {
    && o.Counted? && p.Counted? && o.own == p.own
    && CountingInv(o.next, w, kids) && SameCounting(o.next, p.next, w, kids, pulses)
  }

  /** es is some interleaving w of the children's streams 0, 1, 2, ... of at most `pulses` events. */
  ghost predicate Interleaving(w: seq<int>, es: seq<Event>, kids: set<int>, pulses: nat) {
    && |w| == |es|
    && forall i :: 0 <= i < |w| ==>
         && w[i] in kids && es[i].timestamp == Occ(w[..i], w[i]) < pulses
         && (es[i].quit <==> es[i].timestamp == pulses - 1)
  }

  lemma AgreeStep(o: Arrival<Counting>, p: Arrival<ArrayCounting>, w: seq<int>, kids: set<int>, pulses: nat,
                  x: int, e: Event, site: Site, now: seq<int>, next: seq<int>)
    requires site.d != 0 && x in kids && |kids| == site.Kids()
    requires Agree(o, p, w, kids, pulses)
    requires e.timestamp == Occ(w, x) < pulses && (e.quit <==> e.timestamp == pulses - 1)
    ensures Agree(ThenTable(o, e, site, now, next), ThenArray(p, e, site, now, next), w + [x], kids, pulses)
  {
    ArrivalCounted(o.next, w, kids, x, e, site, now, next);
    ArrivalAgrees(o.next, p.next, w, kids, pulses, x, e, site, now, next);
  }

  /** Over every interleaving both builds stay defined and submit the same own events at the same
      arrivals (the statement holds for every prefix of the arrivals). */
  lemma {:induction false} BuildsAgree(w: seq<int>, es: seq<Event>, kids: set<int>, pulses: nat, site: Site,
                                       now: seq<seq<int>>, next: seq<seq<int>>)
    requires site.d != 0 && |kids| == site.Kids() >= 1 && |now| == |next| == |es|
    requires Interleaving(w, es, kids, pulses)
    ensures Agree(RunTable(es, site, now, next), RunArray(es, site, now, next, pulses), w, kids, pulses)
  {
    if es == [] {
      var x := SomeElement(kids);
      assert Occ(w, x) == 0;
    } else {
      var m := |es| - 1;
      assert forall i :: 0 <= i < m ==> w[..m][..i] == w[..i];
      BuildsAgree(w[..m], es[..m], kids, pulses, site, now[..m], next[..m]);
      assert w[..m] + [w[m]] == w;
      AgreeStep(RunTable(es[..m], site, now[..m], next[..m]), RunArray(es[..m], site, now[..m], next[..m], pulses),
                w[..m], kids, pulses, w[m], es[m], site, now[m], next[m]);
    }
  }
}
