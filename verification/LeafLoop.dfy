/** The send loop of a leaf (start_communication), and the steps of the protocol it stands for. */
module LeafLoop {
  import opened Events
  import opened Topology
  import opened Protocol

  /** What the leaf reads in one turn of its loop: the metric values, whether their set has changed,
      the clock, and whether the application has asked the leaves to finish. */
  datatype Reading = Reading(values: seq<int>, update: bool, start: real, finished: bool)

  /** The readings keep to the premises that LeafSend makes about a leaf. */
  ghost predicate Readings(cfg: Config, read: nat -> Reading) {
    forall p: nat ::
      |read(p).values| == cfg.width(p) && read(p).start != NO_START
      && (p > 0 && cfg.width(p) != cfg.width(p - 1) ==> read(p).update)
  }

  /** One message a turn, numbered 0, 1, 2, ..., with what was read in that turn. With an agreed number of
      pulses there are so many; without one the last turn is the first that finds the leaves asked to
      finish. Only the last message says quit. */
  method SendPulses(cfg: Config, rank: int, read: nat -> Reading, ghost last: nat) returns (sent: seq<Event>)
    requires cfg.d != 0
    requires cfg.pulses.Some? ==> cfg.pulses.value == last + 1
    requires cfg.pulses.None? ==> read(last).finished && forall p :: 0 <= p < last ==> !read(p).finished
    ensures cfg.pulses.Some? ==> |sent| == cfg.pulses.value
    ensures cfg.pulses.None? ==>
              |sent| > 0 && read(|sent| - 1).finished && forall p :: 0 <= p < |sent| - 1 ==> !read(p).finished
    ensures forall p :: 0 <= p < |sent| ==> sent[p].timestamp == p && (sent[p].quit <==> p == |sent| - 1)
    ensures forall p :: 0 <= p < |sent| ==> sent[p].updateFile == read(p).update && sent[p].startTime == read(p).start
    ensures forall p :: 0 <= p < |sent| ==> sent[p].maxDegree == cfg.d && sent[p].nprocs == cfg.n
    ensures forall p :: 0 <= p < |sent| ==> sent[p].parentRank == CDiv(rank - 1, cfg.d)
    ensures forall p :: 0 <= p < |sent| ==> |sent[p].info| == |read(p).values|
    ensures forall p, j :: 0 <= p < |sent| && 0 <= j < |sent[p].info| ==>
              sent[p].info[j].min == sent[p].info[j].max == sent[p].info[j].sum == read(p).values[j]
  {
    sent := [];
    var counter, quit := 0, false;
    while !quit
      invariant 0 <= counter == |sent| && counter <= last + 1
      invariant quit <==> counter == last + 1
      invariant forall p :: 0 <= p < counter ==> sent[p].timestamp == p && (sent[p].quit <==> p == last)
      invariant forall p :: 0 <= p < counter ==>
                  sent[p].updateFile == read(p).update && sent[p].startTime == read(p).start
      invariant forall p :: 0 <= p < counter ==> sent[p].maxDegree == cfg.d && sent[p].nprocs == cfg.n
      invariant forall p :: 0 <= p < counter ==> sent[p].parentRank == CDiv(rank - 1, cfg.d)
      invariant forall p :: 0 <= p < counter ==> |sent[p].info| == |read(p).values|
      invariant forall p, j :: 0 <= p < counter && 0 <= j < |sent[p].info| ==>
                  sent[p].info[j].min == sent[p].info[j].max == sent[p].info[j].sum == read(p).values[j]
      decreases last + 1 - counter
    {
      var r := read(counter);
      if cfg.pulses.Some? {
        if counter == cfg.pulses.value - 1 {
          quit := true;
        }
      } else {
        quit := r.finished;
      }
      var data := Event(Sampled(r.values), cfg.d, r.update, ParentRank(rank, cfg.d), cfg.n, counter, quit, r.start);
      sent := sent + [data];
      counter := counter + 1;
    }
  }

  /** The same turns as steps of the protocol; the last one says quit. */
  ghost function Turns(rank: int, read: nat -> Reading, last: nat, k: nat): seq<Step> {
    if k == 0 then [] else
    var r := read(k - 1);
    Turns(rank, read, last, k - 1) + [LeafSend(rank, r.values, r.update, k - 1 == last, r.start)]
  }

  ghost predicate Told(e: Event, r: Reading, p: nat, last: nat) {
    && e.timestamp == p && (e.quit <==> p == last) && e.updateFile == r.update && e.startTime == r.start
    && |e.info| == |r.values|
    && forall j :: 0 <= j < |e.info| ==> e.info[j].min == e.info[j].max == e.info[j].sum == r.values[j]
  }

  /** After k turns the leaf has sent k messages, and it stops after the last one. */
  ghost predicate HasSent(cfg: Config, s: Sys, rank: int, read: nat -> Reading, last: nat, k: nat)
    requires Shape(cfg, s) && 0 <= rank < cfg.n
  {
    && |s.sent[rank]| == |s.log[rank]| == k && (s.stopped[rank] <==> k == last + 1)
    && (forall p :: 0 <= p < k ==> Told(s.sent[rank][p], read(p), p, last))
  }

  lemma NextTurn(cfg: Config, s: Sys, rank: int, read: nat -> Reading, last: nat, k: nat)
    requires cfg.Valid() && 0 <= rank < cfg.n && cfg.Leaf(rank) && Readings(cfg, read)
    requires cfg.pulses.Some? ==> cfg.pulses.value == last + 1
    requires Shape(cfg, s) && k <= last && HasSent(cfg, s, rank, read, last, k)
    ensures var o := Apply(cfg, s, LeafSend(rank, read(k).values, read(k).update, k == last, read(k).start));
            o.Next? && HasSent(cfg, o.s, rank, read, last, k + 1)
  {
    var r := read(k);
    assert LeafMaySend(cfg, s, rank, r.values, r.update, k == last, r.start);
  }

  /** Every turn of the loop is a step that the protocol lets the leaf take: the loop is a run of it. */
  lemma {:induction false} TurnsAreSteps(cfg: Config, rank: int, read: nat -> Reading, last: nat, k: nat)
    requires cfg.Valid() && 0 <= rank < cfg.n && cfg.Leaf(rank) && Readings(cfg, read)
    requires cfg.pulses.Some? ==> cfg.pulses.value == last + 1
    requires cfg.pulses.None? ==> read(last).finished && forall p :: 0 <= p < last ==> !read(p).finished
    requires k <= last + 1
    ensures var o := Exec(cfg, Turns(rank, read, last, k));
            && o.Next? && HasSent(cfg, o.s, rank, read, last, k)
            && (k > 0 && cfg.pulses.None? ==> (o.s.stopped[rank] <==> read(k - 1).finished))
            && (cfg.pulses.Some? ==> (o.s.stopped[rank] <==> k == cfg.pulses.value))
  {
    if k > 0 {
      TurnsAreSteps(cfg, rank, read, last, k - 1);
      var steps := Turns(rank, read, last, k);
      assert steps[..|steps| - 1] == Turns(rank, read, last, k - 1);
      NextTurn(cfg, Exec(cfg, Turns(rank, read, last, k - 1)).s, rank, read, last, k - 1);
    }
  }
}
