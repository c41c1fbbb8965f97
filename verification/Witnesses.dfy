/** Runs that show where the conditions of the other results fail. */
module Witnesses {
  import opened OwnMetrics
  import opened Feeds
  import opened Protocol
  import opened Invariants
  import opened Theorems
  import opened Progress
  import opened Endings
  import opened OnceEach
  import opened Flags
  import opened Scenarios

  // ------------------------------------ children that run ahead, one activation per arrival

  /** No child sets its update flag. */
  const SILENT: int -> bool := _ => false

  /** Every child sends two pulses. */
  const TWICE: int -> nat := _ => 2

  /** Two of three children send both their pulses before the third one sends its first. */
  const AHEAD: seq<int> := [1, 1, 2, 2, 3, 3]

  /** After w, the scene is z. */
  ghost predicate EndsWith(w: seq<int>, z: Scene) {
    Letters(w, 3) && Play(3, w) == z
  }

  /** As long as the third child has not begun nothing is complete. */
  lemma GoesAhead(w: seq<int>, z: Scene, c: int, next: Scene)
    requires EndsWith(w, z) && |z.occ| == 4 && 1 <= c <= 2 && z.occ[0] == z.occ[3] == 0
    requires next == Come(z, c, 3)
    ensures EndsWith(w + [c], next)
  {
    PlayOne(3, w, c);
  }

  /** It completes a pulse with each event. */
  lemma CatchesUp(w: seq<int>, z: Scene, next: Scene)
    requires EndsWith(w, z)
    requires |z.occ| == 4 && z.occ[1] > z.occ[0] && z.occ[2] > z.occ[0] && z.occ[3] + 1 > z.occ[0]
    requires next == Come(Come(z, 3, 3), 0, 3)
    ensures EndsWith(w + [3], next)
  {
    PlayOne(3, w, 3);
  }

  lemma Ahead1(w: seq<int>)
    requires EndsWith(w, Scene([0, 0, 0, 0], [], map[], Place(0, 0)))
    ensures EndsWith(w + [1], Scene([0, 1, 0, 0], [1], map[0 := 1], Place(0, 1)))
  {
    GoesAhead(w, Scene([0, 0, 0, 0], [], map[], Place(0, 0)), 1,
              Scene([0, 1, 0, 0], [1], map[0 := 1], Place(0, 1)));
  }

  lemma Ahead2(w: seq<int>)
    requires EndsWith(w, Scene([0, 1, 0, 0], [1], map[0 := 1], Place(0, 1)))
    ensures EndsWith(w + [1], Scene([0, 2, 0, 0], [1, 1], map[0 := 1, 1 := 1], Place(0, 1)))
  {
    GoesAhead(w, Scene([0, 1, 0, 0], [1], map[0 := 1], Place(0, 1)), 1,
              Scene([0, 2, 0, 0], [1, 1], map[0 := 1, 1 := 1], Place(0, 1)));
  }

  lemma Ahead3(w: seq<int>)
    requires EndsWith(w, Scene([0, 2, 0, 0], [1, 1], map[0 := 1, 1 := 1], Place(0, 1)))
    ensures EndsWith(w + [2], Scene([0, 2, 1, 0], [1, 1, 2], map[0 := 2, 1 := 1], Place(0, 2)))
  {
    GoesAhead(w, Scene([0, 2, 0, 0], [1, 1], map[0 := 1, 1 := 1], Place(0, 1)), 2,
              Scene([0, 2, 1, 0], [1, 1, 2], map[0 := 2, 1 := 1], Place(0, 2)));
  }

  lemma Ahead4(w: seq<int>)
    requires EndsWith(w, Scene([0, 2, 1, 0], [1, 1, 2], map[0 := 2, 1 := 1], Place(0, 2)))
    ensures EndsWith(w + [2], Scene([0, 2, 2, 0], [1, 1, 2, 2], map[0 := 2, 1 := 2], Place(0, 2)))
  {
    GoesAhead(w, Scene([0, 2, 1, 0], [1, 1, 2], map[0 := 2, 1 := 1], Place(0, 2)), 2,
              Scene([0, 2, 2, 0], [1, 1, 2, 2], map[0 := 2, 1 := 2], Place(0, 2)));
  }

  lemma Ahead5(w: seq<int>)
    requires EndsWith(w, Scene([0, 2, 2, 0], [1, 1, 2, 2], map[0 := 2, 1 := 2], Place(0, 2)))
    ensures EndsWith(w + [3], Scene([1, 2, 2, 1], [1, 1, 2, 2, 3, 0], map[0 := 4, 1 := 2], Place(1, 1)))
  {
    CatchesUp(w, Scene([0, 2, 2, 0], [1, 1, 2, 2], map[0 := 2, 1 := 2], Place(0, 2)),
              Scene([1, 2, 2, 1], [1, 1, 2, 2, 3, 0], map[0 := 4, 1 := 2], Place(1, 1)));
  }

  lemma Ahead6(w: seq<int>)
    requires EndsWith(w, Scene([1, 2, 2, 1], [1, 1, 2, 2, 3, 0], map[0 := 4, 1 := 2], Place(1, 1)))
    ensures EndsWith(w + [3], Scene([2, 2, 2, 2], [1, 1, 2, 2, 3, 0, 3, 0], map[0 := 4, 1 := 4], Place(1, 3)))
  {
    CatchesUp(w, Scene([1, 2, 2, 1], [1, 1, 2, 2, 3, 0], map[0 := 4, 1 := 2], Place(1, 1)),
              Scene([2, 2, 2, 2], [1, 1, 2, 2, 3, 0, 3, 0], map[0 := 4, 1 := 4], Place(1, 3)));
  }

  lemma Spelled(w: seq<int>)
    requires w == []
    ensures w + [1] + [1] + [2] + [2] + [3] + [3] == AHEAD
  {
  }

  /** Pulse 0 is published, and of the four events of pulse 1 three are merged. */
  lemma AheadEnds()
    ensures EndsWith(AHEAD, Scene([2, 2, 2, 2], [1, 1, 2, 2, 3, 0, 3, 0], map[0 := 4, 1 := 4], Place(1, 3)))
  {
    var w: seq<int> := [];
    assert seq(4, _ => 0) == [0, 0, 0, 0];
    Ahead1(w);
    Ahead2(w + [1]);
    Ahead3(w + [1] + [1]);
    Ahead4(w + [1] + [1] + [2]);
    Ahead5(w + [1] + [1] + [2] + [2]);
    Ahead6(w + [1] + [1] + [2] + [2] + [3]);
    Spelled(w);
  }

  lemma AheadHappens() returns (t: Sys)
    ensures Letters(AHEAD, 3) && Happens(3, TWICE, SILENT, AHEAD, t)
  {
    AheadEnds();
    forall c | 1 <= c <= 3
      ensures Occ(AHEAD, c) == 2
    {
      PlayCounts(3, AHEAD, c);
    }
    t := EveryOrderRuns(3, TWICE, SILENT, AHEAD);
  }

  lemma LeavesDone(t: Sys, d: int, last: int -> nat, occ: seq<nat>, update: int -> bool)
    requires d >= 1 && Stands(t, d, occ) && AllSent(t, d, last, occ, update)
    requires forall c :: 1 <= c <= d ==> occ[c] == last(c) > 0
    ensures forall c :: 1 <= c <= d ==> t.stopped[c] && t.delivered[c] == |t.sent[c]| == last(c)
  {
    forall c | 1 <= c <= d
      ensures t.stopped[c]
    {
      StoppedAtLast(t, d, last, occ, update, c);
    }
  }

  lemma AheadIsLate(t: Sys)
    requires Letters(AHEAD, 3) && Happens(3, TWICE, SILENT, AHEAD, t)
    ensures |t.sent[0]| == 1 && t.node[0].queue != [] && !InTime(t.node[0].fed, 3, 2)
  {
    AheadEnds();
    EndOfRun(3, TWICE, SILENT, AHEAD, t);
    RunPublishesIff(t, 3, Play(3, AHEAD).occ, 2);
  }

  /** In this run of the protocol the handler is run once for every arrival. All leaves have sent their
      two pulses and stopped, everything has been delivered and counted, and yet only pulse 0 has been
      published: an event of pulse 1 still lies in the root's queue, as not all came in time. */
  lemma OneActivationIsTooFew()
    ensures Letters(AHEAD, 3)
    ensures var r := Exec(Star(3), Tell(3, TWICE, SILENT, AHEAD));
            && r.Next? && |r.s.sent[0]| == 1 && r.s.node[0].queue != []
            && (forall c :: 1 <= c <= 3 ==> r.s.stopped[c] && r.s.delivered[c] == |r.s.sent[c]| == 2)
            && r.s.node[0].counted == |r.s.node[0].inbox|
            && !InTime(r.s.node[0].fed, 3, 2)
  {
    var t := AheadHappens();
    AheadEnds();
    AheadIsLate(t);
    LeavesDone(t, 3, TWICE, Play(3, AHEAD).occ, SILENT);
  }

  // --------------------------------------------------------- a flag that gets lost

  lemma FirstIsOne(src: seq<int>)
    requires src == [1, 2, 0] || src == [1, 2, 0, 1]
    ensures SrcAt(src, 0) != [] && SrcAt(src, 0)[0] == 1
  {
    assert src == [1] + src[1..];
    assert [1][..0] == [];
    FirstStays([1], src[1..], 0);
  }

  lemma FirstLeaf(z: Scene)
    requires z == Scene([0, 0, 0], [], map[], Place(0, 0))
    ensures NextScene(z, 1, 2) == Scene([0, 1, 0], [1], map[0 := 1], Place(0, 1))
  {
    assert !Completing(z.occ, 1) by {
      assert z.occ[2] == 0;
    }
  }

  lemma SecondLeaf(z: Scene)
    requires z == Scene([0, 1, 0], [1], map[0 := 1], Place(0, 1))
    ensures NextScene(z, 2, 2) == Scene([1, 1, 1], [1, 2, 0], map[0 := 3], Place(1, 0))
  {
    assert Completing(z.occ, 2);
  }

  /** Two leaves send one pulse each. */
  lemma TwoLeavesSend()
    ensures Letters([1, 2], 2) && Play(2, [1, 2]) == Scene([1, 1, 1], [1, 2, 0], map[0 := 3], Place(1, 0))
  {
    assert seq(3, _ => 0) == [0, 0, 0];
    FirstLeaf(Play(2, []));
    PlayOne(2, [], 1);
    assert [] + [1] == [1] && [1] + [2] == [1, 2];
    SecondLeaf(Play(2, [1]));
    PlayOne(2, [1], 2);
  }

  const ONCE: int -> nat := _ => 1
  const SECOND: int -> bool := c => c == 2

  lemma TwoLeavesHappen() returns (t: Sys)
    ensures Letters([1, 2], 2) && Happens(2, ONCE, SECOND, [1, 2], t)
  {
    TwoLeavesSend();
    PlayCounts(2, [1, 2], 1);
    PlayCounts(2, [1, 2], 2);
    t := EveryOrderRuns(2, ONCE, SECOND, [1, 2]);
  }

  lemma WhatTheySaid(t: Sys, occ: seq<nat>)
    requires |occ| == 3 && |t.sent| == 3 && AllSent(t, 2, ONCE, occ, SECOND) && |t.sent[1]| == |t.sent[2]| == 1
    ensures !t.sent[1][0].updateFile && t.sent[2][0].updateFile
  {
    assert t.sent[1][0] == MessageOf(2, ONCE(1), 1, 0, SECOND(1));
    assert t.sent[2][0] == MessageOf(2, ONCE(2), 2, 0, SECOND(2));
  }

  lemma TheFirstDecides(t: Sys)
    requires Inv(Star(2), t) && t.node[0].src == [1, 2, 0] && |t.sent[0]| == 1
    ensures |t.sent[1]| > 0 && t.sent[0][0].updateFile == t.sent[1][0].updateFile
  {
    StarShape(2);
    FirstIsOne(t.node[0].src);
    var x := FlagsOfFirst(Star(2), t, 0, 0);
  }

  /** One leaf alone cannot announce a change: of two leaves the second says update, and the message
      that the root publishes does not. */
  lemma OneLeafIsNotEnough()
    ensures Letters([1, 2], 2)
    ensures var r := Exec(Star(2), Tell(2, ONCE, SECOND, [1, 2]));
            && r.Next? && |r.s.sent[0]| == |r.s.sent[2]| == 1
            && r.s.sent[2][0].updateFile && !r.s.sent[0][0].updateFile
  {
    var t := TwoLeavesHappen();
    TwoLeavesSend();
    EndOfRun(2, ONCE, SECOND, [1, 2], t);
    TheFirstDecides(t);
    WhatTheySaid(t, Play(2, [1, 2]).occ);
  }

  // -------------------------------------------------- a root that is never told to finish

  /** The first of two leaves sends two pulses, the second one. */
  const UNEQUAL: int -> nat := c => if c == 1 then 2 else 1

  lemma ThirdEvent(z: Scene)
    requires z == Scene([1, 1, 1], [1, 2, 0], map[0 := 3], Place(1, 0))
    ensures NextScene(z, 1, 2) == Scene([1, 2, 1], [1, 2, 0, 1], map[0 := 3, 1 := 1], Place(1, 1))
  {
    assert !Completing(z.occ, 1) by {
      assert z.occ[2] == 1;
    }
  }

  lemma UnequalSend()
    ensures Letters([1, 2, 1], 2)
    ensures Play(2, [1, 2, 1]) == Scene([1, 2, 1], [1, 2, 0, 1], map[0 := 3, 1 := 1], Place(1, 1))
  {
    TwoLeavesSend();
    ThirdEvent(Play(2, [1, 2]));
    PlayOne(2, [1, 2], 1);
    assert [1, 2] + [1] == [1, 2, 1];
  }

  lemma UnequalHappen() returns (t: Sys)
    ensures Letters([1, 2, 1], 2) && Happens(2, UNEQUAL, SILENT, [1, 2, 1], t)
  {
    UnequalSend();
    PlayCounts(2, [1, 2, 1], 1);
    PlayCounts(2, [1, 2, 1], 2);
    t := EveryOrderRuns(2, UNEQUAL, SILENT, [1, 2, 1]);
  }

  lemma StarIsQuiet(t: Sys, d: int, occ: seq<nat>)
    requires d >= 1 && Stands(t, d, occ) && HandlerQuiet(t.node[0])
    requires forall c :: 1 <= c <= d ==> t.stopped[c]
    ensures Quiet(Star(d), t)
  {
    StarShape(d);
  }

  lemma LedByOne(t: Sys)
    requires Inv(Star(2), t) && t.node[0].src == [1, 2, 0, 1] && |t.sent[1]| == 2
    ensures Leader(Star(2), t, 0, 0) == 1
  {
    StarShape(2);
    FirstIsOne(t.node[0].src);
  }

  /** In this run no step can change anything any more, and the root has not been told to finish: the leaf
      whose message led to the only published one did not stop there. */
  lemma RootWaitsForEver()
    ensures Letters([1, 2, 1], 2)
    ensures var r := Exec(Star(2), Tell(2, UNEQUAL, SILENT, [1, 2, 1]));
            && r.Next? && Stuck(Star(2), r.s) && |r.s.sent[0]| == 1
            && Published(Star(2), r.s, 1).Sunk? && !Published(Star(2), r.s, 1).next.finished
  {
    var t := UnequalHappen();
    UnequalSend();
    EndOfRun(2, UNEQUAL, SILENT, [1, 2, 1], t);
    LeavesDone(t, 2, UNEQUAL, Play(2, [1, 2, 1]).occ, SILENT);
    StarIsQuiet(t, 2, Play(2, [1, 2, 1]).occ);
    StuckIffQuiet(Star(2), t);
    FinishedByQuit(Star(2), t);
    LedByOne(t);
  }
}
