/** Handing every rank its parent's address over MPI, up to the first barrier
    (monitoring_initialize, recv_addr_from_parent, send_addr_to_children). */
module Bootstrap {
  import opened Events
  import opened Topology

  type Address = string

  /** n ranks with fan-out d; addr is the address of each rank's split stone. */
  datatype World = World(n: int, d: int, addr: int -> Address) {
    predicate Valid() { n >= 1 && d >= 1 }
  }

  datatype Message = Message(from: int, text: Address)

  /** How far each rank is: the address it has received, the number of children it has sent its own
      to, and the messages that MPI has buffered for it. */
  datatype Boot = Boot(got: seq<Option<Address>>, sent: seq<nat>, mail: seq<seq<Message>>)

  function Start(w: World): Boot
    requires w.Valid()
  {
    Boot(seq(w.n, _ => None), seq(w.n, _ => 0), seq(w.n, _ => []))
  }

  ghost predicate Shape(w: World, b: Boot) {
    |b.got| == |b.sent| == |b.mail| == w.n
  }

  /** A rank blocks in its receive until the address has come; the root has no receive. */
  predicate PastReceive(w: World, b: Boot, r: int)
    requires 0 <= r < |b.got|
  {
    r == 0 || b.got[r].Some?
  }

  predicate Sending(w: World, b: Boot, r: int)
    requires 0 <= r < |b.got| && |b.sent| == |b.got|
  {
    PastReceive(w, b, r) && !IsLeaf(r, w.d, w.n) && b.sent[r] < Degree(r, w.d, w.n)
  }

  predicate AtBarrier(w: World, b: Boot, r: int)
    requires 0 <= r < |b.got| && |b.sent| == |b.got|
  {
    PastReceive(w, b, r) && !Sending(w, b, r)
  }

  /** The child that the next send of r names. */
  function Target(w: World, b: Boot, r: int): int
    requires 0 <= r < |b.sent|
  {
    r * w.d + b.sent[r] + 1
  }

  datatype Step =
    | Rendezvous(from: int)   // a synchronous send meets the receive it names
    | Buffer(from: int)       // MPI takes the message and lets the sender go on
    | Receive(rank: int)      // a receive finds a buffered message of its source

  /** The first buffered message from `from`. */
  function FirstFrom(mail: seq<Message>, from: int): (k: nat)
    ensures k <= |mail|
    ensures k < |mail| ==> mail[k].from == from
    ensures forall j :: 0 <= j < k ==> mail[j].from != from
  {
    if mail == [] then 0 else if mail[0].from == from then 0 else 1 + FirstFrom(mail[1..], from)
  }

  ghost predicate Enabled(w: World, b: Boot, step: Step)
    requires w.Valid() && Shape(w, b)
  {
    match step
    case Rendezvous(r) =>
      && 0 <= r < w.n && Sending(w, b, r)
      && var t := Target(w, b, r);
      0 <= t < w.n && !PastReceive(w, b, t) && ParentRank(t, w.d) == r
    case Buffer(r) => 0 <= r < w.n && Sending(w, b, r) && 0 <= Target(w, b, r) < w.n
    case Receive(t) =>
      && 0 <= t < w.n && !PastReceive(w, b, t)
      && FirstFrom(b.mail[t], ParentRank(t, w.d)) < |b.mail[t]|
  }

  ghost function Apply(w: World, b: Boot, step: Step): (c: Boot)
    requires w.Valid() && Shape(w, b) && Enabled(w, b, step)
    ensures Shape(w, c)
  {
    match step
    case Rendezvous(r) =>
      b.(sent := b.sent[r := b.sent[r] + 1], got := b.got[Target(w, b, r) := Some(w.addr(r))])
    case Buffer(r) =>
      var t := Target(w, b, r);
      b.(sent := b.sent[r := b.sent[r] + 1], mail := b.mail[t := b.mail[t] + [Message(r, w.addr(r))]])
    case Receive(t) =>
      var k := FirstFrom(b.mail[t], ParentRank(t, w.d));
      b.(got := b.got[t := Some(b.mail[t][k].text)], mail := b.mail[t := b.mail[t][..k] + b.mail[t][k + 1..]])
  }

  /** Where a list of steps leads; None if one of them is not possible when its turn comes. */
  ghost function Exec(w: World, steps: seq<Step>): (b: Option<Boot>)
    requires w.Valid()
    ensures b.Some? ==> Shape(w, b.value)
  {
    if steps == [] then Some(Start(w)) else
    var a := Exec(w, steps[..|steps| - 1]);
    if a.Some? && Enabled(w, a.value, steps[|steps| - 1]) then Some(Apply(w, a.value, steps[|steps| - 1])) else None
  }

  ghost predicate Reaches(w: World, steps: seq<Step>, b: Boot)
    requires w.Valid()
  {
    Exec(w, steps) == Some(b)
  }

  /** Where the address for rank t is: not sent yet, buffered once, or received. */
  ghost predicate OnItsWay(w: World, b: Boot, t: int)
    requires w.Valid() && Shape(w, b) && 1 <= t < w.n && 0 <= ParentRank(t, w.d) < w.n
  {
    var s := ParentRank(t, w.d);
    if b.sent[s] < t - s * w.d then b.got[t] == None && b.mail[t] == []
    else (b.got[t] == None && b.mail[t] == [Message(s, w.addr(s))]) ||
         (b.got[t] == Some(w.addr(s)) && b.mail[t] == [])
  }

  ghost predicate Inv(w: World, b: Boot) {
    && w.Valid() && Shape(w, b)
    && b.mail[0] == []
    && (forall r :: 0 <= r < w.n ==> b.sent[r] <= Degree(r, w.d, w.n))
    && (forall r :: 0 < r < w.n && b.sent[r] > 0 ==> b.got[r].Some?)
    && (forall t :: 1 <= t < w.n ==> 0 <= ParentRank(t, w.d) < w.n && OnItsWay(w, b, t))
  }

  lemma StartInv(w: World)
    requires w.Valid()
    ensures Inv(w, Start(w))
  {
    forall t | 1 <= t < w.n
      ensures 0 <= ParentRank(t, w.d) < w.n && OnItsWay(w, Start(w), t)
    {
      ParentBelow(t, w.d);
      ChildOfParent(t, w.d);
    }
  }

  /** The next send of a rank names a child that still waits for it. */
  lemma TargetWaits(w: World, b: Boot, r: int)
    requires Inv(w, b) && 0 <= r < w.n && Sending(w, b, r)
    ensures var t := Target(w, b, r);
            && 1 <= t < w.n && ParentRank(t, w.d) == r && t - r * w.d == b.sent[r] + 1
            && !PastReceive(w, b, t) && b.mail[t] == []
  {
    var t := Target(w, b, r);
    ChildrenArePrefix(r, w.d, w.n, t);
    assert OnItsWay(w, b, t);
  }

  lemma StepKeeps(w: World, b: Boot, step: Step)
    requires Inv(w, b) && Enabled(w, b, step)
    ensures Inv(w, Apply(w, b, step))
  {
    var c := Apply(w, b, step);
    match step
    case Rendezvous(r) =>
      TargetWaits(w, b, r);
      forall u | 1 <= u < w.n
        ensures OnItsWay(w, c, u)
      {
        assert OnItsWay(w, b, u);
      }
    case Buffer(r) =>
      TargetWaits(w, b, r);
      forall u | 1 <= u < w.n
        ensures OnItsWay(w, c, u)
      {
        assert OnItsWay(w, b, u);
      }
    case Receive(t) =>
      assert OnItsWay(w, b, t);
      forall u | 1 <= u < w.n
        ensures OnItsWay(w, c, u)
      {
        assert OnItsWay(w, b, u);
      }
  }

  lemma {:induction false} RunKeeps(w: World, steps: seq<Step>, b: Boot)
    requires w.Valid() && Reaches(w, steps, b)
    ensures Inv(w, b)
  {
    if steps == [] {
      StartInv(w);
    } else {
      var m := |steps| - 1;
      var a := Exec(w, steps[..m]).value;
      RunKeeps(w, steps[..m], a);
      StepKeeps(w, a, steps[m]);
    }
  }

  /** A rank has its parent's address before it sends its own: in every reachable state, whoever has sent
      anything, or can send now, has received exactly that. */
  lemma ReceiveComesFirst(w: World, steps: seq<Step>, b: Boot, r: int)
    requires w.Valid() && Reaches(w, steps, b) && 0 <= r < w.n
    ensures b.sent[r] > 0 || Enabled(w, b, Rendezvous(r)) || Enabled(w, b, Buffer(r)) ==>
              r == 0 || (0 <= (r - 1) / w.d < w.n && b.got[r] == Some(w.addr((r - 1) / w.d)))
  {
    RunKeeps(w, steps, b);
    if r > 0 {
      assert OnItsWay(w, b, r);
    }
  }

  /** Every send that a run performs, buffered or not, names a rank that waits for exactly this
      sender and has not been sent anything yet: sends and receives match one to one. */
  lemma SendsMatchReceives(w: World, steps: seq<Step>, b: Boot, r: int)
    requires w.Valid() && Reaches(w, steps, b) && 0 <= r < w.n && Sending(w, b, r)
    ensures Enabled(w, b, Rendezvous(r)) && Enabled(w, b, Buffer(r)) && b.mail[Target(w, b, r)] == []
  {
    RunKeeps(w, steps, b);
    TargetWaits(w, b, r);
  }

  lemma ParentHasChild(w: World, s: int, c: int)
    requires w.Valid() && 0 <= s < w.n && 1 <= c < w.n && ParentRank(c, w.d) == s
    ensures !IsLeaf(s, w.d, w.n) && 1 <= c - s * w.d <= Degree(s, w.d, w.n)
  {
    ChildrenArePrefix(s, w.d, w.n, c);
  }

  /** Either r itself can go on, or the rank it waits for can. */
  lemma {:induction false} SomeStep(w: World, b: Boot, r: int) returns (step: Step)
    requires Inv(w, b) && 0 <= r < w.n && !AtBarrier(w, b, r)
    ensures Enabled(w, b, step) && !step.Buffer?
    decreases r
  {
    if Sending(w, b, r) {
      TargetWaits(w, b, r);
      step := Rendezvous(r);
    } else {
      var s := ParentRank(r, w.d);
      ParentBelow(r, w.d);
      if AtBarrier(w, b, s) {
        assert OnItsWay(w, b, r);
        ChildrenArePrefix(s, w.d, w.n, r);
        ParentHasChild(w, s, r);
        step := Receive(r);
      } else {
        step := SomeStep(w, b, s);
      }
    }
  }

  /** No reachable state is deadlocked, even if MPI never buffers again: as long as some rank is not
      at the barrier, a receive or a synchronous send can happen. */
  lemma NoDeadlock(w: World, steps: seq<Step>, b: Boot, r: int) returns (step: Step)
    requires w.Valid() && Reaches(w, steps, b) && 0 <= r < w.n && !AtBarrier(w, b, r)
    ensures Enabled(w, b, step) && !step.Buffer?
  {
    RunKeeps(w, steps, b);
    step := SomeStep(w, b, r);
  }

  ghost function SumSent(sent: seq<nat>, m: nat): nat
    requires m <= |sent|
  {
    if m == 0 then 0 else SumSent(sent, m - 1) + sent[m - 1]
  }

  lemma {:induction false} SentIsDegrees(w: World, b: Boot, m: nat)
    requires Inv(w, b) && m <= w.n && forall r :: 0 <= r < w.n ==> AtBarrier(w, b, r)
    ensures SumSent(b.sent, m) == DegreeSum(m, w.d, w.n)
  {
    if m > 0 {
      SentIsDegrees(w, b, m - 1);
      assert AtBarrier(w, b, m - 1);
    }
  }

  lemma ReceivedAtBarrier(w: World, b: Boot, t: int)
    requires Inv(w, b) && 1 <= t < w.n && AtBarrier(w, b, t)
    ensures b.got[t] == Some(w.addr(ParentRank(t, w.d))) && b.mail[t] == []
  {
    assert OnItsWay(w, b, t);
  }

  lemma AllReceivedAtBarrier(w: World, b: Boot)
    requires Inv(w, b) && forall r :: 0 <= r < w.n ==> AtBarrier(w, b, r)
    ensures forall t :: 1 <= t < w.n ==> b.got[t] == Some(w.addr(ParentRank(t, w.d)))
    ensures forall t :: 0 <= t < w.n ==> b.mail[t] == []
  {
    forall t | 1 <= t < w.n
      ensures b.got[t] == Some(w.addr(ParentRank(t, w.d))) && b.mail[t] == []
    {
      ReceivedAtBarrier(w, b, t);
    }
  }

  /** At the barrier every rank but the root holds exactly its parent's address, nothing is left in
      any buffer, and n - 1 messages have been sent. */
  lemma BarrierMeansConnected(w: World, steps: seq<Step>, b: Boot)
    requires w.Valid() && Reaches(w, steps, b) && forall r :: 0 <= r < w.n ==> AtBarrier(w, b, r)
    ensures forall t :: 1 <= t < w.n ==> b.got[t] == Some(w.addr(ParentRank(t, w.d)))
    ensures forall t :: 0 <= t < w.n ==> b.mail[t] == []
    ensures SumSent(b.sent, w.n) == w.n - 1
  {
    RunKeeps(w, steps, b);
    AllReceivedAtBarrier(w, b);
    SentIsDegrees(w, b, w.n);
    DegreesSumToEdges(w.d, w.n);
  }

  /** How much is left to do for the addresses of the ranks below m. */
  ghost function Left(w: World, b: Boot, m: nat): nat
    requires Shape(w, b) && m <= w.n
  {
    if m <= 1 then 0 else
    Left(w, b, m - 1) + if b.got[m - 1].Some? then 0 else if b.mail[m - 1] != [] then 1 else 2
  }

  lemma {:induction false} LeftShrinks(w: World, b: Boot, c: Boot, t: int, m: nat)
    requires w.Valid() && Shape(w, b) && Shape(w, c) && m <= w.n && 1 <= t < w.n
    requires forall u :: 0 <= u < w.n && u != t ==> c.got[u] == b.got[u] && c.mail[u] == b.mail[u]
    requires b.got[t].None? && (c.got[t].Some? || (b.mail[t] == [] && c.mail[t] != []))
    ensures Left(w, c, m) <= Left(w, b, m)
    ensures t < m ==> Left(w, c, m) < Left(w, b, m)
  {
    if m > 1 {
      LeftShrinks(w, b, c, t, m - 1);
    }
  }

  lemma {:induction false} LeftAtStart(w: World, m: nat)
    requires w.Valid() && m <= w.n
    ensures Left(w, Start(w), m) == if m <= 1 then 0 else 2 * (m - 1)
  {
    if m > 1 {
      LeftAtStart(w, m - 1);
    }
  }

  /** The bootstrap ends: no run has more than 2 (n - 1) steps. */
  lemma {:induction false} BootstrapEnds(w: World, steps: seq<Step>, b: Boot)
    requires w.Valid() && Reaches(w, steps, b)
    ensures |steps| + Left(w, b, w.n) <= 2 * (w.n - 1)
  {
    if steps == [] {
      LeftAtStart(w, w.n);
    } else {
      var m := |steps| - 1;
      var a := Exec(w, steps[..m]).value;
      BootstrapEnds(w, steps[..m], a);
      RunKeeps(w, steps[..m], a);
      match steps[m]
      case Rendezvous(r) =>
        TargetWaits(w, a, r);
        LeftShrinks(w, a, b, Target(w, a, r), w.n);
      case Buffer(r) =>
        TargetWaits(w, a, r);
        LeftShrinks(w, a, b, Target(w, a, r), w.n);
      case Receive(t) =>
        LeftShrinks(w, a, b, t, w.n);
    }
  }

  /** The send loop of one rank: it names each of its children once, in order. */
  method SendTargets(rank: int, d: int, n: int) returns (targets: seq<int>)
    requires d >= 1 && 0 <= rank < n
    ensures |targets| == Degree(rank, d, n)
    ensures forall k :: 0 <= k < |targets| ==> targets[k] == rank * d + k + 1
    ensures forall c :: c in targets <==> c in Children(rank, d, n)
  {
    targets := [];
    var degree := CountChildren(rank, d, n);
    var i := 1;
    while i <= degree
      invariant 1 <= i <= degree + 1 && |targets| == i - 1
      invariant forall k :: 0 <= k < |targets| ==> targets[k] == rank * d + k + 1
    {
      targets := targets + [rank * d + i];
      i := i + 1;
    }
    forall c
      ensures c in targets <==> c in Children(rank, d, n)
    {
      ChildrenArePrefix(rank, d, n, c);
      if 1 <= c - rank * d <= degree {
        assert targets[c - rank * d - 1] == c;
      }
    }
  }
}
