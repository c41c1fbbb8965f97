/** Whose update and quit flags a message carries. */
module Flags {
  import opened Topology
  import opened HandlerRuns
  import opened Feeds
  import opened Protocol
  import opened Invariants
  import opened Safety

  /** The leaf whose event came first at its parent, whose merged event came first at the next rank, and
      so on up to rank: follow the first arrivals of pulse p down from rank. */
  ghost function Leader(cfg: Config, s: Sys, rank: int, p: nat): int
    requires Shape(cfg, s) && 0 <= rank < cfg.n
    decreases cfg.n - rank
  {
    var xs := SrcAt(s.node[rank].src, p);
    if cfg.Leaf(rank) || xs == [] || !(rank < xs[0] < cfg.n) then rank else Leader(cfg, s, xs[0], p)
  }

  /** A rank's message takes its flags from the child that was first. */
  lemma FlagsOfFirst(cfg: Config, s: Sys, rank: int, p: nat) returns (x: int)
    requires Inv(cfg, s) && 0 <= rank < cfg.n && !cfg.Leaf(rank) && p < |s.sent[rank]|
    ensures SrcAt(s.node[rank].src, p) != [] && x == SrcAt(s.node[rank].src, p)[0]
    ensures x in cfg.Kids(rank) && rank < x < cfg.n && p < |s.sent[x]|
    ensures s.sent[rank][p].updateFile == s.sent[x][p].updateFile && s.sent[rank][p].quit == s.sent[x][p].quit
  {
    var v := s.node[rank];
    var es := AtTs(v.fed, p);
    InnerParts(cfg, s, rank);
    SourcesOfPulse(cfg, s, rank, p);
    assert s.sent[rank][p] == Collect(es);
    CollectHeader(es);
    x := SrcAt(v.src, p)[0];
    NotOwnChild(cfg, rank);
    ParentBelow(x, cfg.d);
    assert SourceOk(cfg, s, rank, x, p, es[0]);
  }

  /** A message says update, or quit, exactly if the leaf that leads to it for that pulse said so; the
      flags of all other leaves are lost. */
  lemma {:induction false} FlagsOfLeader(cfg: Config, s: Sys, rank: int, p: nat)
    requires Inv(cfg, s) && 0 <= rank < cfg.n && p < |s.sent[rank]|
    ensures var x := Leader(cfg, s, rank, p);
            && x in cfg.Below(rank) && cfg.Leaf(x) && p < |s.sent[x]|
            && s.sent[rank][p].updateFile == s.sent[x][p].updateFile
            && s.sent[rank][p].quit == s.sent[x][p].quit
    decreases cfg.n - rank
  {
    if !cfg.Leaf(rank) {
      var c := FlagsOfFirst(cfg, s, rank, p);
      FlagsOfLeader(cfg, s, c, p);
      UnderParent(Leader(cfg, s, c, p), c, cfg.d);
    }
  }

  /** So a flag that every leaf sets reaches the root, in every run. */
  lemma AgreedFlagsReachTheRoot(cfg: Config, steps: seq<Step>, p: nat)
    requires cfg.Valid() && Exec(cfg, steps).Next? && p < |Exec(cfg, steps).s.sent[0]|
    ensures var s := Exec(cfg, steps).s;
            var x := Leader(cfg, s, 0, p);
            && 0 <= x < cfg.n && cfg.Leaf(x) && p < |s.sent[x]|
            && (s.sent[0][p].updateFile <==> s.sent[x][p].updateFile)
            && (s.sent[0][p].quit <==> s.sent[x][p].quit)
            && ((forall y :: 0 <= y < cfg.n && cfg.Leaf(y) && p < |s.sent[y]| ==> s.sent[y][p].updateFile) ==>
                  s.sent[0][p].updateFile)
            && ((forall y :: 0 <= y < cfg.n && cfg.Leaf(y) && p < |s.sent[y]| ==> s.sent[y][p].quit) ==>
                  s.sent[0][p].quit)
  {
    RunKeeps(cfg, steps);
    FlagsOfLeader(cfg, Exec(cfg, steps).s, 0, p);
  }
}
