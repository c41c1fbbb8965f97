/** The order in which the children's events and the own events of one rank reach its queue. */
module Feeds {
  import opened Events
  import opened Topology
  import opened HandlerRuns
  import opened OwnMetrics
  import opened Collections

  /** The senders of the events of pulse p, in order of arrival. */
  ghost function SrcAt(src: seq<int>, p: int): seq<int> {
    if src == [] then [] else
    var before, last := src[..|src| - 1], src[|src| - 1];
    SrcAt(before, p) + if Occ(before, last) == p then [last] else []
  }

  /** e is the event that x put into the queue at some point. */
  ghost predicate Came(fed: seq<Event>, src: seq<int>, e: Event, x: int)
    requires |fed| == |src|
  {
    exists i :: 0 <= i < |src| && src[i] == x && fed[i] == e
  }

  ghost predicate Fits(e: Event, before: seq<int>, x: int, site: Site, width: nat -> nat)
    requires site.d >= 1
  {
    var kids := Children(site.rank, site.d, site.n);
    && e.timestamp == Occ(before, x)
    && |e.info| == width(Occ(before, x))
    && (x in kids || x == site.rank)
    && (x in kids ==> FirstOk(e, site))
    && (x == site.rank ==> forall c :: c in kids ==> Occ(before, c) > Occ(before, x))
  }

  /** fed[i] is event number Occ of sender src[i]; the rank's own event of a pulse comes only after
      every child's; the children's events name this rank as parent. */
  ghost predicate Shuffle(fed: seq<Event>, src: seq<int>, site: Site, width: nat -> nat) {
    && site.d >= 1 && |fed| == |src|
    && forall i :: 0 <= i < |src| ==> Fits(fed[i], src[..i], src[i], site, width)
  }

  lemma ShufflePrefix(fed: seq<Event>, src: seq<int>, site: Site, width: nat -> nat)
    requires Shuffle(fed, src, site, width) && src != []
    ensures Shuffle(fed[..|fed| - 1], src[..|src| - 1], site, width)
    ensures Fits(fed[|fed| - 1], src[..|src| - 1], src[|src| - 1], site, width)
  {
    var f, w := fed[..|fed| - 1], src[..|src| - 1];
    forall i | 0 <= i < |w|
      ensures Fits(f[i], w[..i], w[i], site, width)
    {
      assert w[..i] == src[..i];
      assert Fits(fed[i], src[..i], src[i], site, width);
    }
  }

  lemma ShuffleAppend(fed: seq<Event>, src: seq<int>, e: Event, x: int, site: Site, width: nat -> nat)
    requires Shuffle(fed, src, site, width) && Fits(e, src, x, site, width)
    ensures Shuffle(fed + [e], src + [x], site, width)
  {
    var f, w := fed + [e], src + [x];
    forall i | 0 <= i < |w|
      ensures Fits(f[i], w[..i], w[i], site, width)
    {
      if i < |src| {
        assert w[..i] == src[..i];
        assert Fits(fed[i], src[..i], src[i], site, width);
      } else {
        assert w[..i] == src;
      }
    }
  }

  /** Every sender appears once, exactly if its event of pulse p has arrived. */
  lemma {:induction false} SrcAtOk(src: seq<int>, p: int)
    requires p >= 0
    ensures NoDup(SrcAt(src, p))
    ensures forall x :: x in SrcAt(src, p) <==> Occ(src, x) > p
  {
    if src != [] {
      SrcAtOk(src[..|src| - 1], p);
    }
  }

  lemma {:induction false} NegativePulse(fed: seq<Event>, src: seq<int>, site: Site, width: nat -> nat, p: int)
    requires Shuffle(fed, src, site, width) && p < 0
    ensures AtTs(fed, p) == []
  {
    if fed != [] {
      ShufflePrefix(fed, src, site, width);
      NegativePulse(fed[..|fed| - 1], src[..|src| - 1], site, width, p);
    }
  }

  /** The events of a pulse and their senders run in parallel. */
  lemma {:induction false} Parallel(fed: seq<Event>, src: seq<int>, site: Site, width: nat -> nat, p: int)
    requires Shuffle(fed, src, site, width)
    ensures |AtTs(fed, p)| == |SrcAt(src, p)|
    ensures forall j :: 0 <= j < |AtTs(fed, p)| ==> Came(fed, src, AtTs(fed, p)[j], SrcAt(src, p)[j])
  {
    if fed != [] {
      var f, w := fed[..|fed| - 1], src[..|src| - 1];
      ShufflePrefix(fed, src, site, width);
      Parallel(f, w, site, width, p);
      forall j | 0 <= j < |AtTs(fed, p)|
        ensures Came(fed, src, AtTs(fed, p)[j], SrcAt(src, p)[j])
      {
        if j < |AtTs(f, p)| {
          assert Came(f, w, AtTs(f, p)[j], SrcAt(w, p)[j]);
          var i :| 0 <= i < |w| && w[i] == SrcAt(w, p)[j] && f[i] == AtTs(f, p)[j];
          assert src[i] == SrcAt(w, p)[j] && fed[i] == AtTs(f, p)[j];
        } else {
          assert src[|w|] == SrcAt(src, p)[j];
        }
      }
    }
  }

  lemma {:induction false} FirstIsChild(fed: seq<Event>, src: seq<int>, site: Site, width: nat -> nat, p: int)
    requires Shuffle(fed, src, site, width) && p >= 0
    requires Children(site.rank, site.d, site.n) != {} && SrcAt(src, p) != []
    ensures SrcAt(src, p)[0] in Children(site.rank, site.d, site.n)
  {
    var f, w := fed[..|fed| - 1], src[..|src| - 1];
    ShufflePrefix(fed, src, site, width);
    if SrcAt(w, p) != [] {
      FirstIsChild(f, w, site, width, p);
    } else {
      SrcAtOk(w, p);
    }
  }

  lemma {:induction false} SendersKnown(fed: seq<Event>, src: seq<int>, site: Site, width: nat -> nat, x: int)
    requires Shuffle(fed, src, site, width) && Occ(src, x) > 0
    ensures x in Children(site.rank, site.d, site.n) + {site.rank}
  {
    ShufflePrefix(fed, src, site, width);
    if src[|src| - 1] != x {
      SendersKnown(fed[..|fed| - 1], src[..|src| - 1], site, width, x);
    }
  }

  /** At most one event per sender and pulse; with degree + 1 of them every sender is there. */
  lemma SendersOfPulse(fed: seq<Event>, src: seq<int>, site: Site, width: nat -> nat, p: int)
    requires Shuffle(fed, src, site, width) && p >= 0 && 0 <= site.rank
    ensures Members(SrcAt(src, p)) <= Children(site.rank, site.d, site.n) + {site.rank}
    ensures |SrcAt(src, p)| <= site.Kids() + 1
    ensures |SrcAt(src, p)| == site.Kids() + 1
            <==> Members(SrcAt(src, p)) == Children(site.rank, site.d, site.n) + {site.rank}
  {
    SrcAtOk(src, p);
    NoDupSize(SrcAt(src, p));
    DegreeCountsChildren(site.rank, site.d, site.n);
    var all := Children(site.rank, site.d, site.n) + {site.rank};
    forall x | x in SrcAt(src, p)
      ensures x in all
    {
      SendersKnown(fed, src, site, width, x);
    }
    if site.rank in Children(site.rank, site.d, site.n) {
      ParentBelow(site.rank, site.d);
    }
    assert |all| == site.Kids() + 1;
    SubsetSize(Members(SrcAt(src, p)), all);
    if |SrcAt(src, p)| == site.Kids() + 1 {
      SubsetOfSameSize(Members(SrcAt(src, p)), all);
    }
  }

  lemma PulseWidth(fed: seq<Event>, src: seq<int>, site: Site, width: nat -> nat, p: nat)
    requires Shuffle(fed, src, site, width)
    ensures forall j :: 0 <= j < |AtTs(fed, p)| ==> |AtTs(fed, p)[j].info| == width(p)
  {
    AtTsMember(fed, p);
    forall j | 0 <= j < |AtTs(fed, p)|
      ensures |AtTs(fed, p)[j].info| == width(p)
    {
      assert AtTs(fed, p)[j] in AtTs(fed, p);
      var i :| 0 <= i < |fed| && fed[i] == AtTs(fed, p)[j];
      assert Fits(fed[i], src[..i], src[i], site, width);
    }
  }

  /** Any such order of arrivals is one the queue handler can cope with. */
  lemma ShuffleIsFeed(fed: seq<Event>, src: seq<int>, site: Site, width: nat -> nat)
    requires Shuffle(fed, src, site, width) && 0 <= site.rank && site.Kids() >= 1
    ensures FeedOk(fed, site)
  {
    DegreeCountsChildren(site.rank, site.d, site.n);
    forall p
      ensures |AtTs(fed, p)| <= site.Kids() + 1
      ensures AtTs(fed, p) != [] ==> 0 <= p && FirstOk(AtTs(fed, p)[0], site)
      ensures forall i :: 0 <= i < |AtTs(fed, p)| ==> |AtTs(fed, p)[i].info| == |AtTs(fed, p)[0].info|
    {
      if p < 0 {
        NegativePulse(fed, src, site, width, p);
      } else {
        Parallel(fed, src, site, width, p);
        SendersOfPulse(fed, src, site, width, p);
        PulseWidth(fed, src, site, width, p);
        if AtTs(fed, p) != [] {
          FirstIsChild(fed, src, site, width, p);
          assert Came(fed, src, AtTs(fed, p)[0], SrcAt(src, p)[0]);
          var i :| 0 <= i < |src| && src[i] == SrcAt(src, p)[0] && fed[i] == AtTs(fed, p)[0];
          assert Fits(fed[i], src[..i], src[i], site, width);
        }
      }
    }
    forall p, later | 0 <= p <= later && AtTs(fed, later) != []
      ensures AtTs(fed, p) != []
    {
      Parallel(fed, src, site, width, p);
      Parallel(fed, src, site, width, later);
      SrcAtOk(src, p);
      SrcAtOk(src, later);
      assert SrcAt(src, later)[0] in SrcAt(src, later);
      assert SrcAt(src, later)[0] in SrcAt(src, p);
    }
  }

  lemma SrcAtAppend(src: seq<int>, x: int, p: int)
    ensures SrcAt(src + [x], p) == SrcAt(src, p) + if Occ(src, x) == p then [x] else []
  {
    var w := src + [x];
    assert w[..|w| - 1] == src;
  }

  /** Whoever was first stays first. */
  lemma {:induction false} FirstStays(src: seq<int>, more: seq<int>, p: int)
    requires SrcAt(src, p) != []
    ensures SrcAt(src + more, p) != [] && SrcAt(src + more, p)[0] == SrcAt(src, p)[0]
  {
    if more == [] {
      assert src + more == src;
    } else {
      var m := |more| - 1;
      FirstStays(src, more[..m], p);
      SrcAtAppend(src + more[..m], more[m], p);
      SplitLast(more);
      assert src + more == src + more[..m] + [more[m]];
    }
  }
}
