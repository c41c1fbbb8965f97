/** The memory in which the elements of a uthash table lie, and the lists they form (uthash.h). */
module HashMemory {
  import opened Collections

  /** The address of an element; its UT_hash_handle is stored with it. */
  type Ptr = nat

  const NULL: Ptr := 0

  /** UT_hash_handle; keys are compared as a whole, so a number stands for the key's bytes. */
  datatype Handle = Handle(
    key: int,
    hashv: nat,
    prev: Ptr,      // insertion order
    next: Ptr,
    hhPrev: Ptr,    // bucket order
    hhNext: Ptr)

  type Memory = map<Ptr, Handle>

  datatype Bucket = Bucket(head: Ptr, count: nat, expandMult: nat)

  const NO_BUCKET := Bucket(NULL, 0, 0)

  // --------------------------------------------------------------------- lists

  function At(xs: seq<Ptr>, i: int): Ptr {
    if 0 <= i < |xs| then xs[i] else NULL
  }

  ghost predicate InMemory(mem: Memory, xs: seq<Ptr>) {
    forall x :: x in xs ==> x in mem && x != NULL
  }

  /** xs is doubly linked in insertion order. */
  ghost predicate AppLinked(mem: Memory, xs: seq<Ptr>) {
    forall i {:trigger mem[xs[i]]} :: 0 <= i < |xs| ==>
      xs[i] in mem && mem[xs[i]].next == At(xs, i + 1) && mem[xs[i]].prev == At(xs, i - 1)
  }

  /** xs is doubly linked in bucket order. */
  ghost predicate Chained(mem: Memory, xs: seq<Ptr>) {
    forall i {:trigger mem[xs[i]]} :: 0 <= i < |xs| ==>
      xs[i] in mem && mem[xs[i]].hhNext == At(xs, i + 1) && mem[xs[i]].hhPrev == At(xs, i - 1)
  }

  /** A bucket's header and links describe the chain. */
  ghost predicate BucketOk(mem: Memory, bk: Bucket, chain: seq<Ptr>) {
    && bk.head == At(chain, 0) && bk.count == |chain|
    && NoDup(chain) && InMemory(mem, chain) && Chained(mem, chain)
  }

  ghost predicate BucketsOk(mem: Memory, bs: seq<Bucket>, chains: seq<seq<Ptr>>) {
    |bs| == |chains| && forall b :: 0 <= b < |bs| ==> BucketOk(mem, bs[b], chains[b])
  }

  function Slot(key: int, hash: int -> nat, m: nat): nat
    requires m > 0
  {
    hash(key) % m
  }

  /** The bucket an element belongs to. */
  ghost predicate Belongs(mem: Memory, x: Ptr, hash: int -> nat, m: nat, b: nat)
    requires m > 0
  {
    x in mem && Slot(mem[x].key, hash, m) == b
  }

  /** The bucket view and the insertion-order view hold the same elements, each in its bucket. */
  ghost predicate Partition(mem: Memory, items: seq<Ptr>, chains: seq<seq<Ptr>>, hash: int -> nat) {
    && |chains| > 0
    && (forall b, x :: 0 <= b < |chains| && x in chains[b] ==> x in items && Belongs(mem, x, hash, |chains|, b))
    && (forall x :: x in items ==> x in mem && x in chains[Slot(mem[x].key, hash, |chains|)])
  }

  ghost predicate Hashed(mem: Memory, items: seq<Ptr>, hash: int -> nat) {
    forall x :: x in items ==> x in mem && mem[x].hashv == hash(mem[x].key)
  }

  /** Two memories agree on the bucket links of x, on all of its keys. */
  ghost predicate SameChainLinks(m: Memory, n: Memory, x: Ptr) {
    x in m ==> x in n && n[x].hhNext == m[x].hhNext && n[x].hhPrev == m[x].hhPrev
  }

  ghost predicate SameKeys(m: Memory, n: Memory) {
    m.Keys <= n.Keys && forall x :: x in m ==> n[x].key == m[x].key
  }

  /** Following the links of the chain, or of the list, from its head visits xs and ends. */
  ghost predicate ChainWalk(mem: Memory, first: Ptr, xs: seq<Ptr>) {
    && first == At(xs, 0) && (forall i :: 0 <= i < |xs| ==> xs[i] != NULL && xs[i] in mem)
    && forall i {:trigger mem[xs[i]]} :: 0 <= i < |xs| ==> mem[xs[i]].hhNext == At(xs, i + 1)
  }

  ghost predicate ListWalk(mem: Memory, first: Ptr, xs: seq<Ptr>) {
    && first == At(xs, 0) && (forall i :: 0 <= i < |xs| ==> xs[i] != NULL && xs[i] in mem)
    && forall i {:trigger mem[xs[i]]} :: 0 <= i < |xs| ==> mem[xs[i]].next == At(xs, i + 1)
  }

  /** Each element's link back leads to the one before. */
  ghost predicate ChainBack(mem: Memory, xs: seq<Ptr>) {
    forall i {:trigger mem[xs[i]]} :: 0 <= i < |xs| ==> xs[i] in mem && mem[xs[i]].hhPrev == At(xs, i - 1)
  }

  ghost predicate ListBack(mem: Memory, xs: seq<Ptr>) {
    forall i {:trigger mem[xs[i]]} :: 0 <= i < |xs| ==> xs[i] in mem && mem[xs[i]].prev == At(xs, i - 1)
  }

  lemma ChainIsWalk(mem: Memory, bk: Bucket, chain: seq<Ptr>)
    requires BucketOk(mem, bk, chain)
    ensures ChainWalk(mem, bk.head, chain) && ChainBack(mem, chain)
  {
    assert forall i :: 0 <= i < |chain| ==> chain[i] in chain;
  }

  lemma ListIsWalk(mem: Memory, its: seq<Ptr>)
    requires InMemory(mem, its) && AppLinked(mem, its)
    ensures ListWalk(mem, At(its, 0), its) && ListBack(mem, its)
  {
    assert forall i :: 0 <= i < |its| ==> its[i] in its;
  }

  // --------------------------------------------------------------- bucket chains

  lemma BucketFrame(m: Memory, n: Memory, bk: Bucket, chain: seq<Ptr>)
    requires BucketOk(m, bk, chain) && forall x :: x in chain ==> SameChainLinks(m, n, x)
    ensures BucketOk(n, bk, chain)
  {
    forall i | 0 <= i < |chain|
      ensures chain[i] in n && n[chain[i]].hhNext == At(chain, i + 1) && n[chain[i]].hhPrev == At(chain, i - 1)
    {
      assert chain[i] in chain;
      assert m[chain[i]].hhNext == At(chain, i + 1);
    }
  }

  /** What HASH_ADD_TO_BKT does to memory: x becomes the head of the chain that first heads. */
  function PushFront(mem: Memory, x: Ptr, first: Ptr): Memory
    requires x in mem && (first != NULL ==> first in mem)
  {
    var m := mem[x := mem[x].(hhNext := first, hhPrev := NULL)];
    if first != NULL then m[first := m[first].(hhPrev := x)] else m
  }

  lemma PushedBucket(mem: Memory, bk: Bucket, chain: seq<Ptr>, x: Ptr, mult: nat)
    requires BucketOk(mem, bk, chain) && x in mem && x != NULL && x !in chain
    ensures bk.head != NULL ==> bk.head in mem
    ensures BucketOk(PushFront(mem, x, bk.head), Bucket(x, bk.count + 1, mult), [x] + chain)
  {
    assert chain != [] ==> chain[0] in chain;
    var n, c := PushFront(mem, x, bk.head), [x] + chain;
    forall i | 0 <= i < |c|
      ensures c[i] in n && n[c[i]].hhNext == At(c, i + 1) && n[c[i]].hhPrev == At(c, i - 1)
    {
      if i > 0 {
        assert c[i] == chain[i - 1] && chain[i - 1] in chain;
        assert mem[chain[i - 1]].hhNext == At(chain, i);
      }
    }
  }

  lemma OtherBucket(mem: Memory, bk: Bucket, chain: seq<Ptr>, x: Ptr, first: Ptr)
    requires BucketOk(mem, bk, chain) && x in mem && (first != NULL ==> first in mem)
    requires x !in chain && first !in chain
    ensures BucketOk(PushFront(mem, x, first), bk, chain)
  {
    BucketFrame(mem, PushFront(mem, x, first), bk, chain);
  }

  lemma PartitionAdd(mem: Memory, items: seq<Ptr>, chains: seq<seq<Ptr>>, hash: int -> nat, x: Ptr)
    requires Partition(mem, items, chains, hash) && x in mem
    ensures var b := Slot(mem[x].key, hash, |chains|);
            Partition(mem, items + [x], chains[b := [x] + chains[b]], hash)
  {
    var b := Slot(mem[x].key, hash, |chains|);
    var c := chains[b := [x] + chains[b]];
    forall y | y in items + [x]
      ensures y in mem && y in c[Slot(mem[y].key, hash, |chains|)]
    {
      if y in items {
        assert y in chains[Slot(mem[y].key, hash, |chains|)];
      }
    }
  }

  lemma PartitionFrame(m: Memory, n: Memory, items: seq<Ptr>, chains: seq<seq<Ptr>>, hash: int -> nat)
    requires Partition(m, items, chains, hash) && SameKeys(m, n)
    ensures Partition(n, items, chains, hash)
  {
    forall b, x | 0 <= b < |chains| && x in chains[b]
      ensures x in items && Belongs(n, x, hash, |chains|, b)
    {
      assert Belongs(m, x, hash, |chains|, b);
    }
  }

  // -------------------------------------------------------------------- deletion

  ghost function IndexOf(xs: seq<Ptr>, x: Ptr): (i: nat)
    requires x in xs
    ensures i < |xs| && xs[i] == x
  {
    if xs[0] == x then 0 else 1 + IndexOf(xs[1..], x)
  }

  ghost function Drop(xs: seq<Ptr>, x: Ptr): seq<Ptr>
    requires x in xs
  {
    xs[..IndexOf(xs, x)] + xs[IndexOf(xs, x) + 1..]
  }

  lemma DropMembers(xs: seq<Ptr>, x: Ptr)
    requires x in xs && NoDup(xs)
    ensures NoDup(Drop(xs, x)) && |Drop(xs, x)| == |xs| - 1
    ensures forall y :: y in Drop(xs, x) <==> y in xs && y != x
    ensures forall k :: 0 <= k < |xs| - 1 ==> Drop(xs, x)[k] == xs[if k < IndexOf(xs, x) then k else k + 1]
  {
    var i, d := IndexOf(xs, x), Drop(xs, x);
    forall y | y in xs && y != x
      ensures y in d
    {
      var k :| 0 <= k < |xs| && xs[k] == y;
      assert d[if k < i then k else k - 1] == y;
    }
  }

  /** What HASH_DELETE does to the insertion-order links. */
  function Unlink(m: Memory, x: Ptr): Memory
    requires x in m && (m[x].prev != NULL ==> m[x].prev in m) && (m[x].next != NULL ==> m[x].next in m)
  {
    var n := if m[x].prev != NULL then m[m[x].prev := m[m[x].prev].(next := m[x].next)] else m;
    if m[x].next != NULL then n[m[x].next := n[m[x].next].(prev := m[x].prev)] else n
  }

  /** What HASH_DEL_IN_BKT does to the bucket links. */
  function UnlinkChain(m: Memory, x: Ptr): Memory
    requires x in m && (m[x].hhPrev != NULL ==> m[x].hhPrev in m) && (m[x].hhNext != NULL ==> m[x].hhNext in m)
  {
    var n := if m[x].hhPrev != NULL then m[m[x].hhPrev := m[m[x].hhPrev].(hhNext := m[x].hhNext)] else m;
    if m[x].hhNext != NULL then n[m[x].hhNext := n[m[x].hhNext].(hhPrev := m[x].hhPrev)] else n
  }

  function Shrunk(m: Memory, bk: Bucket, x: Ptr): Bucket
    requires x in m && bk.count > 0
  {
    Bucket(if bk.head == x then m[x].hhNext else bk.head, bk.count - 1, bk.expandMult)
  }

  lemma Neighbours(m: Memory, xs: seq<Ptr>, x: Ptr)
    requires x in xs && NoDup(xs) && InMemory(m, xs)
    ensures var i := IndexOf(xs, x);
            && (At(xs, i - 1) == NULL <==> i == 0) && (i > 0 ==> xs[i - 1] in xs && xs[i - 1] in m && xs[i - 1] != x)
            && (At(xs, i + 1) == NULL <==> i == |xs| - 1)
            && (i < |xs| - 1 ==> xs[i + 1] in xs && xs[i + 1] in m && xs[i + 1] != x)
            && (0 < i < |xs| - 1 ==> xs[i - 1] != xs[i + 1])
  {
    var i := IndexOf(xs, x);
    assert i > 0 ==> xs[i - 1] in xs;
    assert i < |xs| - 1 ==> xs[i + 1] in xs;
  }

  /** Unlinking x from the insertion-order list leaves the list of the others. */
  lemma Unlinked(m: Memory, xs: seq<Ptr>, x: Ptr)
    requires x in xs && NoDup(xs) && InMemory(m, xs) && AppLinked(m, xs)
    ensures (m[x].prev != NULL ==> m[x].prev in m) && (m[x].next != NULL ==> m[x].next in m)
    ensures InMemory(Unlink(m, x), Drop(xs, x)) && AppLinked(Unlink(m, x), Drop(xs, x))
  {
    var i, n, d := IndexOf(xs, x), Unlink(m, x), Drop(xs, x);
    Neighbours(m, xs, x);
    DropMembers(xs, x);
    forall k | 0 <= k < |d|
      ensures d[k] in n && n[d[k]].next == At(d, k + 1) && n[d[k]].prev == At(d, k - 1)
    {
      var k' := if k < i then k else k + 1;
      assert d[k] == xs[k'] && m[xs[k']].next == At(xs, k' + 1) && m[xs[k']].prev == At(xs, k' - 1);
      assert k' != i - 1 && i > 0 ==> xs[k'] != xs[i - 1];
      assert k' != i + 1 && i < |xs| - 1 ==> xs[k'] != xs[i + 1];
    }
  }

  /** The links of one of the remaining elements of a chain. */
  lemma UnlinkedAt(m: Memory, bk: Bucket, xs: seq<Ptr>, x: Ptr, k: nat)
    requires BucketOk(m, bk, xs) && x in xs && k < |xs| - 1
    requires (m[x].hhPrev != NULL ==> m[x].hhPrev in m) && (m[x].hhNext != NULL ==> m[x].hhNext in m)
    ensures var n, d := UnlinkChain(m, x), Drop(xs, x);
            k < |d| && d[k] in n && n[d[k]].hhNext == At(d, k + 1) && n[d[k]].hhPrev == At(d, k - 1)
  {
    var i, d := IndexOf(xs, x), Drop(xs, x);
    Neighbours(m, xs, x);
    DropMembers(xs, x);
    assert m[xs[i]].hhNext == At(xs, i + 1);
    var k' := if k < i then k else k + 1;
    assert d[k] == xs[k'] && m[xs[k']].hhNext == At(xs, k' + 1) && m[xs[k']].hhPrev == At(xs, k' - 1);
    assert k' != i - 1 && i > 0 ==> xs[k'] != xs[i - 1];
    assert k' != i + 1 && i < |xs| - 1 ==> xs[k'] != xs[i + 1];
  }

  /** The same for the chain of a bucket, with its header. */
  lemma UnlinkedBucket(m: Memory, bk: Bucket, xs: seq<Ptr>, x: Ptr)
    requires BucketOk(m, bk, xs) && x in xs
    ensures (m[x].hhPrev != NULL ==> m[x].hhPrev in m) && (m[x].hhNext != NULL ==> m[x].hhNext in m)
    ensures bk.count > 0 && BucketOk(UnlinkChain(m, x), Shrunk(m, bk, x), Drop(xs, x))
  {
    var i: int, d := IndexOf(xs, x), Drop(xs, x);
    Neighbours(m, xs, x);
    DropMembers(xs, x);
    assert m[xs[i]].hhNext == At(xs, i + 1) && m[xs[i]].hhPrev == At(xs, i - 1);
    forall k | 0 <= k < |d|
      ensures d[k] in UnlinkChain(m, x) && UnlinkChain(m, x)[d[k]].hhNext == At(d, k + 1)
      ensures UnlinkChain(m, x)[d[k]].hhPrev == At(d, k - 1)
    {
      UnlinkedAt(m, bk, xs, x, k);
    }
  }

  lemma UnlinkTouches(m: Memory, bk: Bucket, xs: seq<Ptr>, x: Ptr, y: Ptr)
    requires BucketOk(m, bk, xs) && x in xs && y !in xs
    requires (m[x].hhPrev != NULL ==> m[x].hhPrev in m) && (m[x].hhNext != NULL ==> m[x].hhNext in m)
    ensures SameChainLinks(m, UnlinkChain(m, x), y)
  {
    var i: int := IndexOf(xs, x);
    Neighbours(m, xs, x);
    assert m[xs[i]].hhNext == At(xs, i + 1) && m[xs[i]].hhPrev == At(xs, i - 1);
  }

  lemma PartitionRemove(m: Memory, items: seq<Ptr>, chains: seq<seq<Ptr>>, hash: int -> nat, x: Ptr)
    requires Partition(m, items, chains, hash) && NoDup(items) && x in items
    requires NoDup(chains[Slot(m[x].key, hash, |chains|)])
    ensures var b := Slot(m[x].key, hash, |chains|);
            x in chains[b] && Partition(m, Drop(items, x), chains[b := Drop(chains[b], x)], hash)
  {
    var b := Slot(m[x].key, hash, |chains|);
    DropMembers(items, x);
    DropMembers(chains[b], x);
    var c := chains[b := Drop(chains[b], x)];
    forall e, y | 0 <= e < |c| && y in c[e]
      ensures y in Drop(items, x) && Belongs(m, y, hash, |c|, e)
    {
      assert y in chains[e] && Belongs(m, y, hash, |c|, e);
    }
    forall y | y in Drop(items, x)
      ensures y in m && y in c[Slot(m[y].key, hash, |c|)]
    {
      assert y in chains[Slot(m[y].key, hash, |c|)];
    }
  }

  // ------------------------------------------------------------------- expansion

  /** Those of xs that belong to bucket b of m, the last one first: what pushing them in turn yields. */
  ghost function Pick(mem: Memory, xs: seq<Ptr>, hash: int -> nat, m: nat, b: nat): seq<Ptr>
    requires m > 0
  {
    if xs == [] then [] else
    var last, rest := xs[|xs| - 1], Pick(mem, xs[..|xs| - 1], hash, m, b);
    if Belongs(mem, last, hash, m, b) then [last] + rest else rest
  }

  lemma {:induction false} PickMembers(mem: Memory, xs: seq<Ptr>, hash: int -> nat, m: nat, b: nat)
    requires m > 0
    ensures forall x :: x in Pick(mem, xs, hash, m, b) <==> x in xs && Belongs(mem, x, hash, m, b)
    ensures NoDup(xs) ==> NoDup(Pick(mem, xs, hash, m, b))
  {
    if xs != [] {
      var k := |xs| - 1;
      PickMembers(mem, xs[..k], hash, m, b);
      assert xs == xs[..k] + [xs[k]];
      if NoDup(xs) {
        assert xs[k] !in xs[..k];
      }
    }
  }

  lemma PickAppend(mem: Memory, xs: seq<Ptr>, x: Ptr, hash: int -> nat, m: nat, b: nat)
    requires m > 0
    ensures Pick(mem, xs + [x], hash, m, b) ==
            if Belongs(mem, x, hash, m, b) then [x] + Pick(mem, xs, hash, m, b) else Pick(mem, xs, hash, m, b)
  {
    assert (xs + [x])[..|xs|] == xs;
  }

  lemma {:induction false} PickFrame(mem: Memory, n: Memory, xs: seq<Ptr>, hash: int -> nat, m: nat, b: nat)
    requires m > 0 && SameKeys(mem, n) && InMemory(mem, xs)
    ensures Pick(n, xs, hash, m, b) == Pick(mem, xs, hash, m, b)
  {
    if xs != [] {
      var k := |xs| - 1;
      assert xs[k] in xs;
      assert forall x :: x in xs[..k] ==> x in xs;
      PickFrame(mem, n, xs[..k], hash, m, b);
    }
  }

  // ------------------------------------------------------- counting over buckets

  ghost function SumCounts(bs: seq<Bucket>): nat {
    if bs == [] then 0 else SumCounts(bs[..|bs| - 1]) + bs[|bs| - 1].count
  }

  ghost function Below(mem: Memory, items: seq<Ptr>, hash: int -> nat, m: nat, b: nat): set<Ptr>
    requires m > 0
  {
    set x | x in items && x in mem && Slot(mem[x].key, hash, m) < b
  }

  lemma SplitBelow(mem: Memory, items: seq<Ptr>, chains: seq<seq<Ptr>>, hash: int -> nat, b: nat)
    requires Partition(mem, items, chains, hash) && 0 < b <= |chains|
    ensures Below(mem, items, hash, |chains|, b) == Below(mem, items, hash, |chains|, b - 1) + Members(chains[b - 1])
    ensures Below(mem, items, hash, |chains|, b - 1) * Members(chains[b - 1]) == {}
  {
    forall x | x in chains[b - 1]
      ensures x in items && x in mem && Slot(mem[x].key, hash, |chains|) == b - 1
    {
      assert Belongs(mem, x, hash, |chains|, b - 1);
    }
  }

  lemma {:induction false} SumIsBelow(mem: Memory, items: seq<Ptr>, bs: seq<Bucket>, chains: seq<seq<Ptr>>,
                                      hash: int -> nat, b: nat)
    requires Partition(mem, items, chains, hash) && BucketsOk(mem, bs, chains) && b <= |bs|
    ensures SumCounts(bs[..b]) == |Below(mem, items, hash, |bs|, b)|
  {
    var m := |bs|;
    if b > 0 {
      SumIsBelow(mem, items, bs, chains, hash, b - 1);
      assert bs[..b][..b - 1] == bs[..b - 1];
      assert BucketOk(mem, bs[b - 1], chains[b - 1]);
      NoDupSize(chains[b - 1]);
      SplitBelow(mem, items, chains, hash, b);
    } else {
      assert Below(mem, items, hash, m, 0) == {};
    }
  }

  /** The bucket counts add up to the number of items. */
  lemma CountsAddUp(mem: Memory, items: seq<Ptr>, bs: seq<Bucket>, chains: seq<seq<Ptr>>, hash: int -> nat)
    requires Partition(mem, items, chains, hash) && BucketsOk(mem, bs, chains) && NoDup(items)
    ensures SumCounts(bs) == |items|
  {
    SumIsBelow(mem, items, bs, chains, hash, |bs|);
    NoDupSize(items);
    assert bs[..|bs|] == bs;
    assert Below(mem, items, hash, |bs|, |bs|) == Members(items);
  }

  /** How many elements sit beyond the ideal chain length. */
  ghost function Excess(bs: seq<Bucket>, ideal: nat): nat {
    if bs == [] then 0 else
    var c := bs[|bs| - 1].count;
    Excess(bs[..|bs| - 1], ideal) + if c > ideal then c - ideal else 0
  }

  lemma {:induction false} ExcessUpdate(bs: seq<Bucket>, ideal: nat, b: nat, bk: Bucket)
    requires b < |bs| && bk.count == bs[b].count + 1
    ensures Excess(bs[b := bk], ideal) == Excess(bs, ideal) + if bk.count > ideal then 1 else 0
  {
    var k := |bs| - 1;
    if b < k {
      ExcessUpdate(bs[..k], ideal, b, bk);
      assert bs[b := bk][..k] == bs[..k][b := bk];
    } else {
      assert bs[b := bk][..k] == bs[..k];
    }
  }

  lemma {:induction false} ExcessOfNone(bs: seq<Bucket>, ideal: nat)
    requires forall b :: 0 <= b < |bs| ==> bs[b].count == 0
    ensures Excess(bs, ideal) == 0
  {
    if bs != [] {
      ExcessOfNone(bs[..|bs| - 1], ideal);
    }
  }

  // ------------------------------------------------------------- the Bloom filter

  function BitMask(i: nat): bv8
    requires i < 8
  {
    1 << i
  }

  /** Bit i of a byte vector. */
  predicate Bit(bytes: seq<bv8>, i: nat)
    requires i / 8 < |bytes|
  {
    bytes[i / 8] & BitMask(i % 8) != 0
  }

  lemma OrMask(v: bv8, a: nat, b: nat)
    requires a < 8 && b < 8
    ensures ((v | BitMask(a)) & BitMask(b) != 0) <==> a == b || v & BitMask(b) != 0
  {
    assert a == 0 || a == 1 || a == 2 || a == 3 || a == 4 || a == 5 || a == 6 || a == 7;
    assert b == 0 || b == 1 || b == 2 || b == 3 || b == 4 || b == 5 || b == 6 || b == 7;
  }

  function WithBit(bytes: seq<bv8>, i: nat): seq<bv8>
    requires i / 8 < |bytes|
  {
    bytes[i / 8 := bytes[i / 8] | BitMask(i % 8)]
  }

  /** Setting one bit leaves all other bits alone. */
  lemma SetBit(bytes: seq<bv8>, i: nat, j: nat)
    requires i / 8 < |bytes| && j / 8 < |bytes|
    ensures Bit(WithBit(bytes, i), j) <==> i == j || Bit(bytes, j)
  {
    OrMask(bytes[i / 8], i % 8, j % 8);
  }
}
