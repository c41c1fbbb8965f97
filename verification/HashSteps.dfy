/** What the single steps of the uthash macros do to the lists, the buckets and the filter (uthash.h). */
module HashSteps {
  import opened Bits
  import opened Collections
  import opened HashMemory
  import opened MergeSorting
  import opened SortLinks

  /** Just enough bytes for 2^nbits bits. */
  function BloomBytes(nbits: nat): (r: nat)
    ensures 8 * (r - 1) < Pow2(nbits) <= 8 * r
  {
    Pow2(nbits) / 8 + if Pow2(nbits) % 8 != 0 then 1 else 0
  }

  /** The filter bit of a hash value. */
  function BloomIndex(hashv: nat, nbits: nat): (i: nat)
    ensures i == hashv % Pow2(nbits) && i / 8 < BloomBytes(nbits)
  {
    MaskIsMod(hashv, nbits);
    And(hashv, Pow2(nbits) - 1)
  }

  /** Every element's filter bit is set. */
  ghost predicate Filtered(mem: Memory, items: seq<Ptr>, bloom: seq<bv8>, nbits: nat, hash: int -> nat) {
    && |bloom| == BloomBytes(nbits)
    && forall x :: x in items ==> x in mem && Bit(bloom, BloomIndex(hash(mem[x].key), nbits))
  }

  /** The buckets and their chains store exactly its, each element in the bucket of its hash value. */
  ghost predicate Stored(mem: Memory, bs: seq<Bucket>, chains: seq<seq<Ptr>>, its: seq<Ptr>, hash: int -> nat) {
    && Hashed(mem, its, hash)
    && Partition(mem, its, chains, hash)
    && BucketsOk(mem, bs, chains)
  }

  /** its is the insertion-order list from head to tail. */
  ghost predicate ListShape(mem: Memory, its: seq<Ptr>, head: Ptr, tail: Ptr) {
    && its != [] && NoDup(its) && InMemory(mem, its) && AppLinked(mem, its)
    && head == its[0] && tail == its[|its| - 1]
  }

  ghost predicate DistinctKeys(mem: Memory, items: seq<Ptr>) {
    forall i, j :: 0 <= i < j < |items| ==> items[i] in mem && items[j] in mem && mem[items[i]].key != mem[items[j]].key
  }

  ghost predicate HasKey(mem: Memory, items: seq<Ptr>, key: int) {
    exists x :: x in items && x in mem && mem[x].key == key
  }

  /** The finite map that a table implements: from keys to elements. */
  ghost function Index(mem: Memory, items: seq<Ptr>): map<int, Ptr> {
    if items == [] then map[] else
    var rest, x := Index(mem, items[..|items| - 1]), items[|items| - 1];
    if x in mem then rest[mem[x].key := x] else rest
  }

  lemma {:induction false} IndexFinds(mem: Memory, items: seq<Ptr>)
    requires DistinctKeys(mem, items) && InMemory(mem, items)
    ensures forall k :: k in Index(mem, items) <==> HasKey(mem, items, k)
    ensures forall x :: x in items ==> mem[x].key in Index(mem, items) && Index(mem, items)[mem[x].key] == x
  {
    if items != [] {
      var m := |items| - 1;
      assert items == items[..m] + [items[m]];
      IndexFinds(mem, items[..m]);
      forall k
        ensures HasKey(mem, items, k) <==> HasKey(mem, items[..m], k) || (items[m] in mem && mem[items[m]].key == k)
      {
        if HasKey(mem, items[..m], k) {
          var x :| x in items[..m] && x in mem && mem[x].key == k;
          assert x in items;
        }
      }
    }
  }

  lemma {:induction false} IndexFrame(m: Memory, n: Memory, items: seq<Ptr>)
    requires InMemory(m, items) && forall y :: y in items ==> y in n && n[y].key == m[y].key
    ensures Index(n, items) == Index(m, items)
  {
    if items != [] {
      var k := |items| - 1;
      assert items[k] in items && forall y :: y in items[..k] ==> y in items;
      IndexFrame(m, n, items[..k]);
    }
  }

  lemma IndexAppend(m: Memory, n: Memory, items: seq<Ptr>, x: Ptr)
    requires InMemory(m, items) && x in n && forall y :: y in items ==> y in n && n[y].key == m[y].key
    ensures Index(n, items + [x]) == Index(m, items)[n[x].key := x]
  {
    IndexFrame(m, n, items);
    assert (items + [x])[..|items|] == items;
  }

  lemma ValueKept(m: Memory, n: Memory, items: seq<Ptr>, fewer: seq<Ptr>, k: int)
    requires DistinctKeys(m, items) && InMemory(m, items) && SameKeys(m, n)
    requires DistinctKeys(n, fewer) && (forall y :: y in fewer ==> y in items) && k in Index(n, fewer)
    ensures k in Index(m, items) && Index(n, fewer)[k] == Index(m, items)[k]
  {
    IndexFinds(m, items);
    IndexFinds(n, fewer);
    var y :| y in fewer && y in n && n[y].key == k;
    assert y in items && m[y].key == k;
  }

  lemma KeysDiffer(m: Memory, items: seq<Ptr>, x: Ptr, y: Ptr)
    requires DistinctKeys(m, items) && x in items && y in items && x != y
    ensures x in m && y in m && m[x].key != m[y].key
  {
    var i :| 0 <= i < |items| && items[i] == x;
    var j :| 0 <= j < |items| && items[j] == y;
    assert i < j || j < i;
  }

  lemma KeyDropped(m: Memory, n: Memory, items: seq<Ptr>, x: Ptr, k: int)
    requires DistinctKeys(m, items) && NoDup(items) && InMemory(m, items) && x in items && SameKeys(m, n)
    ensures HasKey(n, Drop(items, x), k) <==> HasKey(m, items, k) && k != m[x].key
  {
    DropMembers(items, x);
    if HasKey(n, Drop(items, x), k) {
      var y :| y in Drop(items, x) && y in n && n[y].key == k;
      KeysDiffer(m, items, x, y);
    }
    if HasKey(m, items, k) && k != m[x].key {
      var y :| y in items && y in m && m[y].key == k;
      assert y in Drop(items, x) && n[y].key == k;
    }
  }

  /** A step that rewrites nothing but bucket links. */
  ghost predicate ChainLinksOnly(m: Memory, n: Memory) {
    && n.Keys == m.Keys
    && forall x :: x in m ==>
         n[x].key == m[x].key && n[x].hashv == m[x].hashv && n[x].prev == m[x].prev && n[x].next == m[x].next
  }

  lemma DropKeys(m: Memory, n: Memory, its: seq<Ptr>, x: Ptr)
    requires x in its && NoDup(its) && DistinctKeys(m, its) && SameKeys(m, n)
    ensures DistinctKeys(n, Drop(its, x))
  {
    DropMembers(its, x);
  }

  lemma IndexDrop(m: Memory, n: Memory, items: seq<Ptr>, x: Ptr)
    requires DistinctKeys(m, items) && NoDup(items) && InMemory(m, items) && x in items && SameKeys(m, n)
    ensures Index(n, Drop(items, x)) == Index(m, items) - {m[x].key}
  {
    DropMembers(items, x);
    DropKeys(m, n, items, x);
    forall k
      ensures k in Index(n, Drop(items, x)) <==> k in Index(m, items) && k != m[x].key
    {
      IndexFinds(m, items);
      IndexFinds(n, Drop(items, x));
      KeyDropped(m, n, items, x, k);
    }
    forall k | k in Index(n, Drop(items, x))
      ensures k in Index(m, items) && Index(n, Drop(items, x))[k] == Index(m, items)[k]
    {
      ValueKept(m, n, items, Drop(items, x), k);
    }
  }

  // ----------------------------------------------------------------- steps of Add

  /** Memory after x has been put behind the last element. */
  function Behind(m: Memory, tail: Ptr, x: Ptr, key: int, hash: int -> nat): Memory
    requires tail in m
  {
    var n := m[x := Handle(key, hash(key), NULL, NULL, NULL, NULL)];
    var n1 := n[tail := n[tail].(next := x)];
    n1[x := n1[x].(prev := tail)]
  }

  /** Appending x to the insertion-order list. */
  lemma Appended(m: Memory, n: Memory, its: seq<Ptr>, x: Ptr)
    requires its != [] && NoDup(its) && InMemory(m, its) && AppLinked(m, its) && x !in its && x != NULL
    requires var tail := its[|its| - 1];
             && x in n && (forall y :: y in its ==> y in n)
             && (forall y :: y in its && y != tail ==> n[y].next == m[y].next)
             && (forall y :: y in its ==> n[y].prev == m[y].prev)
             && n[tail].next == x && n[x].next == NULL && n[x].prev == tail
    ensures NoDup(its + [x]) && InMemory(n, its + [x]) && AppLinked(n, its + [x])
  {
    var c := its + [x];
    forall i | 0 <= i < |c|
      ensures c[i] in n && n[c[i]].next == At(c, i + 1) && n[c[i]].prev == At(c, i - 1)
    {
      if i < |its| {
        assert its[i] in its && m[its[i]].next == At(its, i + 1);
      }
    }
  }

  /** A step that leaves keys, hash values and bucket links alone leaves the buckets alone. */
  lemma StoredFrame(m: Memory, n: Memory, bs: seq<Bucket>, cs: seq<seq<Ptr>>, its: seq<Ptr>, hash: int -> nat)
    requires Stored(m, bs, cs, its, hash)
    requires forall y :: y in its ==>
               && y in m && y in n && n[y].key == m[y].key && n[y].hashv == m[y].hashv
               && n[y].hhNext == m[y].hhNext && n[y].hhPrev == m[y].hhPrev
    ensures Stored(n, bs, cs, its, hash)
  {
    forall b, x | 0 <= b < |cs| && x in cs[b]
      ensures x in its && Belongs(n, x, hash, |cs|, b)
    {
      assert Belongs(m, x, hash, |cs|, b);
    }
    forall b | 0 <= b < |bs|
      ensures BucketOk(n, bs[b], cs[b])
    {
      BucketFrame(m, n, bs[b], cs[b]);
    }
  }

  lemma EnteredLast(m: Memory, its: seq<Ptr>, bs: seq<Bucket>, cs: seq<seq<Ptr>>, hash: int -> nat, x: Ptr, key: int)
    requires its != [] && NoDup(its) && InMemory(m, its) && AppLinked(m, its) && Stored(m, bs, cs, its, hash)
    requires x != NULL && x !in its
    ensures var tail := its[|its| - 1];
            && tail in m && tail != x
            && var n := Behind(m, tail, x, key, hash);
            && NoDup(its + [x]) && InMemory(n, its + [x]) && AppLinked(n, its + [x])
            && Stored(n, bs, cs, its, hash)
  {
    assert its[|its| - 1] in its;
    var n := Behind(m, its[|its| - 1], x, key, hash);
    Appended(m, n, its, x);
    StoredFrame(m, n, bs, cs, its, hash);
  }

  lemma FilterFrame(m: Memory, n: Memory, its: seq<Ptr>, bloom: seq<bv8>, nbits: nat, hash: int -> nat)
    requires Filtered(m, its, bloom, nbits, hash)
    requires forall y :: y in its ==> y in n && n[y].key == m[y].key
    ensures Filtered(n, its, bloom, nbits, hash)
  {
  }

  lemma ListFrame(m: Memory, n: Memory, its: seq<Ptr>)
    requires ChainLinksOnly(m, n) && InMemory(m, its)
    ensures InMemory(n, its)
    ensures AppLinked(m, its) ==> AppLinked(n, its)
    ensures DistinctKeys(m, its) ==> DistinctKeys(n, its)
  {
    assert forall i :: 0 <= i < |its| ==> its[i] in its;
  }

  /** The list as a whole survives a step that rewrites bucket links only. */
  lemma ChainFrame(m: Memory, n: Memory, its: seq<Ptr>, head: Ptr, tail: Ptr)
    requires ChainLinksOnly(m, n) && ListShape(m, its, head, tail) && DistinctKeys(m, its)
    ensures ListShape(n, its, head, tail) && DistinctKeys(n, its)
  {
    ListFrame(m, n, its);
  }

  lemma NewKey(m: Memory, n: Memory, its: seq<Ptr>, x: Ptr)
    requires DistinctKeys(m, its) && InMemory(m, its) && x in n && !HasKey(m, its, n[x].key)
    requires forall y :: y in its ==> y in n && n[y].key == m[y].key
    ensures DistinctKeys(n, its + [x])
  {
    forall i | 0 <= i < |its|
      ensures its[i] in its && m[its[i]].key != n[x].key
    {
    }
  }

  lemma ChainsApart(m: Memory, cs: seq<seq<Ptr>>, its: seq<Ptr>, hash: int -> nat, b: nat, c: nat, x: Ptr)
    requires Partition(m, its, cs, hash) && b < |cs| && c < |cs| && b != c
    ensures !(x in cs[b] && x in cs[c])
  {
    assert x in cs[b] ==> Belongs(m, x, hash, |cs|, b);
    assert x in cs[c] ==> Belongs(m, x, hash, |cs|, c);
  }

  lemma OtherBuckets(m: Memory, bs: seq<Bucket>, cs: seq<seq<Ptr>>, its: seq<Ptr>, hash: int -> nat, x: Ptr, b: nat)
    requires Partition(m, its, cs, hash) && BucketsOk(m, bs, cs) && x in m && x !in its && b < |cs|
    requires bs[b].head != NULL ==> bs[b].head in m
    ensures forall c :: 0 <= c < |cs| && c != b ==> BucketOk(PushFront(m, x, bs[b].head), bs[c], cs[c])
  {
    var first := bs[b].head;
    forall c | 0 <= c < |cs| && c != b
      ensures BucketOk(PushFront(m, x, first), bs[c], cs[c])
    {
      assert BucketOk(m, bs[b], cs[b]) && BucketOk(m, bs[c], cs[c]);
      assert first in cs[c] ==> first != NULL && first in cs[b];
      ChainsApart(m, cs, its, hash, b, c, first);
      OtherBucket(m, bs[c], cs[c], x, first);
    }
  }

  /** Pushing x in front of the chain of its bucket. */
  lemma Pushed(m: Memory, bs: seq<Bucket>, cs: seq<seq<Ptr>>, its: seq<Ptr>, hash: int -> nat, x: Ptr, b: nat)
    requires Stored(m, bs, cs, its, hash) && x in m && x != NULL && x !in its && m[x].hashv == hash(m[x].key)
    requires InMemory(m, its) && b == Slot(m[x].key, hash, |cs|)
    ensures bs[b].head != NULL ==> bs[b].head in m
    ensures Stored(PushFront(m, x, bs[b].head), bs[b := Bucket(x, bs[b].count + 1, bs[b].expandMult)],
                   cs[b := [x] + cs[b]], its + [x], hash)
  {
    var cs1 := cs[b := [x] + cs[b]];
    assert BucketOk(m, bs[b], cs[b]);
    PushedBucket(m, bs[b], cs[b], x, bs[b].expandMult);
    var n := PushFront(m, x, bs[b].head);
    PartitionAdd(m, its, cs, hash, x);
    PartitionFrame(m, n, its + [x], cs1, hash);
    OtherBuckets(m, bs, cs, its, hash, x, b);
  }

  // -------------------------------------------------------------- steps of Delete

  /** Having walked k elements of its chain without success decides whether a key is in the table. */
  lemma FoundInChain(mem: Memory, its: seq<Ptr>, cs: seq<seq<Ptr>>, hash: int -> nat, key: int, k: nat)
    requires Partition(mem, its, cs, hash) && InMemory(mem, its)
    requires var chain := cs[Slot(key, hash, |cs|)];
             && k <= |chain| && (forall j :: 0 <= j < k ==> chain[j] in mem && mem[chain[j]].key != key)
             && (k < |chain| ==> chain[k] in mem && mem[chain[k]].key == key)
    ensures var chain := cs[Slot(key, hash, |cs|)];
            && (k == |chain| ==> !HasKey(mem, its, key))
            && (k < |chain| ==> HasKey(mem, its, key) && chain[k] in its)
  {
    var b := Slot(key, hash, |cs|);
    assert k < |cs[b]| ==> cs[b][k] in cs[b];
    forall x | x in its && mem[x].key == key
      ensures x in cs[b]
    {
    }
  }

  lemma LonelyElement(m: Memory, its: seq<Ptr>, x: Ptr)
    requires x in its && InMemory(m, its) && AppLinked(m, its) && NoDup(its)
    ensures m[x].prev == NULL && m[x].next == NULL <==> |its| == 1
    ensures |its| == 1 ==> Drop(its, x) == []
  {
    var i := IndexOf(its, x);
    Neighbours(m, its, x);
    assert m[its[i]].next == At(its, i + 1);
  }

  lemma EndsAfterDrop(m: Memory, its: seq<Ptr>, x: Ptr)
    requires x in its && InMemory(m, its) && AppLinked(m, its) && NoDup(its) && |its| > 1
    ensures At(Drop(its, x), 0) == if m[x].prev == NULL then m[x].next else its[0]
    ensures At(Drop(its, x), |its| - 2) == if x == its[|its| - 1] then m[x].prev else its[|its| - 1]
  {
    var i: int := IndexOf(its, x);
    Neighbours(m, its, x);
    DropMembers(its, x);
    assert m[its[i]].next == At(its, i + 1) && m[its[i]].prev == At(its, i - 1);
  }

  lemma FilterDrop(m: Memory, n: Memory, its: seq<Ptr>, bloom: seq<bv8>, nbits: nat, hash: int -> nat, x: Ptr)
    requires Filtered(m, its, bloom, nbits, hash) && x in its && NoDup(its) && SameKeys(m, n)
    ensures Filtered(n, Drop(its, x), bloom, nbits, hash)
  {
    DropMembers(its, x);
  }

  lemma ListDeleted(m: Memory, its: seq<Ptr>, head: Ptr, tail: Ptr, x: Ptr)
    requires ListShape(m, its, head, tail) && x in its && |its| > 1
    ensures (m[x].prev != NULL ==> m[x].prev in m) && (m[x].next != NULL ==> m[x].next in m)
    ensures ListShape(Unlink(m, x), Drop(its, x), if m[x].prev == NULL then m[x].next else head,
                      if x == tail then m[x].prev else tail)
    ensures |Drop(its, x)| == |its| - 1
  {
    Unlinked(m, its, x);
    EndsAfterDrop(m, its, x);
    DropMembers(its, x);
  }

  lemma UnlinkOnly(m: Memory, its: seq<Ptr>, x: Ptr)
    requires x in its && NoDup(its) && InMemory(m, its) && AppLinked(m, its)
    requires (m[x].prev != NULL ==> m[x].prev in m) && (m[x].next != NULL ==> m[x].next in m)
    ensures ListLinksOnly(m, Unlink(m, x)) && Unlink(m, x)[x] == m[x]
  {
    var i: int := IndexOf(its, x);
    Neighbours(m, its, x);
    assert m[its[i]].next == At(its, i + 1) && m[its[i]].prev == At(its, i - 1);
  }

  /** Unlinking from its chain leaves the element's own record alone. */
  lemma ChainKeepsOwn(m: Memory, bs: seq<Bucket>, cs: seq<seq<Ptr>>, its: seq<Ptr>, hash: int -> nat, x: Ptr)
    requires Stored(m, bs, cs, its, hash) && x in its
    ensures x in m && (m[x].hhPrev != NULL ==> m[x].hhPrev in m) && (m[x].hhNext != NULL ==> m[x].hhNext in m)
    ensures UnlinkChain(m, x)[x] == m[x]
  {
    var b := Slot(m[x].key, hash, |cs|);
    assert BucketOk(m, bs[b], cs[b]);
    var i: int := IndexOf(cs[b], x);
    Neighbours(m, cs[b], x);
    assert m[cs[b][i]].hhNext == At(cs[b], i + 1) && m[cs[b][i]].hhPrev == At(cs[b], i - 1);
  }

  /** What a table knows about its buckets. */
  datatype Sizes = Sizes(
    buckets: seq<Bucket>,
    numBuckets: nat,
    log2: nat,
    ideal: nat,
    nonideal: nat,
    ineffective: nat,
    noExpand: bool)

  /** The buckets of a new table. */
  ghost predicate Fresh(s: Sizes) {
    && s.numBuckets == |s.buckets| == 32 && s.log2 == 5 && !s.noExpand && s.ideal == s.nonideal == s.ineffective == 0
    && forall b :: 0 <= b < |s.buckets| ==>
         s.buckets[b].head == NULL && s.buckets[b].count == s.buckets[b].expandMult == 0
  }

  /** An expansion with n elements: what the new table knows. */
  ghost predicate Expanded(before: Sizes, after: Sizes, n: nat) {
    && after.numBuckets == |after.buckets| == 2 * before.numBuckets > 0 && after.log2 == before.log2 + 1
    && after.ideal == CeilDiv(n, after.numBuckets) >= 1 && after.nonideal == Excess(after.buckets, after.ideal)
    && after.ineffective == (if after.nonideal > n / 2 then before.ineffective + 1 else 0)
    && (after.noExpand <==> before.noExpand || after.ineffective > 1)
    && forall b :: 0 <= b < |after.buckets| ==>
         var c := after.buckets[b].count;
         after.buckets[b].expandMult == if c > after.ideal then c / after.ideal else 0
  }

  /** One element more in the bucket of a hash value, and nothing else is different. */
  ghost predicate CountedUp(before: seq<Bucket>, after: seq<Bucket>, hashv: nat) {
    && |after| == |before| > 0
    && forall c :: 0 <= c < |after| ==>
         && after[c].expandMult == before[c].expandMult
         && after[c].count == before[c].count + if c == hashv % |before| then 1 else 0
  }

  /** One more element in bucket b makes the table expand. */
  ghost predicate Crowded(s: Sizes, b: nat)
    requires b < |s.buckets|
  {
    s.buckets[b].count + 1 >= (s.buckets[b].expandMult + 1) * 10 && !s.noExpand
  }

  /** An element with this hash value makes n elements. */
  ghost predicate Grown(before: Sizes, after: Sizes, hashv: nat, n: nat) {
    && |before.buckets| > 0
    && if Crowded(before, hashv % |before.buckets|) then Expanded(before, after, n)
       else before.(buckets := after.buckets) == after && CountedUp(before.buckets, after.buckets, hashv)
  }

  /** A new table with one element. */
  ghost predicate Started(s: Sizes, hashv: nat) {
    && s.numBuckets == |s.buckets| == 32 && s.log2 == 5 && !s.noExpand && s.ideal == s.nonideal == s.ineffective == 0
    && forall b :: 0 <= b < |s.buckets| ==>
         s.buckets[b].expandMult == 0 && s.buckets[b].count == if b == hashv % 32 then 1 else 0
  }

  lemma FirstInTable(before: Sizes, after: Sizes, hashv: nat, n: nat)
    requires Fresh(before) && Grown(before, after, hashv, n)
    ensures Started(after, hashv)
  {
  }

  /** One element less in the bucket of a hash value: its count is one lower, and no other count and no
      multiplier is different. */
  ghost predicate CountedDown(before: seq<Bucket>, after: seq<Bucket>, hashv: nat) {
    && |after| == |before| > 0
    && forall c :: 0 <= c < |after| ==>
         && after[c].expandMult == before[c].expandMult
         && after[c].count == before[c].count - if c == hashv % |before| then 1 else 0
  }

  /** The removal of an element with this hash value; the table never shrinks. */
  ghost predicate Thinned(before: Sizes, after: Sizes, hashv: nat) {
    && before.(buckets := after.buckets) == after && after.numBuckets == |after.buckets|
    && CountedDown(before.buckets, after.buckets, hashv)
  }

  /** Unlinking from the list leaves keys and buckets alone. */
  lemma UnlinkKeeps(m: Memory, bs: seq<Bucket>, cs: seq<seq<Ptr>>, its: seq<Ptr>, hash: int -> nat, x: Ptr)
    requires Stored(m, bs, cs, its, hash) && NoDup(its) && InMemory(m, its) && AppLinked(m, its)
    requires DistinctKeys(m, its) && x in its
    requires (m[x].prev != NULL ==> m[x].prev in m) && (m[x].next != NULL ==> m[x].next in m)
    ensures var n := Unlink(m, x);
            Stored(n, bs, cs, its, hash) && DistinctKeys(n, Drop(its, x)) && ListLinksOnly(m, n) && n[x] == m[x]
  {
    UnlinkOnly(m, its, x);
    StoredFrame(m, Unlink(m, x), bs, cs, its, hash);
    DropKeys(m, Unlink(m, x), its, x);
  }

  lemma KeptBucket(m: Memory, bs: seq<Bucket>, cs: seq<seq<Ptr>>, its: seq<Ptr>, hash: int -> nat, x: Ptr,
                   b: nat, c: nat)
    requires Partition(m, its, cs, hash) && BucketsOk(m, bs, cs) && b < |cs| && c < |cs| && b != c && x in cs[b]
    requires x in m && (m[x].hhPrev != NULL ==> m[x].hhPrev in m) && (m[x].hhNext != NULL ==> m[x].hhNext in m)
    ensures BucketOk(UnlinkChain(m, x), bs[c], cs[c])
  {
    assert BucketOk(m, bs[b], cs[b]) && BucketOk(m, bs[c], cs[c]);
    forall y | y in cs[c]
      ensures SameChainLinks(m, UnlinkChain(m, x), y)
    {
      ChainsApart(m, cs, its, hash, b, c, y);
      UnlinkTouches(m, bs[b], cs[b], x, y);
    }
    BucketFrame(m, UnlinkChain(m, x), bs[c], cs[c]);
  }

  lemma Removed(m: Memory, bs: seq<Bucket>, cs: seq<seq<Ptr>>, its: seq<Ptr>, hash: int -> nat, x: Ptr)
    requires Stored(m, bs, cs, its, hash) && NoDup(its) && x in its
    ensures var b := Slot(m[x].key, hash, |cs|);
            && x in cs[b] && bs[b].count > 0
            && (m[x].hhPrev != NULL ==> m[x].hhPrev in m) && (m[x].hhNext != NULL ==> m[x].hhNext in m)
            && Stored(UnlinkChain(m, x), bs[b := Shrunk(m, bs[b], x)], cs[b := Drop(cs[b], x)], Drop(its, x), hash)
  {
    var b := Slot(m[x].key, hash, |cs|);
    assert BucketOk(m, bs[b], cs[b]);
    PartitionRemove(m, its, cs, hash, x);
    UnlinkedBucket(m, bs[b], cs[b], x);
    var n := UnlinkChain(m, x);
    PartitionFrame(m, n, Drop(its, x), cs[b := Drop(cs[b], x)], hash);
    DropMembers(its, x);
    forall c | 0 <= c < |cs| && c != b
      ensures BucketOk(n, bs[c], cs[c])
    {
      KeptBucket(m, bs, cs, its, hash, x, b, c);
    }
  }

  /** Unlinking from the bucket. */
  lemma BucketDeleted(n: Memory, bs: seq<Bucket>, cs: seq<seq<Ptr>>, its: seq<Ptr>, hash: int -> nat, x: Ptr)
    requires Stored(n, bs, cs, its, hash) && NoDup(its) && x in its
    ensures var b := Slot(n[x].key, hash, |cs|);
            && x in cs[b] && bs[b].count > 0
            && (n[x].hhPrev != NULL ==> n[x].hhPrev in n) && (n[x].hhNext != NULL ==> n[x].hhNext in n)
            && Stored(UnlinkChain(n, x), bs[b := Shrunk(n, bs[b], x)], cs[b := Drop(cs[b], x)], Drop(its, x), hash)
            && ChainLinksOnly(n, UnlinkChain(n, x))
  {
    Removed(n, bs, cs, its, hash, x);
  }

  // ------------------------------------------------------------------- expansion

  /** expand_mult of a bucket that was filled from empty. */
  function Multiplier(count: nat, ideal: nat): nat {
    if ideal > 0 && count > ideal then count / ideal else 0
  }

  ghost predicate NewBucket(m0: Memory, m: Memory, bk: Bucket, done: seq<Ptr>, hash: int -> nat, size: nat,
                            b: nat, ideal: nat)
    requires size > 0
  {
    BucketOk(m, bk, Pick(m0, done, hash, size, b)) && bk.expandMult == Multiplier(bk.count, ideal)
  }

  /** The elements done have moved to the new buckets, the others have not been touched. */
  ghost predicate Moved(m0: Memory, m: Memory, bs: seq<Bucket>, done: seq<Ptr>, its: seq<Ptr>, hash: int -> nat,
                        size: nat, ideal: nat) {
    && |bs| == size > 0
    && ChainLinksOnly(m0, m) && InMemory(m0, its)
    && NoDup(done) && (forall x :: x in done ==> x in its)
    && (forall x :: x in its && x !in done ==> m[x] == m0[x])
    && (forall b :: 0 <= b < size ==> NewBucket(m0, m, bs[b], done, hash, size, b, ideal))
  }

  lemma NothingMoved(m: Memory, its: seq<Ptr>, hash: int -> nat, size: nat, ideal: nat)
    requires InMemory(m, its) && size > 0
    ensures Moved(m, m, seq(size, _ => NO_BUCKET), [], its, hash, size, ideal)
  {
  }

  ghost function Rebuilt(m0: Memory, done: seq<Ptr>, hash: int -> nat, size: nat): seq<seq<Ptr>>
    requires size > 0
  {
    seq(size, b requires 0 <= b < size => Pick(m0, done, hash, size, b))
  }

  lemma HeadIsDone(m0: Memory, m: Memory, bk: Bucket, done: seq<Ptr>, hash: int -> nat, size: nat, b: nat, ideal: nat)
    requires size > 0 && NewBucket(m0, m, bk, done, hash, size, b, ideal)
    ensures bk.head != NULL ==> bk.head in done && bk.head in m && Belongs(m0, bk.head, hash, size, b)
  {
    var chain := Pick(m0, done, hash, size, b);
    PickMembers(m0, done, hash, size, b);
    assert chain != [] ==> chain[0] in chain;
  }

  lemma NewBucketPushed(m0: Memory, m: Memory, bk: Bucket, done: seq<Ptr>, hash: int -> nat, size: nat,
                        ideal: nat, x: Ptr)
    requires size > 0 && x in m && x in m0 && x != NULL && x !in done
    requires NewBucket(m0, m, bk, done, hash, size, Slot(m0[x].key, hash, size), ideal)
    requires bk.head != NULL ==> bk.head in m
    ensures var c := bk.count + 1;
            NewBucket(m0, PushFront(m, x, bk.head), Bucket(x, c, Multiplier(c, ideal)), done + [x], hash, size,
                      Slot(m0[x].key, hash, size), ideal)
  {
    var b := Slot(m0[x].key, hash, size);
    PickMembers(m0, done, hash, size, b);
    PickAppend(m0, done, x, hash, size, b);
    PushedBucket(m, bk, Pick(m0, done, hash, size, b), x, Multiplier(bk.count + 1, ideal));
  }

  lemma NewBucketKept(m0: Memory, m: Memory, bk: Bucket, done: seq<Ptr>, hash: int -> nat, size: nat, e: nat, b: nat,
                      ideal: nat, x: Ptr, first: Ptr)
    requires size > 0 && x in m && x !in done && Belongs(m0, x, hash, size, b) && e != b
    requires NewBucket(m0, m, bk, done, hash, size, e, ideal)
    requires first != NULL ==> first in m && Belongs(m0, first, hash, size, b)
    ensures NewBucket(m0, PushFront(m, x, first), bk, done + [x], hash, size, e, ideal)
  {
    var chain := Pick(m0, done, hash, size, e);
    PickMembers(m0, done, hash, size, e);
    PickAppend(m0, done, x, hash, size, e);
    OtherBucket(m, bk, chain, x, first);
  }

  /** Moving x to the front of its new chain. */
  lemma MovedOne(m0: Memory, m: Memory, bs: seq<Bucket>, done: seq<Ptr>, its: seq<Ptr>, hash: int -> nat,
                 ideal: nat, x: Ptr, b: nat)
    requires Moved(m0, m, bs, done, its, hash, |bs|, ideal) && x in its && x !in done
    requires x in m0 && b == Slot(m0[x].key, hash, |bs|) && ideal >= 1
    ensures x in m && (bs[b].head != NULL ==> bs[b].head in m)
    ensures var c := bs[b].count + 1;
            Moved(m0, PushFront(m, x, bs[b].head), bs[b := Bucket(x, c, Multiplier(c, ideal))], done + [x], its,
                  hash, |bs|, ideal)
  {
    var c := bs[b].count + 1;
    assert NewBucket(m0, m, bs[b], done, hash, |bs|, b, ideal);
    HeadIsDone(m0, m, bs[b], done, hash, |bs|, b, ideal);
    var n, r := PushFront(m, x, bs[b].head), bs[b := Bucket(x, c, Multiplier(c, ideal))];
    forall e | 0 <= e < |bs|
      ensures NewBucket(m0, n, r[e], done + [x], hash, |bs|, e, ideal)
    {
      assert NewBucket(m0, m, bs[e], done, hash, |bs|, e, ideal);
      if e == b {
        NewBucketPushed(m0, m, bs[b], done, hash, |bs|, ideal, x);
      } else {
        NewBucketKept(m0, m, bs[e], done, hash, |bs|, e, b, ideal, x, bs[b].head);
      }
    }
  }

  /** The elements of the first i chains and the first k of chain i are done. */
  ghost predicate DoneUpTo(m0: Memory, its: seq<Ptr>, done: seq<Ptr>, hash: int -> nat, n: nat, i: nat,
                           chain: seq<Ptr>, k: nat)
    requires n > 0 && k <= |chain|
  {
    forall y :: y in its && y in m0 ==> (y in done <==> Slot(m0[y].key, hash, n) < i || y in chain[..k])
  }

  ghost predicate ChainsDone(m0: Memory, its: seq<Ptr>, done: seq<Ptr>, hash: int -> nat, n: nat, i: nat)
    requires n > 0
  {
    forall y :: y in its && y in m0 ==> (y in done <==> Slot(m0[y].key, hash, n) < i)
  }

  lemma ChainStart(m0: Memory, its: seq<Ptr>, done: seq<Ptr>, hash: int -> nat, n: nat, i: nat, chain: seq<Ptr>)
    requires n > 0 && ChainsDone(m0, its, done, hash, n, i)
    ensures DoneUpTo(m0, its, done, hash, n, i, chain, 0)
  {
  }

  lemma HeadInChain(m0: Memory, bk: Bucket, chain: seq<Ptr>)
    requires BucketOk(m0, bk, chain)
    ensures bk.head == NULL ==> |chain| == 0
  {
    assert chain != [] ==> chain[0] in chain;
  }

  /** The next element of the chain has not moved yet, so its link is still the old one. */
  lemma NextInChain(m0: Memory, m: Memory, bk: Bucket, cs: seq<seq<Ptr>>, its: seq<Ptr>, hash: int -> nat,
                    done: seq<Ptr>, i: nat, k: nat, bs: seq<Bucket>, ideal: nat)
    requires Partition(m0, its, cs, hash) && i < |cs| && k < |cs[i]| && BucketOk(m0, bk, cs[i])
    requires |bs| > 0 && Moved(m0, m, bs, done, its, hash, |bs|, ideal)
    requires DoneUpTo(m0, its, done, hash, |cs|, i, cs[i], k)
    ensures var x := cs[i][k];
            && x in its && x !in done && x in m && m[x].hhNext == At(cs[i], k + 1)
            && (At(cs[i], k + 1) == NULL ==> k + 1 == |cs[i]|)
  {
    var chain, x := cs[i], cs[i][k];
    assert x in chain && Belongs(m0, x, hash, |cs|, i);
    assert x !in chain[..k];
    assert k + 1 < |chain| ==> chain[k + 1] in chain;
  }

  lemma ChainStep(m0: Memory, its: seq<Ptr>, done: seq<Ptr>, hash: int -> nat, n: nat, i: nat, chain: seq<Ptr>, k: nat)
    requires n > 0 && k < |chain| && DoneUpTo(m0, its, done, hash, n, i, chain, k)
    ensures DoneUpTo(m0, its, done + [chain[k]], hash, n, i, chain, k + 1)
  {
    TakeNext(chain, k);
  }

  lemma ChainDone(m0: Memory, cs: seq<seq<Ptr>>, its: seq<Ptr>, done: seq<Ptr>, hash: int -> nat, i: nat)
    requires Partition(m0, its, cs, hash) && i < |cs| && DoneUpTo(m0, its, done, hash, |cs|, i, cs[i], |cs[i]|)
    ensures ChainsDone(m0, its, done, hash, |cs|, i + 1)
  {
    var chain := cs[i];
    assert chain[..|chain|] == chain;
    forall y | y in its
      ensures y in chain <==> Slot(m0[y].key, hash, |cs|) == i
    {
      assert y in chain ==> Belongs(m0, y, hash, |cs|, i);
    }
  }

  /** When all elements have moved, the new buckets store them. */
  lemma AllMoved(m0: Memory, m: Memory, bs: seq<Bucket>, done: seq<Ptr>, its: seq<Ptr>, hash: int -> nat,
                 size: nat, ideal: nat)
    requires Moved(m0, m, bs, done, its, hash, size, ideal) && Hashed(m0, its, hash)
    requires forall x :: x in its ==> x in done
    ensures Stored(m, bs, Rebuilt(m0, done, hash, size), its, hash)
    ensures forall b :: 0 <= b < size ==> bs[b].expandMult == Multiplier(bs[b].count, ideal)
  {
    var cs := Rebuilt(m0, done, hash, size);
    forall b | 0 <= b < size
      ensures forall x :: x in cs[b] <==> x in its && Belongs(m0, x, hash, size, b)
      ensures BucketOk(m, bs[b], cs[b])
    {
      PickMembers(m0, done, hash, size, b);
      assert NewBucket(m0, m, bs[b], done, hash, size, b, ideal);
    }
    forall x | x in its
      ensures x in m && x in cs[Slot(m[x].key, hash, size)]
    {
      assert Belongs(m0, x, hash, size, Slot(m[x].key, hash, size));
    }
  }

  /** Every element of chain b is now in chain b or b + n, and nothing else is there. */
  ghost predicate Split(cs: seq<seq<Ptr>>, ds: seq<seq<Ptr>>) {
    && |ds| == 2 * |cs|
    && (forall b, x :: 0 <= b < |cs| && x in cs[b] ==> x in ds[b] || x in ds[b + |cs|])
    && (forall b, x :: 0 <= b < |ds| && x in ds[b] ==> x in cs[if b < |cs| then b else b - |cs|])
  }

  lemma GoesUp(m0: Memory, cs: seq<seq<Ptr>>, its: seq<Ptr>, done: seq<Ptr>, hash: int -> nat, b: nat, x: Ptr)
    requires Partition(m0, its, cs, hash) && (forall y :: y in its <==> y in done) && b < |cs| && x in cs[b]
    ensures var ds := Rebuilt(m0, done, hash, 2 * |cs|); x in ds[b] || x in ds[b + |cs|]
  {
    assert Belongs(m0, x, hash, |cs|, b);
    DoubledRemainder(hash(m0[x].key), |cs|);
    PickMembers(m0, done, hash, 2 * |cs|, b);
    PickMembers(m0, done, hash, 2 * |cs|, b + |cs|);
  }

  lemma CameFrom(m0: Memory, cs: seq<seq<Ptr>>, its: seq<Ptr>, done: seq<Ptr>, hash: int -> nat, b: nat, x: Ptr)
    requires Partition(m0, its, cs, hash) && (forall y :: y in its <==> y in done) && b < 2 * |cs|
    requires x in Rebuilt(m0, done, hash, 2 * |cs|)[b]
    ensures x in cs[if b < |cs| then b else b - |cs|]
  {
    PickMembers(m0, done, hash, 2 * |cs|, b);
    DoubledRemainder(hash(m0[x].key), |cs|);
    assert x in cs[Slot(m0[x].key, hash, |cs|)];
  }

  lemma SplitsInTwo(m0: Memory, cs: seq<seq<Ptr>>, its: seq<Ptr>, done: seq<Ptr>, hash: int -> nat)
    requires Partition(m0, its, cs, hash)
    requires forall x :: x in its <==> x in done
    ensures Split(cs, Rebuilt(m0, done, hash, 2 * |cs|))
  {
    var n, ds := |cs|, Rebuilt(m0, done, hash, 2 * |cs|);
    forall b, x | 0 <= b < n && x in cs[b]
      ensures x in ds[b] || x in ds[b + n]
    {
      GoesUp(m0, cs, its, done, hash, b, x);
    }
    forall b, x | 0 <= b < 2 * n && x in ds[b]
      ensures x in cs[if b < n then b else b - n]
    {
      CameFrom(m0, cs, its, done, hash, b, x);
    }
  }

  // ------------------------------------------------------------------------ sort

  /** Between two passes: the list is a stable permutation of items made of sorted runs. */
  ghost predicate Sorting(m: Memory, items: seq<Ptr>, out: seq<Ptr>, list: Ptr, n: nat, cmp: Compare)
    requires n > 0
  {
    && out != [] && |out| == |items| && NoDup(out) && InMemory(m, out) && AppLinked(m, out) && list == out[0]
    && StablePermutation(items, out, cmp) && Runs(out, n, cmp)
  }

  /** The pointers and counters of a merge: p and q are the heads of what is left of the two runs. */
  ghost predicate Cursors(p: Ptr, psize: nat, q: Ptr, qsize: nat, list: Ptr, last: Ptr,
                          o: seq<Ptr>, ps: seq<Ptr>, qs: seq<Ptr>, r: seq<Ptr>) {
    && psize == |ps| && (ps != [] ==> p == ps[0])
    && q == At(qs + r, 0) && (q == NULL ==> qs + r == [])
    && |qs| <= qsize && (|qs| < qsize ==> r == [])
    && list == At(o, 0) && last == SortLinks.Last(o)
  }

  /** out is what a pass over its has produced so far, with nmerges merges, and s is still to come. */
  ghost predicate PassSoFar(out: seq<Ptr>, s: seq<Ptr>, n: nat, cmp: Compare, its: seq<Ptr>, nmerges: nat)
    requires n > 0
  {
    && out + Pass(s, n, cmp) == Pass(its, n, cmp) && |out| + |s| == |its|
    && (nmerges == 0 ==> out == [])
    && (nmerges == 1 ==> |out| <= 2 * n && (s != [] ==> |out| == 2 * n))
    && (nmerges > 1 ==> |its| > 2 * n)
  }

  lemma StartPass(its: seq<Ptr>, n: nat, cmp: Compare)
    requires n > 0
    ensures PassSoFar([], its, n, cmp, its, 0)
  {
    assert [] + Pass(its, n, cmp) == Pass(its, n, cmp);
  }

  lemma PassStep(out: seq<Ptr>, s: seq<Ptr>, n: nat, cmp: Compare, its: seq<Ptr>, nmerges: nat)
    requires n > 0 && s != [] && PassSoFar(out, s, n, cmp, its, nmerges)
    ensures var k, l := Min(n, |s|), Min(2 * n, |s|);
            PassSoFar(out + Merge(s[..k], s[k..l], cmp), s[l..], n, cmp, its, nmerges + 1)
  {
    var p, q, r := PassUnfold(s, n, cmp);
    MergeKeeps(p, q, cmp);
    Associative(out, Merge(p, q, cmp), Pass(r, n, cmp));
  }

  lemma PassEnd(m: Memory, out: seq<Ptr>, its: seq<Ptr>)
    requires Links(m, out, [], []) && |out| == |its| && its != []
    ensures SortLinks.Last(out) in m
    ensures var k := m[SortLinks.Last(out) := m[SortLinks.Last(out)].(next := NULL)];
            AppLinked(k, out) && InMemory(k, out) && ListLinksOnly(m, k)
  {
    FinishLinks(m, out);
  }

  /** The head of the rest of the list is NULL only if nothing is left. */
  lemma RestHead(m: Memory, o: seq<Ptr>, p: seq<Ptr>, q: seq<Ptr>, r: seq<Ptr>)
    requires Links(m, o, p, q + r)
    ensures At(q + r, 0) == NULL ==> q + r == []
    ensures q == [] ==> q + r == r
  {
    assert q + r != [] ==> (q + r)[0] in q + r;
  }

  /** Whichever run the next element comes from, the links stay in order. */
  lemma NextUp(m: Memory, o: seq<Ptr>, p: seq<Ptr>, q: seq<Ptr>, r: seq<Ptr>)
    requires Links(m, o, p, q + r)
    ensures SortLinks.Last(o) != NULL ==> SortLinks.Last(o) in m
    ensures o == [] <==> SortLinks.Last(o) == NULL
    ensures p != [] ==> p[0] in m && (|p| > 1 ==> m[p[0]].next == p[1])
                        && Links(Append(m, SortLinks.Last(o), p[0]), o + [p[0]], p[1..], q + r)
                        && ListLinksOnly(m, Append(m, SortLinks.Last(o), p[0]))
    ensures q != [] ==> q[0] in m && m[q[0]].next == At(q[1..] + r, 0)
                        && Links(Append(m, SortLinks.Last(o), q[0]), o + [q[0]], p, q[1..] + r)
                        && ListLinksOnly(m, Append(m, SortLinks.Last(o), q[0]))
  {
    assert o != [] ==> SortLinks.Last(o) in o;
    if p != [] {
      TakeFromRun(m, o, p, q + r);
    }
    if q != [] {
      TakeFromRest(m, o, p, q + r);
      assert (q + r)[1..] == q[1..] + r;
    }
  }

  lemma MergeUnfold(o: seq<Ptr>, p: seq<Ptr>, q: seq<Ptr>, cmp: Compare)
    ensures p != [] && (q == [] || cmp(p[0], q[0]) <= 0) ==> o + Merge(p, q, cmp) == o + [p[0]] + Merge(p[1..], q, cmp)
    ensures q != [] && (p == [] || cmp(p[0], q[0]) > 0) ==> o + Merge(p, q, cmp) == o + [q[0]] + Merge(p, q[1..], cmp)
  {
    if p != [] && (q == [] || cmp(p[0], q[0]) <= 0) {
      assert q == [] ==> p == [p[0]] + p[1..];
      Associative(o, [p[0]], Merge(p[1..], q, cmp));
    }
    if q != [] && (p == [] || cmp(p[0], q[0]) > 0) {
      assert p == [] ==> q == [q[0]] + q[1..];
      Associative(o, [q[0]], Merge(p, q[1..], cmp));
    }
  }

  lemma SameMembers(its: seq<Ptr>, out: seq<Ptr>)
    requires multiset(out) == multiset(its)
    ensures |out| == |its| && forall x :: x in out <==> x in its
  {
    assert |multiset(out)| == |out| && |multiset(its)| == |its|;
    forall x
      ensures x in out <==> x in its
    {
      assert x in out <==> x in multiset(out);
      assert x in its <==> x in multiset(its);
    }
  }

  lemma StoredElsewhere(n: Memory, bs: seq<Bucket>, cs: seq<seq<Ptr>>, its: seq<Ptr>, out: seq<Ptr>, hash: int -> nat)
    requires Stored(n, bs, cs, its, hash) && forall x :: x in out <==> x in its
    ensures Stored(n, bs, cs, out, hash)
  {
  }

  lemma SameKeyed(m: Memory, n: Memory, its: seq<Ptr>, out: seq<Ptr>, k: int)
    requires InMemory(m, its) && SameKeys(m, n) && forall x :: x in out <==> x in its
    ensures HasKey(n, out, k) <==> HasKey(m, its, k)
  {
    if HasKey(n, out, k) {
      var x :| x in out && x in n && n[x].key == k;
      assert x in its && m[x].key == k;
    }
    if HasKey(m, its, k) {
      var x :| x in its && x in m && m[x].key == k;
      assert x in out && n[x].key == k;
    }
  }

  lemma SameIndex(m: Memory, n: Memory, its: seq<Ptr>, out: seq<Ptr>)
    requires DistinctKeys(m, its) && InMemory(m, its) && DistinctKeys(n, out) && SameKeys(m, n)
    requires forall x :: x in out <==> x in its
    ensures Index(n, out) == Index(m, its)
  {
    IndexFinds(m, its);
    IndexFinds(n, out);
    forall k
      ensures k in Index(n, out) <==> k in Index(m, its)
    {
      SameKeyed(m, n, its, out, k);
    }
    forall k | k in Index(n, out)
      ensures k in Index(m, its) && Index(n, out)[k] == Index(m, its)[k]
    {
      ValueKept(m, n, its, out, k);
    }
  }

  lemma KeysStayDistinct(m: Memory, n: Memory, its: seq<Ptr>, out: seq<Ptr>)
    requires DistinctKeys(m, its) && InMemory(m, its) && NoDup(out) && SameKeys(m, n)
    requires forall x :: x in out ==> x in its
    ensures DistinctKeys(n, out)
  {
    forall i, j | 0 <= i < j < |out|
      ensures out[i] in n && out[j] in n && n[out[i]].key != n[out[j]].key
    {
      assert out[i] in its && out[j] in its;
      KeysDiffer(m, its, out[i], out[j]);
    }
  }

  /** The table over the rearranged list. */
  lemma SortedTable(m: Memory, n: Memory, its: seq<Ptr>, out: seq<Ptr>, bs: seq<Bucket>, cs: seq<seq<Ptr>>,
                    hash: int -> nat, cmp: Compare)
    requires Stored(m, bs, cs, its, hash) && InMemory(m, its) && DistinctKeys(m, its) && NoDup(its)
    requires StablePermutation(its, out, cmp) && NoDup(out) && ListLinksOnly(m, n)
    ensures Stored(n, bs, cs, out, hash) && DistinctKeys(n, out) && Index(n, out) == Index(m, its)
  {
    SameMembers(its, out);
    StoredFrame(m, n, bs, cs, its, hash);
    StoredElsewhere(n, bs, cs, its, out, hash);
    KeysStayDistinct(m, n, its, out);
    SameIndex(m, n, its, out);
  }

  lemma SortedFilter(m: Memory, n: Memory, its: seq<Ptr>, out: seq<Ptr>, bloom: seq<bv8>, nbits: nat,
                     hash: int -> nat, cmp: Compare)
    requires Filtered(m, its, bloom, nbits, hash) && StablePermutation(its, out, cmp) && SameKeys(m, n)
    ensures Filtered(n, out, bloom, nbits, hash)
  {
    SameMembers(its, out);
  }
}
