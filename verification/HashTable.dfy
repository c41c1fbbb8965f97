/** A uthash table: bucket chains and an insertion-order list over the same elements (uthash.h). */
module HashTables {
  import opened Bits
  import opened Collections
  import opened HashMemory
  import opened MergeSorting
  import opened SortLinks
  import opened HashSteps

  const INITIAL_BUCKETS := 32
  const INITIAL_LOG2 := 5
  const CAPACITY := 10

  class HashTable {
    const hash: int -> nat
    const useBloom: bool
    const bloomBits: nat

    var mem: Memory
    var head: Ptr             // NULL when there is no table
    var tail: Ptr
    var buckets: seq<Bucket>
    var numBuckets: nat
    var log2: nat
    var numItems: nat
    var ideal: nat
    var nonideal: nat
    var ineffective: nat
    var noExpand: bool
    var bloom: seq<bv8>

    ghost var items: seq<Ptr>          // the elements in insertion order
    ghost var chains: seq<seq<Ptr>>    // the chain of every bucket

    constructor (hash: int -> nat, useBloom: bool, bloomBits: nat)
      ensures Valid() && items == [] && this.hash == hash
    {
      this.hash, this.useBloom, this.bloomBits := hash, useBloom, bloomBits;
      mem, head, tail, buckets, bloom := map[], NULL, NULL, [], [];
      numBuckets, log2, numItems, ideal, nonideal, ineffective, noExpand := 0, 0, 0, 0, 0, 0, false;
      items, chains := [], [];
    }

    // ------------------------------------------------------------------ invariant

    /** The insertion-order list of its. */
    ghost predicate ListOk(its: seq<Ptr>)
      reads `mem, `head, `tail, `numItems
    {
      ListShape(mem, its, head, tail) && numItems == |its|
    }

    /** The number of buckets is a power of two, and they hold exactly its. */
    ghost predicate TableOk(its: seq<Ptr>)
      reads `mem, `numBuckets, `log2, `buckets, `chains
    {
      numBuckets == Pow2(log2) == |chains| && Stored(mem, buckets, chains, its, hash)
    }

    ghost predicate FilterOk(its: seq<Ptr>)
      reads `mem, `bloom
    {
      useBloom ==> Filtered(mem, its, bloom, bloomBits, hash)
    }

    ghost predicate Valid()
      reads this
    {
      && (head == NULL <==> items == [])
      && DistinctKeys(mem, items)
      && (items != [] ==> ListOk(items) && TableOk(items) && FilterOk(items))
    }

    ghost function Contents(): map<int, Ptr>
      reads `mem, `items
    {
      Index(mem, items)
    }

    ghost function Sizing(): Sizes
      reads `buckets, `numBuckets, `log2, `ideal, `nonideal, `ineffective, `noExpand
    {
      Sizes(buckets, numBuckets, log2, ideal, nonideal, ineffective, noExpand)
    }

    // ----------------------------------------------------------------------- find

    /** HASH_TO_BKT */
    function ToBucket(hashv: nat): nat
      reads this
      requires numBuckets >= 1
    {
      And(hashv, numBuckets - 1)
    }

    /** HASH_BLOOM_TEST; always true when the filter is compiled out. */
    predicate BloomTest(hashv: nat)
      reads this
      requires useBloom ==> |bloom| == BloomBytes(bloomBits)
    {
      useBloom ==> Bit(bloom, BloomIndex(hashv, bloomBits))
    }

    /** HASH_FIND_IN_BKT */
    method FindInBucket(b: nat, key: int) returns (out: Ptr)
      requires items != [] && InMemory(mem, items) && TableOk(items) && b == Slot(key, hash, |chains|) && b < |buckets|
      ensures out == NULL <==> !HasKey(mem, items, key)
      ensures out != NULL ==> out in items && out in mem && mem[out].key == key
    {
      ghost var chain := chains[b];
      assert BucketOk(mem, buckets[b], chain);
      out := buckets[b].head;
      ghost var i := 0;
      assert chain != [] ==> chain[0] in chain;
      while out != NULL && mem[out].key != key
        invariant 0 <= i <= |chain| && out == At(chain, i)
        invariant out == NULL ==> i == |chain|
        invariant forall j :: 0 <= j < i ==> mem[chain[j]].key != key
        decreases |chain| - i
      {
        assert chain[i] in chain;
        out := mem[out].hhNext;
        i := i + 1;
        assert i < |chain| ==> chain[i] in chain;
      }
      FoundInChain(mem, items, chains, hash, key, i);
    }

    method FindElement(key: int) returns (out: Ptr)
      requires Valid()
      ensures out == NULL <==> !HasKey(mem, items, key)
      ensures out != NULL ==> out in items && out in mem && mem[out].key == key
    {
      out := NULL;
      if head != NULL {
        var hashv := hash(key);
        var b := ToBucket(hashv);
        MaskIsMod(hashv, log2);
        if BloomTest(hashv) {
          out := FindInBucket(b, key);
        }
      }
    }

    /** HASH_FIND: the element with the key, if there is one, whatever the hash function, and with or
        without the filter. */
    method Find(key: int) returns (out: Ptr)
      requires Valid()
      ensures out == if key in Contents() then Contents()[key] else NULL
      ensures out == NULL <==> key !in Contents()
    {
      if items != [] {
        IndexFinds(mem, items);
      }
      out := FindElement(key);
    }

    // ------------------------------------------------------------------------ add

    method MakeBuckets()
      modifies `numBuckets, `log2, `ideal, `nonideal, `ineffective, `noExpand, `buckets, `chains
      ensures TableOk([]) && Fresh(Sizing()) && forall b :: 0 <= b < |chains| ==> chains[b] == []
    {
      numBuckets, log2 := INITIAL_BUCKETS, INITIAL_LOG2;
      ideal, nonideal, ineffective, noExpand := 0, 0, 0, false;
      buckets := seq(INITIAL_BUCKETS, _ => NO_BUCKET);
      chains := seq(INITIAL_BUCKETS, _ => []);
      assert Pow2(5) == 2 * Pow2(4) == 32;
    }

    /** HASH_MAKE_TABLE */
    method MakeTable()
      requires items == []
      modifies `tail, `numBuckets, `log2, `ideal, `nonideal, `ineffective, `noExpand
      modifies `buckets, `bloom, `chains, `numItems
      ensures tail == head && numItems == 0 && TableOk([]) && FilterOk([])
      ensures Fresh(Sizing()) && forall b :: 0 <= b < |chains| ==> chains[b] == []
      ensures |bloom| == BloomBytes(bloomBits) && forall i :: 0 <= i < |bloom| ==> bloom[i] == 0
    {
      tail := head;
      numItems := 0;
      MakeBuckets();
      bloom := seq(BloomBytes(bloomBits), _ => 0);
    }

    /** The first element brings its own table. */
    method EnterFirst(x: Ptr, key: int)
      requires items == [] && x != NULL
      modifies this
      ensures items == [] && mem == old(mem)[x := Handle(key, hash(key), NULL, NULL, NULL, NULL)]
      ensures ListOk(items + [x]) && TableOk(items) && FilterOk(items) && Fresh(Sizing())
    {
      mem := mem[x := Handle(key, hash(key), NULL, NULL, NULL, NULL)];
      head := x;
      MakeTable();
      numItems := numItems + 1;
      assert items + [x] == [x] && At([x], 0) == x;
    }

    method LinkBehind(x: Ptr, key: int)
      requires tail in mem
      modifies `mem, `tail, `numItems
      ensures mem == Behind(old(mem), old(tail), x, key, hash) && tail == x && numItems == old(numItems) + 1
      ensures x in mem && mem[x].key == key && mem[x].hashv == hash(key) && mem.Keys == old(mem.Keys) + {x}
      ensures forall y :: y in old(mem) && y != x ==> mem[y].key == old(mem[y].key)
    {
      mem := mem[x := Handle(key, hash(key), NULL, NULL, NULL, NULL)];
      mem := mem[tail := mem[tail].(next := x)];
      mem := mem[x := mem[x].(prev := tail)];
      tail := x;
      numItems := numItems + 1;
    }

    method LinkLast(x: Ptr, key: int)
      requires items != [] && ListOk(items) && TableOk(items) && x != NULL && x !in items
      modifies `mem, `tail, `numItems
      ensures ListOk(items + [x]) && TableOk(items)
      ensures x in mem && mem[x].key == key && mem[x].hashv == hash(key) && mem.Keys == old(mem.Keys) + {x}
      ensures forall y :: y in old(mem) && y != x ==> mem[y].key == old(mem[y].key)
    {
      EnteredLast(mem, items, buckets, chains, hash, x, key);
      LinkBehind(x, key);
    }

    /** A further element goes behind the last one. */
    method EnterLast(x: Ptr, key: int)
      requires items != [] && ListOk(items) && TableOk(items) && FilterOk(items) && x != NULL && x !in items
      modifies `mem, `tail, `numItems
      ensures ListOk(items + [x]) && TableOk(items) && FilterOk(items)
      ensures x in mem && mem[x].key == key && mem[x].hashv == hash(key) && mem.Keys == old(mem.Keys) + {x}
      ensures forall y :: y in old(mem) && y != x ==> mem[y].key == old(mem[y].key)
    {
      ghost var m := mem;
      LinkLast(x, key);
      if useBloom {
        FilterFrame(m, mem, items, bloom, bloomBits, hash);
      }
    }

    method EnterList(x: Ptr, key: int)
      requires Valid() && x != NULL && x !in items
      modifies this
      ensures items == old(items) && ListOk(items + [x]) && TableOk(items) && FilterOk(items)
      ensures if items == [] then Fresh(Sizing()) else Sizing() == old(Sizing())
      ensures x in mem && mem[x].key == key && mem[x].hashv == hash(key) && mem.Keys == old(mem.Keys) + {x}
      ensures forall y :: y in old(mem) && y != x ==> mem[y].key == old(mem[y].key)
    {
      if head == NULL {
        EnterFirst(x, key);
      } else {
        EnterLast(x, key);
      }
    }

    /** The chains, with x before the others in chain b. */
    ghost function WithFirst(b: nat, x: Ptr): seq<seq<Ptr>>
      reads `chains
      requires b < |chains|
    {
      chains[b := [x] + chains[b]]
    }

    method LinkIntoBucket(b: nat, x: Ptr)
      requires TableOk(items) && x != NULL && x in mem && x !in items && InMemory(mem, items)
      requires mem[x].hashv == hash(mem[x].key) && b == Slot(mem[x].key, hash, |chains|)
      modifies `mem, `buckets, `chains
      ensures TableOk(items + [x]) && ChainLinksOnly(old(mem), mem) && b < |buckets| == |old(buckets)|
      ensures chains == old(WithFirst(b, x))
      ensures buckets == old(buckets)[b := Bucket(x, old(buckets[b]).count + 1, old(buckets[b]).expandMult)]
    {
      ghost var m, bs, cs := mem, buckets, chains;
      assert BucketOk(m, bs[b], cs[b]);
      var bk := buckets[b].(count := buckets[b].count + 1);
      mem := mem[x := mem[x].(hhNext := bk.head, hhPrev := NULL)];
      if bk.head != NULL {
        mem := mem[bk.head := mem[bk.head].(hhPrev := x)];
      }
      bk := bk.(head := x);
      buckets := buckets[b := bk];
      chains := chains[b := [x] + chains[b]];
      Pushed(m, bs, cs, items, hash, x, b);
    }

    /** The ideal chain length with twice as many buckets. */
    method SetIdeal()
      requires numBuckets == Pow2(log2) && numItems >= 1
      modifies `ideal
      ensures ideal == CeilDiv(numItems, 2 * numBuckets) && ideal >= 1
    {
      ideal := Shr(numItems, log2 + 1) + if And(numItems, 2 * numBuckets - 1) != 0 then 1 else 0;
      ShiftMaskIsCeil(numItems, log2 + 1);
    }

    method Install(bs: seq<Bucket>, ghost cs: seq<seq<Ptr>>)
      modifies `numBuckets, `log2, `buckets, `chains, `ineffective, `noExpand
      ensures numBuckets == 2 * old(numBuckets) && log2 == old(log2) + 1 && buckets == bs && chains == cs
      ensures ineffective == (if nonideal > numItems / 2 then old(ineffective) + 1 else 0)
      ensures noExpand <==> old(noExpand) || ineffective > 1
    {
      numBuckets := numBuckets * 2;
      log2 := log2 + 1;
      buckets, chains := bs, cs;
      ineffective := if nonideal > Shr(numItems, 1) then ineffective + 1 else 0;
      ShiftIsDiv(numItems, 1);
      if ineffective > 1 {
        noExpand := true;
      }
    }

    /** One element of an old chain becomes the head of its new chain. */
    method MoveToNew(x: Ptr, bs: seq<Bucket>, ghost m0: Memory, ghost done: seq<Ptr>, ghost its: seq<Ptr>)
      returns (r: seq<Bucket>)
      requires Moved(m0, mem, bs, done, its, hash, |bs|, ideal) && x in its && x !in done
      requires |bs| == Pow2(log2 + 1) == 2 * numBuckets && ideal >= 1 && Hashed(m0, its, hash)
      modifies `mem, `nonideal
      ensures |r| == |bs| && Moved(m0, mem, r, done + [x], its, hash, |bs|, ideal)
      ensures nonideal == old(nonideal) + Excess(r, ideal) - Excess(bs, ideal)
    {
      var b := And(mem[x].hashv, numBuckets * 2 - 1);
      MaskIsMod(mem[x].hashv, log2 + 1);
      var bk := bs[b].(count := bs[b].count + 1);
      if bk.count > ideal {
        nonideal := nonideal + 1;
        bk := bk.(expandMult := bk.count / ideal);
      }
      MovedOne(m0, mem, bs, done, its, hash, ideal, x, b);
      mem := mem[x := mem[x].(hhPrev := NULL, hhNext := bk.head)];
      if bk.head != NULL {
        mem := mem[bk.head := mem[bk.head].(hhPrev := x)];
      }
      bk := bk.(head := x);
      r := bs[b := bk];
      ExcessUpdate(bs, ideal, b, bk);
    }

    /** The body of the loop over a chain: the link is read before the element moves. */
    method MoveNext(x: Ptr, bs: seq<Bucket>, i: nat, ghost k: nat, ghost m0: Memory, ghost done: seq<Ptr>,
                    ghost its: seq<Ptr>)
      returns (nxt: Ptr, r: seq<Bucket>)
      requires i < numBuckets == |chains| == |buckets| && Pow2(log2) == numBuckets && |bs| == 2 * numBuckets
      requires ideal >= 1
      requires Hashed(m0, its, hash) && Partition(m0, its, chains, hash) && BucketOk(m0, buckets[i], chains[i])
      requires k < |chains[i]| && x == chains[i][k]
      requires Moved(m0, mem, bs, done, its, hash, |bs|, ideal)
      requires DoneUpTo(m0, its, done, hash, numBuckets, i, chains[i], k)
      modifies `mem, `nonideal
      ensures |r| == |bs| && Moved(m0, mem, r, done + [x], its, hash, |bs|, ideal)
      ensures DoneUpTo(m0, its, done + [x], hash, numBuckets, i, chains[i], k + 1)
      ensures nxt == At(chains[i], k + 1) && (nxt == NULL ==> k + 1 == |chains[i]|)
      ensures nonideal == old(nonideal) + Excess(r, ideal) - Excess(bs, ideal)
    {
      NextInChain(m0, mem, buckets[i], chains, its, hash, done, i, k, bs, ideal);
      nxt := mem[x].hhNext;
      r := MoveToNew(x, bs, m0, done, its);
      ChainStep(m0, its, done, hash, numBuckets, i, chains[i], k);
    }

    /** The loop over one old chain. */
    method MoveChain(i: nat, bs0: seq<Bucket>, ghost m0: Memory, ghost done0: seq<Ptr>, ghost its: seq<Ptr>)
      returns (bs: seq<Bucket>, ghost done: seq<Ptr>)
      requires i < numBuckets == |chains| == |buckets| && Pow2(log2) == numBuckets && |bs0| == 2 * numBuckets
      requires ideal >= 1
      requires Hashed(m0, its, hash) && Partition(m0, its, chains, hash) && BucketOk(m0, buckets[i], chains[i])
      requires Moved(m0, mem, bs0, done0, its, hash, |bs0|, ideal)
      requires ChainsDone(m0, its, done0, hash, numBuckets, i)
      modifies `mem, `nonideal
      ensures |bs| == |bs0| && Moved(m0, mem, bs, done, its, hash, |bs|, ideal)
      ensures ChainsDone(m0, its, done, hash, numBuckets, i + 1)
      ensures nonideal == old(nonideal) + Excess(bs, ideal) - Excess(bs0, ideal)
    {
      bs, done := bs0, done0;
      var x := buckets[i].head;
      ghost var chain, k := chains[i], 0;
      HeadInChain(m0, buckets[i], chain);
      ChainStart(m0, its, done, hash, numBuckets, i, chain);
      while x != NULL
        invariant 0 <= k <= |chain| && x == At(chain, k) && (x == NULL ==> k == |chain|)
        invariant |bs| == |bs0| && Moved(m0, mem, bs, done, its, hash, |bs|, ideal)
        invariant DoneUpTo(m0, its, done, hash, numBuckets, i, chain, k)
        invariant nonideal == old(nonideal) + Excess(bs, ideal) - Excess(bs0, ideal)
        decreases |chain| - k
      {
        ghost var moved := x;
        x, bs := MoveNext(x, bs, i, k, m0, done, its);
        done := done + [moved];
        k := k + 1;
      }
      ChainDone(m0, chains, its, done, hash, i);
    }

    /** The loop over the old buckets. */
    method MoveAll(ghost its: seq<Ptr>) returns (bs: seq<Bucket>, ghost done: seq<Ptr>)
      requires TableOk(its) && InMemory(mem, its) && ideal >= 1
      modifies `mem, `nonideal
      ensures |bs| == 2 * numBuckets && Moved(old(mem), mem, bs, done, its, hash, |bs|, ideal)
      ensures forall x :: x in its <==> x in done
      ensures nonideal == Excess(bs, ideal)
    {
      ghost var m0 := mem;
      done := [];
      bs := seq(2 * numBuckets, _ => NO_BUCKET);
      nonideal := 0;
      ExcessOfNone(bs, ideal);
      NothingMoved(m0, its, hash, |bs|, ideal);
      var i := 0;
      while i < numBuckets
        invariant 0 <= i <= numBuckets && |bs| == 2 * numBuckets
        invariant Moved(m0, mem, bs, done, its, hash, |bs|, ideal)
        invariant ChainsDone(m0, its, done, hash, numBuckets, i)
        invariant nonideal == Excess(bs, ideal)
      {
        assert BucketOk(m0, buckets[i], chains[i]);
        bs, done := MoveChain(i, bs, m0, done, its);
        i := i + 1;
      }
      assert forall x :: x in its ==> x in m0;
    }

    /** Rebuilding all chains. */
    method Rehash(ghost its: seq<Ptr>) returns (bs: seq<Bucket>, ghost cs: seq<seq<Ptr>>)
      requires TableOk(its) && InMemory(mem, its) && ideal >= 1
      modifies `mem, `nonideal
      ensures |bs| == 2 * numBuckets && ChainLinksOnly(old(mem), mem)
      ensures Stored(mem, bs, cs, its, hash) && Split(chains, cs)
      ensures nonideal == Excess(bs, ideal)
      ensures forall b :: 0 <= b < |bs| ==> bs[b].expandMult == Multiplier(bs[b].count, ideal)
    {
      ghost var m0, done := mem, [];
      bs, done := MoveAll(its);
      cs := Rebuilt(m0, done, hash, |bs|);
      AllMoved(m0, mem, bs, done, its, hash, |bs|, ideal);
      SplitsInTwo(m0, chains, its, done, hash);
    }

    /** HASH_EXPAND_BUCKETS: twice as many buckets, every element of bucket b goes to b or b + n. */
    method Expand(ghost its: seq<Ptr>)
      requires TableOk(its) && NoDup(its) && InMemory(mem, its) && numItems == |its| >= 1
      modifies `mem, `numBuckets, `log2, `ideal, `nonideal, `ineffective, `noExpand, `buckets, `chains
      ensures TableOk(its) && ChainLinksOnly(old(mem), mem)
      ensures Split(old(chains), chains) && Expanded(old(Sizing()), Sizing(), numItems)
    {
      SetIdeal();
      var bs;
      ghost var cs;
      bs, cs := Rehash(its);
      Install(bs, cs);
    }

    /** HASH_ADD_TO_BKT: the element heads its chain, which triggers an expansion if the chain is as long
        as the bucket's multiplier allows. */
    method AddToBucket(b: nat, x: Ptr)
      requires TableOk(items) && x != NULL && x in mem && x !in items && InMemory(mem, items)
      requires mem[x].hashv == hash(mem[x].key) && b == Slot(mem[x].key, hash, |chains|)
      requires NoDup(items + [x]) && numItems == |items| + 1
      modifies `mem, `numBuckets, `log2, `ideal, `nonideal, `ineffective, `noExpand, `buckets, `chains
      ensures TableOk(items + [x]) && ChainLinksOnly(old(mem), mem)
      ensures b < |old(buckets)|
      ensures if Crowded(old(Sizing()), b) then Split(old(WithFirst(b, x)), chains) else chains == old(WithFirst(b, x))
      ensures Grown(old(Sizing()), Sizing(), hash(mem[x].key), numItems)
    {
      LinkIntoBucket(b, x);
      if buckets[b].count >= (buckets[b].expandMult + 1) * CAPACITY && !noExpand {
        assert InMemory(mem, items + [x]);
        Expand(items + [x]);
      }
    }

    method EnterBucket(x: Ptr)
      requires TableOk(items) && x != NULL && x in mem && x !in items && InMemory(mem, items)
      requires mem[x].hashv == hash(mem[x].key) && NoDup(items + [x]) && numItems == |items| + 1
      modifies `mem, `numBuckets, `log2, `ideal, `nonideal, `ineffective, `noExpand, `buckets, `chains
      ensures TableOk(items + [x]) && ChainLinksOnly(old(mem), mem)
      ensures old(FilterOk(items)) ==> FilterOk(items)
      ensures Grown(old(Sizing()), Sizing(), hash(mem[x].key), numItems)
    {
      ghost var m := mem;
      var b := ToBucket(mem[x].hashv);
      MaskIsMod(mem[x].hashv, log2);
      AddToBucket(b, x);
      if useBloom && Filtered(m, items, bloom, bloomBits, hash) {
        FilterFrame(m, mem, items, bloom, bloomBits, hash);
      }
    }

    method EnterTable(x: Ptr)
      requires ListOk(items + [x]) && DistinctKeys(mem, items + [x]) && TableOk(items) && FilterOk(items)
      requires x !in items && x in mem && mem[x].hashv == hash(mem[x].key)
      modifies `mem, `numBuckets, `log2, `ideal, `nonideal, `ineffective, `noExpand, `buckets, `chains
      ensures ListOk(items + [x]) && DistinctKeys(mem, items + [x]) && TableOk(items + [x]) && FilterOk(items)
      ensures ChainLinksOnly(old(mem), mem) && Grown(old(Sizing()), Sizing(), hash(mem[x].key), numItems)
    {
      ghost var m := mem;
      assert x in items + [x];
      EnterBucket(x);
      ChainFrame(m, mem, items + [x], head, tail);
    }

    ghost method Adopt(its: seq<Ptr>)
      requires its != [] && DistinctKeys(mem, its) && ListOk(its) && TableOk(its) && FilterOk(its)
      modifies `items
      ensures Valid() && items == its
    {
      assert its[0] in its;
      items := its;
    }

    /** HASH_BLOOM_ADD */
    method BloomAdd(x: Ptr)
      requires x in mem && mem[x].hashv == hash(mem[x].key) && FilterOk(items)
      modifies `bloom
      ensures FilterOk(items + [x])
      ensures bloom == if useBloom then WithBit(old(bloom), BloomIndex(mem[x].hashv, bloomBits)) else old(bloom)
    {
      if useBloom {
        ghost var before := bloom;
        var i := BloomIndex(mem[x].hashv, bloomBits);
        bloom := bloom[i / 8 := bloom[i / 8] | BitMask(i % 8)];
        forall y | y in items + [x]
          ensures Bit(bloom, BloomIndex(hash(mem[y].key), bloomBits))
        {
          SetBit(before, i, BloomIndex(hash(mem[y].key), bloomBits));
        }
      }
    }

    method PlaceInTable(x: Ptr)
      requires ListOk(items + [x]) && DistinctKeys(mem, items + [x]) && TableOk(items) && FilterOk(items)
      requires x !in items && x in mem && mem[x].hashv == hash(mem[x].key)
      modifies this
      ensures Valid() && items == old(items) + [x]
      ensures mem.Keys == old(mem.Keys) && forall y :: y in mem ==> mem[y].key == old(mem[y].key)
      ensures x in mem && Grown(old(Sizing()), Sizing(), hash(mem[x].key), |items|)
    {
      EnterTable(x);
      BloomAdd(x);
      Adopt(items + [x]);
    }

    /** HASH_ADD_KEYPTR: the element comes last in insertion order, under its key. The first one brings a
        new table; a further one makes its bucket count one more, unless the table has to expand. */
    method Add(x: Ptr, key: int)
      requires Valid() && x != NULL && x !in items && key !in Contents()
      modifies this
      ensures Valid() && items == old(items) + [x]
      ensures Contents() == old(Contents())[key := x]
      ensures x in mem && mem[x].key == key && mem.Keys == old(mem.Keys) + {x}
      ensures forall y :: y in old(mem) && y != x ==> mem[y].key == old(mem[y].key)
      ensures if old(items) == [] then Started(Sizing(), hash(key))
              else Grown(old(Sizing()), Sizing(), hash(key), |items|)
    {
      ghost var m, its := mem, items;
      if items != [] {
        IndexFinds(mem, items);
      }
      EnterList(x, key);
      NewKey(m, mem, items, x);
      ghost var before := Sizing();
      PlaceInTable(x);
      IndexAppend(m, mem, its, x);
      if its == [] {
        FirstInTable(before, Sizing(), hash(key), |items|);
      }
    }

    // --------------------------------------------------------------------- delete

    /** Repairing the insertion-order list around x. */
    method RepairAround(x: Ptr)
      requires x in mem && (mem[x].prev != NULL ==> mem[x].prev in mem) && (mem[x].next != NULL ==> mem[x].next in mem)
      modifies `mem, `head, `tail
      ensures mem == Unlink(old(mem), x)
      ensures head == if old(mem[x]).prev == NULL then old(mem[x]).next else old(head)
      ensures tail == if x == old(tail) then old(mem[x]).prev else old(tail)
    {
      var h := mem[x];
      if x == tail {
        tail := h.prev;
      }
      if h.prev != NULL {
        mem := mem[h.prev := mem[h.prev].(next := h.next)];
      } else {
        head := h.next;
      }
      if h.next != NULL {
        mem := mem[h.next := mem[h.next].(prev := h.prev)];
      }
    }

    /** The list of the others. */
    method DeleteFromList(x: Ptr)
      requires x in items && |items| > 1 && ListOk(items)
      modifies `mem, `head, `tail
      ensures x in old(mem) && (old(mem[x]).prev != NULL ==> old(mem[x]).prev in old(mem))
      ensures old(mem[x]).next != NULL ==> old(mem[x]).next in old(mem)
      ensures mem == Unlink(old(mem), x) && ListShape(mem, Drop(items, x), head, tail)
      ensures |Drop(items, x)| == |items| - 1
    {
      ListDeleted(mem, items, head, tail, x);
      RepairAround(x);
    }

    method RemoveFromList(x: Ptr)
      requires x in items && |items| > 1 && ListOk(items) && TableOk(items) && DistinctKeys(mem, items)
      modifies `mem, `head, `tail
      ensures ListShape(mem, Drop(items, x), head, tail) && |Drop(items, x)| == |items| - 1
      ensures TableOk(items) && ListLinksOnly(old(mem), mem) && x in mem && mem[x] == old(mem)[x]
    {
      ghost var m := mem;
      DeleteFromList(x);
      UnlinkKeeps(m, buckets, chains, items, hash, x);
    }

    /** What holds of the others once x has left the list. */
    lemma OthersAfter(m: Memory, x: Ptr)
      requires x in items && NoDup(items) && DistinctKeys(m, items) && SameKeys(m, mem)
      requires useBloom ==> Filtered(m, items, bloom, bloomBits, hash)
      ensures DistinctKeys(mem, Drop(items, x)) && FilterOk(Drop(items, x))
    {
      DropKeys(m, mem, items, x);
      if useBloom {
        FilterDrop(m, mem, items, bloom, bloomBits, hash, x);
      }
    }

    /** HASH_DEL_IN_BKT, for the bucket of x, and the item count. */
    method DeleteFromBucket(x: Ptr)
      requires x in mem && mem[x].hashv == hash(mem[x].key) && numBuckets == Pow2(log2) == |chains| == |buckets|
      requires numItems > 0
      requires (mem[x].hhPrev != NULL ==> mem[x].hhPrev in mem) && (mem[x].hhNext != NULL ==> mem[x].hhNext in mem)
      requires var b := Slot(mem[x].key, hash, |chains|); buckets[b].count > 0 && x in chains[b]
      modifies `mem, `buckets, `chains, `numItems
      ensures mem == UnlinkChain(old(mem), x) && numItems == old(numItems) - 1
      ensures var b := Slot(old(mem[x]).key, hash, numBuckets);
              && buckets == old(buckets)[b := Shrunk(old(mem), old(buckets)[b], x)]
              && chains == old(chains)[b := Drop(old(chains)[b], x)]
      ensures CountedDown(old(buckets), buckets, old(mem[x]).hashv)
    {
      var h := mem[x];
      var b := ToBucket(h.hashv);
      MaskIsMod(h.hashv, log2);
      var bk := buckets[b].(count := buckets[b].count - 1);
      if bk.head == x {
        bk := bk.(head := h.hhNext);
      }
      if h.hhPrev != NULL {
        mem := mem[h.hhPrev := mem[h.hhPrev].(hhNext := h.hhNext)];
      }
      if h.hhNext != NULL {
        mem := mem[h.hhNext := mem[h.hhNext].(hhPrev := h.hhPrev)];
      }
      buckets := buckets[b := bk];
      chains := chains[b := Drop(chains[b], x)];
      numItems := numItems - 1;
    }

    method RemoveFromTable(x: Ptr)
      requires x in items && NoDup(items) && TableOk(items) && numItems == |items| == |Drop(items, x)| + 1
      requires ListShape(mem, Drop(items, x), head, tail) && DistinctKeys(mem, Drop(items, x))
      requires FilterOk(Drop(items, x))
      modifies `mem, `buckets, `chains, `numItems
      ensures ListOk(Drop(items, x)) && DistinctKeys(mem, Drop(items, x))
      ensures TableOk(Drop(items, x)) && FilterOk(Drop(items, x)) && ChainLinksOnly(old(mem), mem)
      ensures x in old(mem) && x in mem && mem[x] == old(mem)[x] && numBuckets == |buckets|
      ensures CountedDown(old(buckets), buckets, hash(mem[x].key))
    {
      ChainKeepsOwn(mem, buckets, chains, items, hash, x);
      BucketDeleted(mem, buckets, chains, items, hash, x);
      ChainFrame(mem, UnlinkChain(mem, x), Drop(items, x), head, tail);
      if useBloom {
        FilterFrame(mem, UnlinkChain(mem, x), Drop(items, x), bloom, bloomBits, hash);
      }
      DeleteFromBucket(x);
    }

    /** The first half of a deletion: the insertion-order list is that of the others. */
    method TakeFromList(x: Ptr)
      requires Valid() && x in items && |items| > 1
      modifies `mem, `head, `tail
      ensures TableOk(items) && NoDup(items) && numItems == |items| == |Drop(items, x)| + 1
      ensures ListShape(mem, Drop(items, x), head, tail) && DistinctKeys(mem, Drop(items, x))
      ensures FilterOk(Drop(items, x)) && SameKeys(old(mem), mem)
      ensures x in old(mem) && x in mem && mem[x] == old(mem)[x]
    {
      ghost var m := mem;
      RemoveFromList(x);
      OthersAfter(m, x);
    }

    method TakeOneOfMany(x: Ptr)
      requires Valid() && x in items && |items| > 1
      modifies `mem, `head, `tail, `buckets, `chains, `numItems, `items
      ensures Valid() && items == Drop(old(items), x) && SameKeys(old(mem), mem)
      ensures x in old(mem) && x in mem && mem[x] == old(mem)[x] && numBuckets == |buckets|
      ensures CountedDown(old(buckets), buckets, hash(mem[x].key))
    {
      TakeFromList(x);
      RemoveFromTable(x);
      Adopt(Drop(items, x));
    }

    /** The deletion of an element that is not the only one. */
    method DeleteOneOfMany(x: Ptr)
      requires Valid() && x in items && |items| > 1
      modifies `mem, `head, `tail, `buckets, `chains, `numItems, `items
      ensures Valid() && items == Drop(old(items), x) && SameKeys(old(mem), mem)
      ensures x in old(mem) && x in mem && mem[x] == old(mem)[x]
      ensures Contents() == old(Contents()) - {mem[x].key}
      ensures Thinned(old(Sizing()), Sizing(), hash(mem[x].key))
    {
      ghost var m, its := mem, items;
      TakeOneOfMany(x);
      IndexDrop(m, mem, its, x);
    }

    /** The deletion of the only element. */
    method DeleteLast(x: Ptr)
      requires Valid() && items == [x]
      modifies this
      ensures Valid() && items == [] == Drop(old(items), x) && mem == old(mem) && head == NULL && x in mem
      ensures Contents() == map[] == old(Contents()) - {mem[x].key}
    {
      ghost var its := items;
      IndexDrop(mem, mem, its, x);
      head, buckets, numBuckets, bloom := NULL, [], 0, [];
      items, chains := [], [];
    }

    method DeleteElement(x: Ptr)
      requires Valid() && x in items
      modifies this
      ensures Valid() && items == Drop(old(items), x) && SameKeys(old(mem), mem)
      ensures x in old(mem) && x in mem && mem[x] == old(mem)[x] && (|old(items)| == 1 ==> head == NULL)
      ensures Contents() == old(Contents()) - {mem[x].key}
      ensures |old(items)| > 1 ==> Thinned(old(Sizing()), Sizing(), hash(mem[x].key)) && bloom == old(bloom)
    {
      LonelyElement(mem, items, x);
      if mem[x].prev == NULL && mem[x].next == NULL {
        DeleteLast(x);
      } else {
        DeleteOneOfMany(x);
      }
    }

    /** HASH_DELETE: the element leaves both views; the last one takes the table with it. Otherwise its bucket
        counts one less, and nothing else about the buckets' sizes and the expansion is different. */
    method Delete(x: Ptr)
      requires Valid() && x in items
      modifies this
      ensures Valid() && items == Drop(old(items), x) && SameKeys(old(mem), mem)
      ensures x in old(mem) && x in mem && mem[x] == old(mem)[x] && (|old(items)| == 1 ==> head == NULL)
      ensures Contents() == old(Contents()) - {old(mem)[x].key}
      ensures |old(items)| > 1 ==>
                (numBuckets, log2, ideal, nonideal, ineffective, noExpand, bloom) ==
                old((numBuckets, log2, ideal, nonideal, ineffective, noExpand, bloom))
      ensures |old(items)| > 1 ==>
                && numBuckets == |buckets| == |old(buckets)| > 0
                && forall c :: 0 <= c < |buckets| ==>
                     && buckets[c].expandMult == old(buckets)[c].expandMult
                     && buckets[c].count ==
                        old(buckets)[c].count - if c == hash(mem[x].key) % numBuckets then 1 else 0
    {
      DeleteElement(x);
    }

    lemma FirstTwo()
      requires Valid()
      ensures head == At(items, 0) && (head != NULL ==> head in mem && mem[head].next == At(items, 1))
      ensures items != [] ==> items[0] in items && Drop(items, items[0]) == items[1..]
      ensures |items| > 1 ==> items[1] != NULL && items[1] in mem
    {
      if items != [] {
        assert items[0] in items && mem[items[0]].next == At(items, 1);
        assert |items| > 1 ==> items[1] in items;
      }
    }

    /** HASH_ITER with HASH_DEL on every element: the successor is read before the element goes. */
    method DeleteAll()
      requires Valid()
      modifies this
      ensures Valid() && items == [] && Contents() == map[] && SameKeys(old(mem), mem)
    {
      var el := head;
      FirstTwo();
      var tmp := if head != NULL then mem[head].next else NULL;
      while el != NULL
        invariant Valid() && el == At(items, 0) && tmp == At(items, 1) && SameKeys(old(mem), mem)
        invariant el == NULL <==> items == []
        decreases |items|
      {
        FirstTwo();
        Delete(el);
        FirstTwo();
        el := tmp;
        tmp := if tmp != NULL then mem[tmp].next else NULL;
      }
    }

    // ----------------------------------------------------------------------- check

    /** The chains and its can be walked from their heads; nothing is said of the way back or of the counts. */
    ghost predicate Walkable(its: seq<Ptr>)
      reads this
    {
      && numBuckets == |buckets| == |chains|
      && (forall b :: 0 <= b < |buckets| ==> ChainWalk(mem, buckets[b].head, chains[b]))
      && ListWalk(mem, head, its)
    }

    /** What the integrity check is there for: all links back and all counts are right. */
    ghost predicate Sound(its: seq<Ptr>)
      reads this
    {
      && numBuckets == |buckets| == |chains|
      && (forall b :: 0 <= b < |buckets| ==> ChainBack(mem, chains[b]) && buckets[b].count == |chains[b]|)
      && SumCounts(buckets) == numItems == |its| && ListBack(mem, its)
    }

    method FsckChain(bk: Bucket, ghost chain: seq<Ptr>) returns (ok: bool, n: nat)
      requires ChainWalk(mem, bk.head, chain)
      ensures ok <==> ChainBack(mem, chain)
      ensures ok ==> n == |chain|
    {
      var thh, prev := bk.head, NULL;
      n := 0;
      while thh != NULL
        invariant 0 <= n <= |chain| && thh == At(chain, n) && prev == At(chain, n - 1)
        invariant thh == NULL ==> n == |chain|
        invariant forall k :: 0 <= k < n ==> mem[chain[k]].hhPrev == At(chain, k - 1)
        decreases |chain| - n
      {
        if mem[thh].hhPrev != prev {
          return false, n;
        }
        n := n + 1;
        prev := thh;
        thh := mem[thh].hhNext;
      }
      ok := true;
    }

    method FsckBuckets(ghost its: seq<Ptr>) returns (ok: bool)
      requires Walkable(its)
      ensures ok <==> SumCounts(buckets) == numItems
                      && forall b :: 0 <= b < |buckets| ==> ChainBack(mem, chains[b]) && buckets[b].count == |chains[b]|
    {
      var total, b := 0, 0;
      while b < numBuckets
        invariant 0 <= b <= |buckets| && total == SumCounts(buckets[..b])
        invariant forall c :: 0 <= c < b ==> ChainBack(mem, chains[c]) && buckets[c].count == |chains[c]|
      {
        var n;
        ok, n := FsckChain(buckets[b], chains[b]);
        if !ok || buckets[b].count != n {
          return false;
        }
        total := total + n;
        TakeOfTake(buckets, b + 1, b);
        b := b + 1;
      }
      TakeAll(buckets, b);
      ok := total == numItems;
    }

    method FsckList(ghost its: seq<Ptr>) returns (ok: bool)
      requires ListWalk(mem, head, its)
      ensures ok <==> ListBack(mem, its) && |its| == numItems
    {
      var n, thh, prev := 0, head, NULL;
      while thh != NULL
        invariant 0 <= n <= |its| && thh == At(its, n) && prev == At(its, n - 1)
        invariant thh == NULL ==> n == |its|
        invariant forall k :: 0 <= k < n ==> mem[its[k]].prev == At(its, k - 1)
        decreases |its| - n
      {
        n := n + 1;
        if mem[thh].prev != prev {
          return false;
        }
        prev := thh;
        thh := mem[thh].next;
      }
      ok := n == numItems;
    }

    /** HASH_FSCK accepts a table, whatever its links back and its counts are, exactly if they are right. */
    method Fsck(ghost its: seq<Ptr>) returns (ok: bool)
      requires head != NULL ==> Walkable(its)
      ensures ok <==> head == NULL || Sound(its)
    {
      if head == NULL {
        return true;
      }
      ok := FsckBuckets(its);
      if ok {
        ok := FsckList(its);
      }
    }

    /** So it never complains about a table that was built with the operations above. */
    lemma ValidIsSound()
      requires Valid() && head != NULL
      ensures Walkable(items) && Sound(items)
    {
      ListIsWalk(mem, items);
      CountsAddUp(mem, items, buckets, chains, hash);
      forall b | 0 <= b < |buckets|
        ensures ChainWalk(mem, buckets[b].head, chains[b]) && ChainBack(mem, chains[b])
      {
        assert BucketOk(mem, buckets[b], chains[b]);
        ChainIsWalk(mem, buckets[b], chains[b]);
      }
    }

    // ----------------------------------------------------------------------- sort

    /** Walking over the run at the front of s. */
    method SkipRun(first: Ptr, insize: nat, ghost s: seq<Ptr>) returns (q: Ptr, psize: nat)
      requires insize >= 1 && s != [] && first == s[0] && Tail(mem, s) && InMemory(mem, s)
      ensures psize == Min(insize, |s|) && q == At(s, psize)
    {
      q, psize := first, 0;
      var i := 0;
      assert s[0] in s;
      while i < insize
        invariant 0 <= i <= insize && psize == i < |s| + 1 && i <= |s|
        invariant q == At(s, i) && q != NULL
        invariant i < insize ==> i < |s|
      {
        psize := psize + 1;
        assert s[i] in s && mem[s[i]].next == At(s, i + 1);
        assert i + 1 < |s| ==> s[i + 1] in s;
        q := mem[q].next;
        if q == NULL {
          break;
        }
        i := i + 1;
      }
    }

    /** Linking e behind the last element. */
    method Emit(e: Ptr, list0: Ptr, last0: Ptr) returns (list: Ptr, last: Ptr)
      requires e in mem && (last0 != NULL ==> last0 in mem)
      modifies `mem
      ensures mem == Append(old(mem), last0, e)
      ensures last == e && list == if last0 != NULL then list0 else e
    {
      list := list0;
      if last0 != NULL {
        mem := mem[last0 := mem[last0].(next := e)];
      } else {
        list := e;
      }
      mem := mem[e := mem[e].(prev := last0)];
      last := e;
    }

    /** One step of a merge: the smaller head goes behind the last element, ties going to p. */
    method MergeOne(p0: Ptr, psize0: nat, q0: Ptr, qsize0: nat, list0: Ptr, last0: Ptr, cmp: Compare,
                    ghost o0: seq<Ptr>, ghost ps0: seq<Ptr>, ghost qs0: seq<Ptr>, ghost r: seq<Ptr>)
      returns (p: Ptr, psize: nat, q: Ptr, qsize: nat, list: Ptr, last: Ptr,
               ghost o: seq<Ptr>, ghost ps: seq<Ptr>, ghost qs: seq<Ptr>)
      requires Links(mem, o0, ps0, qs0 + r) && Cursors(p0, psize0, q0, qsize0, list0, last0, o0, ps0, qs0, r)
      requires psize0 > 0 || (qsize0 > 0 && q0 != NULL)
      modifies `mem
      ensures Links(mem, o, ps, qs + r) && ListLinksOnly(old(mem), mem)
      ensures Cursors(p, psize, q, qsize, list, last, o, ps, qs, r)
      ensures o + Merge(ps, qs, cmp) == o0 + Merge(ps0, qs0, cmp) && |ps| + |qs| < |ps0| + |qs0|
    {
      NextUp(mem, o0, ps0, qs0, r);
      MergeUnfold(o0, ps0, qs0, cmp);
      p, psize, q, qsize, ps, qs := p0, psize0, q0, qsize0, ps0, qs0;
      var e;
      if psize == 0 || (qsize > 0 && q != NULL && cmp(p, q) > 0) {
        e, q, qsize, qs := q, mem[q].next, qsize - 1, qs[1..];
      } else {
        e, p, psize, ps := p, mem[p].next, psize - 1, ps[1..];
      }
      o := o0 + [e];
      list, last := Emit(e, list0, last0);
      RestHead(mem, o, ps, qs, r);
    }

    /** Merging the run p0 with the run q0, where r0 is the rest of the list behind q0. */
    method MergeRuns(first: Ptr, size: nat, second: Ptr, insize: nat, list0: Ptr, last0: Ptr, cmp: Compare,
                     ghost out: seq<Ptr>, ghost p0: seq<Ptr>, ghost q0: seq<Ptr>, ghost r0: seq<Ptr>)
      returns (list: Ptr, last: Ptr, rest: Ptr, ghost o: seq<Ptr>)
      requires Links(mem, out, p0, q0 + r0) && size == |p0| && first == At(p0, 0) && second == At(q0 + r0, 0)
      requires |q0| <= insize && (|q0| < insize ==> r0 == [])
      requires list0 == At(out, 0) && last0 == SortLinks.Last(out)
      modifies `mem
      ensures o == out + Merge(p0, q0, cmp) && Links(mem, o, [], r0)
      ensures rest == At(r0, 0) && (rest == NULL ==> r0 == [])
      ensures list == At(o, 0) && last == SortLinks.Last(o) && ListLinksOnly(old(mem), mem)
    {
      ghost var m0, ps, qs := mem, p0, q0;
      var p, psize, q, qsize := first, size, second, insize;
      list, last, o := list0, last0, out;
      RestHead(mem, o, ps, qs, r0);
      while psize > 0 || (qsize > 0 && q != NULL)
        invariant Links(mem, o, ps, qs + r0) && ListLinksOnly(m0, mem)
        invariant Cursors(p, psize, q, qsize, list, last, o, ps, qs, r0)
        invariant o + Merge(ps, qs, cmp) == out + Merge(p0, q0, cmp)
        decreases |ps| + |qs|
      {
        p, psize, q, qsize, list, last, o, ps, qs := MergeOne(p, psize, q, qsize, list, last, cmp, o, ps, qs, r0);
      }
      rest := q;
      assert ps == [] && qs == [] && qs + r0 == r0;
      assert o + Merge(ps, qs, cmp) == o;
    }

    /** Finding the two runs at the front of s and merging them behind out. */
    method MergeNext(first: Ptr, insize: nat, list0: Ptr, last0: Ptr, cmp: Compare,
                     ghost out: seq<Ptr>, ghost s: seq<Ptr>)
      returns (list: Ptr, last: Ptr, rest: Ptr, ghost o: seq<Ptr>)
      requires insize >= 1 && s != [] && first == s[0] && Links(mem, out, [], s)
      requires list0 == At(out, 0) && last0 == SortLinks.Last(out)
      modifies `mem
      ensures var k, l := Min(insize, |s|), Min(2 * insize, |s|);
              && o == out + Merge(s[..k], s[k..l], cmp) && Links(mem, o, [], s[l..])
              && rest == At(s[l..], 0) && (rest == NULL ==> s[l..] == [])
      ensures list == At(o, 0) && last == SortLinks.Last(o) && ListLinksOnly(old(mem), mem)
    {
      var q, psize := SkipRun(first, insize, s);
      ghost var k, l := Min(insize, |s|), Min(2 * insize, |s|);
      SplitRun(mem, out, s, k);
      assert s[k..] == s[k..l] + s[l..];
      list, last, rest, o := MergeRuns(first, psize, q, insize, list0, last0, cmp, out, s[..k], s[k..l], s[l..]);
    }

    /** The loop of a pass. */
    method MergeAll(first: Ptr, insize: nat, cmp: Compare, ghost its: seq<Ptr>)
      returns (list: Ptr, last: Ptr, nmerges: nat, ghost out: seq<Ptr>)
      requires insize >= 1 && its != [] && NoDup(its) && InMemory(mem, its) && AppLinked(mem, its) && first == its[0]
      modifies `mem
      ensures out == Pass(its, insize, cmp) && |out| == |its| && Links(mem, out, [], [])
      ensures list == At(out, 0) && last == SortLinks.Last(out) && ListLinksOnly(old(mem), mem)
      ensures if nmerges <= 1 then |its| <= 2 * insize else |its| > 2 * insize
    {
      ghost var m0, s := mem, its;
      var p := first;
      list, last, nmerges, out := NULL, NULL, 0, [];
      StartLinks(mem, its);
      StartPass(its, insize, cmp);
      assert its[0] in its;
      while p != NULL
        invariant Links(mem, out, [], s) && ListLinksOnly(m0, mem)
        invariant p == At(s, 0) && (p == NULL ==> s == [])
        invariant list == At(out, 0) && last == SortLinks.Last(out)
        invariant PassSoFar(out, s, insize, cmp, its, nmerges)
        decreases |s|
      {
        nmerges := nmerges + 1;
        ghost var o := out;
        list, last, p, out := MergeNext(p, insize, list, last, cmp, out, s);
        PassStep(o, s, insize, cmp, its, nmerges - 1);
        s := s[Min(2 * insize, |s|)..];
      }
      assert out + Pass(s, insize, cmp) == out;
    }

    /** One pass: neighbouring runs of length insize are merged. */
    method SortPass(first: Ptr, insize: nat, cmp: Compare, ghost its: seq<Ptr>)
      returns (list: Ptr, last: Ptr, nmerges: nat, ghost out: seq<Ptr>)
      requires insize >= 1 && its != [] && NoDup(its) && InMemory(mem, its) && AppLinked(mem, its) && first == its[0]
      modifies `mem
      ensures out == Pass(its, insize, cmp) && |out| == |its| && NoDup(out) && InMemory(mem, out) && AppLinked(mem, out)
      ensures list == At(out, 0) && last == SortLinks.Last(out) && ListLinksOnly(old(mem), mem)
      ensures if nmerges <= 1 then |its| <= 2 * insize else |its| > 2 * insize
    {
      list, last, nmerges, out := MergeAll(first, insize, cmp, its);
      PassPermutes(its, insize, cmp);
      PassEnd(mem, out, its);
      mem := mem[last := mem[last].(next := NULL)];
    }

    method SortRound(first: Ptr, insize: nat, cmp: Compare, ghost before: seq<Ptr>)
      returns (list: Ptr, last: Ptr, nmerges: nat, ghost out: seq<Ptr>)
      requires insize >= 1 && TotalPreorder(cmp) && Sorting(mem, items, before, first, insize, cmp)
      modifies `mem
      ensures Sorting(mem, items, out, list, 2 * insize, cmp) && last == SortLinks.Last(out)
      ensures ListLinksOnly(old(mem), mem)
      ensures if nmerges <= 1 then |items| <= 2 * insize else |items| > 2 * insize
    {
      list, last, nmerges, out := SortPass(first, insize, cmp, before);
      PassKeeps(before, insize, cmp);
      StableTransitive(items, before, out, cmp);
    }

    /** The passes, with runs of doubling length, until one merge covers the list. */
    method SortList(cmp: Compare) returns (ghost out: seq<Ptr>)
      requires ListOk(items) && TotalPreorder(cmp)
      modifies `mem, `head, `tail
      ensures ListOk(out) && Sorted(out, cmp) && StablePermutation(items, out, cmp) && ListLinksOnly(old(mem), mem)
    {
      ghost var m0 := mem;
      out := items;
      var insize, looping, list, last := 1, true, head, NULL;
      SingletonRuns(items, cmp);
      while looping
        invariant insize >= 1
        invariant (if looping then insize < 2 * |items| else |items| <= insize && last == SortLinks.Last(out))
        invariant ListLinksOnly(m0, mem) && Sorting(mem, items, out, list, insize, cmp)
        decreases looping, 2 * |items| - insize
      {
        var nmerges;
        list, last, nmerges, out := SortRound(list, insize, cmp, out);
        if nmerges <= 1 {
          looping := false;
        }
        insize := insize * 2;
      }
      tail, head := last, list;
      OneRunIsSorted(out, insize, cmp);
    }

    /** Sorting the list leaves a table of the same elements. */
    method SortElements(cmp: Compare) returns (ghost out: seq<Ptr>)
      requires ListOk(items) && TableOk(items) && FilterOk(items) && DistinctKeys(mem, items) && TotalPreorder(cmp)
      modifies `mem, `head, `tail
      ensures out != [] && ListOk(out) && TableOk(out) && FilterOk(out) && DistinctKeys(mem, out)
      ensures Sorted(out, cmp) && StablePermutation(items, out, cmp) && ListLinksOnly(old(mem), mem)
      ensures Index(mem, out) == old(Index(mem, items))
    {
      ghost var m := mem;
      out := SortList(cmp);
      SortedTable(m, mem, items, out, buckets, chains, hash, cmp);
      if useBloom {
        SortedFilter(m, mem, items, out, bloom, bloomBits, hash, cmp);
      }
    }

    /** HASH_SRT: the insertion-order list becomes a sorted, stable permutation of itself; keys,
        buckets and chains stay as they were. */
    method Sort(cmp: Compare)
      requires Valid() && TotalPreorder(cmp)
      modifies `mem, `head, `tail, `items
      ensures Valid() && Sorted(items, cmp) && StablePermutation(old(items), items, cmp)
      ensures ListLinksOnly(old(mem), mem) && Contents() == old(Contents())
    {
      if head != NULL {
        ghost var out := SortElements(cmp);
        Adopt(out);
      }
    }
  }
}
