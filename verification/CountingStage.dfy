/** compute_own_metrics as the source runs it: on a uthash table, and on an array. */
module CountingStage {
  import opened Events
  import opened Topology
  import opened HandlerRuns
  import opened OwnMetrics
  import opened HashMemory
  import opened HashSteps
  import opened HashTables

  /** The table's finite map with the count that is stored with each element. */
  ghost function Tallies(contents: map<int, Ptr>, counts: map<Ptr, nat>): map<int, nat> {
    map k | k in contents && contents[k] in counts :: counts[contents[k]]
  }

  ghost predicate TalliesOk(contents: map<int, Ptr>, counts: map<Ptr, nat>) {
    && (forall k :: k in contents ==> contents[k] in counts)
    && (forall j, k :: j in contents && k in contents && j != k ==> contents[j] != contents[k])
  }

  lemma ContentsInjective(t: HashTable)
    requires t.Valid()
    ensures forall j, k :: j in t.Contents() && k in t.Contents() && j != k ==> t.Contents()[j] != t.Contents()[k]
    ensures forall k :: k in t.Contents() ==>
              (t.Contents()[k] in t.items && t.Contents()[k] in t.mem && t.mem[t.Contents()[k]].key == k)
  {
    if t.items != [] {
      IndexFinds(t.mem, t.items);
      forall k | k in t.Contents()
        ensures t.Contents()[k] in t.items && t.Contents()[k] in t.mem && t.mem[t.Contents()[k]].key == k
      {
        var x :| x in t.items && x in t.mem && t.mem[x].key == k;
      }
    }
  }

  lemma FirstArrival(contents: map<int, Ptr>, counts: map<Ptr, nat>, ts: int, node: Ptr)
    requires TalliesOk(contents, counts) && ts !in contents && forall k :: k in contents ==> contents[k] != node
    ensures TalliesOk(contents[ts := node], counts[node := 1])
    ensures Tallies(contents[ts := node], counts[node := 1]) == Tally(Tallies(contents, counts), ts)
  {
    var after, counts' := contents[ts := node], counts[node := 1];
    assert forall k :: k in contents ==> after[k] == contents[k] && counts'[contents[k]] == counts[contents[k]];
    var t, t' := Tallies(contents, counts), Tallies(after, counts');
    assert ts !in t && t'[ts] == 1;
    forall k
      ensures k in t' <==> k in t || k == ts
      ensures k in t ==> t'[k] == t[k]
    {
    }
    assert t' == t[ts := 1];
  }

  lemma NextArrival(contents: map<int, Ptr>, counts: map<Ptr, nat>, ts: int)
    requires TalliesOk(contents, counts) && ts in contents
    ensures var x := contents[ts]; var counts' := counts[x := counts[x] + 1];
            TalliesOk(contents, counts') && Tallies(contents, counts') == Tally(Tallies(contents, counts), ts)
  {
    var counts' := counts[contents[ts] := counts[contents[ts]] + 1];
    assert forall k :: k in contents && k != ts ==> counts'[contents[k]] == counts[contents[k]];
    forall k
      ensures k in Tallies(contents, counts') <==> k in contents
    {
    }
    assert Tallies(contents, counts') == Tally(Tallies(contents, counts), ts);
  }

  lemma CompletePulse(contents: map<int, Ptr>, counts: map<Ptr, nat>, ts: int)
    requires TalliesOk(contents, counts)
    ensures TalliesOk(contents - {ts}, counts)
    ensures Tallies(contents - {ts}, counts) == Tallies(contents, counts) - {ts}
  {
  }

  class MonitoringStage {
    const site: Site
    const table: HashTable
    var counts: map<Ptr, nat>     // the count field of every h_timestamp_t
    var counter: int
    var firstPulse: bool
    var data: Event

    ghost predicate Valid()
      reads this, table
    {
      table.Valid() && TalliesOk(table.Contents(), counts)
    }

    ghost function State(): Counting
      reads this, table
    {
      Counting(counter, Tallies(table.Contents(), counts), firstPulse, data)
    }

    constructor (site: Site, hash: int -> nat, useBloom: bool, bloomBits: nat)
      ensures Valid() && State() == START && this.site == site && fresh(table)
    {
      this.site := site;
      table := new HashTable(hash, useBloom, bloomBits);
      counts, counter, firstPulse, data := map[], 0, true, ZERO_EVENT;
    }

    method CountAgain(ts: int, found: Ptr)
      requires Valid() && ts in table.Contents() && found == table.Contents()[ts]
      modifies `counts
      ensures Valid() && Tallies(table.Contents(), counts) == Tally(old(Tallies(table.Contents(), counts)), ts)
    {
      NextArrival(table.Contents(), counts, ts);
      counts := counts[found := counts[found] + 1];
    }

    method AddFirst(ts: int, node: Ptr)
      requires Valid() && node != NULL && node !in table.items && ts !in table.Contents()
      modifies `counts, table
      ensures Valid() && Tallies(table.Contents(), counts) == Tally(old(Tallies(table.Contents(), counts)), ts)
    {
      ContentsInjective(table);
      FirstArrival(table.Contents(), counts, ts, node);
      table.Add(node, ts);
      counts := counts[node := 1];
    }

    /** Finding or adding the element of the arrival's timestamp. */
    method CountArrival(ts: int, node: Ptr)
      requires Valid() && node != NULL && node !in table.items
      modifies `counts, table
      ensures Valid() && Tallies(table.Contents(), counts) == Tally(old(Tallies(table.Contents(), counts)), ts)
    {
      var found := table.Find(ts);
      if found == NULL {
        AddFirst(ts, node);
      } else {
        CountAgain(ts, found);
      }
    }

    /** The arrival is counted; is there an element for the current pulse? */
    method CountAndLookUp(ts: int, node: Ptr) returns (known: bool)
      requires Valid() && node != NULL && node !in table.items
      modifies `counts, table
      ensures Valid() && State() == old(State()).(table := Tally(old(State()).table, ts))
      ensures known == (counter in State().table)
    {
      CountArrival(ts, node);
      var found := table.Find(counter);
      known := found != NULL;
    }

    /** The node's own event of a complete pulse goes out. */
    method SubmitOwn(e: Event, now: seq<int>) returns (own: seq<Event>)
      requires site.d != 0
      modifies `data, `counter, `firstPulse
      ensures own == [Submission(old(firstPulse), old(data), old(counter), e, site, now)]
      ensures counter == old(counter) + 1 && !firstPulse && data == own[0]
    {
      if firstPulse || e.updateFile || e.quit {
        data := OwnEvent(site, counter, e, now);
        firstPulse := false;
      }
      own := [data];
      counter := counter + 1;
    }

    method RemoveFound(found: Ptr, ts: int)
      requires Valid() && ts in table.Contents() && found == table.Contents()[ts]
      modifies table
      ensures Valid() && Tallies(table.Contents(), counts) == old(Tallies(table.Contents(), counts)) - {ts}
    {
      ContentsInjective(table);
      CompletePulse(table.Contents(), counts, ts);
      table.Delete(found);
    }

    /** All children have reported: submit, forget the count, and sample the next pulse ahead. */
    method FinishPulse(found: Ptr, e: Event, now: seq<int>, next: seq<int>) returns (own: seq<Event>)
      requires Valid() && site.d != 0 && counter in table.Contents() && found == table.Contents()[counter]
      modifies `data, `counter, `firstPulse, table
      ensures own == [Submission(old(firstPulse), old(data), old(counter), e, site, now)]
      ensures counter == old(counter) + 1 && !firstPulse
      ensures data == if e.quit then own[0] else OwnEvent(site, counter, e, next)
      ensures Valid() && Tallies(table.Contents(), counts) == old(Tallies(table.Contents(), counts)) - {old(counter)}
    {
      own := SubmitOwn(e, now);
      RemoveFound(found, counter - 1);
      if !e.quit {
        data := OwnEvent(site, counter, e, next);
      }
    }

    /** The current pulse is complete if its count has reached the number of children. */
    method Decide(e: Event, now: seq<int>, next: seq<int>) returns (own: seq<Event>)
      requires Valid() && site.d != 0 && counter in State().table
      modifies `data, `counter, `firstPulse, table
      ensures Valid() && Arrival.Counted(State(), own) == Decided(old(State()), e, site, now, next)
    {
      var found := table.Find(counter);
      var degree := CountChildren(site.rank, site.d, site.n);
      own := [];
      if counts[found] == degree {
        own := FinishPulse(found, e, now, next);
      }
    }

    /** One arrival. node is what malloc returns if a new element is needed. */
    method ComputeOwnMetrics(e: Event, node: Ptr, now: seq<int>, next: seq<int>) returns (ok: bool, own: seq<Event>)
      requires Valid() && site.d != 0 && node != NULL && node !in table.items
      modifies this, table
      ensures var o := OnArrival(old(State()), e, site, now, next);
              ok == o.Counted? && (ok ==> Valid() && o == Arrival.Counted(State(), own))
    {
      own := [];
      ok := CountAndLookUp(e.timestamp, node);
      if ok {
        own := Decide(e, now, next);
      }
    }
  }

  /** The benchmarking build: one cell per pulse. */
  class BenchmarkStage {
    const site: Site
    const countTimestamps: array<nat>
    var counter: int
    var firstPulse: bool
    var data: Event

    ghost function State(): ArrayCounting
      reads this, countTimestamps
    {
      ArrayCounting(counter, countTimestamps[..], firstPulse, data)
    }

    constructor (site: Site, pulses: nat)
      ensures State() == ArrayStart(pulses) && this.site == site && fresh(countTimestamps)
    {
      this.site := site;
      countTimestamps := new nat[pulses](_ => 0);
      counter, firstPulse, data := 0, true, ZERO_EVENT;
      new;
      assert countTimestamps[..] == seq(pulses, _ => 0);
    }

    method ComputeOwnMetrics(e: Event, now: seq<int>, next: seq<int>) returns (ok: bool, own: seq<Event>)
      requires site.d != 0
      modifies this, countTimestamps
      ensures var o := OnArrivalArray(old(State()), e, site, now, next);
              ok == o.Counted? && (ok ==> o == Arrival.Counted(State(), own))
    {
      own := [];
      if !(0 <= e.timestamp < countTimestamps.Length) || !(0 <= counter < countTimestamps.Length) {
        return false, [];
      }
      countTimestamps[e.timestamp] := countTimestamps[e.timestamp] + 1;
      var countTs := countTimestamps[counter];
      var degree := CountChildren(site.rank, site.d, site.n);
      if countTs == degree {
        if firstPulse || e.updateFile || e.quit {
          data := OwnEvent(site, counter, e, now);
          firstPulse := false;
        }
        own := [data];
        counter := counter + 1;
        if data.timestamp == countTimestamps.Length - 1 {
          return true, own;
        }
        data := OwnEvent(site, counter, e, next);
      }
      ok := true;
    }
  }
}
