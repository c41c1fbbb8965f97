# Tree aggregation of performance metrics: a verified model

CLARISSE's monitoring layer arranges `nprocs` MPI ranks in a `max_degree`-ary heap tree. Once per
pulse every leaf sends what it measured; every inner rank adds its own measurement as soon as all of
its children have reported the pulse, and a queue handler merges one event per child and the own one
into one minimum/maximum/sum event for its parent; the root publishes the totals. No barrier
separates two pulses, so children run ahead of each other, and the handler keeps an index into a
queue that shrinks and grows under it.

This project models that protocol, the hash table it counts arrivals in, and the tree and address
arithmetic underneath, and proves what they are for.

## What is proved

* **The protocol is correct in every run** (`Protocol`, `Invariants`, `Safety`, `Theorems`). The
  ranks, their FIFO edges, the counting stages and the queue handlers form a transition system with
  the steps "a leaf sends", "an edge delivers", "the counting stage looks at an arrival" and "a
  handler runs", in any order. Whatever the order, no handler dereferences a missing event, every
  message is the exact minimum, maximum and sum over the ranks of the sender's subtree, each counted
  once, and the root publishes exactly the totals over all ranks.
* **It finishes** (`Progress`, `Settling`, `OnceEach`, `Endings`, `RootSink`). With an agreed number of
  pulses at most T(5n - 2) steps of any run change anything; a run in which no possible step changes
  anything any more has published every pulse and emptied every queue; and every run can be continued
  to such an end. If the leaves stop at different pulses, such a run has published what the first of
  them to stop has sent, and it is settled exactly whether the root is told to finish. For a handler
  that is run only once per arrival, it is settled exactly which orders of arrival are published, and
  on which orders it never even falls behind.
* **The two builds agree** (`OwnMetrics`, `BenchmarkRuns`, `CountingStage`). The protocol with array
  stages allows the same steps as the one with hash-table stages and never leaves an array, and
  everything that leaves a stage is the same. The class that counts in the hash table is proved
  against the specification that the protocol uses, through the table's methods.
* **uthash** (`HashTable` and the files beside it). Find, add, expand, delete, sort and the
  table's own integrity check, on explicit memory with both sets of links, for any hash function and
  with or without the Bloom filter.
* **Tree and bootstrap** (`Topology`, `Bootstrap`). The rank formulas define a tree, and the MPI
  exchange of addresses can neither deadlock nor mix anything up.

## How the pieces fit

`QueueHandler.Activation` specifies one run of the handler and `MultiStone` is the handler as the
source has it; `HandlerRuns` proves what it keeps over any mix of arrivals and activations that
satisfies `FeedOk`. `OwnMetrics.OnArrival` specifies one run of the counting stage. `Feeds` shows
that what the counting stage and the edges put into a queue satisfies `FeedOk`. `Protocol` composes
them, `Invariants` states what every reachable state satisfies (`Inv`), `Safety` proves that every
step keeps it, and `Totals` is the plain fold over ranks that messages are compared with.
`Theorems` restates the results without reference to that fold. `BenchmarkRuns` replaces the counting
stages by arrays, `Samples` traces every contribution and every own event back to the step in which
the rank measured it, `Flags` and `Leading` follow the header flags up the tree, `Scenarios` builds
whole runs of a root with d leaves from the order of their arrivals, and `Witnesses` holds the runs in
which something goes wrong.

## Premises

* `nprocs > 1` and `max_degree >= 1`; edges are first in, first out.
* A value sampled for a pulse has as many entries as the pulse has metrics, on every rank. A value
  sampled ahead has the right number only while the number stays the same: where it changes, nothing
  is assumed about it, as the code may still read the old number from memory
  (`metrics_aggregator.c:371-377`, `metrics_crawler.c:48-51`).
* When the number of metrics changes from one pulse to the next, every leaf sets `update_file`. A
  message carries the flags of the event that came first, so a flag reaches the root exactly if the
  leaf that leads to the root's message sets it (`Flags.FlagsOfLeader`); which leaf that is depends on
  the run, and for the root's first message it can be any (`Leading.UpdateIsShownIff`).
* That a pulse has at least one metric is assumed only where the result depends on it: the earliest
  start time and the moment at which the root finishes.
* Leaves never read the clock value -1, the marker that inner ranks use.
* The split stone puts a child's event into the multi queue no later than the own event that this
  arrival may trigger (`metrics_aggregator.c:259-264`); it is one `Deliver` step.
* The handler is started only on a queue that holds something. That a run which cannot go on is
  complete assumes that the handler is started again as long as that changes anything. If it is
  started just once per arrival, complete streams of T pulses are published exactly if, whenever the
  last event of a pulse q arrives, at least degree * (T - 1 - q) arrivals are still to come
  (`OnceEach.OneActivationPublishesIff`), that is, at most T - 1 - q events of later pulses have come
  before it (`OnceEach.InTimeIffFewAhead`); `Witnesses.OneActivationIsTooFew` is a run in which they
  are not. It never even falls behind exactly under the stronger condition of `OnceEach.NeverBehindIff`.
* That all pulses are published assumes one agreed last pulse; safety does not, and
  `Endings.StuckRunsPublishEarliest` says what happens without one. `Witnesses.RootWaitsForEver` is a
  run in which the root is never told to finish.
* One run of a counting stage or of a handler is one step; runs of different ranks interleave freely.
* A key is added to the hash table only when it is not in it, as `metrics_aggregator.c:414-423` does;
  a sort is given a total preorder. Both are what `uthash.h` asks of its users.
* A sampled value is an arbitrary integer per rank, pulse and metric; the clock is an arbitrary real.

## Model

| member | source | states |
|---|---|---|
| Theorems.RootPublishesTotals | metrics_aggregator.c:275-341 | In every run, also where the number of metrics changes from pulse to pulse, after its m-th event the root's buffer shows for every metric of pulse m-1 the minimum, maximum and sum/nprocs over what all ranks contributed, each counted once; the buffer is never overrun. What they contributed is what they measured (Samples.LeafValues, Samples.OwnValues) |
| Theorems.EveryMessageIsCorrect | cod.h:21-88 | In every run a rank's messages are pulses 0, 1, 2, ... without gap or repeat; message p summarizes exactly the ranks of its subtree, names the right receiver, and carries the earliest start time of its leaves, never the -1 marker |
| Theorems.TotalSummarizes | cod.h:61-70 | The fold that the tree computes is the minimum (attained, a lower bound), the maximum and the sum over the ranks in question |
| Theorems.TotalStart | cod.h:154-158 | The folded start time is the earliest one among the contributing leaves, and there is one exactly if a leaf contributes |
| Theorems.OrderDoesNotMatter | cod.h:21-88 | Two runs in which the ranks at and below some rank contributed the same values to a pulse send the same aggregate for it from that rank, and the same start time if its leaves recorded the same ones |
| Theorems.HandlerIsSafe | cod.h:22-54 | In every reachable state an activation is undefined exactly if the handler is idle and its queue empty; it ends idle only with an empty queue; the resumed scan equals a full scan; the degree computed from the message and the fan-out kept from it are the rank's own; the pulse is the number of submissions |
| Theorems.OwnEventsKeepPace | metrics_aggregator.c:411-445 | In every reachable state the number of own events is the number of pulses all children have been heard from on, the table's keys form an interval from there with counts that never grow, and the current count is below the degree |
| BenchmarkRuns.BenchmarkRefines | metrics_aggregator.c:403-412 | No run of the build with array stages leaves an array, it allows the same steps as the build with hash tables, and everything outside the stages' own variables is the same |
| BenchmarkRuns.ArrivalsInterleave | metrics_aggregator.c:403-405 | In every state that satisfies the protocol's invariant the arrivals of a rank are an interleaving of its children's streams 0, 1, 2, ... below T |
| BenchmarkRuns.BenchmarkFinishesWithLastPulse | metrics_aggregator.c:288-296 | In every run of the benchmarking build pulse p is measured at index p as end minus earliest start, no index leaves the array, and the root finishes exactly with pulse T-1 |
| Theorems.MonitoringFinishesWithLastPulse | metrics_aggregator.c:317-337 | Monitoring root: root_finished is raised exactly with the last agreed pulse, results_available with the first |
| Progress.MaximalRunsPublishAll | cod.h:77-87 | A run that no step can change any more has sent all T pulses from every rank and emptied every queue; the root has published them all and set root_finished |
| Progress.EveryRunCanFinish | cod.h:77-87 | Every run can be continued to such an end, in at most T(5n-2) further steps |
| Progress.StuckIffQuiet | cod.h:21-88 | No possible step changes anything exactly if all leaves have stopped, everything is delivered and counted, and running a handler again changes nothing |
| Progress.QuietMeansComplete | cod.h:77-87 | Where nothing is left to do, every rank, the root included, has sent all T pulses and every handler's queue is empty |
| Progress.RootIsReleased | evp_monitoring.c:126-132 | Where nothing is left to do the root has published T pulses and root_finished is set, and it was not set a pulse earlier |
| Progress.RunsEnd | metrics_aggregator.c:486-515 | With T pulses and n ranks at most T(5n-2) steps of any run change the state |
| Progress.StepGetsDone | cod.h:21-88 | Every step that changes the state strictly increases what has been sent, delivered, counted and merged |
| Progress.HandlerComplete | cod.h:77-87 | A handler at rest with complete input has submitted every pulse and emptied its queue |
| Progress.OwnEventsComplete | metrics_aggregator.c:429-438 | When all children have delivered all pulses, all own events have been queued too |
| Settling.SettleFinishes | cod.h:21-88 | Re-run until it makes no progress, a handler with complete streams submits every remaining pulse, merged from its degree+1 events, and empties its queue |
| Settling.InterleavingDoesNotMatter | cod.h:61-70 | Two handlers, wherever they stand in their work on two interleavings of the same complete streams, have submitted the same sequence of minima, maxima and sums once both are re-run until they make no progress |
| Settling.FromTheStart | cod.h:61-70 | The same for two handlers that see the whole of either interleaving at once |
| Settling.AtRestIff | cod.h:55-58 | Running the handler on a non-empty queue changes nothing exactly if no event of the current pulse is queued |
| OnceEach.OneActivationPublishesIff | cod.h:77-87 | With one activation per arrival, complete streams of T pulses are published if and only if, whenever the last event of a pulse q arrives, at least degree*(T-1-q) arrivals are still to come |
| OnceEach.InTimeIffFewAhead | cod.h:77-87 | That is the case exactly if, whenever the last event of a pulse q arrives, at most T-1-q events of later pulses have come before it |
| OnceEach.NeverBehindIff | cod.h:77-87 | With one activation per arrival, no event of the current pulse is ever left in the queue after an activation if and only if, whenever the last event of a pulse arrives, at most one event of the next has arrived before |
| OnceEach.TrackFollows | cod.h:21-88 | Where one activation per arrival leads the handler is a function of the order of senders alone |
| Scenarios.EveryOrderRuns | metrics_aggregator.c:259-264 | Every order in which d leaves' streams, of any lengths, can be interleaved is the order of arrivals in a run of the protocol with one activation per arrival |
| Scenarios.RunPublishesIff | cod.h:77-87 | In these runs, when all leaves have sent T pulses, all T have been published exactly if the events came in time |
| Witnesses.OneActivationIsTooFew | cod.h:77-87 | A run of the protocol with one activation per arrival in which all leaves have finished, everything is delivered and counted, and a complete pulse is left unpublished, as its events did not come in time |
| Flags.FlagsOfLeader | cod.h:36-40 | A message has update_file, or quit, exactly if the leaf has it that is reached by following first arrivals down from the sender |
| Flags.AgreedFlagsReachTheRoot | cod.h:36-40 | A flag that all leaves set for a pulse reaches the root's message |
| Leading.UpdateIsShownIff | cod.h:36-40 | In every tree: the root's first message has update_file in every run, if and only if every leaf sets it; any leaf that does not can hide that all others do |
| Witnesses.OneLeafIsNotEnough | cod.h:36-40 | A run in which one leaf sets update_file and the message the root publishes lacks it |
| Endings.StuckRunsPublishEarliest | metrics_aggregator.c:491-498 | However the leaves' last pulses differ: a run that no step can change any more has published as many pulses as the leaf sent that stopped first, and root_finished is set exactly if the leaf that leads to the last of them stopped there |
| Endings.AsManyAsFewest | cod.h:77-87 | Where nothing is left to do, an inner rank has sent as many pulses as the child that sent fewest |
| Witnesses.RootWaitsForEver | evp_monitoring.c:126-132 | A run with unequal last pulses in which no step can change anything any more and root_finished is not set |
| Samples.LeafValues | metrics_aggregator.c:499-510 | In every run, message p of a leaf and its contribution to pulse p are what the leaf measured in the step in which it sent its p-th message: every value is its own minimum, maximum and sum, and the flags and the start time are those of that step |
| Samples.OwnEvents | metrics_aggregator.c:356-364 | In every run, the own event of pulse p has the update and quit flags of the arrival that completed p and the values sampled in that step, if p is the first pulse or that arrival said update or quit; otherwise the flags and the values are those of the step that completed p-1 |
| Samples.OwnValues | metrics_aggregator.c:429-453 | The values an inner rank contributes to pulse p were sampled in the step of its counting stage that completed p, if that was the first pulse or its arrival said update or quit, and otherwise ahead, in the step that completed p-1 |
| QueueHandler.MultiStone.Activate | cod.h:7-89 | The handler with its goto computes Activation: new statics, new queue and submissions, or undefined behaviour exactly where the specification says |
| QueueHandler.MultiStone.Pass | cod.h:77-87 | One pass from the label: submission at degree+1 events, and whether the next pulse is in the queue |
| QueueHandler.MultiStone.ConsumeOne | cod.h:22-76 | The idle branch and the branch in progress, with the discard and the resume index |
| QueueHandler.MultiStone.Fold | cod.h:146-159 | The loop over the metrics of one event merges it into the aggregate, with the start-time update inside the loop as in the source |
| HandlerRuns.ConsumeKeeps | cod.h:22-76 | Consuming takes exactly the first queued event of the current pulse, merges it into what has been merged before and resumes at its index; without one it changes nothing |
| HandlerRuns.ActivationKeeps | cod.h:21-88 | An activation keeps the handler's invariant over the whole history: submission p merged exactly the degree+1 events of pulse p; it ends idle only with an empty queue; it takes an event if the current pulse has one, else does nothing |
| HandlerRuns.ArrivalKeeps | cod.h:55-57 | An arrival keeps the invariant: the queue is the pending part of all arrivals, and nothing before the resume index is of the current pulse |
| HandlerRuns.ResumedScan | cod.h:56-58 | The scan from first_found_index picks the same event as a scan from 0 |
| HandlerRuns.IdleFindsPulse | cod.h:24-42 | An idle handler with a non-empty queue has an event of the current pulse to find |
| HandlerRuns.NothingFoundMeansEmpty | cod.h:82-87 | After a submission, no event of the next pulse means an empty queue |
| HandlerRuns.CrashIffIdleAndEmpty | cod.h:46-54 | Undefined behaviour exactly if nothing is queued and no pulse is being merged |
| HandlerRuns.PendingTake | cod.h:52-54 | Discarding the first event of the pulse leaves exactly the pending events of one more merged |
| HandlerRuns.PulseDone | cod.h:77-81 | After the last event of a pulse the aggregate of all its events goes out and the next pulse begins with the right queue |
| Feeds.ShuffleIsFeed | metrics_aggregator.c:259-264 | Any interleaving of the children's streams with the own events behind them is one the handler can cope with |
| Feeds.FirstIsChild | metrics_aggregator.c:429-438 | The first event of a pulse in the queue is a child's, never the rank's own |
| Feeds.SendersOfPulse | cod.h:77-77 | At most degree+1 events per pulse, and with degree+1 each child and the rank itself is there exactly once |
| Invariants.CompletedIsGood | cod.h:31-41 | Merging the degree+1 events of a pulse yields the rank's message: its subtree's totals and a header that names its own parent |
| Invariants.CollectCarries | cod.h:61-70 | Merging messages of disjoint subtrees carries the totals of their union |
| Invariants.SourcesOfPulse | metrics_aggregator.c:411-438 | Every event of a pulse in a queue is a child's correct message or the rank's own contribution |
| Safety.StepKeeps | metrics_aggregator.c:383-457 | No step of a reachable state fails, also where the number of metrics changes, and every step keeps the global invariant |
| Safety.RunKeeps | metrics_aggregator.c:383-457 | The invariant holds in every state of every run |
| OwnMetrics.ArrivalCounted | metrics_aggregator.c:411-445 | The count of the current pulse always exists when looked up; the own event goes out exactly with the arrival that completes the pulse, which is of that pulse |
| OwnMetrics.TableIsInterval | metrics_aggregator.c:411-450 | The table's keys are an interval from the counter, with counts that never grow, the first below the degree |
| OwnMetrics.BuildsAgree | metrics_aggregator.c:403-427 | Over every interleaving the array build and the hash-table build stay defined and submit the same own events at the same arrivals |
| OwnMetrics.ArrivalAgrees | metrics_aggregator.c:440-453 | One arrival keeps the two builds in step, including their different exits after the last pulse |
| CountingStage.MonitoringStage.ComputeOwnMetrics | metrics_aggregator.c:384-457 | The stage on the hash table does what the specification says, or dereferences NULL exactly where it says so |
| CountingStage.MonitoringStage.CountArrival | metrics_aggregator.c:414-423 | Find-or-add on the table is adding one to a finite map of counts |
| CountingStage.MonitoringStage.FinishPulse | metrics_aggregator.c:429-453 | Submitting, forgetting the count and sampling ahead |
| CountingStage.BenchmarkStage.ComputeOwnMetrics | metrics_aggregator.c:403-453 | The stage on the array does what the specification says, or leaves the array exactly where it says so |
| LeafLoop.SendPulses | metrics_aggregator.c:463-520 | The send loop sends messages numbered 0, 1, 2, ..., each with the values, the flag and the start time read in its turn; with T agreed pulses it sends T, without them its last turn is the first that finds the leaves asked to finish; only the last message says quit |
| LeafLoop.TurnsAreSteps | metrics_aggregator.c:486-515 | The loop is a run of the protocol: every turn is a step the leaf may take, its messages say what was read, and it has stopped exactly after T turns, or after the turn that finds the leaves asked to finish |
| RootSink.SinkExactly | metrics_aggregator.c:297-337 | For every stream of events: the result buffer is overrun exactly if some event is wider than the event that brought the buffer; until then the buffer is as wide as that one and shows, for each metric, the last event that has it; results_available is set by the first event, root_finished by the first that says quit or has no metric |
| RootSink.SinkShowsLast | metrics_aggregator.c:297-337 | For a stream whose width changes only with the update flag the buffer is never overrun and shows exactly the last event; the root finishes with the first event that says quit or has no metric |
| RootSink.BenchExactly | metrics_aggregator.c:288-337 | For every stream of events: the latency array is not left and the result file not closed twice exactly if there are at most T events and at most one of them ends the run, by the last timestamp, by quit or by having no metric; then entry p is end minus start of event p, and the root has finished exactly if one of them did |
| RootSink.BenchMeasures | metrics_aggregator.c:288-337 | The local pulse number is the event's timestamp and inside the array; the result file is closed once |
| RootSink.MonitoringRoot.Receive | metrics_aggregator.c:297-337 | final_result on its result array, monitoring build |
| RootSink.MonitoringRoot.Fill | metrics_aggregator.c:306-310 | The first entries show the event's metrics with sum/nprocs, the others are untouched |
| RootSink.BenchmarkRoot.Receive | metrics_aggregator.c:287-337 | final_result on its latency array, benchmarking build |
| Topology.CountChildren | helpers.c:39-56 | The counting loop yields the closed form of the degree, for every rank, degree and size |
| Topology.Truncates | helpers.c:34-34 | The division of the parent formula truncates toward zero for all signs |
| Topology.ParentOfRoot | helpers.c:34-34 | The formula gives the root itself as its parent, or -1 in a chain |
| Topology.ParentOfChild | helpers.c:25-35 | The parent formula inverts the child formula |
| Topology.ChildOfParent | helpers.c:77-78 | Every rank but the root is one of the d child slots of its parent |
| Topology.ChildrenArePrefix | helpers.c:50-54 | The children are exactly the slots 1..degree |
| Topology.DegreeCountsChildren | helpers.c:39-56 | The degree is the number of ranks that name this rank as parent |
| Topology.LeafIffNoChildren | helpers.c:12-21 | is_leaf holds exactly for degree 0 and exactly for ranks without children |
| Topology.DegreesSumToEdges | helpers.c:39-56 | The degrees of all ranks sum to nprocs - 1 |
| Topology.SiblingsDisjoint | helpers.c:34-34 | No rank lies below two siblings |
| Topology.SubtreeIsCover | helpers.c:34-34 | A subtree is its root plus the subtrees of its children |
| Topology.RootSubtree | helpers.c:34-34 | Following parents from any rank reaches the root |
| Bootstrap.SendTargets | helpers.c:77-79 | The send loop names each child exactly once, in order |
| Bootstrap.ReceiveComesFirst | evp_monitoring.c:74-86 | In every reachable state, a rank other than the root that has sent its address, or can send it now, has received its parent's |
| Bootstrap.SendsMatchReceives | helpers.c:61-80 | Every send of every run meets the receive of a rank that waits for exactly this sender and was not sent anything before |
| Bootstrap.NoDeadlock | evp_monitoring.c:74-89 | In every reachable state some receive or synchronous send is possible until all ranks are at the barrier, even if nothing is ever buffered |
| Bootstrap.BarrierMeansConnected | evp_monitoring.c:74-89 | At the barrier every rank but the root holds exactly its parent's address, no message is left over, and nprocs - 1 have been sent |
| Bootstrap.BootstrapEnds | evp_monitoring.c:74-89 | No run of the bootstrap has more than 2(n-1) steps |
| HashTables.HashTable.Find | uthash.h:106-117 | HASH_FIND returns the element under the key in the finite map that the table stands for, else NULL |
| HashTables.HashTable.FindInBucket | uthash.h:614-625 | Walking one chain finds an element with the key exactly if the table has one |
| HashTables.HashTable.Add | uthash.h:185-208 | HASH_ADD_KEYPTR of a fresh key extends the finite map and the insertion order and keeps both sets of links right. The first element brings a table of 32 buckets; a further one makes only its bucket count one more, or the table expands, exactly if that makes the bucket as full as its multiplier allows and expansion is not switched off |
| HashTables.HashTable.MakeTable | uthash.h:153-169 | A new table has 32 buckets, all empty, no items, and a filter of just the bytes it needs with every bit clear; nothing has been counted against expansion |
| HashTables.HashTable.AddToBucket | uthash.h:628-639 | The element heads its chain, and the table expands exactly if the bucket then has expand_mult + 1 times ten elements or more and expansion is allowed; otherwise nothing changes but its bucket's head and count |
| HashTables.HashTable.BloomAdd | uthash.h:139-140 | Exactly the bit of the element's hash value is set |
| HashTables.HashTable.Expand | uthash.h:683-729 | Elements of bucket b go to b or b+n; the shift-and-mask formula is the ceiling and at least 1; each multiplier is the bucket's count divided by the ideal length where it exceeds it, and else 0; nonideal_items is the sum over the buckets of what exceeds the ideal length, and two ineffective expansions in a row switch expansion off |
| HashTables.HashTable.Delete | uthash.h:227-260 | HASH_DELETE removes exactly this key from the finite map and this element from the order and keeps both sets of links right. If another element remains, the bucket of the deleted key counts one less, and no other count, no multiplier and nothing else that steers expansion changes; the filter keeps its bits |
| HashTables.HashTable.DeleteFromBucket | uthash.h:642-651 | HASH_DEL_IN_BKT unlinks the element from its chain, moves the head on if it was the head, and makes only this bucket count one less; every multiplier stays |
| HashTables.HashTable.DeleteAll | metrics_aggregator.c:139-142 | Deleting while iterating visits and removes every element |
| HashTables.HashTable.Fsck | uthash.h:290-340 | The integrity check accepts a table whose chains and list can be walked exactly if every link back leads to the element before, every bucket's count is the length of its chain, and both views have as many elements as the table counts |
| HashTables.HashTable.ValidIsSound | uthash.h:290-340 | So it never complains about a table built with these operations |
| HashTables.HashTable.Sort | uthash.h:736-821 | HASH_SRT terminates for any total preorder and leaves a sorted stable permutation with right head, tail and links; keys, chains and the finite map are untouched |
| HashTables.HashTable.SortPass | uthash.h:752-811 | One pass over the linked list computes Pass, and at most one merge means that the runs cover the list |
| HashTables.HashTable.MergeOne | uthash.h:776-804 | One step of a merge takes the smaller head, the left one on a tie, and relinks it behind the last element |
| MergeSorting.PassKeeps | uthash.h:736-821 | A pass is a stable permutation that doubles the length of the sorted runs |
| MergeSorting.MergeIsStable | uthash.h:776-804 | Merging keeps the order of ties |
| MergeSorting.MergeSorts | uthash.h:776-804 | Merging sorted runs yields a sorted run |
| HashSteps.AllMoved | uthash.h:696-715 | When every element has been pushed into its new bucket, the new buckets store exactly the old elements |
| HashSteps.SplitsInTwo | uthash.h:696-715 | Expansion splits every chain in two and mixes nothing else in |
| HashSteps.Removed | uthash.h:642-651 | After unlinking, all buckets together hold exactly the other elements |
| HashSteps.IndexDrop | uthash.h:227-260 | Removing an element from the order removes exactly its key from the finite map |
| HashMemory.CountsAddUp | uthash.h:290-320 | The bucket counts sum to the number of elements |
| HashMemory.SetBit | uthash.h:136-143 | Setting a filter bit sets that bit and clears none |
| Bits.MaskIsMod | uthash.h:210-213 | Masking with a power of two minus one is the remainder |
| Bits.ShiftMaskIsCeil | uthash.h:692-694 | The shift-and-mask formula is the rounded-up quotient, at least 1 for at least one item |
| Bits.DoubledRemainder | uthash.h:701-703 | A hash value's bucket among 2n is its bucket b among n, or b + n |

## Where the code and its documentation disagree

* The field list calls `min`, `max` and `sum` "float" over `long` (`metrics_aggregator.c:14-20`); the
  code computes with `long`, and so does the model.
* `update_file` is meant to flag a changed metric file; as `metrics_crawler.c:34-46` clears the old
  names before `metrics_crawler.c:92-96` compares them, only a changed number of metrics raises it.
  The model takes the flag as an input and claims nothing about renamed metrics.
* The start-time update of the benchmarking handler sits inside the loop over metrics
  (`cod.h:154-158`), so an event without metrics does not take part in it. The model does the same.

## Left out

- EVPath: stones, connections and threads are taken as FIFO edges, a split that duplicates, and a queue with count, data and discard.
- Sampling: PAPI and the metric functions are foreign calls; a sample is an arbitrary integer.
- metrics_crawler.c: reading and comparing the metric file; its flag and its metric count are inputs.
- Widths: counters, sums, timestamps and hash-table counts do not wrap around; the hash value is an arbitrary number, not 32 bits.
- Wire format: how events are encoded between ranks.
- Keys: the table's keys are numbers; comparing them byte by byte, with the lengths the callers pass, is not modelled.
- The concrete hash functions, HASH_SELECT, HASH_REPLACE, HASH_CLEAR and any bound on chain lengths.
- HashTables.HashTable.Add: memory is a map from addresses to link records that the methods update, rather than one object per element; allocation failure and freeing are not modelled.
- HashTables.HashTable.Delete: the deleted element's own record stays in memory, as its links are not reset in the source either; freeing it is up to the caller.
- Locks, condition variables, printing, directory creation, return_results and monitoring_file_updated.
- start_communication_old, which nothing calls.
- The second barrier, the communicator split and the start of the leaf threads: nothing is exchanged there that the model depends on.
