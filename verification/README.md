# A verified model of the linearizability checker

The repository decides whether a recorded history of concurrent operations is
linearizable: whether some permutation of the operations puts `a` before `b`
whenever `a.return_time < b.call` and is accepted, step by step, by a
sequential model. This project models how it decides that, and proves that the
answer is the specification's answer.

| file | what it holds |
|---|---|
| `Specification.dfy` | models, operations, linearizations, and the one-operation-at-a-time reading of them (`Enabled`, `Completes`, `Dead`, `Reachable`) |
| `Numbers.dfy`, `Bits.dfy`, `Bitset.dfy` | 64-bit words, the bitset class, its hash and its two virtual-bit probes |
| `Entries.dfy`, `Histories.dfy` | call and return entries, the sort, `make_entries` and its fused form |
| `Arena.dfy` | the dancing-links list: building it, `lift`, `unlift` |
| `Caching.dfy`, `Exploration.dfy`, `Exhaustion.dfy` | the cache; the search's invariant and why a pair may be given up; which pairs the search expands |
| `Search.dfy`, `Termination.dfy` | `check_single`: the search itself, and why it stops |
| `Protocol.dfy` | workers, kill flag, timer, cancellation and verdict as a step system |
| `Outcomes.dfy` | what can happen: every verdict the protocol allows is reported by some schedule |
| `Dispatch.dfy` | `check_parallel` on one thread |
| `Compositionality.dfy`, `Grouping.dfy`, `KeyValue.dfy` | P-compositionality and the key-value model that relies on it |
| `PowerSet.dfy`, `NdCompositionality.dfy`, `Sequences.dfy` | nondeterministic models, the two power-set adapters, and checking such models key by key |
| `Partitions.dfy`, `Events.dfy`, `EventPartitions.dfy` | the runtime checks on partitions and events, renumbering, conversion, event histories in parts |
| `TellingApart.dfy` | a model that observes a difference in real-time order |
| `Checker.dfy`, `EventChecker.dfy` | the entry points and their verdicts; independence from representation |

The main results, from the inside out:

* **The list.** Lifting an operation removes exactly its two nodes; unlifting
  restores the arena node for node, under any last-in-first-out nesting
  (`Arena.LiftLemma`, and the invariant `Exploration.Nested`).
* **The search.** For any model, even one with infinitely many states,
  `Search.CheckSingle` stops; when it says yes its stack is a linearization,
  whatever the kill flag did; when it says no and never saw the flag, there is
  none. The invariant is that every cached pair is on the stack or a proven dead
  end, and that everything before the cursor, in every frame, is refuted.
  No pair is lifted twice, every lifted pair was reached by a run from the start,
  and a search that fails without seeing the flag has lifted every pair any run
  reaches: the cache cuts repetitions and nothing else.
* **The protocol.** Over every interleaving and on every dispatch path, Ok means
  every partition is linearizable, Illegal means some partition is not, Unknown
  means the timer fired (`Protocol.VerdictIsRight`); every schedule is bounded,
  and none can get stuck before the verdict is out and the timer thread is gone.
  Each of these verdicts also happens: some schedule reports the right one, and
  with a timer some schedule reports Unknown (`Outcomes.VerdictsExact`); from any
  reachable state Unknown is still possible exactly as long as nobody has been or is
  about to be convicted and the timer has fired or still can (`Outcomes.UnknownExact`).
* **The parts.** For a model whose step sees only the operation's key, the whole
  history is linearizable exactly when every part is
  (`Compositionality.PCompositionality`, `EventPartitions.EventPCompositionality`).
  For a nondeterministic model that needs initial states whose views at different
  keys are uncorrelated (`NdCompositionality.NdPCompositionality`).
* **The entry points.** Without a timeout the verdict is the specification:
  `Checker.CheckWhole`, `Checker.CheckKeyValue` (where it is that every read can be
  explained by the last write before it), `Checker.CheckKeyed`, `Checker.CheckNondeterministicKeyed`,
  `EventChecker.CheckWholeEvents`, `EventChecker.CheckKeyedEvents`. With one, on
  every schedule, whatever is reported about the whole history by checking it key
  by key is right: `Checker.EveryKeyedScheduleDecides` and
  `EventChecker.EveryKeyedEventScheduleDecides`. On one thread the verdict is a
  function of the history, the loads made and the final load of the timer's flag
  (`Checker.CheckOperations`, `EventChecker.CheckEvents`).

## How the source is read

* A `Model` implementation is a datatype holding its initial state and its step
  function. State equality is built-in equality.
* A `u64` word of the bitset is its 64 bits, least significant first; the
  `usize as u64` cast keeps the low 64 binary digits. Node links are `u32`
  values with `u32::MAX` as the absent link, so histories of 2^32 - 1 entries or
  more are excluded. Time stamps are only compared and are naturals.
* `kill: nat -> bool` gives the value returned by the k-th load of the kill flag;
  all results hold for every such function, or for every one that never goes back
  from true to false. A frozen bitset in a cache entry is held as its words.
* A failed debug assertion is a `false` result.
* `hash_with_bit` (src/bitset.rs:56-65) is described as the hash after setting
  the bit. It is that exactly when the resulting set has odd size
  (`Bitsets.VirtualHashIsHash`). The cache needs only that the key depends on
  nothing but the resulting set, and that holds (`Bitsets.VirtualHashCoherent`).
  docs/algorithm.md:663-667 describes a cached hash the source does not have.
* The search tries every live call before the first live return. A comment
  (src/checker.rs:509-511), the written specification and tla/Porcupine.qnt:95-101
  speak of the earliest call only; that would miss linearizations
  (`KeyValue.EarliestCallIsNotEnough`).
* In the event form list position becomes time, so the order in which a part lists
  its events matters, and the runtime checks do not look at it. Two partitions pass
  them all: `EventPartitions.DescendingPartPasses` hands the search a return before
  its call, and `KeyValue.ReorderedPartAccepts` makes it answer Ok on an illegal
  history. What a caller must see to is `KeepsOrder`: a return and a call of one
  part stand in the part as they stand in the history. Then the search sees the
  part's true real-time order, and only then (`EventPartitions.PartOrderExact`);
  when no two operations of the part look the same, then and only then is the part
  checked correctly for every model (`EventPartitions.PartVerdictExact`).
* The adapters hand on the partition of a nondeterministic model. Keys that do not
  interact are not enough for that: if the initial states tie one key's view to
  another's, every part can be linearizable and the whole not
  (`NdCompositionality.CorrelatedFails`). For a model that only reads, the condition
  on the initial states is exact (`NdCompositionality.ReadersExact`).
* With no initial state and no operation the power-set adapter accepts although
  there is no run; `PowerSet.PowerSetVerdict` has the exact condition.

## Model

| member | source | states |
|---|---|---|
| Specification.CompletesMeans | src/checker.rs:494-582 | an order completes a prefix one enabled, accepted operation at a time iff it lists exactly the rest, respects real time and is accepted as a run |
| Specification.LinearizableIffNotDead | src/checker.rs:494-582 | a history is linearizable iff the start of the search is not a dead end |
| Bitsets.VirtualHashIsSlotKey | src/bitset.rs:59-65 | the virtual hash is a function of the resulting set: (size - 1) xor all words xor 1 |
| Bitsets.VirtualHashCoherent | src/bitset.rs:59-65 | two sets that become equal by adding one element each probe the same key |
| Bitsets.VirtualHashIsHash | src/bitset.rs:48-65 | the virtual hash equals the hash after setting the bit iff the resulting set has odd size |
| Bitsets.VirtualHashCanDiffer | src/bitset.rs:48-65 | for the set {0} and bit 1 the virtual hash is not the hash after setting the bit |
| Bitsets.HashMeans | src/bitset.rs:48-54 | bit k of the hash is the k-th binary digit of the set's size plus the number of its members at place k of their words, modulo 2 |
| Bitsets.SlotKeyMeans | src/bitset.rs:59-65 | bit k of the key is the same with the size less one, and bit 0 flipped |
| Bits.DigitsValue | src/bitset.rs:48-54 | the cast to a machine word keeps the number modulo two to the width |
| Bits.ToWordValue | src/bitset.rs:48-54 | a number that fits a word is the word's value |
| Bits.XorAllIsParity | src/bitset.rs:48-54 | bit k of all words combined is the parity of the members at place k |
| Bits.PopcntIsSize | src/bitset.rs:41-43 | summing the one bits of the words counts the set's elements |
| Bits.ElementsInjective | src/bitset.rs:70-82 | equal sets of one capacity are equal word for word, so comparing words compares sets |
| Bitsets.Bitset.constructor | src/bitset.rs:16-21 | a new bitset has room for n bits and is empty |
| Bitsets.Bitset.Set | src/bitset.rs:28-31 | adds exactly that element |
| Bitsets.Bitset.Clear | src/bitset.rs:34-37 | removes exactly that element |
| Bitsets.Bitset.CountOnes | src/bitset.rs:41-43 | returns the number of elements |
| Bitsets.Bitset.Hash | src/bitset.rs:48-54 | returns popcnt xor all words |
| Bitsets.Bitset.HashWithBit | src/bitset.rs:59-65 | returns the key of the set with the element added, leaving the set alone |
| Bitsets.Bitset.EqWithBit | src/bitset.rs:70-82 | true iff the other bitset is what setting the bit would give, equivalently holds the set with the element added |
| Bitsets.Bitset.Clone | src/checker.rs:532-533 | an independent copy with the same words |
| Histories.MakeEntries | src/checker.rs:64-89 | produces the stably sorted calls and returns of the history |
| Histories.MakeEntriesFromIndices | src/checker.rs:94-122 | the fused form equals make_entries of the gathered operations |
| Histories.SortSorts | src/checker.rs:78-87 | the sort orders the entries and loses none |
| Histories.SortStable | src/checker.rs:78-87 | entries that tie keep their order |
| Histories.EntriesArrange | src/checker.rs:64-89 | the entries are every call and every return exactly once, sorted |
| Histories.EntriesEncodeRealTime | src/checker.rs:62-89 | for any sorted arrangement: each call precedes its own return, and a return precedes a call in the list iff it does so strictly in time, ties included |
| Histories.EntriesVerdict | src/checker.rs:64-89 | the search on the entries answers for the operations |
| Histories.AlikeVerdict | src/checker.rs:78-87 | histories with the same real-time order, inputs and outputs have the same linearizations |
| Arena.AllocateNodes | src/checker.rs:253-270 | one node an entry, and every operation's return node is remembered |
| Arena.FillMatches | src/checker.rs:273-281 | every call node points at its return node, no other node has a match |
| Arena.LinkNodes | src/checker.rs:284-290 | the links thread all nodes in entry order |
| Arena.NodeArena.FromEntries | src/checker.rs:240-293 | the new arena holds the entries and its list is all of them |
| Arena.UnlinkKeepsLinked | src/checker.rs:318-337 | unlinking a live node leaves a well-linked list of the others |
| Arena.LiftLemma | src/checker.rs:318-362 | lifting removes exactly the call and its return from the list, adjacent or not, and unlifting restores every node |
| Arena.NodeArena.Lift | src/checker.rs:318-338 | the in-place lift is the node-vector lift of LiftLemma |
| Arena.NodeArena.Unlift | src/checker.rs:342-362 | the in-place unlift is the node-vector unlift of LiftLemma |
| Arena.WalkVisitsLive | src/checker.rs:297-308 | following next from the head visits exactly the live nodes in ascending order |
| Caching.CacheContainsWithBit | src/checker.rs:410-428 | true iff the pair (set plus element, state) was inserted earlier |
| Caching.CachedInBucket | src/checker.rs:410-428 | looking in one bucket is looking in the whole cache |
| Caching.InsertLemma | src/checker.rs:538-544 | inserting adds exactly that pair and keeps every entry under the key of its set |
| Caching.InsertAddsOne | src/checker.rs:538-544 | an insertion adds exactly one entry to the cache |
| Exploration.FrontierExact | src/checker.rs:499-579 | a live call has only calls before it in the list iff its operation has no unlinearized real-time predecessor |
| Exploration.CursorNoneIffDone | src/checker.rs:499-503 | the cursor is off the list iff everything is linearized |
| Exploration.StuckIsDead | src/checker.rs:561-566 | at a live return with every live call before it refuted, no completion exists |
| Exploration.HitIsDead | src/checker.rs:524-555 | a cache hit is never an ancestor on the stack, so it is a dead end |
| Exploration.PathCompletes | src/checker.rs:546-552 | whatever completes the current pair, behind the stack, completes the whole history |
| Exhaustion.StuckIsSpent | src/checker.rs:561-566 | at a live return with every live call before it tried, every enabled operation has been tried |
| Exhaustion.FailedIsExhaustive | src/checker.rs:494-582 | a search that fails with an empty stack has cached every reachable pair but the start |
| Exhaustion.PrefixCached | src/checker.rs:529-552 | every nonempty prefix of the stack was cached, with the state its run ends in |
| Search.SkipBranch | src/checker.rs:553-560 | skipping a refused or already cached call keeps the whole invariant and makes progress |
| Search.PushBranch | src/checker.rs:529-552 | a push keeps the whole invariant, with the new pair on the stack and in the cache, and makes progress |
| Search.PopBranch | src/checker.rs:567-575 | a backtrack keeps the whole invariant, turning the abandoned pair into a dead end, and makes progress |
| Search.TryCall | src/checker.rs:506-560 | one visit of a call node pushes exactly when the model accepts and the pair is new, else changes nothing but the cursor; the loop invariant is kept and the measure decreases |
| Search.Backtrack | src/checker.rs:561-575 | one backtrack drops the top frame and takes back its state; the loop invariant is kept and the measure decreases |
| Search.CheckSingle | src/checker.rs:443-583 | stops for any model; true means the stack is a linearization whatever the flag did; false without a true load means there is none; a true load ends the run with false, and the flag is loaded before the answer and before every lift and unlift, so that a flag set from the start ends it at the first load; the lifts are as many as the expanded pairs, which are distinct and each reached by a run from the start; on yes they include every prefix of the linearization, on an unkilled no every reachable pair |
| Termination.AdvanceIncreases | src/checker.rs:553-560 | moving the cursor on increases the stack-and-cursor number |
| Termination.PushIncreases | src/checker.rs:546-552 | a push increases it |
| Termination.PopIncreases | src/checker.rs:567-575 | a backtrack increases it |
| Termination.RankBound | src/checker.rs:494-582 | it stays below a fixed bound |
| Protocol.StepInv | src/checker.rs:599-735 | every step of every worker, of the timer and of the main thread keeps the protocol invariant |
| Protocol.NotOkHasCause | src/checker.rs:743-757 | after the join, not ok implies definitive or timed out; a reported Illegal is always definitive, so the last branch of to_check_result is dead |
| Protocol.ConvictionIsReported | src/checker.rs:667-684 | a partition proved not linearizable always makes the join say not ok |
| Protocol.FlagsSettled | src/checker.rs:706-735 | once cancel has taken the mutex no step changes a flag |
| Protocol.VerdictIsRight | src/checker.rs:599-757 | over every interleaving Ok means all partitions are linearizable, Illegal means one is not, Unknown means the timer fired; a definitive finding wins over the timer and the timer over Ok |
| Protocol.UntimedVerdict | src/checker.rs:665-686 | without a timer the verdict is Ok iff all partitions are linearizable, else Illegal |
| Protocol.ScheduleIndependence | src/checker.rs:616-686 | if the timer does not fire, schedule, dispatch path and partition order do not change the verdict |
| Protocol.RunsAreBounded | src/checker.rs:599-735 | every schedule has at most 5 steps a partition plus 5 |
| Protocol.NeverStuck | src/checker.rs:599-757 | until the verdict is reported and the timer thread gone some step other than the timer firing is possible |
| Protocol.JoinMeans | src/checker.rs:646-686 | the join says ok iff every partition has passed or, on the pool only, was skipped because the flag was set |
| Protocol.FailureStopsTheRest | src/checker.rs:646-662 | in order, all partitions before a failure have passed and none behind it is ever started |
| Outcomes.VerdictsExact | src/checker.rs:599-757 | the verdicts that schedules report are the right one and, with a timer, Unknown: no other, and each of them |
| Outcomes.UnknownExact | src/checker.rs:719-757 | from a reachable state Unknown can still be reported iff no partition has been or is about to be convicted and the timer has fired or still can |
| Outcomes.TimerCutsShort | src/checker.rs:719-735 | then it can be reported with no further search finishing |
| Outcomes.CanFinish | src/checker.rs:599-757 | any run can be completed without the timer firing any more |
| Outcomes.AllRunTogether | src/checker.rs:665-684 | on the pool all partitions can be searched at the same time |
| Outcomes.OneConvictionIsEnough | src/checker.rs:665-684 | on the pool Illegal can be reported with only the convicted partition ever started |
| Dispatch.SortByLength | src/checker.rs:634 | yields a permutation of the partitions with lengths in order |
| Dispatch.Arrange | src/checker.rs:631-663 | a permutation of the partitions: longest first for the pool if there are at least 2000 entries in all, else shortest first |
| Dispatch.RunPartition | src/checker.rs:671-684 | a definitive no is a proof of non-linearizability; a no that is not definitive saw the flag set |
| Dispatch.RunInOrder | src/checker.rs:646-686 | ok without a true load means all partitions are linearizable; definitive means one is not; any other no saw the flag set; a flag set from the start stops it at once, or makes every pool task give up |
| Dispatch.CheckParallel | src/checker.rs:599-687 | the same for all dispatch paths and the empty list |
| Compositionality.PCompositionality | src/checker.rs:785-795 | for a key-local model a history is linearizable iff every part of a key-respecting partition is |
| Compositionality.HeadIsEnabled | src/model.rs:30-35 | the head of the part that owns the first pending return may be linearized next |
| Compositionality.Merge | src/model.rs:30-35 | linearizations of the parts merge, greedily, into one of the whole |
| Compositionality.RestrictRun | src/model.rs:30-35 | the part of an accepted run that belongs to one part is accepted alone |
| Compositionality.ReorderVerdict | src/checker.rs:772-808 | the order in which operations are listed does not matter |
| KeyValue.RunMeans | tests/common/mod.rs:76-89 | a sequence is accepted iff every read returns the value of the last earlier write of its key, or 0 if there is none; the state then holds what was written last |
| KeyValue.KvVerdict | tests/common/mod.rs:76-89 | a key-value history is linearizable iff some order respects real time and explains every read in that way |
| KeyValue.KvIsKeyLocal | tests/common/mod.rs:76-89 | the key-value step reads and writes only the operation's key |
| KeyValue.Partition | tests/common/mod.rs:91-97 | the parts cover every index exactly once, each is the nonempty ascending list of one key's operations, and different parts have different keys, in whatever order the map yields them |
| KeyValue.PartitionEvents | tests/common/mod.rs:230-249 | the event form does so too, and keeps every call with its return |
| KeyValue.EarliestCallIsNotEnough | src/checker.rs:505-579 | a linearizable history none of whose linearizations starts with the earliest call |
| Grouping.GroupsPartition | tests/common/mod.rs:242-248 | groups by label cover every index exactly once, ascending |
| PowerSet.Deduplicate | src/model.rs:191-199 | keeps first occurrences in order |
| PowerSet.DeduplicateHashed | src/model.rs:285-294 | returns the identical vector |
| Sequences.DedupMeans | src/model.rs:185-199 | the result has the same members and no repetition |
| Sequences.DedupKeepsOrder | src/model.rs:185-199 | members are kept in the order of their first occurrences |
| PowerSet.NextStatesInOrder | src/model.rs:152-168 | of two members of the next power state the one first offered by an earlier state, or earlier by the same state, comes first |
| PowerSet.PowerSetStep | src/model.rs:152-168 | the adapter's step as the search sees it |
| PowerSet.HashedPowerSetStep | src/model.rs:251-267 | both adapters take the identical step |
| PowerSet.PowerRun | src/model.rs:152-168 | after an accepted sequence the power state lists, without repetition, exactly the states some branch reaches; a refused sequence has no surviving branch |
| PowerSet.PowerSetVerdict | src/model.rs:136-168 | the adapted model is linearizable iff some linearization has a nondeterministic run, or there is neither initial state nor operation |
| Events.Renumber | src/checker.rs:125-141 | numbers ids by first occurrence |
| Events.NewIdBijective | src/checker.rs:125-141 | the new ids are a bijection onto an initial segment |
| Events.NewIdFollowsFirst | src/checker.rs:125-141 | an id gets the smaller number iff it occurs first |
| Events.CountEvents | src/invariants.rs:244-313 | a well-formed event history has exactly two events an id, so the ids are dense below half its length |
| Events.ConvertEntriesFromIndices | src/checker.rs:169-198 | the single pass equals converting the renumbered gathered events |
| Events.EventEntriesWellFormed | src/checker.rs:144-164 | the entries of a well-formed event history meet the search's precondition |
| Events.EventsVerdict | src/checker.rs:815-851 | the search on converted events answers for the operations the events describe, in any listing |
| Events.EventsAreDescribed | src/invariants.rs:244-313 | every well-formed event history describes some operations |
| Partitions.PartitionByCounting | src/invariants.rs:111-144 | in bounds, never repeated and n indices in all is exactly covering 0..n once |
| Partitions.ScanPartitionCovering | src/invariants.rs:111-144 | passes iff the partitions cover 0..n exactly once, and then the table names an owner of every index |
| EventPartitions.AssertWellFormedEvents | src/invariants.rs:244-313 | passes iff the event history is well-formed |
| EventPartitions.AssertPartitionEventsPaired | src/invariants.rs:172-208 | passes iff the partition covers the history and keeps every call with its return |
| EventPartitions.PartWellFormed | src/invariants.rs:162-208 | a part of a checked partition is well-formed iff it lists every call before its return |
| EventPartitions.DescendingPartPasses | src/invariants.rs:172-208 | a partition passing every check whose part is not well-formed |
| EventPartitions.EventPartVerdict | src/checker.rs:829-839 | the search on a part that keeps returns and calls in order answers for that part's operations |
| EventPartitions.EventPCompositionality | src/checker.rs:829-839 | for a key-local model an event history is linearizable iff the search's answer is yes on every part, when the parts keep returns and calls in order |
| EventPartitions.PartOrderExact | src/checker.rs:829-839 | the search sees a checked part's operations in their real-time order iff the part keeps every return and call in order |
| EventPartitions.PartAnswers | src/checker.rs:829-839 | the search on a part that lists calls first answers for its operations, timed by their places in the part |
| EventPartitions.PartVerdictExact | src/checker.rs:829-839 | with distinguishable operations, a checked part gets the right answer for every model iff it keeps every return and call in order |
| TellingApart.OrdersTellApart | src/checker.rs:78-87 | histories of the same distinguishable operations with different real-time order get different verdicts from some model |
| KeyValue.ReorderedPartAccepts | src/invariants.rs:172-208 | a partition passing every check, calls first, that makes the search accept an illegal history |
| NdCompositionality.NdPCompositionality | src/model.rs:170-181 | for a key-local nondeterministic model with uncorrelated initial states, the adapted model may be checked key by key |
| NdCompositionality.ProductVerdict | src/model.rs:152-168 | the power set of such a model accepts what the product of independent keys accepts |
| NdCompositionality.CorrelatedFails | src/model.rs:170-181 | from correlated initial states some history has linearizable parts and is not linearizable |
| NdCompositionality.ReadersExact | src/model.rs:170-181 | for a model that only reads, key-by-key checking is right iff the initial states are uncorrelated |
| NdCompositionality.EqualFlagsAreCorrelated | src/model.rs:136-150 | two flags that start equal are such initial states |
| EventPartitions.NdEventPCompositionality | src/model.rs:170-181 | the same for event histories whose parts keep returns and calls in order |
| Checker.EntryListsVerdict | src/checker.rs:785-795 | the entry lists handed to the searches answer for the history or for its parts |
| Checker.CheckOperations | src/checker.rs:772-808 | Unknown if a load saw the flag set; otherwise Illegal if the history, or some part, is not linearizable; otherwise Unknown if the timer fired; otherwise Ok |
| Dispatch.ScheduleVerdict | src/checker.rs:599-757 | over every schedule, path and arrangement of the entry lists the reported verdict is right about all of them |
| Dispatch.ScheduleVerdictsExact | src/checker.rs:599-757 | the verdicts reported over all schedules are the right one and, with a timer, Unknown: no other, and each of them |
| Dispatch.SearchesArise | src/checker.rs:599-687 | such a step system exists for every dispatch path |
| Checker.EveryScheduleIsRight | src/checker.rs:772-808 | the same for every schedule of workers, timer and cancellation and any order of the partitions |
| Checker.EveryKeyedScheduleDecides | src/checker.rs:772-808 | on every schedule, checking a key-local model key by key decides the whole history |
| Checker.KeyedVerdictsExact | src/checker.rs:772-808 | when a key-local model is checked key by key, schedules report the right verdict on the whole history and, with a timer, Unknown: no other, and each of them |
| Checker.CheckWhole | src/checker.rs:772-808 | without timeout and partitions the verdict is Ok iff the history is linearizable, else Illegal |
| Checker.CheckKeyed | src/checker.rs:772-808 | so it is with a key-respecting partition of a key-local model |
| Checker.CheckKeyValue | tests/common/mod.rs:67-98 | so it is for the key-value model and its own partitioner: Ok iff every read can be explained by the writes |
| Checker.CheckNondeterministic | src/model.rs:136-168 | through the adapter the verdict is Ok iff some linearization has a nondeterministic run, or there is neither initial state nor operation |
| Checker.CheckNondeterministicKeyed | src/model.rs:136-181 | so it is with a key-respecting partition, for a key-local model with uncorrelated initial states |
| EventChecker.CheckEvents | src/checker.rs:815-851 | the same for the entry lists of the events |
| EventChecker.EventListsVerdict | src/checker.rs:815-839 | the entry lists handed to the searches answer for the operations, or for each part's operations timed by their places in the part |
| EventChecker.EveryEventScheduleIsRight | src/checker.rs:815-851 | on every schedule the verdict is right about those operations |
| EventChecker.EveryKeyedEventScheduleDecides | src/checker.rs:815-851 | on every schedule, checking a key-local model key by key decides the operations of the whole event history, when the parts keep returns and calls in order |
| EventChecker.KeyedEventVerdictsExact | src/checker.rs:815-851 | the same for event histories whose parts keep returns and calls in order |
| EventChecker.CheckKeyedEvents | src/checker.rs:815-851 | without timeout such a check is Ok iff the operations are linearizable, else Illegal |
| EventChecker.CheckNondeterministicEvents | src/model.rs:136-181 | so it is for a key-local nondeterministic model with uncorrelated initial states |
| EventChecker.CheckWholeEvents | src/checker.rs:815-851 | without timeout the verdict on events is linearizability of the operations they describe |
| EventChecker.CheckKeyValueEvents | tests/common/mod.rs:217-250 | so it is for the key-value model and its event partitioner |
| EventChecker.RenamingIsInvisible | src/checker.rs:125-141 | renaming event ids one to one gives the identical renumbered history |
| EventChecker.ClockIsInvisible | src/checker.rs:78-87 | a strictly monotone change of the clock does not change the verdict |
| EventChecker.OpsToEventsSortedByTime | tests/common/mod.rs:493-531 | emits the calls and returns in the order of make_entries |
| EventChecker.TimeSortedDescribes | tests/common/mod.rs:486-531 | the event form is well-formed and has the same real-time order |
| EventChecker.CheckAsEvents | tests/common/mod.rs:493-531 | checking the time-sorted event form gives the verdict on the operations |

## Left out

- Dispatch.CheckParallel: runs the thread-pool path one task after the other; the concurrent schedules are those of `Protocol.VerdictIsRight`, `Checker.EveryKeyedScheduleDecides` and `EventChecker.EveryKeyedEventScheduleDecides`.
- Dispatch.RunInOrder: in the pool it is one schedule, task after task; the same lines name the others.
- Protocol.VerdictIsRight: assumes sequentially consistent flags; relaxed orderings, condition variables, spurious wakeups and durations are one nondeterministic timer step inside the mutex.
- Histories.SortSorts: the library's stable sort is modelled as an insertion sort; only order, contents and stability are used.
- Checker.CheckOperations: takes the partition a model returned as an argument that covers the history, as the release build does.
- EventChecker.CheckEvents: takes parts that list every call before its return; for others the source runs the search on a list that is no history.
- Hash maps, hash sets and small vectors are Dafny maps, sets and sequences; a map's iteration order is arbitrary.
- Entries, nodes and states are values, so moving and cloning them is not modelled, except for the bitset.
- A `PartialEq` that is not equality, and models whose step is not a function of its arguments.
- The register, lossy-register, always-reject and always-stutter fixtures, S2, VBank, etcd and set models: single-step facts.
- `assert_well_formed` for operations (a comparison per operation), `assert_minimal_call` and `assert_cache_sound` (never called).
- `LinearizationInfo`, log and JSON parsing, command-line tools, benchmarks and the Quint files.
