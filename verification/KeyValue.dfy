/** The key-value model: the concrete model that partitions its histories by key. */
module KeyValue {
  import opened Wrappers
  import opened Specification
  import opened Histories
  import opened Compositionality
  import opened Grouping
  import opened Events
  import opened EventPartitions

  type Key = k: nat | k < 256

  datatype KvInput = KvInput(key: Key, isWrite: bool, value: int)

  type KvState = map<Key, int>

  function Lookup(state: KvState, key: Key): int {
    if key in state then state[key] else 0
  }

  function KvStep(state: KvState, input: KvInput, output: int): Option<KvState> {
    if input.isWrite then Some(state[input.key := input.value])
    else if output == Lookup(state, input.key) then Some(state)
    else None
  }

  const KV_MODEL: Model<KvState, KvInput, int> := Model(map[], KvStep)

  function KeyOf(input: KvInput): Key {
    input.key
  }

  // What a register read after the first n listed operations should return: the value of the last
  // write to the key, or 0.
  function LastWritten<O>(ops: seq<Operation<KvInput, O>>, order: seq<nat>, n: nat, key: Key): int
    requires InRange(order, |ops|) && n <= |order|
  {
    if n == 0 then 0
    else
      var input := ops[order[n - 1]].input;
      if input.isWrite && input.key == key then input.value else LastWritten(ops, order, n - 1, key)
  }

  // Every read returns the last value written before it.
  predicate ReadsLatest(ops: seq<Operation<KvInput, int>>, order: seq<nat>)
    requires InRange(order, |ops|)
  {
    forall n :: 0 <= n < |order| && !ops[order[n]].input.isWrite ==>
      ops[order[n]].output == LastWritten(ops, order, n, ops[order[n]].input.key)
  }

  // Can the history be put in an order that respects real time and in which every read returns the
  // last value written before it?
  ghost predicate Explained(history: seq<Operation<KvInput, int>>) {
    exists order ::
      IsPermutation(order, |history|) && RespectsRealTime(history, order) && ReadsLatest(history, order)
  }

  // The state after a run holds what was written last.
  lemma {:induction false} RunMeans(ops: seq<Operation<KvInput, int>>, order: seq<nat>)
    requires InRange(order, |ops|)
    ensures var run := Run(KV_MODEL, map[], ops, order);
            (run.Some? <==> ReadsLatest(ops, order)) &&
            (run.Some? ==> forall key :: Lookup(run.value, key) == LastWritten(ops, order, |order|, key))
    decreases |order|
  {
    if order != [] {
      var n := |order| - 1;
      var init, x := order[..n], order[n];
      assert order == init + [x];
      RunMeans(ops, init);
      RunAppend(KV_MODEL, map[], ops, init, x);
      LastWrittenPrefix(ops, init, order);
      assert forall k :: 0 <= k < n ==> order[k] == init[k];
    }
  }

  lemma {:induction false} LastWrittenPrefix<O>(ops: seq<Operation<KvInput, O>>, init: seq<nat>, order: seq<nat>)
    requires InRange(order, |ops|) && init <= order
    ensures forall n: nat, key :: n <= |init| ==> LastWritten(ops, init, n, key) == LastWritten(ops, order, n, key)
  {
    forall n: nat, key | n <= |init|
      ensures LastWritten(ops, init, n, key) == LastWritten(ops, order, n, key)
    {
      LastWrittenSame(ops, init, order, n, key);
    }
  }

  lemma {:induction false} LastWrittenSame<O>(
      ops: seq<Operation<KvInput, O>>, init: seq<nat>, order: seq<nat>, n: nat, key: Key)
    requires InRange(order, |ops|) && init <= order && n <= |init|
    ensures LastWritten(ops, init, n, key) == LastWritten(ops, order, n, key)
  {
    if n > 0 { LastWrittenSame(ops, init, order, n - 1, key); }
  }

  // A key-value history is linearizable exactly when its reads can be explained by its writes.
  lemma KvVerdict(history: seq<Operation<KvInput, int>>)
    ensures Linearizable(KV_MODEL, history) <==> Explained(history)
  {
    forall order
      ensures IsLinearization(KV_MODEL, history, order) <==>
              IsPermutation(order, |history|) && RespectsRealTime(history, order) && ReadsLatest(history, order)
    {
      if IsPermutation(order, |history|) { RunMeans(history, order); }
    }
  }

  lemma KvIsKeyLocal()
    ensures KeyLocal(KV_MODEL, KeyOf, Lookup)
  {
    forall s, t, i, o | Lookup(s, KeyOf(i)) == Lookup(t, KeyOf(i))
      ensures SameEffect(KV_MODEL, KeyOf, Lookup, s, t, i, o)
    {
    }
  }

  function KeysOf<O>(history: seq<Operation<KvInput, O>>): seq<Key> {
    seq(|history|, i requires 0 <= i < |history| => KeyOf(history[i].input))
  }

  // The parts are exactly the keys that occur, each with its indices in history order.
  ghost predicate PartForEachKey<O>(history: seq<Operation<KvInput, O>>, parts: seq<seq<nat>>) {
    && IsPartition(parts, |history|)
    && forall p :: 0 <= p < |parts| ==>
         parts[p] != [] && Ascending(parts[p]) && OneKey(history, parts[p])
  }

  ghost predicate OneKey<O>(history: seq<Operation<KvInput, O>>, part: seq<nat>)
    requires InRange(part, |history|)
  {
    forall i, j :: 0 <= i < |part| && 0 <= j < |part| ==>
      KeyOf(history[part[i]].input) == KeyOf(history[part[j]].input)
  }

  // `KvModel::partition`
  method Partition<O>(history: seq<Operation<KvInput, O>>) returns (parts: seq<seq<nat>>)
    ensures PartForEachKey(history, parts) && KeysApart(history, KeyOf, parts)
  {
    ghost var keys;
    parts, keys := GroupByLabel(KeysOf(history));
    GroupsPartition(KeysOf(history), keys, parts);
    forall p, i | 0 <= p < |parts| && 0 <= i < |parts[p]|
      ensures KeyOf(history[parts[p][i]].input) == keys[p]
    {
      assert KeysOf(history)[parts[p][i]] == keys[p];
    }
  }

  // The key of each id, from the calls among the first n events.
  ghost predicate KeyTable<O>(events: seq<Event<KvInput, O>>, n: nat, keyById: map<nat, Key>)
    requires n <= |events|
  {
    forall i :: 0 <= i < n && CallsWith(events[i]) ==>
      events[i].id in keyById && keyById[events[i].id] == KeyOf(events[i].input.value)
  }

  // All calls of the part have one key.
  ghost predicate OneEventKey<O>(history: seq<Event<KvInput, O>>, part: seq<nat>)
    requires InRange(part, |history|)
  {
    forall i, j :: 0 <= i < |part| && 0 <= j < |part| && CallsWith(history[part[i]]) && CallsWith(history[part[j]]) ==>
      KeyOf(history[part[i]].input.value) == KeyOf(history[part[j]].input.value)
  }

  // `KvEventPartitionModel::partition_events`
  method PartitionEvents<O>(history: seq<Event<KvInput, O>>) returns (parts: seq<seq<nat>>)
    requires WellFormedEvents(history)
    ensures IsPartition(parts, |history|) && Paired(parts, history) && EventKeysApart(history, KeyOf, parts)
    ensures forall p :: 0 <= p < |parts| ==>
              parts[p] != [] && Ascending(parts[p]) && OneEventKey(history, parts[p])
  {
    var keyById: map<nat, Key> := map[];
    for i := 0 to |history|
      invariant KeyTable(history, i, keyById)
    {
      if CallsWith(history[i]) {
        keyById := keyById[history[i].id := KeyOf(history[i].input.value)];
      }
    }
    var labels: seq<Key> := [];
    for i := 0 to |history|
      invariant |labels| == i
      invariant forall k :: 0 <= k < i ==> history[k].id in keyById && labels[k] == keyById[history[k].id]
    {
      OwnCall(history, i);
      labels := labels + [keyById[history[i].id]];
    }
    ghost var keys;
    parts, keys := GroupByLabel(labels);
    GroupsPartition(labels, keys, parts);
    LabelsPair(history, keyById, labels, keys, parts);
    LabelsOneKey(history, keyById, labels, keys, parts);
  }

  // Every event's id has a call.
  lemma OwnCall<O>(events: seq<Event<KvInput, O>>, i: nat)
    requires WellFormedEvents(events) && i < |events|
    ensures exists c :: 0 <= c < |events| && events[c].id == events[i].id && CallsWith(events[c])
  {
    if events[i].kind.ReturnEvent? {
      var c := CallBefore(events, i);
    }
  }

  lemma LabelsOneKey<O>(
      history: seq<Event<KvInput, O>>, keyById: map<nat, Key>, labels: seq<Key>, keys: seq<Key>, parts: seq<seq<nat>>)
    requires KeyTable(history, |history|, keyById) && |labels| == |history|
    requires forall k :: 0 <= k < |history| ==> history[k].id in keyById && labels[k] == keyById[history[k].id]
    requires Groups(labels, keys, parts)
    ensures PartsInRange(parts, |history|) && forall p :: 0 <= p < |parts| ==> OneEventKey(history, parts[p])
  {
    GroupsPartition(labels, keys, parts);
    hide Groups;
    forall p, i | 0 <= p < |parts| && 0 <= i < |parts[p]| && CallsWith(history[parts[p][i]])
      ensures KeyOf(history[parts[p][i]].input.value) == keys[p]
    {
      assert labels[parts[p][i]] == keys[p];
    }
  }

  lemma LabelsPair<O>(
      history: seq<Event<KvInput, O>>, keyById: map<nat, Key>, labels: seq<Key>, keys: seq<Key>, parts: seq<seq<nat>>)
    requires WellFormedEvents(history) && KeyTable(history, |history|, keyById) && |labels| == |history|
    requires forall k :: 0 <= k < |history| ==> history[k].id in keyById && labels[k] == keyById[history[k].id]
    requires Groups(labels, keys, parts)
    ensures PartsInRange(parts, |history|) && Paired(parts, history) && EventKeysApart(history, KeyOf, parts)
  {
    GroupsPartition(labels, keys, parts);
    forall i, j | 0 <= i < j < |history| && history[i].id == history[j].id
      ensures Together(parts, i, j)
    {
    }
    hide Groups, WellFormedEvents;
    forall p, q, i, j | 0 <= p < |parts| && 0 <= q < |parts| && p != q && i in parts[p] && j in parts[q] &&
        i < |history| && j < |history| && CallsWith(history[i]) && CallsWith(history[j])
      ensures KeyOf(history[i].input.value) != KeyOf(history[j].input.value)
    {
      assert labels[i] == keys[p] && labels[j] == keys[q] && keys[p] != keys[q];
    }
  }

  // Trying only the earliest unlinearized call would miss linearizations: here every one of them
  // starts with the later call.
  lemma EarliestCallIsNotEnough() returns (history: seq<Operation<KvInput, int>>)
    ensures |history| == 2 && WellFormed(history) && Linearizable(KV_MODEL, history)
    ensures forall order :: IsLinearization(KV_MODEL, history, order) ==>
              order[0] < 2 && exists x :: 0 <= x < 2 && history[x].call < history[order[0]].call
  {
    var read := Operation(0, KvInput(0, false, 0), 0, 1, 10);
    var write := Operation(1, KvInput(0, true, 1), 1, 0, 2);
    history := [read, write];
    assert Run(KV_MODEL, map[0 := 1], history, [0]) == Some(map[0 := 1]);
    assert [1, 0][1..] == [0];
    assert Step(KV_MODEL, map[], write) == Some(map[0 := 1]);
    assert Run(KV_MODEL, map[], history, [1, 0]) == Some(map[0 := 1]);
    assert IsLinearization(KV_MODEL, history, [1, 0]);
    forall order | IsLinearization(KV_MODEL, history, order)
      ensures order[0] == 1
    {
      assert Step(KV_MODEL, map[], read) == None;
    }
  }

  // One operation and then another, as events and as operations.
  function Sequential(first: KvInput, firstId: nat, second: KvInput, secondId: nat): seq<Event<KvInput, int>> {
    [Event(firstId, CallEvent, Some(first), None, firstId), Event(firstId, ReturnEvent, None, Some(0), firstId),
     Event(secondId, CallEvent, Some(second), None, secondId), Event(secondId, ReturnEvent, None, Some(0), secondId)]
  }

  function SequentialOps(first: KvInput, firstId: nat, second: KvInput, secondId: nat): seq<Operation<KvInput, int>> {
    [Operation(firstId, first, 0, 0, 1), Operation(secondId, second, 2, 0, 3)]
  }

  lemma SequentialDescribed(first: KvInput, firstId: nat, second: KvInput, secondId: nat)
    requires firstId != secondId
    ensures WellFormedEvents(Sequential(first, firstId, second, secondId))
    ensures DescribesEvents(Sequential(first, firstId, second, secondId), [firstId, secondId],
              SequentialOps(first, firstId, second, secondId))
  {
    var events, ops := Sequential(first, firstId, second, secondId), SequentialOps(first, firstId, second, secondId);
    FourWellFormed(events);
    hide WellFormedEvents;
    assert EventPair(events, firstId, ops[0]);
    assert EventPair(events, secondId, ops[1]);
  }

  // Two operations, one after the other, are linearized in that order only.
  lemma SequentialVerdict(first: KvInput, firstId: nat, second: KvInput, secondId: nat)
    ensures var ops := SequentialOps(first, firstId, second, secondId);
            Linearizable(KV_MODEL, ops) <==> Run(KV_MODEL, map[], ops, [0, 1]).Some?
  {
    var ops := SequentialOps(first, firstId, second, secondId);
    if Run(KV_MODEL, map[], ops, [0, 1]).Some? {
      assert IsLinearization(KV_MODEL, ops, [0, 1]);
    }
    forall order | IsLinearization(KV_MODEL, ops, order)
      ensures order == [0, 1]
    {
      assert !Precedes(ops, order[1], order[0]);
    }
  }

  // A partition that passes every check, lists calls first, and makes the search accept an illegal
  // history: a read of the old value, listed before the write it follows.
  lemma ReorderedPartAccepts()
    returns (events: seq<Event<KvInput, int>>, ids: seq<nat>, ops: seq<Operation<KvInput, int>>, parts: seq<seq<nat>>)
    ensures Checked(events, ids, ops, parts) && |parts| == 1
    ensures CallsFirst(events, parts[0]) && !KeepsOrder(events, parts[0])
    ensures SearchAccepts(KV_MODEL, Gather(events, parts[0])) && !Linearizable(KV_MODEL, ops)
  {
    var write, read := KvInput(0, true, 1), KvInput(0, false, 0);
    events, ops := Sequential(write, 0, read, 1), SequentialOps(write, 0, read, 1);
    ids, parts := [0, 1], [[2, 3, 0, 1]];
    var sub, subOps := Sequential(read, 1, write, 0), SequentialOps(read, 1, write, 0);
    ReorderedPart(write, read);
    SequentialDescribed(write, 0, read, 1);
    SequentialDescribed(read, 1, write, 0);
    StaleReadIsIllegal(write, read);
    hide *;
    hide Sequential, SequentialOps;
    CheckedIntro(events, ids, ops, parts);
    EventsVerdict(KV_MODEL, sub, [1, 0], subOps);
  }

  // Listing the second operation first.
  lemma ReorderedPart(first: KvInput, second: KvInput)
    ensures var events, parts := Sequential(first, 0, second, 1), [[2, 3, 0, 1]];
            IsPartition(parts, 4) && Paired(parts, events) && CallsFirst(events, parts[0]) &&
            !KeepsOrder(events, parts[0]) && Gather(events, parts[0]) == Sequential(second, 1, first, 0)
  {
    var events, part := Sequential(first, 0, second, 1), [2, 3, 0, 1];
    assert |part| == 4 && part[0] == 2 && part[1] == 3 && part[2] == 0 && part[3] == 1;
    SmallPartition([part]);
    assert ReturnAndCall(events[part[1]], events[part[2]]);
  }

  lemma SmallPartition(parts: seq<seq<nat>>)
    requires parts == [[2, 3, 0, 1]]
    ensures IsPartition(parts, 4)
  {
    var part := parts[0];
    forall x: nat | x < 4
      ensures Covered(parts, x)
    {
      assert part[0] == 2 && part[1] == 3 && part[2] == 0 && part[3] == 1;
      assert x in parts[0];
    }
  }

  // Two sequential operations.
  lemma FourWellFormed<I, O>(events: seq<Event<I, O>>)
    requires |events| == 4 && AllPayload(events)
    requires events[0].id == events[1].id != events[2].id == events[3].id
    requires events[0].kind.CallEvent? && events[1].kind.ReturnEvent?
    requires events[2].kind.CallEvent? && events[3].kind.ReturnEvent?
    ensures WellFormedEvents(events)
  {
    forall i | 0 <= i < 4
      ensures HasPartner(events, i)
    {
      var j := if i == 0 then 1 else if i == 1 then 0 else if i == 2 then 3 else 2;
      assert events[j].id == events[i].id;
    }
  }

  // Reading the initial value is legal before a write of 1 and not after it.
  lemma StaleReadIsIllegal(write: KvInput, read: KvInput)
    requires write == KvInput(0, true, 1) && read == KvInput(0, false, 0)
    ensures Linearizable(KV_MODEL, SequentialOps(read, 1, write, 0))
    ensures !Linearizable(KV_MODEL, SequentialOps(write, 0, read, 1))
  {
    SequentialVerdict(read, 1, write, 0);
    SequentialVerdict(write, 0, read, 1);
    RunTwo(SequentialOps(read, 1, write, 0));
    RunTwo(SequentialOps(write, 0, read, 1));
    var written := map[][write.key := write.value];
    assert Lookup(map[], read.key) == 0 && Lookup(written, read.key) == 1;
  }

  lemma RunTwo(ops: seq<Operation<KvInput, int>>)
    requires |ops| == 2
    ensures Run(KV_MODEL, map[], ops, [0, 1]).Some?
       <==> Step(KV_MODEL, map[], ops[0]).Some? && Step(KV_MODEL, Step(KV_MODEL, map[], ops[0]).value, ops[1]).Some?
  {
    assert [0, 1][1..] == [1] && [1][1..] == [];
    var next := Step(KV_MODEL, map[], ops[0]);
    if next.Some? {
      assert Run(KV_MODEL, map[], ops, [0, 1]) == Run(KV_MODEL, next.value, ops, [1]);
      var last := Step(KV_MODEL, next.value, ops[1]);
      if last.Some? {
        assert Run(KV_MODEL, next.value, ops, [1]) == Run(KV_MODEL, last.value, ops, []);
      }
    }
  }
}
