/** The entry point for event histories, and its agreement with the one for operations. */
module EventChecker {
  import opened Sequences
  import opened Wrappers
  import opened Specification
  import opened Entries
  import opened Arena
  import opened Histories
  import opened Compositionality
  import opened Grouping
  import opened Events
  import opened EventPartitions
  import opened Dispatch
  import opened Search
  import opened Protocol
  import opened Outcomes
  import opened PowerSet
  import opened NdCompositionality
  import KeyValue

  // The partitions a well-formed history may be checked in: those whose parts the searches can run on.
  ghost predicate EventParts<I, O>(history: seq<Event<I, O>>, parts: Option<seq<seq<nat>>>) {
    && WellFormedEvents(history)
    && (parts.Some? ==>
          && IsPartition(parts.value, |history|) && Paired(parts.value, history)
          && forall p :: 0 <= p < |parts.value| ==> CallsFirst(history, parts.value[p]))
  }

  ghost function EventLists<I, O>(history: seq<Event<I, O>>, parts: Option<seq<seq<nat>>>): seq<seq<Entry<I, O>>>
    requires EventParts(history, parts)
  {
    match parts
    case None => [EventEntries(history)]
    case Some(ps) => seq(|ps|, p requires 0 <= p < |ps| => EventEntriesOf(history, ps, p))
  }

  lemma EventListsRunnable<I, O>(history: seq<Event<I, O>>, parts: Option<seq<seq<nat>>>)
    requires EventParts(history, parts) && |history| < NONE
    ensures Runnable(EventLists(history, parts))
  {
    match parts
    case None =>
      EventEntriesWellFormed(history);
    case Some(ps) =>
      forall p | 0 <= p < |ps|
        ensures WellFormedEntries(EventEntriesOf(history, ps, p)) && |EventEntriesOf(history, ps, p)| < NONE
      {
        PartWellFormed(history, ps, p);
        EventEntriesWellFormed(Gather(history, ps[p]));
        PartFits(ps[p], |history|);
      }
  }

  // What is checked: the whole history, or every part of it with its operations timed by their
  // places in the part.
  ghost predicate EventsMeet<S, I, O>(
      model: Model<S, I, O>, history: seq<Event<I, O>>, ids: seq<nat>, ops: seq<Operation<I, O>>,
      parts: Option<seq<seq<nat>>>)
    requires parts.Some? ==> Checked(history, ids, ops, parts.value)
  {
    match parts
    case None => Linearizable(model, ops)
    case Some(ps) =>
      forall p :: 0 <= p < |ps| ==> Linearizable(model, LocalOps(ps[p], PartOps(history, ids, ops, ps, p)))
  }

  lemma EventListsVerdict<S, I, O>(
      model: Model<S, I, O>, history: seq<Event<I, O>>, ids: seq<nat>, ops: seq<Operation<I, O>>,
      parts: Option<seq<seq<nat>>>)
    requires EventParts(history, parts) && |history| < NONE && DescribesEvents(history, ids, ops)
    ensures Runnable(EventLists(history, parts))
    ensures parts.Some? ==> Checked(history, ids, ops, parts.value)
    ensures AllOk(model, EventLists(history, parts)) <==> EventsMeet(model, history, ids, ops, parts)
  {
    EventListsRunnable(history, parts);
    var lists := EventLists(history, parts);
    match parts
    case None =>
      EventsVerdict(model, history, ids, ops);
      assert AllOk(model, lists) <==> PartitionOk(model, lists[0]);
    case Some(ps) =>
      CheckedIntro(history, ids, ops, ps);
      forall p | 0 <= p < |ps|
        ensures PartitionOk(model, lists[p])
           <==> Linearizable(model, LocalOps(ps[p], PartOps(history, ids, ops, ps, p)))
      {
        PartAnswers(model, history, ids, ops, ps, p);
      }
  }

  // `check_events` on one thread; the flags as in `check_operations`.
  method CheckEvents<S(==, !new), I, O>(
      model: Model<S, I, O>, history: seq<Event<I, O>>, parts: Option<seq<seq<nat>>>,
      kill: nat -> bool, timedOut: bool)
    returns (verdict: CheckResult, ghost now: nat)
    requires EventParts(history, parts) && |history| < NONE
    requires Monotone(kill) && (!timedOut ==> forall k :: !kill(k))
    ensures Runnable(EventLists(history, parts))
    ensures verdict == if !Quiet(kill, 0, now) then Unknown
                       else if !AllOk(model, EventLists(history, parts)) then Illegal
                       else if timedOut then Unknown
                       else Ok
    ensures kill(0) ==> verdict == Unknown
  {
    var partitions: seq<seq<Entry<I, O>>> := [];
    match parts {
      case None =>
        var renumbered := Renumber(history);
        partitions := [ConvertEntries(renumbered)];
      case Some(ps) =>
        for p := 0 to |ps|
          invariant |partitions| == p
          invariant forall q :: 0 <= q < p ==> partitions[q] == EventEntriesOf(history, ps, q)
        {
          var entries := ConvertEntriesFromIndices(history, ps[p]);
          partitions := partitions + [entries];
        }
    }
    assert partitions == EventLists(history, parts);
    EventListsRunnable(history, parts);
    var ok, definitiveIllegal;
    ok, definitiveIllegal, now := CheckParallel(model, partitions, kill);
    verdict := ToCheckResult(ok, timedOut, definitiveIllegal);
  }

  // Without a timeout and without partitions the verdict is linearizability of the operations.
  method CheckWholeEvents<S(==, !new), I, O>(
      model: Model<S, I, O>, history: seq<Event<I, O>>, ghost ids: seq<nat>, ghost ops: seq<Operation<I, O>>)
    returns (verdict: CheckResult)
    requires WellFormedEvents(history) && |history| < NONE && DescribesEvents(history, ids, ops)
    ensures verdict == if Linearizable(model, ops) then Ok else Illegal
  {
    EventListsVerdict(model, history, ids, ops, None);
    ghost var now;
    verdict, now := CheckEvents(model, history, None, _ => false, false);
  }

  // What a partition must keep for its parts to answer for the whole: calls of different parts have
  // different keys, and each part keeps returns and calls in order.
  ghost predicate OrderedKeyParts<I, O, K>(history: seq<Event<I, O>>, key: I -> K, parts: seq<seq<nat>>) {
    && IsPartition(parts, |history|) && Paired(parts, history) && EventKeysApart(history, key, parts)
    && forall p :: 0 <= p < |parts| ==> KeepsOrder(history, parts[p])
  }

  lemma OrderedKeyPartsRun<I, O, K>(history: seq<Event<I, O>>, key: I -> K, parts: seq<seq<nat>>)
    requires WellFormedEvents(history) && OrderedKeyParts(history, key, parts)
    ensures EventParts(history, Some(parts))
  {
    forall p | 0 <= p < |parts|
      ensures CallsFirst(history, parts[p])
    {
      KeepsOrderCallsFirst(history, parts[p]);
    }
  }

  // Checking such parts decides the whole history.
  lemma EventListsDecide<S(!new), I(!new), O(!new), K(!new), V>(
      model: Model<S, I, O>, key: I -> K, view: (S, K) -> V, history: seq<Event<I, O>>,
      ids: seq<nat>, ops: seq<Operation<I, O>>, parts: seq<seq<nat>>)
    requires WellFormedEvents(history) && |history| < NONE && DescribesEvents(history, ids, ops)
    requires KeyLocal(model, key, view) && OrderedKeyParts(history, key, parts)
    ensures EventParts(history, Some(parts)) && Runnable(EventLists(history, Some(parts)))
    ensures AllOk(model, EventLists(history, Some(parts))) <==> Linearizable(model, ops)
  {
    OrderedKeyPartsRun(history, key, parts);
    EventListsRunnable(history, Some(parts));
    CheckedIntro(history, ids, ops, parts);
    EventPCompositionality(model, key, view, history, ids, ops, parts);
    assert forall p :: 0 <= p < |parts| ==> EventLists(history, Some(parts))[p] == EventEntriesOf(history, parts, p);
  }

  lemma NdEventListsDecide<S(!new), I(!new), O(!new), K(!new), V(!new)>(
      nd: NdModel<S, I, O>, key: I -> K, view: (S, K) -> V, history: seq<Event<I, O>>,
      ids: seq<nat>, ops: seq<Operation<I, O>>, parts: seq<seq<nat>>)
    requires WellFormedEvents(history) && |history| < NONE && DescribesEvents(history, ids, ops)
    requires NdKeyLocal(nd, key, view) && Uncorrelated(nd.init, view) && OrderedKeyParts(history, key, parts)
    ensures EventParts(history, Some(parts)) && Runnable(EventLists(history, Some(parts)))
    ensures AllOk(PowerSetModel(nd), EventLists(history, Some(parts))) <==> AdapterAccepts(nd, ops)
  {
    OrderedKeyPartsRun(history, key, parts);
    EventListsRunnable(history, Some(parts));
    CheckedIntro(history, ids, ops, parts);
    NdEventPCompositionality(nd, key, view, history, ids, ops, parts);
    PowerSetVerdict(nd, ops);
    assert forall p :: 0 <= p < |parts| ==> EventLists(history, Some(parts))[p] == EventEntriesOf(history, parts, p);
  }

  // Without a timeout, checking a model key by key decides linearizability of the operations.
  method CheckKeyedEvents<S(==, !new), I(!new), O(!new), K(!new), V>(
      model: Model<S, I, O>, ghost key: I -> K, ghost view: (S, K) -> V, history: seq<Event<I, O>>,
      ghost ids: seq<nat>, ghost ops: seq<Operation<I, O>>, parts: seq<seq<nat>>)
    returns (verdict: CheckResult)
    requires WellFormedEvents(history) && |history| < NONE && DescribesEvents(history, ids, ops)
    requires KeyLocal(model, key, view) && OrderedKeyParts(history, key, parts)
    ensures verdict == if Linearizable(model, ops) then Ok else Illegal
  {
    EventListsDecide(model, key, view, history, ids, ops, parts);
    ghost var now;
    verdict, now := CheckEvents(model, history, Some(parts), _ => false, false);
  }

  method CheckKeyValueEvents(
      history: seq<Event<KeyValue.KvInput, int>>, ghost ids: seq<nat>, ghost ops: seq<Operation<KeyValue.KvInput, int>>)
    returns (verdict: CheckResult)
    requires WellFormedEvents(history) && |history| < NONE && DescribesEvents(history, ids, ops)
    ensures verdict == if Linearizable(KeyValue.KV_MODEL, ops) then Ok else Illegal
    ensures verdict == if KeyValue.Explained(ops) then Ok else Illegal
  {
    KeyValue.KvVerdict(ops);
    var parts := KeyValue.PartitionEvents(history);
    forall p | 0 <= p < |parts|
      ensures KeepsOrder(history, parts[p])
    {
      AscendingKeepsOrder(history, parts[p]);
    }
    KeyValue.KvIsKeyLocal();
    verdict := CheckKeyedEvents(KeyValue.KV_MODEL, KeyValue.KeyOf, KeyValue.Lookup, history, ids, ops, parts);
  }

  // The adapter hands on the nondeterministic model's own event partition.
  method CheckNondeterministicEvents<S(==, !new), I(!new), O(!new), K(!new), V(!new)>(
      nd: NdModel<S, I, O>, ghost key: I -> K, ghost view: (S, K) -> V, history: seq<Event<I, O>>,
      ghost ids: seq<nat>, ghost ops: seq<Operation<I, O>>, parts: seq<seq<nat>>)
    returns (verdict: CheckResult)
    requires WellFormedEvents(history) && |history| < NONE && DescribesEvents(history, ids, ops)
    requires NdKeyLocal(nd, key, view) && Uncorrelated(nd.init, view) && OrderedKeyParts(history, key, parts)
    ensures verdict == if AdapterAccepts(nd, ops) then Ok else Illegal
  {
    NdEventListsDecide(nd, key, view, history, ids, ops, parts);
    ghost var now;
    verdict, now := CheckEvents(PowerSetModel(nd), history, Some(parts), _ => false, false);
  }

  // ----- over every schedule -----

  // Whatever the schedule, the verdict reported for an event history is right.
  lemma EveryEventScheduleIsRight<S, I, O>(
      model: Model<S, I, O>, history: seq<Event<I, O>>, ids: seq<nat>, ops: seq<Operation<I, O>>,
      parts: Option<seq<seq<nat>>>, placing: seq<nat>, c: Config, actions: seq<Action>, s: State)
    requires EventParts(history, parts) && |history| < NONE && DescribesEvents(history, ids, ops)
    requires Searches(model, EventLists(history, parts), placing, c) && Reaches(c, actions, s) && s.main.Reported?
    ensures parts.Some? ==> Checked(history, ids, ops, parts.value)
    ensures s.main.verdict == Ok ==> EventsMeet(model, history, ids, ops, parts)
    ensures s.main.verdict == Illegal ==> !EventsMeet(model, history, ids, ops, parts)
    ensures s.main.verdict == Unknown ==> c.timed && s.timedOut
  {
    EventListsVerdict(model, history, ids, ops, parts);
    ScheduleVerdict(model, EventLists(history, parts), placing, c, actions, s);
  }

  // Whatever the schedule, checking key by key decides the whole history.
  lemma EveryKeyedEventScheduleDecides<S(!new), I(!new), O(!new), K(!new), V>(
      model: Model<S, I, O>, key: I -> K, view: (S, K) -> V, history: seq<Event<I, O>>,
      ids: seq<nat>, ops: seq<Operation<I, O>>, parts: seq<seq<nat>>,
      placing: seq<nat>, c: Config, actions: seq<Action>, s: State)
    requires WellFormedEvents(history) && |history| < NONE && DescribesEvents(history, ids, ops)
    requires KeyLocal(model, key, view) && OrderedKeyParts(history, key, parts)
    requires EventParts(history, Some(parts)) && Searches(model, EventLists(history, Some(parts)), placing, c)
    requires Reaches(c, actions, s) && s.main.Reported?
    ensures s.main.verdict == Ok ==> Linearizable(model, ops)
    ensures s.main.verdict == Illegal ==> !Linearizable(model, ops)
    ensures s.main.verdict == Unknown ==> c.timed && s.timedOut
  {
    EventListsDecide(model, key, view, history, ids, ops, parts);
    ScheduleVerdict(model, EventLists(history, Some(parts)), placing, c, actions, s);
  }

  // And exactly these verdicts are reported: the right one, and with a timer Unknown.
  lemma KeyedEventVerdictsExact<S(!new), I(!new), O(!new), K(!new), V>(
      model: Model<S, I, O>, key: I -> K, view: (S, K) -> V, history: seq<Event<I, O>>,
      ids: seq<nat>, ops: seq<Operation<I, O>>, parts: seq<seq<nat>>, placing: seq<nat>, c: Config, v: CheckResult)
    requires WellFormedEvents(history) && |history| < NONE && DescribesEvents(history, ids, ops)
    requires KeyLocal(model, key, view) && OrderedKeyParts(history, key, parts)
    requires EventParts(history, Some(parts)) && Searches(model, EventLists(history, Some(parts)), placing, c)
    ensures Reports(c, v) <==> v == (if Linearizable(model, ops) then Ok else Illegal) || (c.timed && v == Unknown)
  {
    EventListsDecide(model, key, view, history, ids, ops, parts);
    ScheduleVerdictsExact(model, EventLists(history, Some(parts)), placing, c, v);
  }

  // ----- representation independence -----

  // Renaming the ids one to one changes nothing the search sees.
  lemma {:induction false} DedupRenamed(ids: seq<nat>, renamed: seq<nat>, rename: nat -> nat)
    requires |renamed| == |ids| && forall i :: 0 <= i < |ids| ==> renamed[i] == rename(ids[i])
    requires forall a, b :: rename(a) == rename(b) ==> a == b
    ensures |Dedup(renamed)| == |Dedup(ids)|
    ensures forall k :: 0 <= k < |Dedup(ids)| ==> Dedup(renamed)[k] == rename(Dedup(ids)[k])
  {
    if ids != [] {
      var n := |ids| - 1;
      DedupRenamed(ids[..n], renamed[..n], rename);
      var before, before' := Dedup(ids[..n]), Dedup(renamed[..n]);
      assert ids[n] in before <==> renamed[n] in before' by {
        if ids[n] in before {
          var k :| 0 <= k < |before| && before[k] == ids[n];
          assert before'[k] == renamed[n];
        }
        if renamed[n] in before' {
          var k :| 0 <= k < |before'| && before'[k] == renamed[n];
          assert before[k] == ids[n];
        }
      }
    }
  }

  function WithIds<I, O>(events: seq<Event<I, O>>, rename: nat -> nat): seq<Event<I, O>> {
    seq(|events|, i requires 0 <= i < |events| => events[i].(id := rename(events[i].id)))
  }

  lemma RenamingIsInvisible<I, O>(events: seq<Event<I, O>>, rename: nat -> nat)
    requires forall a, b :: rename(a) == rename(b) ==> a == b
    ensures Renumbered(WithIds(events, rename)) == Renumbered(events)
  {
    var other := WithIds(events, rename);
    var ids, ids' := Ids(events), Ids(other);
    DedupRenamed(ids, ids', rename);
    DedupMeans(ids);
    DedupMeans(ids');
    forall i | 0 <= i < |events|
      ensures NewId(ids', other[i].id) == NewId(ids, events[i].id)
    {
      assert ids[i] in ids && ids'[i] in ids';
      var k := PlaceOf(Dedup(ids), ids[i]);
      assert Dedup(ids')[k] == ids'[i];
    }
  }

  // Only the order of the time stamps matters.
  lemma ClockIsInvisible<S, I, O>(
      m: Model<S, I, O>, a: seq<Operation<I, O>>, b: seq<Operation<I, O>>, clock: nat -> nat)
    requires forall s, t :: s < t <==> clock(s) < clock(t)
    requires |b| == |a| && forall x :: 0 <= x < |a| ==>
               b[x] == a[x].(call := clock(a[x].call), returnTime := clock(a[x].returnTime))
    ensures Linearizable(m, a) <==> Linearizable(m, b)
  {
    forall x, y | 0 <= x < |a| && 0 <= y < |a|
      ensures Precedes(a, x, y) <==> Precedes(b, x, y)
    {
      assert a[x].returnTime < a[y].call <==> clock(a[x].returnTime) < clock(a[y].call);
    }
    AlikeVerdict(m, a, b);
  }

  function EventOf<I, O>(ops: seq<Operation<I, O>>, e: Entry<I, O>): Event<I, O>
    requires e.id < |ops|
  {
    if e.value.Call? then Event(ops[e.id].clientId, CallEvent, Some(ops[e.id].input), None, e.id)
    else Event(ops[e.id].clientId, ReturnEvent, None, Some(ops[e.id].output), e.id)
  }

  ghost predicate TimeSorted<I, O>(ops: seq<Operation<I, O>>, events: seq<Event<I, O>>) {
    && |events| == |EntriesOf(ops)|
    && forall i :: 0 <= i < |events| ==> EntriesOf(ops)[i].id < |ops| && events[i] == EventOf(ops, EntriesOf(ops)[i])
  }

  // `ops_to_events_sorted_by_time`
  method OpsToEventsSortedByTime<I, O>(ops: seq<Operation<I, O>>) returns (events: seq<Event<I, O>>)
    ensures TimeSorted(ops, events)
    ensures forall i :: 0 <= i < |events| ==>
              events[i].id < |ops| && events[i].clientId == ops[events[i].id].clientId
  {
    EntriesArrange(ops);
    var entries := MakeEntries(ops);
    events := [];
    for i := 0 to |entries|
      invariant |events| == i
      invariant forall k :: 0 <= k < i ==> entries[k].id < |ops| && events[k] == EventOf(ops, entries[k])
    {
      assert FromHistory(ops, entries[i]);
      events := events + [EventOf(ops, entries[i])];
    }
  }

  // Events made one by one from entries.
  ghost predicate EventForm<I, O>(
      ops: seq<Operation<I, O>>, entries: seq<Entry<I, O>>, placed: seq<Operation<I, O>>, events: seq<Event<I, O>>)
  {
    && |placed| == |ops| && Describes(entries, placed) && |events| == |entries|
    && (forall x :: 0 <= x < |ops| ==> placed[x].input == ops[x].input && placed[x].output == ops[x].output)
    && forall i :: 0 <= i < |events| ==> entries[i].id < |ops| && events[i] == EventOf(ops, entries[i])
  }

  lemma EventFormPair<I, O>(
      ops: seq<Operation<I, O>>, entries: seq<Entry<I, O>>, placed: seq<Operation<I, O>>,
      events: seq<Event<I, O>>, x: nat)
    requires EventForm(ops, entries, placed, events) && x < |placed|
    ensures EventPair(events, x, placed[x])
  {
    PairFacts(entries, placed, x);
  }

  lemma EventFormAt<I, O>(
      ops: seq<Operation<I, O>>, entries: seq<Entry<I, O>>, placed: seq<Operation<I, O>>,
      events: seq<Event<I, O>>, i: nat)
    requires EventForm(ops, entries, placed, events) && i < |events|
    ensures HasPayload(events[i]) && events[i].id < |ops| == |placed|
    ensures EventPair(events, events[i].id, placed[events[i].id])
    ensures i == if events[i].kind.CallEvent? then placed[events[i].id].call else placed[events[i].id].returnTime
  {
    EntryFacts(entries, placed, i);
    EventFormPair(ops, entries, placed, events, entries[i].id);
  }

  lemma EventFormWellFormed<I, O>(
      ops: seq<Operation<I, O>>, entries: seq<Entry<I, O>>, placed: seq<Operation<I, O>>, events: seq<Event<I, O>>)
    requires EventForm(ops, entries, placed, events)
    ensures WellFormedEvents(events)
  {
    hide EventForm;
    forall i | 0 <= i < |events|
      ensures HasPayload(events[i]) && HasPartner(events, i)
    {
      EventFormAt(ops, entries, placed, events, i);
      var op := placed[events[i].id];
      assert events[op.call].id == events[op.returnTime].id == events[i].id;
    }
    forall i, j | 0 <= i < j < |events| && events[i].id == events[j].id
      ensures events[i].kind.CallEvent? && events[j].kind.ReturnEvent?
    {
      EventFormAt(ops, entries, placed, events, i);
      EventFormAt(ops, entries, placed, events, j);
    }
  }

  // The event form of a history is well-formed and stands for operations with the same real-time order.
  lemma TimeSortedDescribes<I, O>(ops: seq<Operation<I, O>>, events: seq<Event<I, O>>)
    returns (ids: seq<nat>, placed: seq<Operation<I, O>>)
    requires WellFormed(ops) && TimeSorted(ops, events)
    ensures WellFormedEvents(events) && DescribesEvents(events, ids, placed) && Alike(placed, ops)
  {
    var entries := EntriesOf(ops);
    EntriesArrange(ops);
    EntriesEncodeRealTime(entries, ops);
    placed := OperationsOf(entries);
    OperationsDescribed(entries);
    EventFormWellFormed(ops, entries, placed, events);
    ids := seq(|ops|, x requires 0 <= x < |ops| => x);
    hide EntriesOf, Arranges, WellFormedEntries, OperationsOf, TimeSorted, EventForm, WellFormedEvents;
    forall i | 0 <= i < |events|
      ensures events[i].id in ids
    {
      EventFormAt(ops, entries, placed, events, i);
      assert ids[events[i].id] == events[i].id;
    }
    forall x | 0 <= x < |placed|
      ensures EventPair(events, ids[x], placed[x])
    {
      EventFormPair(ops, entries, placed, events, x);
    }
  }

  // Checking the time-sorted event form of a history answers for the history, as checking its operations does.
  method CheckAsEvents<S(==, !new), I, O>(model: Model<S, I, O>, ops: seq<Operation<I, O>>)
    returns (verdict: CheckResult)
    requires WellFormed(ops) && 2 * |ops| < NONE
    ensures verdict == if Linearizable(model, ops) then Ok else Illegal
  {
    var events := OpsToEventsSortedByTime(ops);
    ghost var ids, placed := TimeSortedDescribes(ops, events);
    EntriesVerdict(model, ops);
    verdict := CheckWholeEvents(model, events, ids, placed);
    AlikeVerdict(model, placed, ops);
  }
}
