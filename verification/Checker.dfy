/** The public entry points for operation histories, and their verdict. */
module Checker {
  import opened Sequences
  import opened Wrappers
  import opened Specification
  import opened Entries
  import opened Arena
  import opened Histories
  import opened Compositionality
  import opened Dispatch
  import opened Search
  import opened Protocol
  import opened Outcomes
  import opened PowerSet
  import opened NdCompositionality
  import KeyValue

  // What is checked: the whole history, or every part of it.
  ghost predicate Meets<S, I, O>(
      model: Model<S, I, O>, history: seq<Operation<I, O>>, parts: Option<seq<seq<nat>>>)
    requires parts.Some? ==> IsPartition(parts.value, |history|)
  {
    match parts
    case None => Linearizable(model, history)
    case Some(ps) => forall p :: 0 <= p < |ps| ==> Linearizable(model, Gather(history, ps[p]))
  }

  ghost function EntryLists<I, O>(history: seq<Operation<I, O>>, parts: Option<seq<seq<nat>>>): seq<seq<Entry<I, O>>>
    requires parts.Some? ==> IsPartition(parts.value, |history|)
  {
    match parts
    case None => [EntriesOf(history)]
    case Some(ps) => seq(|ps|, p requires 0 <= p < |ps| => EntriesOf(Gather(history, ps[p])))
  }

  // The searches on the entry lists answer for the operations.
  lemma EntryListsVerdict<S, I, O>(
      model: Model<S, I, O>, history: seq<Operation<I, O>>, parts: Option<seq<seq<nat>>>)
    requires WellFormed(history) && 2 * |history| < NONE
    requires parts.Some? ==> IsPartition(parts.value, |history|)
    ensures Runnable(EntryLists(history, parts))
    ensures AllOk(model, EntryLists(history, parts)) <==> Meets(model, history, parts)
    ensures forall p :: 0 <= p < |EntryLists(history, parts)| && parts.Some? ==>
              (PartitionOk(model, EntryLists(history, parts)[p])
               <==> Linearizable(model, Gather(history, parts.value[p])))
  {
    var lists := EntryLists(history, parts);
    match parts
    case None =>
      EntriesVerdict(model, history);
      assert AllOk(model, lists) <==> PartitionOk(model, lists[0]);
    case Some(ps) =>
      forall p | 0 <= p < |ps|
        ensures WellFormedEntries(lists[p]) && |lists[p]| < NONE
        ensures PartitionOk(model, lists[p]) <==> Linearizable(model, Gather(history, ps[p]))
      {
        PartFits(ps[p], |history|);
        EntriesVerdict(model, Gather(history, ps[p]));
      }
  }

  // `check_operations` on one thread. `kill(k)` is the k-th load of the shared flag, of which there are
  // `now`, and `timedOut` the final load of the other; only the timer sets them from outside, and it
  // sets `timedOut` first.
  method CheckOperations<S(==, !new), I, O>(
      model: Model<S, I, O>, history: seq<Operation<I, O>>, parts: Option<seq<seq<nat>>>,
      kill: nat -> bool, timedOut: bool)
    returns (verdict: CheckResult, ghost now: nat)
    requires WellFormed(history) && 2 * |history| < NONE
    requires parts.Some? ==> IsPartition(parts.value, |history|)
    requires Monotone(kill) && (!timedOut ==> forall k :: !kill(k))
    ensures verdict == if !Quiet(kill, 0, now) then Unknown
                       else if !Meets(model, history, parts) then Illegal
                       else if timedOut then Unknown
                       else Ok
    ensures kill(0) ==> verdict == Unknown
  {
    var partitions: seq<seq<Entry<I, O>>> := [];
    match parts {
      case None =>
        var entries := MakeEntries(history);
        partitions := [entries];
      case Some(ps) =>
        for p := 0 to |ps|
          invariant |partitions| == p
          invariant forall q :: 0 <= q < p ==> partitions[q] == EntriesOf(Gather(history, ps[q]))
        {
          var entries := MakeEntriesFromIndices(history, ps[p]);
          partitions := partitions + [entries];
        }
    }
    assert partitions == EntryLists(history, parts);
    EntryListsVerdict(model, history, parts);
    var ok, definitiveIllegal;
    ok, definitiveIllegal, now := CheckParallel(model, partitions, kill);
    verdict := ToCheckResult(ok, timedOut, definitiveIllegal);
  }

  // Whatever the schedule, the verdict reported for a history is right.
  lemma EveryScheduleIsRight<S, I, O>(
      model: Model<S, I, O>, history: seq<Operation<I, O>>, parts: Option<seq<seq<nat>>>,
      placing: seq<nat>, c: Config, actions: seq<Action>, s: State)
    requires WellFormed(history) && 2 * |history| < NONE
    requires parts.Some? ==> IsPartition(parts.value, |history|)
    requires Searches(model, EntryLists(history, parts), placing, c) && Reaches(c, actions, s) && s.main.Reported?
    ensures s.main.verdict == Ok ==> Meets(model, history, parts)
    ensures s.main.verdict == Illegal ==> !Meets(model, history, parts)
    ensures s.main.verdict == Unknown ==> c.timed && s.timedOut
  {
    EntryListsVerdict(model, history, parts);
    ScheduleVerdict(model, EntryLists(history, parts), placing, c, actions, s);
  }

  // Whatever the schedule, checking key by key decides the whole history.
  lemma EveryKeyedScheduleDecides<S(!new), I(!new), O(!new), K(!new), V>(
      model: Model<S, I, O>, key: I -> K, view: (S, K) -> V, history: seq<Operation<I, O>>, parts: seq<seq<nat>>,
      placing: seq<nat>, c: Config, actions: seq<Action>, s: State)
    requires WellFormed(history) && 2 * |history| < NONE
    requires KeyLocal(model, key, view) && IsPartition(parts, |history|) && KeysApart(history, key, parts)
    requires Searches(model, EntryLists(history, Some(parts)), placing, c)
    requires Reaches(c, actions, s) && s.main.Reported?
    ensures s.main.verdict == Ok ==> Linearizable(model, history)
    ensures s.main.verdict == Illegal ==> !Linearizable(model, history)
    ensures s.main.verdict == Unknown ==> c.timed && s.timedOut
  {
    PCompositionality(model, key, view, history, parts);
    EveryScheduleIsRight(model, history, Some(parts), placing, c, actions, s);
  }

  // And exactly these verdicts are reported: the right one, and with a timer Unknown.
  lemma KeyedVerdictsExact<S(!new), I(!new), O(!new), K(!new), V>(
      model: Model<S, I, O>, key: I -> K, view: (S, K) -> V, history: seq<Operation<I, O>>, parts: seq<seq<nat>>,
      placing: seq<nat>, c: Config, v: CheckResult)
    requires WellFormed(history) && 2 * |history| < NONE
    requires KeyLocal(model, key, view) && IsPartition(parts, |history|) && KeysApart(history, key, parts)
    requires Searches(model, EntryLists(history, Some(parts)), placing, c)
    ensures Reports(c, v)
       <==> v == (if Linearizable(model, history) then Ok else Illegal) || (c.timed && v == Unknown)
  {
    PCompositionality(model, key, view, history, parts);
    EntryListsVerdict(model, history, Some(parts));
    ScheduleVerdictsExact(model, EntryLists(history, Some(parts)), placing, c, v);
  }

  // Without a timeout, checking a model key by key decides linearizability of the whole history.
  method CheckKeyed<S(==, !new), I(!new), O(!new), K(!new), V>(
      model: Model<S, I, O>, ghost key: I -> K, ghost view: (S, K) -> V,
      history: seq<Operation<I, O>>, parts: seq<seq<nat>>)
    returns (verdict: CheckResult)
    requires WellFormed(history) && 2 * |history| < NONE
    requires KeyLocal(model, key, view) && IsPartition(parts, |history|) && KeysApart(history, key, parts)
    ensures verdict == if Linearizable(model, history) then Ok else Illegal
  {
    PCompositionality(model, key, view, history, parts);
    ghost var now;
    verdict, now := CheckOperations(model, history, Some(parts), _ => false, false);
  }

  // Without a timeout and without partitions the verdict is linearizability.
  method CheckWhole<S(==, !new), I, O>(model: Model<S, I, O>, history: seq<Operation<I, O>>)
    returns (verdict: CheckResult)
    requires WellFormed(history) && 2 * |history| < NONE
    ensures verdict == if Linearizable(model, history) then Ok else Illegal
  {
    ghost var now;
    verdict, now := CheckOperations(model, history, None, _ => false, false);
  }

  method CheckKeyValue(history: seq<Operation<KeyValue.KvInput, int>>) returns (verdict: CheckResult)
    requires WellFormed(history) && 2 * |history| < NONE
    ensures verdict == if Linearizable(KeyValue.KV_MODEL, history) then Ok else Illegal
    ensures verdict == if KeyValue.Explained(history) then Ok else Illegal
  {
    KeyValue.KvVerdict(history);
    var parts := KeyValue.Partition(history);
    KeyValue.KvIsKeyLocal();
    verdict := CheckKeyed(KeyValue.KV_MODEL, KeyValue.KeyOf, KeyValue.Lookup, history, parts);
  }

  // A nondeterministic model, through the power-set adapter.
  method CheckNondeterministic<S(==, !new), I, O>(nd: NdModel<S, I, O>, history: seq<Operation<I, O>>)
    returns (verdict: CheckResult)
    requires WellFormed(history) && 2 * |history| < NONE
    ensures verdict == if AdapterAccepts(nd, history) then Ok else Illegal
  {
    PowerSetVerdict(nd, history);
    verdict := CheckWhole(PowerSetModel(nd), history);
  }

  // The adapter hands on the model's own partition.
  method CheckNondeterministicKeyed<S(==, !new), I(!new), O(!new), K(!new), V(!new)>(
      nd: NdModel<S, I, O>, ghost key: I -> K, ghost view: (S, K) -> V,
      history: seq<Operation<I, O>>, parts: seq<seq<nat>>)
    returns (verdict: CheckResult)
    requires WellFormed(history) && 2 * |history| < NONE
    requires NdKeyLocal(nd, key, view) && Uncorrelated(nd.init, view)
    requires IsPartition(parts, |history|) && KeysApart(history, key, parts)
    ensures verdict == if AdapterAccepts(nd, history) then Ok else Illegal
  {
    PowerSetVerdict(nd, history);
    NdPCompositionality(nd, key, view, history, parts);
    ghost var now;
    verdict, now := CheckOperations(PowerSetModel(nd), history, Some(parts), _ => false, false);
  }
}
