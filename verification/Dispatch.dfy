/** Running all partitions on one thread: `check_parallel`. */
module Dispatch {
  import opened Sequences
  import opened Specification
  import opened Histories
  import opened Entries
  import opened Arena
  import opened Search
  import opened Protocol
  import opened Outcomes

  const SEQUENTIAL_THRESHOLD := 2000

  // Entry lists the search accepts.
  ghost predicate Runnable<I, O>(partitions: seq<seq<Entry<I, O>>>) {
    forall p :: 0 <= p < |partitions| ==> WellFormedEntries(partitions[p]) && |partitions[p]| < NONE
  }

  ghost predicate PartitionOk<S, I, O>(model: Model<S, I, O>, entries: seq<Entry<I, O>>)
    requires WellFormedEntries(entries)
  {
    Linearizable(model, OperationsOf(entries))
  }

  ghost predicate AllOk<S, I, O>(model: Model<S, I, O>, partitions: seq<seq<Entry<I, O>>>)
    requires Runnable(partitions)
  {
    forall p :: 0 <= p < |partitions| ==> PartitionOk(model, partitions[p])
  }

  // Nobody unsets the kill flag.
  ghost predicate Monotone(kill: nat -> bool) {
    forall j, k :: j <= k && kill(j) ==> kill(k)
  }

  function TotalEntries<T>(partitions: seq<seq<T>>): nat {
    if partitions == [] then 0 else TotalEntries(partitions[..|partitions| - 1]) + |partitions[|partitions| - 1]|
  }

  // ----- ordering the partitions -----

  predicate Misplaced(x: nat, y: nat, ascending: bool) {
    if ascending then x > y else x < y
  }

  predicate InOrder<T>(items: seq<seq<T>>, ascending: bool) {
    forall i, j :: 0 <= i < j < |items| ==> !Misplaced(|items[i]|, |items[j]|, ascending)
  }

  function InsertAt<T>(items: seq<T>, at: nat, item: T): seq<T>
    requires at <= |items|
  {
    items[..at] + [item] + items[at..]
  }

  lemma InsertInOrder<T>(items: seq<seq<T>>, at: nat, item: seq<T>, ascending: bool)
    requires InOrder(items, ascending) && at <= |items|
    requires forall i :: at <= i < |items| ==> Misplaced(|items[i]|, |item|, ascending)
    requires at > 0 ==> !Misplaced(|items[at - 1]|, |item|, ascending)
    ensures InOrder(InsertAt(items, at, item), ascending)
  {
    forall i | 0 <= i < at
      ensures !Misplaced(|items[i]|, |item|, ascending)
    {
      assert i < at - 1 ==> !Misplaced(|items[i]|, |items[at - 1]|, ascending);
    }
    forall i | at <= i < |items|
      ensures !Misplaced(|item|, |items[i]|, ascending)
    {
    }
  }

  lemma {:induction false} InsertTotal<T>(items: seq<seq<T>>, at: nat, item: seq<T>)
    requires at <= |items|
    ensures TotalEntries(InsertAt(items, at, item)) == TotalEntries(items) + |item|
    decreases |items|
  {
    var all, n := InsertAt(items, at, item), |items|;
    if at == n {
      assert all[..n] == items;
    } else {
      InsertTotal(items[..n - 1], at, item);
      assert all[..n] == InsertAt(items[..n - 1], at, item) && all[n] == items[n - 1];
    }
  }

  lemma InsertPlacing(placing: seq<nat>, n: nat, at: nat)
    requires IsPermutation(placing, n) && at <= n
    ensures IsPermutation(InsertAt(placing, at, n), n + 1)
  {
  }

  lemma InsertGathered<T>(items: seq<T>, placing: seq<nat>, n: nat, at: nat)
    requires IsPermutation(placing, n) && n < |items| && at <= n
    requires InRange(placing, |items|) && InRange(InsertAt(placing, at, n), |items|)
    ensures InsertAt(Gather(items, placing), at, items[n]) == Gather(items, InsertAt(placing, at, n))
  {
  }

  // `sort_unstable_by_key` by length: some arrangement with the lengths in order.
  method SortByLength<T>(items: seq<seq<T>>, ascending: bool) returns (sorted: seq<seq<T>>, ghost placing: seq<nat>)
    ensures IsPermutation(placing, |items|) && sorted == Gather(items, placing)
    ensures forall i, j :: 0 <= i < j < |sorted| ==>
              if ascending then |sorted[i]| <= |sorted[j]| else |sorted[i]| >= |sorted[j]|
    ensures TotalEntries(sorted) == TotalEntries(items)
  {
    sorted, placing := [], [];
    for n := 0 to |items|
      invariant IsPermutation(placing, n) && sorted == Gather(items, placing)
      invariant InOrder(sorted, ascending)
      invariant TotalEntries(sorted) == TotalEntries(items[..n])
    {
      hide IsPermutation, InOrder, InsertAt, Gather;
      assert items[..n + 1][..n] == items[..n];
      assert InRange(placing, |items|) && |placing| == |sorted| == n by { PlacingRange(items, placing, n); }
      var at := n;
      while at > 0 && Misplaced(|sorted[at - 1]|, |items[n]|, ascending)
        invariant at <= n
        invariant forall i :: at <= i < n ==> Misplaced(|sorted[i]|, |items[n]|, ascending)
      {
        at := at - 1;
      }
      InsertInOrder(sorted, at, items[n], ascending);
      InsertTotal(sorted, at, items[n]);
      InsertPlacing(placing, n, at);
      PlacingRange(items, InsertAt(placing, at, n), n + 1);
      InsertGathered(items, placing, n, at);
      sorted, placing := InsertAt(sorted, at, items[n]), InsertAt(placing, at, n);
    }
    assert items[..|items|] == items;
  }

  lemma PlacingRange<T>(items: seq<T>, placing: seq<nat>, n: nat)
    requires IsPermutation(placing, n) && n <= |items|
    ensures InRange(placing, |items|) && |placing| == |Gather(items, placing)| == n
  {
  }

  lemma RearrangedOk<S, I, O>(model: Model<S, I, O>, partitions: seq<seq<Entry<I, O>>>, placing: seq<nat>)
    requires Runnable(partitions) && IsPermutation(placing, |partitions|)
    ensures Runnable(Gather(partitions, placing))
    ensures AllOk(model, Gather(partitions, placing)) <==> AllOk(model, partitions)
  {
    var sorted := Gather(partitions, placing);
    PermutationLists(placing, |partitions|);
    assert forall q :: 0 <= q < |sorted| ==> sorted[q] == partitions[placing[q]];
    if AllOk(model, sorted) {
      forall p | 0 <= p < |partitions|
        ensures PartitionOk(model, partitions[p])
      {
        assert p in placing;
        var q :| 0 <= q < |placing| && placing[q] == p;
        assert PartitionOk(model, sorted[q]);
      }
    }
  }

  // The step system that searches these entry lists, arranged in any order.
  ghost predicate Searches<S, I, O>(
      model: Model<S, I, O>, lists: seq<seq<Entry<I, O>>>, placing: seq<nat>, c: Config)
  {
    && Runnable(lists) && IsPermutation(placing, |lists|)
    && Proper(c) && |c.linearizable| == |lists|
    && forall p :: 0 <= p < |lists| ==> c.linearizable[p] == PartitionOk(model, lists[placing[p]])
  }

  // Over every schedule of workers, timer and cancellation, on every dispatch path and with the
  // partitions in any order, the reported verdict is right about all the lists.
  lemma ScheduleVerdict<S, I, O>(
      model: Model<S, I, O>, lists: seq<seq<Entry<I, O>>>, placing: seq<nat>,
      c: Config, actions: seq<Action>, s: State)
    requires Searches(model, lists, placing, c) && Reaches(c, actions, s) && s.main.Reported?
    ensures s.main.verdict == Ok ==> AllOk(model, lists)
    ensures s.main.verdict == Illegal ==> !AllOk(model, lists)
    ensures s.main.verdict == Unknown ==> c.timed && s.timedOut
  {
    RearrangedOk(model, lists, placing);
    VerdictIsRight(c, actions, s);
    var sorted := Gather(lists, placing);
    assert forall p :: 0 <= p < |sorted| ==> (c.linearizable[p] <==> PartitionOk(model, sorted[p]));
  }

  // Exactly these verdicts are reported: by every schedule one of them, and each by some schedule.
  lemma ScheduleVerdictsExact<S, I, O>(
      model: Model<S, I, O>, lists: seq<seq<Entry<I, O>>>, placing: seq<nat>, c: Config, v: CheckResult)
    requires Searches(model, lists, placing, c)
    ensures Reports(c, v) <==> v == (if AllOk(model, lists) then Ok else Illegal) || (c.timed && v == Unknown)
  {
    VerdictsExact(c, v);
    RearrangedOk(model, lists, placing);
    var sorted := Gather(lists, placing);
    assert forall p :: 0 <= p < |sorted| ==> (c.linearizable[p] <==> PartitionOk(model, sorted[p]));
  }

  // Every dispatch path has its step system.
  lemma SearchesArise<S, I, O>(model: Model<S, I, O>, lists: seq<seq<Entry<I, O>>>, path: Path, timed: bool)
    returns (placing: seq<nat>, c: Config)
    requires Runnable(lists) && (path == Single ==> |lists| == 1)
    ensures Searches(model, lists, placing, c) && c.path == path && c.timed == timed
  {
    placing := seq(|lists|, p requires 0 <= p < |lists| => p);
    var truth := seq(|lists|, p requires 0 <= p < |lists| && WellFormedEntries(lists[p]) =>
      PartitionOk(model, lists[p]));
    c := Config(truth, path, timed);
  }

  lemma PartFits(part: seq<nat>, n: nat)
    requires InRange(part, n) && Distinct(part)
    ensures |part| <= n
  {
    DistinctSize(part);
    forall x | x in Members(part)
      ensures x in Below(n)
    {
      var i :| 0 <= i < |part| && part[i] == x;
    }
    SubsetBound(Members(part), Below(n));
  }

  // ----- running them -----

  // How often the flag is loaded at the least by a search that succeeds on these entries.
  function LeastLoads<I, O>(entries: seq<Entry<I, O>>): nat {
    if entries == [] then 0 else |entries| / 2 + 1
  }

  // The same for all lists, with one more load before each.
  function LeastLoadsOfAll<I, O>(partitions: seq<seq<Entry<I, O>>>): nat {
    if partitions == [] then 0
    else
      var n := |partitions| - 1;
      LeastLoadsOfAll(partitions[..n]) + 1 + LeastLoads(partitions[n])
  }

  // `check_single`, and then one more load: a negative answer is definitive when the flag is still unset.
  method RunPartition<S(==, !new), I, O>(
      model: Model<S, I, O>, entries: seq<Entry<I, O>>, kill: nat -> bool, clock: nat)
    returns (ok: bool, definitive: bool, now: nat)
    requires WellFormedEntries(entries) && |entries| < NONE && Monotone(kill)
    ensures clock <= now
    ensures ok ==> PartitionOk(model, entries) && Quiet(kill, clock, now)
    ensures definitive ==> !ok && !PartitionOk(model, entries) && Quiet(kill, clock, now)
    ensures !ok && !definitive ==> !Quiet(kill, clock, now)
    ensures ok ==> LeastLoads(entries) <= now - clock
    ensures kill(clock) ==> if entries == [] then ok && now == clock else !ok && now == clock + 2
  {
    ghost var order, expanded, lifts;
    definitive := false;
    ok, now, order, expanded, lifts := CheckSingle(model, entries, kill, clock);
    if !ok {
      var killed := kill(now);
      now := now + 1;
      if killed { assert kill(now - 1); }
      definitive := !killed;
    } else if entries != [] {
      OperationsCount(entries);
    }
  }

  lemma OperationsCount<I, O>(entries: seq<Entry<I, O>>)
    requires WellFormedEntries(entries)
    ensures |OperationsOf(entries)| == |entries| / 2
  {
  }

  lemma NothingLoaded(kill: nat -> bool, clock: nat)
    ensures Quiet(kill, clock, clock)
    ensures kill(clock) ==> forall now :: clock < now ==> !Quiet(kill, clock, now)
  {
  }

  // Once the flag is set, it has not always been unset.
  lemma LoadedTrue(kill: nat -> bool, clock: nat, now: nat)
    requires clock <= now && kill(now)
    ensures !Quiet(kill, clock, now + 1)
  {
    assert kill(now + 1 - 1);
  }

  // As long as it is not set, it has always been unset.
  lemma LoadedFalse(kill: nat -> bool, clock: nat, now: nat)
    requires Monotone(kill) && clock <= now && !kill(now)
    ensures !kill(clock) && Quiet(kill, clock, now) && Quiet(kill, clock, now + 1)
    ensures forall later :: now < later ==> (Quiet(kill, now + 1, later) <==> Quiet(kill, clock, later))
  {
  }

  // One partition after the other. On the pool a task that finds the flag set at its start gives up
  // without claiming anything; otherwise the whole run gives up.
  method RunInOrder<S(==, !new), I, O>(
      model: Model<S, I, O>, partitions: seq<seq<Entry<I, O>>>, kill: nat -> bool, clock: nat, pooled: bool)
    returns (ok: bool, definitiveIllegal: bool, now: nat)
    requires Runnable(partitions) && Monotone(kill)
    ensures clock <= now
    ensures ok && Quiet(kill, clock, now) ==> AllOk(model, partitions)
    ensures ok && !Quiet(kill, clock, now) ==> pooled
    ensures definitiveIllegal ==> !ok && !AllOk(model, partitions) && Quiet(kill, clock, now)
    ensures !ok && !definitiveIllegal ==> !Quiet(kill, clock, now)
    ensures ok && Quiet(kill, clock, now) ==> LeastLoadsOfAll(partitions) <= now - clock
    ensures kill(clock) && partitions != [] ==>
              ok == pooled && now == clock + if pooled then |partitions| else 1
  {
    hide Quiet, Monotone, PartitionOk, WellFormedEntries, LeastLoads;
    now, definitiveIllegal := clock, false;
    NothingLoaded(kill, clock);
    for p := 0 to |partitions|
      invariant !definitiveIllegal && clock <= now
      invariant Quiet(kill, clock, now) ==> forall q :: 0 <= q < p ==> PartitionOk(model, partitions[q])
      invariant Quiet(kill, clock, now) ==> LeastLoadsOfAll(partitions[..p]) <= now - clock
      invariant !Quiet(kill, clock, now) ==> pooled
      invariant kill(clock) ==> now == clock + p
    {
      assert partitions[..p + 1][..p] == partitions[..p];
      var killed := kill(now);
      now := now + 1;
      if killed {
        LoadedTrue(kill, clock, now - 1);
        if !pooled {
          return false, false, now;
        }
      } else {
        LoadedFalse(kill, clock, now - 1);
        ok, definitiveIllegal, now := RunPartition(model, partitions[p], kill, now);
        if !ok {
          assert definitiveIllegal ==> !PartitionOk(model, partitions[p]);
          return;
        }
      }
    }
    assert partitions[..|partitions|] == partitions;
    ok := true;
  }

  // Does `check_parallel` report success although the flag was set before it started? Only if there is
  // nothing to search, or if every task on the pool gives up.
  predicate OkWhenKilled<I, O>(partitions: seq<seq<Entry<I, O>>>) {
    if |partitions| <= 1 then partitions == [] || partitions[0] == []
    else TotalEntries(partitions) >= SEQUENTIAL_THRESHOLD
  }

  // The dispatch of two or more partitions: little work runs in order, shortest first; otherwise the pool
  // gets the longest first.
  method Arrange<I, O>(partitions: seq<seq<Entry<I, O>>>)
    returns (sorted: seq<seq<Entry<I, O>>>, pooled: bool, ghost placing: seq<nat>)
    ensures IsPermutation(placing, |partitions|) && sorted == Gather(partitions, placing)
    ensures pooled <==> TotalEntries(partitions) >= SEQUENTIAL_THRESHOLD
    ensures forall i, j :: 0 <= i < j < |sorted| ==>
              if pooled then |sorted[i]| >= |sorted[j]| else |sorted[i]| <= |sorted[j]|
  {
    sorted, placing := SortByLength(partitions, true);
    pooled := TotalEntries(sorted) >= SEQUENTIAL_THRESHOLD;
    if pooled {
      ghost var first := placing;
      sorted, placing := SortByLength(sorted, false);
      GatherTwice(partitions, first, placing);
      placing := Gather(first, placing);
    }
  }

  lemma GatherTwice<T>(items: seq<T>, first: seq<nat>, second: seq<nat>)
    requires IsPermutation(first, |items|) && IsPermutation(second, |items|)
    ensures IsPermutation(Gather(first, second), |items|)
    ensures Gather(Gather(items, first), second) == Gather(items, Gather(first, second))
  {
  }

  // `check_parallel` with a timer that may set the flag at any moment. The own store of the flag
  // after a negative answer is the last thing done, so no own load sees it.
  method CheckParallel<S(==, !new), I, O>(
      model: Model<S, I, O>, partitions: seq<seq<Entry<I, O>>>, kill: nat -> bool)
    returns (ok: bool, definitiveIllegal: bool, now: nat)
    requires Runnable(partitions) && Monotone(kill)
    ensures ok && Quiet(kill, 0, now) ==> AllOk(model, partitions)
    ensures definitiveIllegal ==> !ok && !AllOk(model, partitions) && Quiet(kill, 0, now)
    ensures !ok && !definitiveIllegal ==> !Quiet(kill, 0, now)
    ensures kill(0) ==> !definitiveIllegal && ok == OkWhenKilled(partitions)
  {
    now, definitiveIllegal := 0, false;
    if partitions == [] {
      return true, false, now;
    }
    if |partitions| == 1 {
      ok, definitiveIllegal, now := RunPartition(model, partitions[0], kill, now);
      assert definitiveIllegal ==> !PartitionOk(model, partitions[0]);
      return;
    }
    var sorted, pooled;
    ghost var placing;
    sorted, pooled, placing := Arrange(partitions);
    RearrangedOk(model, partitions, placing);
    ok, definitiveIllegal, now := RunInOrder(model, sorted, kill, now, pooled);
  }
}
