/** From operation histories to entry lists: `make_entries` and its fused form for one partition. */
module Histories {
  import opened Specification
  import opened Entries

  // ----- histories with the same verdict -----

  // Same inputs and outputs, and the same real-time order; the clocks may differ.
  ghost predicate Alike<I, O>(a: seq<Operation<I, O>>, b: seq<Operation<I, O>>) {
    && |a| == |b|
    && (forall x :: 0 <= x < |a| ==> a[x].input == b[x].input && a[x].output == b[x].output)
    && forall x, y :: 0 <= x < |a| && 0 <= y < |a| ==> (Precedes(a, x, y) <==> Precedes(b, x, y))
  }

  lemma {:induction false} AlikeRun<S, I, O>(
      m: Model<S, I, O>, a: seq<Operation<I, O>>, b: seq<Operation<I, O>>, s: S, order: seq<nat>)
    requires Alike(a, b) && InRange(order, |a|)
    ensures Run(m, s, a, order) == Run(m, s, b, order)
    decreases |order|
  {
    if order != [] {
      var next := Step(m, s, a[order[0]]);
      if next.Some? { AlikeRun(m, a, b, next.value, order[1..]); }
    }
  }

  // Only the real-time order of a history matters, not its clock values.
  lemma AlikeVerdict<S, I, O>(m: Model<S, I, O>, a: seq<Operation<I, O>>, b: seq<Operation<I, O>>)
    requires Alike(a, b)
    ensures forall order :: IsLinearization(m, a, order) <==> IsLinearization(m, b, order)
    ensures Linearizable(m, a) <==> Linearizable(m, b)
  {
    forall order
      ensures IsLinearization(m, a, order) <==> IsLinearization(m, b, order)
    {
      if IsPermutation(order, |a|) { AlikeRun(m, a, b, m.init, order); }
    }
  }

  // ----- sorting -----

  // Earlier time first; at equal times calls before returns.
  predicate Before<I, O>(a: Entry<I, O>, b: Entry<I, O>) {
    a.time < b.time || (a.time == b.time && a.value.Call? && b.value.Return?)
  }

  predicate Sorted<I, O>(entries: seq<Entry<I, O>>) {
    forall c, d :: 0 <= c < d < |entries| ==> !Before(entries[d], entries[c])
  }

  // The stable sort `sort_by`, as insertion into a sorted tail.
  function Sort<I, O>(entries: seq<Entry<I, O>>): seq<Entry<I, O>> {
    if entries == [] then [] else Insert(entries[0], Sort(entries[1..]))
  }

  function Insert<I, O>(e: Entry<I, O>, sorted: seq<Entry<I, O>>): seq<Entry<I, O>> {
    if sorted == [] || !Before(sorted[0], e) then [e] + sorted
    else [sorted[0]] + Insert(e, sorted[1..])
  }

  lemma {:induction false} InsertMembers<I, O>(e: Entry<I, O>, sorted: seq<Entry<I, O>>)
    ensures multiset(Insert(e, sorted)) == multiset(sorted) + multiset{e}
    ensures |Insert(e, sorted)| == |sorted| + 1
    ensures forall c :: 0 <= c < |Insert(e, sorted)| ==> Insert(e, sorted)[c] == e || Insert(e, sorted)[c] in sorted
  {
    if !(sorted == [] || !Before(sorted[0], e)) {
      InsertMembers(e, sorted[1..]);
      assert sorted == [sorted[0]] + sorted[1..];
    }
  }

  lemma SortedCons<I, O>(first: Entry<I, O>, rest: seq<Entry<I, O>>)
    requires Sorted(rest) && forall c :: 0 <= c < |rest| ==> !Before(rest[c], first)
    ensures Sorted([first] + rest)
  {
  }

  lemma {:induction false} InsertSorts<I, O>(e: Entry<I, O>, sorted: seq<Entry<I, O>>)
    requires Sorted(sorted)
    ensures Sorted(Insert(e, sorted))
  {
    if sorted == [] || !Before(sorted[0], e) {
      forall c | 0 <= c < |sorted|
        ensures !Before(sorted[c], e)
      {
        assert c > 0 ==> !Before(sorted[c], sorted[0]);
      }
      SortedCons(e, sorted);
    } else {
      var tail := sorted[1..];
      InsertSorts(e, tail);
      InsertMembers(e, tail);
      var rest := Insert(e, tail);
      forall c | 0 <= c < |rest|
        ensures !Before(rest[c], sorted[0])
      {
        if rest[c] != e {
          var d :| 0 <= d < |tail| && tail[d] == rest[c];
          assert sorted[d + 1] == rest[c];
        }
      }
      SortedCons(sorted[0], rest);
    }
  }

  lemma {:induction false} SortSorts<I, O>(entries: seq<Entry<I, O>>)
    ensures Sorted(Sort(entries)) && multiset(Sort(entries)) == multiset(entries)
    ensures |Sort(entries)| == |entries|
  {
    if entries != [] {
      SortSorts(entries[1..]);
      InsertSorts(entries[0], Sort(entries[1..]));
      InsertMembers(entries[0], Sort(entries[1..]));
      assert entries == [entries[0]] + entries[1..];
    }
  }

  // Entries that agree in the sort order keep their relative order: the sort is stable.
  function Ties<I, O>(entries: seq<Entry<I, O>>, key: Entry<I, O>): seq<Entry<I, O>> {
    if entries == [] then []
    else if Tied(entries[0], key) then [entries[0]] + Ties(entries[1..], key)
    else Ties(entries[1..], key)
  }

  predicate Tied<I, O>(a: Entry<I, O>, b: Entry<I, O>) {
    !Before(a, b) && !Before(b, a)
  }

  lemma {:induction false} InsertStable<I, O>(e: Entry<I, O>, sorted: seq<Entry<I, O>>, key: Entry<I, O>)
    ensures Ties(Insert(e, sorted), key) == Ties([e] + sorted, key)
  {
    if !(sorted == [] || !Before(sorted[0], e)) {
      var tail := sorted[1..];
      InsertStable(e, tail, key);
      assert ([e] + tail)[1..] == tail && ([e] + sorted)[1..] == sorted;
      assert ([sorted[0]] + Insert(e, tail))[1..] == Insert(e, tail);
    }
  }

  lemma {:induction false} SortStable<I, O>(entries: seq<Entry<I, O>>, key: Entry<I, O>)
    ensures Ties(Sort(entries), key) == Ties(entries, key)
  {
    if entries != [] {
      SortStable(entries[1..], key);
      InsertStable(entries[0], Sort(entries[1..]), key);
      assert ([entries[0]] + Sort(entries[1..]))[1..] == Sort(entries[1..]);
    }
  }

  // ----- make_entries -----

  function CallEntry<I, O>(ops: seq<Operation<I, O>>, x: nat): Entry<I, O>
    requires x < |ops|
  {
    Entry(x, ops[x].call, Call(ops[x].input))
  }

  function ReturnEntry<I, O>(ops: seq<Operation<I, O>>, x: nat): Entry<I, O>
    requires x < |ops|
  {
    Entry(x, ops[x].returnTime, Return(ops[x].output))
  }

  // A call and a return entry for each of the first n operations.
  function Flatten<I, O>(ops: seq<Operation<I, O>>, n: nat): seq<Entry<I, O>>
    requires n <= |ops|
  {
    if n == 0 then [] else Flatten(ops, n - 1) + [CallEntry(ops, n - 1), ReturnEntry(ops, n - 1)]
  }

  function EntriesOf<I, O>(ops: seq<Operation<I, O>>): seq<Entry<I, O>> {
    Sort(Flatten(ops, |ops|))
  }

  function Gather<T>(items: seq<T>, indices: seq<nat>): seq<T>
    requires InRange(indices, |items|)
  {
    seq(|indices|, i requires 0 <= i < |indices| => items[indices[i]])
  }

  method MakeEntries<I, O>(ops: seq<Operation<I, O>>) returns (entries: seq<Entry<I, O>>)
    ensures entries == EntriesOf(ops)
  {
    entries := [];
    for id := 0 to |ops|
      invariant entries == Flatten(ops, id)
    {
      entries := entries + [CallEntry(ops, id)];
      entries := entries + [ReturnEntry(ops, id)];
    }
    entries := Sort(entries);
  }

  // The fused form for a partition: dense local ids, no intermediate sub-history.
  method MakeEntriesFromIndices<I, O>(history: seq<Operation<I, O>>, indices: seq<nat>)
    returns (entries: seq<Entry<I, O>>)
    requires InRange(indices, |history|)
    ensures entries == EntriesOf(Gather(history, indices))
  {
    entries := [];
    ghost var ops := Gather(history, indices);
    for localId := 0 to |indices|
      invariant entries == Flatten(ops, localId)
    {
      var op := history[indices[localId]];
      entries := entries + [Entry(localId, op.call, Call(op.input))];
      entries := entries + [Entry(localId, op.returnTime, Return(op.output))];
    }
    entries := Sort(entries);
  }

  // ----- the entries encode the history -----

  function FlatAt<I, O>(ops: seq<Operation<I, O>>, c: nat): Entry<I, O>
    requires c < 2 * |ops|
  {
    if c % 2 == 0 then CallEntry(ops, c / 2) else ReturnEntry(ops, c / 2)
  }

  lemma {:induction false} FlattenMembers<I, O>(ops: seq<Operation<I, O>>, n: nat)
    requires n <= |ops|
    ensures |Flatten(ops, n)| == 2 * n
    ensures forall c :: 0 <= c < 2 * n ==> Flatten(ops, n)[c] == FlatAt(ops, c)
  {
    if n > 0 { FlattenMembers(ops, n - 1); }
  }

  // `entries` is some sorted arrangement of the calls and returns of `ops`.
  ghost predicate Arranges<I, O>(entries: seq<Entry<I, O>>, ops: seq<Operation<I, O>>) {
    && Sorted(entries)
    && |entries| == 2 * |ops|
    && (forall c :: 0 <= c < |entries| ==> FromHistory(ops, entries[c]))
    && (forall c, d :: 0 <= c < d < |entries| ==> entries[c] != entries[d])
    && forall x :: 0 <= x < |ops| ==> CallEntry(ops, x) in entries && ReturnEntry(ops, x) in entries
  }

  ghost predicate FromHistory<I, O>(ops: seq<Operation<I, O>>, e: Entry<I, O>) {
    e.id < |ops| && e == if e.value.Call? then CallEntry(ops, e.id) else ReturnEntry(ops, e.id)
  }

  lemma FlattenDistinct<I, O>(ops: seq<Operation<I, O>>)
    ensures forall c, d :: 0 <= c < d < |Flatten(ops, |ops|)| ==> Flatten(ops, |ops|)[c] != Flatten(ops, |ops|)[d]
  {
    FlattenMembers(ops, |ops|);
    hide Flatten;
    forall c, d | 0 <= c < d < 2 * |ops|
      ensures FlatAt(ops, c) != FlatAt(ops, d)
    {
    }
  }

  lemma FlatFromHistory<I, O>(ops: seq<Operation<I, O>>, c: nat)
    requires c < 2 * |ops|
    ensures FromHistory(ops, FlatAt(ops, c))
  {
  }

  lemma EntriesArrange<I, O>(ops: seq<Operation<I, O>>)
    ensures Arranges(EntriesOf(ops), ops)
  {
    var flat, entries := Flatten(ops, |ops|), EntriesOf(ops);
    SortSorts(flat);
    FlattenMembers(ops, |ops|);
    FlattenDistinct(ops);
    SameMembers(flat, entries);
    hide *;
    forall c | 0 <= c < |entries|
      ensures FromHistory(ops, entries[c])
    {
      assert entries[c] in flat;
      var d :| 0 <= d < |flat| && flat[d] == entries[c];
      FlatFromHistory(ops, d);
    }
    forall x | 0 <= x < |ops|
      ensures CallEntry(ops, x) in entries && ReturnEntry(ops, x) in entries
    {
      FlatPair(ops, x);
      assert flat[2 * x] in entries && flat[2 * x + 1] in entries;
    }
    ArrangesIntro(entries, ops);
  }

  lemma FlatPair<I, O>(ops: seq<Operation<I, O>>, x: nat)
    requires x < |ops|
    ensures FlatAt(ops, 2 * x) == CallEntry(ops, x) && FlatAt(ops, 2 * x + 1) == ReturnEntry(ops, x)
  {
  }

  lemma ArrangesIntro<I, O>(entries: seq<Entry<I, O>>, ops: seq<Operation<I, O>>)
    requires Sorted(entries) && |entries| == 2 * |ops|
    requires forall c :: 0 <= c < |entries| ==> FromHistory(ops, entries[c])
    requires forall c, d :: 0 <= c < d < |entries| ==> entries[c] != entries[d]
    requires forall x :: 0 <= x < |ops| ==> CallEntry(ops, x) in entries && ReturnEntry(ops, x) in entries
    ensures Arranges(entries, ops)
  {
  }

  // A permutation of a sequence without repetitions has the same members and no repetitions.
  lemma SameMembers<T>(a: seq<T>, b: seq<T>)
    requires multiset(a) == multiset(b)
    requires forall i, j :: 0 <= i < j < |a| ==> a[i] != a[j]
    ensures forall i :: 0 <= i < |b| ==> b[i] in a
    ensures forall i :: 0 <= i < |a| ==> a[i] in b
    ensures forall i, j :: 0 <= i < j < |b| ==> b[i] != b[j]
  {
    forall i | 0 <= i < |b|
      ensures b[i] in a
    {
      assert b[i] in multiset(b);
    }
    forall i | 0 <= i < |a|
      ensures a[i] in b
    {
      assert a[i] in multiset(a);
    }
    forall i, j | 0 <= i < j < |b|
      ensures b[i] != b[j]
    {
      if b[i] == b[j] {
        CountTwice(b, i, j);
        CountOnce(a, b[i]);
        assert false;
      }
    }
  }

  lemma CountTwice<T>(b: seq<T>, i: nat, j: nat)
    requires i < j < |b| && b[i] == b[j]
    ensures multiset(b)[b[i]] >= 2
  {
    assert b == b[..j] + [b[j]] + b[j + 1..];
    assert b[..j][i] in multiset(b[..j]);
  }

  lemma {:induction false} CountOnce<T>(a: seq<T>, e: T)
    requires forall i, j :: 0 <= i < j < |a| ==> a[i] != a[j]
    ensures multiset(a)[e] <= 1
  {
    if a != [] {
      var init, last := a[..|a| - 1], a[|a| - 1];
      assert a == init + [last];
      CountOnce(init, e);
      if last == e { assert e !in init; }
    }
  }

  lemma ArrangedWellFormed<I, O>(entries: seq<Entry<I, O>>, ops: seq<Operation<I, O>>)
    requires WellFormed(ops) && Arranges(entries, ops)
    ensures WellFormedEntries(entries)
  {
    forall c, d | 0 <= c < d < |entries| && entries[c].id == entries[d].id
      ensures entries[c].value.Call? && entries[d].value.Return?
    {
      assert FromHistory(ops, entries[c]) && FromHistory(ops, entries[d]);
      assert ops[entries[c].id].call <= ops[entries[c].id].returnTime;
    }
    forall c | 0 <= c < |entries|
      ensures entries[c].id < |entries| / 2
    {
      assert FromHistory(ops, entries[c]);
    }
    forall x: nat | x < |entries| / 2
      ensures HasCall(entries, x) && HasReturn(entries, x)
    {
      assert CallEntry(ops, x) in entries && ReturnEntry(ops, x) in entries;
    }
  }

  ghost predicate PlacedAt<I, O>(
      entries: seq<Entry<I, O>>, ops: seq<Operation<I, O>>, placed: seq<Operation<I, O>>, x: nat)
    requires |placed| == |ops| && x < |ops|
  {
    && placed[x].call < |entries| && entries[placed[x].call] == CallEntry(ops, x)
    && placed[x].returnTime < |entries| && entries[placed[x].returnTime] == ReturnEntry(ops, x)
  }

  lemma PlacedOne<I, O>(
      entries: seq<Entry<I, O>>, ops: seq<Operation<I, O>>, placed: seq<Operation<I, O>>, x: nat)
    requires Arranges(entries, ops) && Describes(entries, placed) && x < |ops|
    ensures |placed| == |ops| && PlacedAt(entries, ops, placed, x)
    ensures placed[x].input == ops[x].input && placed[x].output == ops[x].output
  {
    PairFacts(entries, placed, x);
    assert FromHistory(ops, entries[placed[x].call]) && FromHistory(ops, entries[placed[x].returnTime]);
  }

  // A return and a call keep their real-time order in a sorted list, ties included.
  lemma PlacedPrecedes<I, O>(
      entries: seq<Entry<I, O>>, ops: seq<Operation<I, O>>, placed: seq<Operation<I, O>>, x: nat, y: nat)
    requires |placed| == |ops| && x < |ops| && y < |ops| && Sorted(entries)
    requires PlacedAt(entries, ops, placed, x) && PlacedAt(entries, ops, placed, y)
    ensures Precedes(placed, x, y) <==> Precedes(ops, x, y)
  {
  }

  // Position order is real-time order: calls precede their returns, and a return precedes a call
  // in the list exactly when it does so strictly in time, ties included.
  lemma EntriesEncodeRealTime<I, O>(entries: seq<Entry<I, O>>, ops: seq<Operation<I, O>>)
    requires WellFormed(ops) && Arranges(entries, ops)
    ensures WellFormedEntries(entries)
    ensures Alike(OperationsOf(entries), ops)
  {
    ArrangedWellFormed(entries, ops);
    OperationsDescribed(entries);
    var placed := OperationsOf(entries);
    assert Sorted(entries);
    hide Arranges, Describes, WellFormedEntries, OperationsOf, WellFormed, Sorted, PlacedAt;
    assert |placed| == |ops| by { PlacedSize(entries, ops, placed); }
    forall x | 0 <= x < |ops|
      ensures PlacedAt(entries, ops, placed, x)
      ensures placed[x].input == ops[x].input && placed[x].output == ops[x].output
    {
      PlacedOne(entries, ops, placed, x);
    }
    forall x, y | 0 <= x < |ops| && 0 <= y < |ops|
      ensures Precedes(placed, x, y) <==> Precedes(ops, x, y)
    {
      PlacedPrecedes(entries, ops, placed, x, y);
    }
  }

  lemma PlacedSize<I, O>(entries: seq<Entry<I, O>>, ops: seq<Operation<I, O>>, placed: seq<Operation<I, O>>)
    requires Arranges(entries, ops) && Describes(entries, placed)
    ensures |placed| == |ops|
  {
  }

  // The search on `make_entries(ops)` answers for `ops`.
  lemma EntriesVerdict<S, I, O>(m: Model<S, I, O>, ops: seq<Operation<I, O>>)
    requires WellFormed(ops)
    ensures |EntriesOf(ops)| == 2 * |ops| && WellFormedEntries(EntriesOf(ops))
    ensures Linearizable(m, OperationsOf(EntriesOf(ops))) <==> Linearizable(m, ops)
  {
    EntriesArrange(ops);
    EntriesEncodeRealTime(EntriesOf(ops), ops);
    AlikeVerdict(m, OperationsOf(EntriesOf(ops)), ops);
  }
}
