/** Event histories: well-formedness, renumbering, conversion to entries, and the fused converter. */
module Events {
  import opened Sequences
  import opened Wrappers
  import opened Specification
  import opened Entries
  import opened Histories
  import opened Compositionality

  datatype EventKind = CallEvent | ReturnEvent

  datatype Event<+I, +O> = Event(clientId: nat, kind: EventKind, input: Option<I>, output: Option<O>, id: nat)

  predicate HasPayload<I, O>(e: Event<I, O>) {
    match e.kind
    case CallEvent => e.input.Some?
    case ReturnEvent => e.output.Some?
  }

  predicate AllPayload<I, O>(events: seq<Event<I, O>>) {
    forall i :: 0 <= i < |events| ==> HasPayload(events[i])
  }

  // Every id has exactly one call and, later, one return, and each carries its value.
  ghost predicate WellFormedEvents<I, O>(events: seq<Event<I, O>>) {
    && AllPayload(events)
    && (forall i, j :: 0 <= i < j < |events| && events[i].id == events[j].id ==>
          events[i].kind.CallEvent? && events[j].kind.ReturnEvent?)
    && forall i :: 0 <= i < |events| ==> HasPartner(events, i)
  }

  ghost predicate HasPartner<I, O>(events: seq<Event<I, O>>, i: nat)
    requires i < |events|
  {
    exists j :: 0 <= j < |events| && j != i && events[j].id == events[i].id
  }

  function Ids<I, O>(events: seq<Event<I, O>>): seq<nat> {
    seq(|events|, i requires 0 <= i < |events| => events[i].id)
  }

  // An id's new number: how many other ids were seen before it.
  function NewId(ids: seq<nat>, id: nat): nat {
    if id in Dedup(ids) then PlaceOf(Dedup(ids), id) else |Dedup(ids)|
  }

  function Renumbered<I, O>(events: seq<Event<I, O>>): seq<Event<I, O>> {
    seq(|events|, i requires 0 <= i < |events| => events[i].(id := NewId(Ids(events), events[i].id)))
  }

  function ConvertEntry<I, O>(e: Event<I, O>, time: nat): Entry<I, O>
    requires HasPayload(e)
  {
    Entry(e.id, time, if e.kind.CallEvent? then Call(e.input.value) else Return(e.output.value))
  }

  function ConvertEntries<I, O>(events: seq<Event<I, O>>): seq<Entry<I, O>>
    requires AllPayload(events)
  {
    seq(|events|, i requires 0 <= i < |events| => ConvertEntry(events[i], i))
  }

  function EventEntries<I, O>(events: seq<Event<I, O>>): seq<Entry<I, O>>
    requires AllPayload(events)
  {
    ConvertEntries(Renumbered(events))
  }

  // ----- numbering ids in one pass -----

  // The map and counter after the first n ids.
  ghost predicate Numbering(ids: seq<nat>, numbers: map<nat, nat>, nextId: nat) {
    && nextId == |Dedup(ids)|
    && (forall id :: id in numbers <==> id in ids)
    && forall id :: id in numbers ==> numbers[id] == NewId(ids, id)
  }

  lemma NewIdGrows(ids: seq<nat>, last: nat)
    ensures NewId(ids + [last], last) == NewId(ids, last)
    ensures forall id :: id in ids ==> NewId(ids + [last], id) == NewId(ids, id)
    ensures |Dedup(ids + [last])| == if last in ids then |Dedup(ids)| else |Dedup(ids)| + 1
  {
    DedupGrows(ids, last);
    DedupMeans(ids);
    var before, after := Dedup(ids), Dedup(ids + [last]);
    forall id | id in before
      ensures PlaceOf(after, id) == PlaceOf(before, id)
    {
      assert after[PlaceOf(before, id)] == id;
      assert before[PlaceOf(before, id)] == id;
      DedupMeans(ids + [last]);
    }
    if last !in before {
      assert after[|before|] == last;
      DedupMeans(ids + [last]);
    }
  }

  // Numbers given in a prefix stay.
  lemma {:induction false} NewIdStays(ids: seq<nat>, n: nat, id: nat)
    requires n <= |ids| && id in ids[..n]
    ensures NewId(ids, id) == NewId(ids[..n], id)
    decreases |ids| - n
  {
    if n < |ids| {
      assert ids[..n + 1] == ids[..n] + [ids[n]];
      NewIdGrows(ids[..n], ids[n]);
      NewIdStays(ids, n + 1, id);
    } else {
      assert ids[..n] == ids;
    }
  }

  // Look an id up, giving it the next number if it is new.
  method NumberOf(numbers: map<nat, nat>, nextId: nat, id: nat, ghost ids: seq<nat>)
    returns (newId: nat, numbers': map<nat, nat>, nextId': nat)
    requires Numbering(ids, numbers, nextId)
    ensures Numbering(ids + [id], numbers', nextId')
    ensures newId == NewId(ids + [id], id)
  {
    NewIdGrows(ids, id);
    DedupMeans(ids);
    if id in numbers {
      return numbers[id], numbers, nextId;
    }
    return nextId, numbers[id := nextId], nextId + 1;
  }

  lemma NumberingStart()
    ensures Numbering([], map[], 0)
  {
  }

  method Renumber<I, O>(events: seq<Event<I, O>>) returns (out: seq<Event<I, O>>)
    ensures out == Renumbered(events)
    ensures forall i :: 0 <= i < |out| ==> out[i] == events[i].(id := out[i].id)
  {
    hide Numbering, NewId;
    NumberingStart();
    ghost var ids := Ids(events);
    var numbers: map<nat, nat>, nextId := map[], 0;
    out := [];
    for i := 0 to |events|
      invariant Numbering(ids[..i], numbers, nextId)
      invariant |out| == i && forall k :: 0 <= k < i ==> out[k] == Renumbered(events)[k]
    {
      assert ids[..i + 1] == ids[..i] + [events[i].id];
      var newId;
      newId, numbers, nextId := NumberOf(numbers, nextId, events[i].id, ids[..i]);
      NewIdStays(ids, i + 1, events[i].id);
      out := out + [events[i].(id := newId)];
    }
  }

  // Renumber and convert one partition in a single pass over its indices.
  method ConvertEntriesFromIndices<I, O>(history: seq<Event<I, O>>, indices: seq<nat>)
    returns (entries: seq<Entry<I, O>>)
    requires AllPayload(history) && InRange(indices, |history|)
    ensures entries == EventEntries(Gather(history, indices))
  {
    hide Numbering, NewId;
    NumberingStart();
    ghost var events := Gather(history, indices);
    ghost var ids := Ids(events);
    var numbers: map<nat, nat>, nextId := map[], 0;
    entries := [];
    for i := 0 to |indices|
      invariant Numbering(ids[..i], numbers, nextId)
      invariant |entries| == i && forall k :: 0 <= k < i ==> entries[k] == EventEntries(events)[k]
    {
      var e := history[indices[i]];
      assert e == events[i];
      assert ids[..i + 1] == ids[..i] + [e.id];
      var newId;
      newId, numbers, nextId := NumberOf(numbers, nextId, e.id, ids[..i]);
      NewIdStays(ids, i + 1, e.id);
      var value := if e.kind.CallEvent? then Call(e.input.value) else Return(e.output.value);
      entries := entries + [Entry(newId, i, value)];
    }
  }

  // ----- what the numbers are -----

  // New ids are a dense bijection: distinct old ids get distinct numbers below the number of ids.
  lemma NewIdBijective(ids: seq<nat>)
    ensures forall id :: id in ids ==> NewId(ids, id) < |Dedup(ids)|
    ensures forall a, b :: a in ids && b in ids && NewId(ids, a) == NewId(ids, b) ==> a == b
    ensures forall k :: 0 <= k < |Dedup(ids)| ==> Dedup(ids)[k] in ids && NewId(ids, Dedup(ids)[k]) == k
  {
    DedupMeans(ids);
    var first := Dedup(ids);
    forall k | 0 <= k < |first|
      ensures first[k] in ids && NewId(ids, first[k]) == k
    {
      assert first[k] in first;
    }
  }

  // Ids are numbered in the order in which they first occur.
  lemma NewIdFollowsFirst(ids: seq<nat>, a: nat, b: nat)
    requires a in ids && b in ids
    ensures NewId(ids, a) < NewId(ids, b) <==> SeenBefore(ids, a, b)
  {
    DedupMeans(ids);
    var first := Dedup(ids);
    var k, l := PlaceOf(first, a), PlaceOf(first, b);
    if k < l { DedupKeepsOrder(ids, k, l); }
    if l < k { DedupKeepsOrder(ids, l, k); }
  }

  // ----- the operations of an event history -----

  // `ops` are the operations whose calls and returns are the events, timed by position; the x-th
  // one has event id `ids[x]`. They may be listed in any order.
  ghost predicate DescribesEvents<I, O>(events: seq<Event<I, O>>, ids: seq<nat>, ops: seq<Operation<I, O>>) {
    && |ids| == |ops| && Distinct(ids)
    && (forall i :: 0 <= i < |events| ==> events[i].id in ids)
    && forall x :: 0 <= x < |ops| ==> EventPair(events, ids[x], ops[x])
  }

  ghost predicate EventPair<I, O>(events: seq<Event<I, O>>, id: nat, op: Operation<I, O>) {
    && op.call < op.returnTime < |events|
    && var c, r := events[op.call], events[op.returnTime];
       && c.id == id && c.kind.CallEvent? && c.input == Some(op.input)
       && r.id == id && r.kind.ReturnEvent? && r.output == Some(op.output)
  }

  ghost predicate CallsAt<I, O>(events: seq<Event<I, O>>, id: nat, c: int) {
    0 <= c < |events| && events[c].id == id && events[c].kind.CallEvent?
  }

  ghost predicate ReturnsAt<I, O>(events: seq<Event<I, O>>, id: nat, r: int) {
    0 <= r < |events| && events[r].id == id && events[r].kind.ReturnEvent?
  }

  lemma PairExists<I, O>(events: seq<Event<I, O>>, id: nat) returns (c: nat, r: nat)
    requires WellFormedEvents(events) && id in Ids(events)
    ensures CallsAt(events, id, c) && ReturnsAt(events, id, r) && c < r
    ensures forall i :: 0 <= i < |events| && events[i].id == id ==> i == c || i == r
  {
    var i :| 0 <= i < |events| && Ids(events)[i] == id;
    assert HasPartner(events, i);
    var j :| 0 <= j < |events| && j != i && events[j].id == events[i].id;
    c, r := if i < j then i else j, if i < j then j else i;
  }

  // The events at the calls and returns of the ids, two by two, are all the events.
  ghost predicate Laid<I, O>(events: seq<Event<I, O>>, ids: seq<nat>, laid: seq<nat>) {
    && |laid| == 2 * |ids|
    && forall k :: 0 <= k < |ids| ==> CallsAt(events, ids[k], laid[2 * k]) && ReturnsAt(events, ids[k], laid[2 * k + 1])
  }

  lemma {:induction false} LayOut<I, O>(events: seq<Event<I, O>>, ids: seq<nat>, n: nat) returns (laid: seq<nat>)
    requires WellFormedEvents(events) && n <= |ids| && forall k :: 0 <= k < |ids| ==> ids[k] in Ids(events)
    ensures Laid(events, ids[..n], laid)
  {
    if n == 0 {
      laid := [];
    } else {
      var init := LayOut(events, ids, n - 1);
      var c, r := PairExists(events, ids[n - 1]);
      laid := init + [c, r];
    }
  }

  lemma LaidAt<I, O>(events: seq<Event<I, O>>, ids: seq<nat>, laid: seq<nat>, i: nat)
    requires Laid(events, ids, laid) && i < |laid|
    ensures i / 2 < |ids| && laid[i] < |events| && events[laid[i]].id == ids[i / 2]
    ensures events[laid[i]].kind.CallEvent? <==> i % 2 == 0
  {
    assert i == 2 * (i / 2) || i == 2 * (i / 2) + 1;
    assert CallsAt(events, ids[i / 2], laid[2 * (i / 2)]);
  }

  lemma LaidDistinct<I, O>(events: seq<Event<I, O>>, ids: seq<nat>, laid: seq<nat>)
    requires Laid(events, ids, laid) && Distinct(ids)
    ensures InRange(laid, |events|) && Distinct(laid)
  {
    hide Laid;
    forall i | 0 <= i < |laid|
      ensures laid[i] < |events|
    {
      LaidAt(events, ids, laid, i);
    }
    forall i, j | 0 <= i < j < |laid|
      ensures laid[i] != laid[j]
    {
      LaidAt(events, ids, laid, i);
      LaidAt(events, ids, laid, j);
      assert i / 2 != j / 2 ==> ids[i / 2] != ids[j / 2];
    }
  }

  lemma LaidCovers<I, O>(events: seq<Event<I, O>>, ids: seq<nat>, laid: seq<nat>, e: nat)
    requires WellFormedEvents(events) && Laid(events, ids, laid) && e < |events| && events[e].id in ids
    ensures e in laid
  {
    var k :| 0 <= k < |ids| && ids[k] == events[e].id;
    assert CallsAt(events, ids[k], laid[2 * k]) && ReturnsAt(events, ids[k], laid[2 * k + 1]);
    assert Ids(events)[e] in Ids(events);
    var c, r := PairExists(events, ids[k]);
    assert laid[2 * k] == c && laid[2 * k + 1] == r;
  }

  // There are twice as many events as ids.
  lemma CountEvents<I, O>(events: seq<Event<I, O>>)
    requires WellFormedEvents(events)
    ensures |events| == 2 * |Dedup(Ids(events))|
  {
    var ids := Dedup(Ids(events));
    DedupMeans(Ids(events));
    assert forall k :: 0 <= k < |ids| ==> ids[k] in ids;
    var laid := LayOut(events, ids, |ids|);
    assert ids[..|ids|] == ids;
    LaidDistinct(events, ids, laid);
    forall e: nat | e < |events|
      ensures e in laid
    {
      assert Ids(events)[e] in Ids(events);
      LaidCovers(events, ids, laid, e);
    }
    PermutationLists(laid, |events|);
  }

  // The entries of a well-formed event history meet the search's precondition.
  lemma EventEntriesWellFormed<I, O>(events: seq<Event<I, O>>)
    requires WellFormedEvents(events)
    ensures |EventEntries(events)| == |events| && WellFormedEntries(EventEntries(events))
    ensures forall i :: 0 <= i < |events| ==> EventEntries(events)[i].time == i
  {
    var entries, ids := EventEntries(events), Ids(events);
    CountEvents(events);
    NewIdBijective(ids);
    assert forall i :: 0 <= i < |events| ==> ids[i] in ids;
    hide NewId, Dedup;
    forall c | 0 <= c < |entries|
      ensures entries[c].id == NewId(ids, ids[c]) < |entries| / 2
    {
      assert ids[c] in ids;
    }
    forall c, d | 0 <= c < d < |entries| && entries[c].id == entries[d].id
      ensures entries[c].value.Call? && entries[d].value.Return?
    {
      assert ids[c] in ids && ids[d] in ids;
      assert NewId(ids, ids[c]) == NewId(ids, ids[d]);
      assert events[c].id == events[d].id;
    }
    forall x: nat | x < |entries| / 2
      ensures HasCall(entries, x) && HasReturn(entries, x)
    {
      var c, r := PairExists(events, Dedup(ids)[x]);
      assert entries[c].id == x && entries[r].id == x;
    }
  }

  // ... and those entries stand for the operations that the events describe, in some listing.
  lemma EventOperations<I, O>(events: seq<Event<I, O>>, ids: seq<nat>, ops: seq<Operation<I, O>>)
    returns (listing: seq<nat>)
    requires WellFormedEvents(events) && DescribesEvents(events, ids, ops)
    ensures WellFormedEntries(EventEntries(events))
    ensures var found := OperationsOf(EventEntries(events));
            IsPermutation(listing, |found|) && Alike(Gather(found, listing), ops)
  {
    EventEntriesWellFormed(events);
    var entries := EventEntries(events);
    var found := OperationsOf(entries);
    OperationsDescribed(entries);
    CountIds(events, ids, ops);
    listing := seq(|ops|, x requires 0 <= x < |ops| && |ids| == |ops| => NewId(Ids(events), ids[x]));
    forall x | 0 <= x < |ops|
      ensures ListedAt(events, ids, ops, found, x)
    {
      ListedOne(events, ids, ops, x);
    }
    NewIdBijective(Ids(events));
    forall x, y | 0 <= x < y < |ops|
      ensures listing[x] != listing[y]
    {
      assert ListedAt(events, ids, ops, found, x) && ListedAt(events, ids, ops, found, y);
    }
    forall x | 0 <= x < |listing|
      ensures listing[x] < |found|
    {
      assert ListedAt(events, ids, ops, found, x);
    }
    var gathered := Gather(found, listing);
    forall x | 0 <= x < |ops|
      ensures gathered[x].call == ops[x].call && gathered[x].returnTime == ops[x].returnTime
      ensures gathered[x].input == ops[x].input && gathered[x].output == ops[x].output
    {
      assert ListedAt(events, ids, ops, found, x);
    }
  }

  ghost predicate ListedAt<I, O>(
      events: seq<Event<I, O>>, ids: seq<nat>, ops: seq<Operation<I, O>>, found: seq<Operation<I, O>>, x: nat)
    requires x < |ops| == |ids|
  {
    var y := NewId(Ids(events), ids[x]);
    && ids[x] in Ids(events) && y < |found|
    && found[y].call == ops[x].call && found[y].returnTime == ops[x].returnTime
    && found[y].input == ops[x].input && found[y].output == ops[x].output
  }

  lemma ListedOne<I, O>(events: seq<Event<I, O>>, ids: seq<nat>, ops: seq<Operation<I, O>>, x: nat)
    requires WellFormedEvents(events) && DescribesEvents(events, ids, ops) && x < |ops|
    requires WellFormedEntries(EventEntries(events))
    ensures ListedAt(events, ids, ops, OperationsOf(EventEntries(events)), x)
  {
    var entries := EventEntries(events);
    var found := OperationsOf(entries);
    OperationsDescribed(entries);
    assert EventPair(events, ids[x], ops[x]);
    assert Ids(events)[ops[x].call] == ids[x];
    NewIdBijective(Ids(events));
    CountEvents(events);
    EntryFacts(entries, found, ops[x].call);
    EntryFacts(entries, found, ops[x].returnTime);
  }

  lemma CountIds<I, O>(events: seq<Event<I, O>>, ids: seq<nat>, ops: seq<Operation<I, O>>)
    requires WellFormedEvents(events) && DescribesEvents(events, ids, ops)
    ensures |events| == 2 * |ops|
  {
    var first := Dedup(Ids(events));
    CountEvents(events);
    DedupMeans(Ids(events));
    forall id
      ensures id in ids <==> id in first
    {
      if id in ids {
        var x :| 0 <= x < |ids| && ids[x] == id;
        assert EventPair(events, ids[x], ops[x]);
        assert Ids(events)[ops[x].call] == id;
      }
      if id in first {
        var i :| 0 <= i < |events| && Ids(events)[i] == id;
      }
    }
    DistinctSize(ids);
    DistinctSize(first);
    assert Members(ids) == Members(first);
  }

  // The search on the converted events answers for the operations they describe.
  lemma EventsVerdict<S, I, O>(
      m: Model<S, I, O>, events: seq<Event<I, O>>, ids: seq<nat>, ops: seq<Operation<I, O>>)
    requires WellFormedEvents(events) && DescribesEvents(events, ids, ops)
    ensures WellFormedEntries(EventEntries(events))
    ensures Linearizable(m, OperationsOf(EventEntries(events))) <==> Linearizable(m, ops)
  {
    var listing := EventOperations(events, ids, ops);
    var found := OperationsOf(EventEntries(events));
    ReorderVerdict(m, found, listing);
    AlikeVerdict(m, Gather(found, listing), ops);
  }

  // Every well-formed event history has such operations.
  lemma EventsAreDescribed<I, O>(events: seq<Event<I, O>>) returns (ids: seq<nat>, ops: seq<Operation<I, O>>)
    requires WellFormedEvents(events)
    ensures DescribesEvents(events, ids, ops)
  {
    EventEntriesWellFormed(events);
    var entries := EventEntries(events);
    ids, ops := Dedup(Ids(events)), OperationsOf(entries);
    OperationsDescribed(entries);
    CountEvents(events);
    DedupMeans(Ids(events));
    NewIdBijective(Ids(events));
    forall i | 0 <= i < |events|
      ensures events[i].id in ids
    {
      assert Ids(events)[i] in Ids(events);
    }
    hide Dedup, NewId, Describes;
    forall x | 0 <= x < |ops|
      ensures EventPair(events, ids[x], ops[x])
    {
      PairFacts(entries, ops, x);
      assert Ids(events)[ops[x].call] in Ids(events) && Ids(events)[ops[x].returnTime] in Ids(events);
    }
  }
}
