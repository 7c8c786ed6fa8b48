/** Event histories in parts: the runtime checks, what passing them gives, and P-compositionality. */
module EventPartitions {
  import opened Sequences
  import opened Wrappers
  import opened Specification
  import opened Entries
  import opened Histories
  import opened Compositionality
  import opened Grouping
  import opened Partitions
  import opened TellingApart
  import opened PowerSet
  import opened NdCompositionality
  import opened Events

  // ----- assert_well_formed_events -----

  // The two position tables hold exactly the calls and returns among the first n events.
  ghost predicate Tables<I, O>(
      events: seq<Event<I, O>>, n: nat, callPos: map<nat, nat>, returnPos: map<nat, nat>)
    requires n <= |events|
  {
    && AllPayload(events[..n])
    && (forall id :: id in callPos ==> callPos[id] < n && CallsAt(events, id, callPos[id]))
    && (forall id :: id in returnPos ==> returnPos[id] < n && ReturnsAt(events, id, returnPos[id]))
    && forall i :: 0 <= i < n ==>
         if events[i].kind.CallEvent? then events[i].id in callPos && callPos[events[i].id] == i
         else events[i].id in returnPos && returnPos[events[i].id] == i
  }

  lemma TablesNext<I, O>(events: seq<Event<I, O>>, n: nat, callPos: map<nat, nat>, returnPos: map<nat, nat>)
    requires n < |events| && Tables(events, n, callPos, returnPos)
    ensures var e := events[n];
            if e.kind.CallEvent?
            then (if e.input.Some? && e.id !in callPos then Tables(events, n + 1, callPos[e.id := n], returnPos)
                  else !WellFormedEvents(events))
            else (if e.output.Some? && e.id !in returnPos then Tables(events, n + 1, callPos, returnPos[e.id := n])
                  else !WellFormedEvents(events))
  {
    var e := events[n];
    assert events[..n + 1] == events[..n] + [e];
    if HasPayload(e) {
      if e.kind.CallEvent? && e.id in callPos { assert CallsAt(events, e.id, callPos[e.id]); }
      if e.kind.ReturnEvent? && e.id in returnPos { assert ReturnsAt(events, e.id, returnPos[e.id]); }
    }
  }

  ghost predicate Matched(callPos: map<nat, nat>, returnPos: map<nat, nat>) {
    && (forall id :: id in callPos ==> id in returnPos && callPos[id] < returnPos[id])
    && forall id :: id in returnPos ==> id in callPos
  }

  lemma TablesDecide<I, O>(events: seq<Event<I, O>>, callPos: map<nat, nat>, returnPos: map<nat, nat>)
    requires Tables(events, |events|, callPos, returnPos)
    ensures WellFormedEvents(events) <==> Matched(callPos, returnPos)
  {
    assert events[..|events|] == events;
    if WellFormedEvents(events) {
      forall id | id in callPos
        ensures id in returnPos && callPos[id] < returnPos[id]
      {
        assert HasPartner(events, callPos[id]);
      }
      forall id | id in returnPos
        ensures id in callPos
      {
        assert HasPartner(events, returnPos[id]);
      }
    }
    if Matched(callPos, returnPos) {
      forall i | 0 <= i < |events|
        ensures HasPartner(events, i)
      {
        var id := events[i].id;
        assert CallsAt(events, id, callPos[id]) && ReturnsAt(events, id, returnPos[id]);
        assert i == callPos[id] || i == returnPos[id];
      }
    }
  }

  // A failed assertion is `false`.
  method AssertWellFormedEvents<I, O>(events: seq<Event<I, O>>) returns (ok: bool)
    ensures ok <==> WellFormedEvents(events)
  {
    var callPos: map<nat, nat>, returnPos: map<nat, nat> := map[], map[];
    for pos := 0 to |events|
      invariant Tables(events, pos, callPos, returnPos)
    {
      hide Tables, WellFormedEvents;
      TablesNext(events, pos, callPos, returnPos);
      var e := events[pos];
      match e.kind {
        case CallEvent =>
          if e.input.None? || e.id in callPos { return false; }
          callPos := callPos[e.id := pos];
        case ReturnEvent =>
          if e.output.None? || e.id in returnPos { return false; }
          returnPos := returnPos[e.id := pos];
      }
    }
    TablesDecide(events, callPos, returnPos);
    var ids := callPos.Keys;
    while ids != {}
      invariant ids <= callPos.Keys
      invariant forall id :: id in callPos && id !in ids ==> id in returnPos && callPos[id] < returnPos[id]
      decreases ids
    {
      var id :| id in ids;
      if id !in returnPos || callPos[id] >= returnPos[id] { return false; }
      ids := ids - {id};
    }
    ids := returnPos.Keys;
    while ids != {}
      invariant ids <= returnPos.Keys
      invariant forall id :: id in returnPos && id !in ids ==> id in callPos
      decreases ids
    {
      var id :| id in ids;
      if id !in callPos { return false; }
      ids := ids - {id};
    }
    return true;
  }

  // ----- assert_partition_events_paired -----

  // A call and its return are in the same part.
  ghost predicate Paired<I, O>(parts: seq<seq<nat>>, events: seq<Event<I, O>>) {
    forall i, j :: 0 <= i < j < |events| && events[i].id == events[j].id ==> Together(parts, i, j)
  }

  ghost predicate Together(parts: seq<seq<nat>>, i: nat, j: nat) {
    forall p :: 0 <= p < |parts| ==> (i in parts[p] <==> j in parts[p])
  }

  // Two indices are together exactly when the table names the same owner.
  lemma SameOwner(parts: seq<seq<nat>>, n: nat, owners: seq<Option<nat>>, i: nat, j: nat)
    requires IsPartition(parts, n) && |owners| == n && i < n && j < n
    requires OwnedBy(parts, owners[i], i) && OwnedBy(parts, owners[j], j)
    ensures Together(parts, i, j) <==> owners[i] == owners[j]
  {
    if owners[i] == owners[j] {
      forall p | 0 <= p < |parts|
        ensures i in parts[p] <==> j in parts[p]
      {
        assert i in parts[p] ==> p == owners[i].value;
        assert j in parts[p] ==> p == owners[j].value;
      }
    }
  }

  // The part recorded for each call among the first n events.
  ghost predicate CallParts<I, O>(
      events: seq<Event<I, O>>, n: nat, owners: seq<Option<nat>>, callPart: map<nat, nat>)
    requires n <= |events| == |owners|
  {
    && (forall i :: 0 <= i < n && events[i].kind.CallEvent? ==>
          events[i].id in callPart && owners[i] == Some(callPart[events[i].id]))
    && forall id :: id in callPart ==> exists i :: 0 <= i < n && CallsAt(events, id, i)
  }

  method AssertPartitionEventsPaired<I, O>(parts: seq<seq<nat>>, history: seq<Event<I, O>>) returns (ok: bool)
    requires WellFormedEvents(history)
    ensures ok <==> IsPartition(parts, |history|) && Paired(parts, history)
  {
    var owners;
    ok, owners := ScanPartitionCovering(parts, |history|);
    if !ok { return; }
    hide IsPartition, Together;
    var callPart: map<nat, nat> := map[];
    for pos := 0 to |history|
      invariant CallParts(history, pos, owners, callPart)
      invariant forall i, j :: 0 <= i < j < pos && history[i].id == history[j].id ==> Together(parts, i, j)
    {
      var e := history[pos];
      assert OwnedBy(parts, owners[pos], pos);
      var part := owners[pos].value;
      match e.kind {
        case CallEvent =>
          assert forall i :: 0 <= i < pos ==> history[i].id != e.id;
          assert CallsAt(history, e.id, pos);
          callPart := callPart[e.id := part];
        case ReturnEvent =>
          var c := CallBefore(history, pos);
          SameOwner(parts, |history|, owners, c, pos);
          if e.id in callPart {
            if callPart[e.id] != part { return false; }
          }
      }
    }
    return true;
  }

  // In a well-formed history the only earlier event with a return's id is its call.
  lemma CallBefore<I, O>(events: seq<Event<I, O>>, r: nat) returns (c: nat)
    requires WellFormedEvents(events) && r < |events| && events[r].kind.ReturnEvent?
    ensures c < r && CallsAt(events, events[r].id, c)
    ensures forall i :: 0 <= i < r && events[i].id == events[r].id ==> i == c
  {
    assert HasPartner(events, r);
    var j :| 0 <= j < |events| && j != r && events[j].id == events[r].id;
    c := j;
  }

  // ----- what passing the checks gives -----

  // Does `part` list every call before its return?
  ghost predicate CallsFirst<I, O>(events: seq<Event<I, O>>, part: seq<nat>)
    requires InRange(part, |events|)
  {
    forall a, b :: 0 <= a < b < |part| && events[part[a]].id == events[part[b]].id ==> part[a] < part[b]
  }

  // A part of a well-formed, paired partition is itself well-formed exactly when it lists every
  // call before its return. The checks do not test that.
  lemma PartWellFormed<I, O>(events: seq<Event<I, O>>, parts: seq<seq<nat>>, p: nat)
    requires WellFormedEvents(events) && IsPartition(parts, |events|) && Paired(parts, events) && p < |parts|
    ensures WellFormedEvents(Gather(events, parts[p])) <==> CallsFirst(events, parts[p])
  {
    var part := parts[p];
    var sub := Gather(events, part);
    forall a | 0 <= a < |part|
      ensures HasPartner(sub, a) && HasPayload(sub[a])
    {
      PartnerInPart(events, parts, p, a);
    }
    forall a, b | 0 <= a < b < |part| && sub[a].id == sub[b].id
      ensures part[a] < part[b] <==> sub[a].kind.CallEvent? && sub[b].kind.ReturnEvent?
    {
      assert part[a] != part[b] && events[part[a]].id == events[part[b]].id;
    }
    if CallsFirst(events, part) {
      forall a, b | 0 <= a < b < |part| && sub[a].id == sub[b].id
        ensures part[a] < part[b]
      {
        assert events[part[a]].id == events[part[b]].id;
      }
    }
    if WellFormedEvents(sub) {
      forall a, b | 0 <= a < b < |part| && events[part[a]].id == events[part[b]].id
        ensures part[a] < part[b]
      {
        assert sub[a].id == sub[b].id;
      }
    }
  }

  lemma PartnerInPart<I, O>(events: seq<Event<I, O>>, parts: seq<seq<nat>>, p: nat, a: nat)
    requires WellFormedEvents(events) && IsPartition(parts, |events|) && Paired(parts, events)
    requires p < |parts| && a < |parts[p]|
    ensures HasPartner(Gather(events, parts[p]), a)
  {
    var part := parts[p];
    var sub := Gather(events, part);
    assert HasPartner(events, part[a]);
    var j :| 0 <= j < |events| && j != part[a] && events[j].id == events[part[a]].id;
    assert part[a] in part;
    assert Together(parts, part[a], j) || Together(parts, j, part[a]);
    assert j in part;
    var b :| 0 <= b < |part| && part[b] == j;
    assert b != a && sub[b].id == sub[a].id;
  }

  // Does `part` list a return and a call in the order they have in the history? A caller can test
  // this before the check.
  ghost predicate KeepsOrder<I, O>(events: seq<Event<I, O>>, part: seq<nat>)
    requires InRange(part, |events|)
  {
    forall a, b | 0 <= a < |part| && 0 <= b < |part| && ReturnAndCall(events[part[a]], events[part[b]]) ::
      a < b <==> part[a] < part[b]
  }

  predicate ReturnAndCall<I, O>(r: Event<I, O>, c: Event<I, O>) {
    r.kind.ReturnEvent? && c.kind.CallEvent?
  }

  lemma KeepsOrderCallsFirst<I, O>(events: seq<Event<I, O>>, part: seq<nat>)
    requires WellFormedEvents(events) && InRange(part, |events|) && Distinct(part) && KeepsOrder(events, part)
    ensures CallsFirst(events, part)
  {
    forall a, b | 0 <= a < b < |part| && events[part[a]].id == events[part[b]].id
      ensures part[a] < part[b]
    {
      assert part[a] != part[b];
    }
  }

  lemma AscendingKeepsOrder<I, O>(events: seq<Event<I, O>>, part: seq<nat>)
    requires InRange(part, |events|) && Ascending(part)
    ensures KeepsOrder(events, part)
  {
  }

  // A partition that passes every check and still hands the search a return before its call.
  lemma DescendingPartPasses() returns (events: seq<Event<int, int>>, parts: seq<seq<nat>>)
    ensures WellFormedEvents(events) && IsPartition(parts, |events|) && Paired(parts, events)
    ensures |parts| == 1 && !WellFormedEvents(Gather(events, parts[0]))
  {
    events := [Event(0, CallEvent, Some(0), None, 7), Event(0, ReturnEvent, None, Some(0), 7)];
    parts := [[1, 0]];
    assert HasPartner(events, 0) by { assert events[1].id == events[0].id; }
    assert HasPartner(events, 1) by { assert events[0].id == events[1].id; }
    assert parts[0][0] == 1 && parts[0][1] == 0;
    forall x: nat | x < 2
      ensures Covered(parts, x)
    {
      assert x in parts[0];
    }
    PartWellFormed(events, parts, 0);
    assert !(parts[0][0] < parts[0][1]);
  }

  // ----- the operations of a part -----

  ghost function OwnerOf(parts: seq<seq<nat>>, i: nat): (p: nat)
    requires Covered(parts, i)
    ensures p < |parts| && i in parts[p]
  {
    var p :| 0 <= p < |parts| && i in parts[p];
    p
  }

  // The part that owns each operation's call.
  ghost function Owners<I, O>(parts: seq<seq<nat>>, n: nat, ops: seq<Operation<I, O>>): seq<nat>
    requires IsPartition(parts, n) && forall x :: 0 <= x < |ops| ==> ops[x].call < n
  {
    seq(|ops|, x requires 0 <= x < |ops| && Covered(parts, ops[x].call) => OwnerOf(parts, ops[x].call))
  }

  ghost function OperationPart(owners: seq<nat>, p: nat): seq<nat> {
    IndicesOf(owners, p, |owners|)
  }

  // The operations of each part.
  ghost function OperationParts<I, O>(parts: seq<seq<nat>>, n: nat, ops: seq<Operation<I, O>>): seq<seq<nat>>
    requires IsPartition(parts, n) && forall x :: 0 <= x < |ops| ==> ops[x].call < n
  {
    seq(|parts|, p requires 0 <= p < |parts| => OperationPart(Owners(parts, n, ops), p))
  }

  lemma OperationPartsMeans<I, O>(parts: seq<seq<nat>>, n: nat, ops: seq<Operation<I, O>>)
    requires IsPartition(parts, n) && forall x :: 0 <= x < |ops| ==> ops[x].call < n
    ensures IsPartition(OperationParts(parts, n, ops), |ops|)
    ensures forall p, x: nat :: 0 <= p < |parts| && x < |ops| ==>
              (x in OperationParts(parts, n, ops)[p] <==> ops[x].call in parts[p])
  {
    var labels := Owners(parts, n, ops);
    var keys: seq<nat> := seq(|parts|, (p: nat) requires 0 <= p < |parts| => p);
    forall x | 0 <= x < |labels|
      ensures labels[x] in keys
    {
      assert keys[labels[x]] == labels[x];
    }
    GroupsPartition(labels, keys, OperationParts(parts, n, ops));
    hide IsPartition;
    forall p, x: nat | 0 <= p < |parts| && x < |ops|
      ensures x in OperationParts(parts, n, ops)[p] <==> ops[x].call in parts[p]
    {
      OperationPartMeans(parts, n, ops, p, x);
    }
  }

  lemma OperationPartMeans<I, O>(parts: seq<seq<nat>>, n: nat, ops: seq<Operation<I, O>>, p: nat, x: nat)
    requires IsPartition(parts, n) && forall x :: 0 <= x < |ops| ==> ops[x].call < n
    requires p < |parts| && x < |ops|
    ensures x in OperationParts(parts, n, ops)[p] <==> ops[x].call in parts[p]
  {
    var owner := OwnerOf(parts, ops[x].call);
    assert owner == p <==> ops[x].call in parts[p];
    assert Owners(parts, n, ops)[x] == owner;
    IndicesOfMeans(Owners(parts, n, ops), p, |ops|);
  }

  // ----- exactly when a part is checked as itself -----

  // A history, the operations it describes, and a partition that passes the runtime checks.
  ghost predicate Checked<I, O>(
      events: seq<Event<I, O>>, ids: seq<nat>, ops: seq<Operation<I, O>>, parts: seq<seq<nat>>)
  {
    && WellFormedEvents(events) && DescribesEvents(events, ids, ops)
    && IsPartition(parts, |events|) && Paired(parts, events)
    && forall x :: 0 <= x < |ops| ==> ops[x].call < |events|
  }

  lemma CheckedIntro<I, O>(
      events: seq<Event<I, O>>, ids: seq<nat>, ops: seq<Operation<I, O>>, parts: seq<seq<nat>>)
    requires WellFormedEvents(events) && DescribesEvents(events, ids, ops)
    requires IsPartition(parts, |events|) && Paired(parts, events)
    ensures Checked(events, ids, ops, parts)
  {
    forall x | 0 <= x < |ops|
      ensures ops[x].call < |events|
    {
      assert EventPair(events, ids[x], ops[x]);
    }
  }

  // An operation timed by its position within a part.
  ghost function Localize<I, O>(part: seq<nat>, op: Operation<I, O>): Operation<I, O>
    requires op.call in part && op.returnTime in part
  {
    op.(call := PlaceOf(part, op.call), returnTime := PlaceOf(part, op.returnTime))
  }

  ghost predicate InPart<I, O>(part: seq<nat>, op: Operation<I, O>) {
    op.call in part && op.returnTime in part
  }

  // The operations of a part as the search times them.
  ghost function LocalOps<I, O>(part: seq<nat>, ops: seq<Operation<I, O>>): seq<Operation<I, O>>
    requires forall k :: 0 <= k < |ops| ==> InPart(part, ops[k])
  {
    seq(|ops|, k requires 0 <= k < |ops| && InPart(part, ops[k]) => Localize(part, ops[k]))
  }

  // The operations of part p with the times of the whole history.
  ghost function PartOps<I, O>(
      events: seq<Event<I, O>>, ids: seq<nat>, ops: seq<Operation<I, O>>, parts: seq<seq<nat>>, p: nat)
    : (partOps: seq<Operation<I, O>>)
    requires Checked(events, ids, ops, parts) && p < |parts|
    ensures forall k :: 0 <= k < |partOps| ==> InPart(parts[p], partOps[k])
  {
    PartIndices(events, ids, ops, parts, p);
    Gather(ops, OperationParts(parts, |events|, ops)[p])
  }

  lemma PartIndices<I, O>(
      events: seq<Event<I, O>>, ids: seq<nat>, ops: seq<Operation<I, O>>, parts: seq<seq<nat>>, p: nat)
    requires Checked(events, ids, ops, parts) && p < |parts|
    ensures var opPart := OperationParts(parts, |events|, ops)[p];
            InRange(opPart, |ops|) && Distinct(opPart) &&
            (forall k :: 0 <= k < |opPart| ==> InPart(parts[p], ops[opPart[k]])) &&
            forall x: nat :: x < |ops| ==> (x in opPart <==> ops[x].call in parts[p])
  {
    OperationPartsMeans(parts, |events|, ops);
    var opPart := OperationParts(parts, |events|, ops)[p];
    hide OperationParts;
    forall k | 0 <= k < |opPart|
      ensures InPart(parts[p], ops[opPart[k]])
    {
      assert opPart[k] in opPart;
      assert EventPair(events, ids[opPart[k]], ops[opPart[k]]);
      assert Together(parts, ops[opPart[k]].call, ops[opPart[k]].returnTime);
    }
  }

  // An event of a part is the call or the return of one of the part's operations.
  lemma EventInPart<I, O>(
      events: seq<Event<I, O>>, ids: seq<nat>, ops: seq<Operation<I, O>>, parts: seq<seq<nat>>, p: nat, e: nat)
    returns (k: nat)
    requires Checked(events, ids, ops, parts) && p < |parts| && e in parts[p]
    ensures e < |events| && k < |PartOps(events, ids, ops, parts, p)|
    ensures var op := PartOps(events, ids, ops, parts, p)[k];
            e == if events[e].kind.CallEvent? then op.call else op.returnTime
    ensures k < |OperationParts(parts, |events|, ops)[p]|
    ensures var x := OperationParts(parts, |events|, ops)[p][k]; x < |ids| && ids[x] == events[e].id
  {
    PartIndices(events, ids, ops, parts, p);
    var part, opPart := parts[p], OperationParts(parts, |events|, ops)[p];
    var a :| 0 <= a < |part| && part[a] == e;
    var x := OperationOfEvent(events, ids, ops, parts, p, e);
    k :| 0 <= k < |opPart| && opPart[k] == x;
  }

  // An event's operation is called in the event's own part.
  lemma OperationOfEvent<I, O>(
      events: seq<Event<I, O>>, ids: seq<nat>, ops: seq<Operation<I, O>>, parts: seq<seq<nat>>, p: nat, e: nat)
    returns (x: nat)
    requires WellFormedEvents(events) && DescribesEvents(events, ids, ops) && Paired(parts, events)
    requires p < |parts| && e in parts[p] && e < |events|
    ensures x < |ops| && ids[x] == events[e].id && ops[x].call in parts[p]
    ensures e == if events[e].kind.CallEvent? then ops[x].call else ops[x].returnTime
  {
    x :| 0 <= x < |ids| && ids[x] == events[e].id;
    assert EventPair(events, ids[x], ops[x]);
    var c := ops[x].call;
    assert c == e || Together(parts, c, e) || Together(parts, e, c);
  }

  // The search sees a part's operations in their true real-time order exactly when the part keeps
  // every return and call in order.
  lemma PartOrderExact<I, O>(
      events: seq<Event<I, O>>, ids: seq<nat>, ops: seq<Operation<I, O>>, parts: seq<seq<nat>>, p: nat)
    requires Checked(events, ids, ops, parts) && p < |parts|
    ensures var partOps := PartOps(events, ids, ops, parts, p);
            Alike(LocalOps(parts[p], partOps), partOps) <==> KeepsOrder(events, parts[p])
  {
    assert InRange(parts[p], |events|);
    hide *;
    if KeepsOrder(events, parts[p]) { KeptOrderIsAlike(events, ids, ops, parts, p); }
    if Alike(LocalOps(parts[p], PartOps(events, ids, ops, parts, p)), PartOps(events, ids, ops, parts, p)) {
      AlikeKeepsOrder(events, ids, ops, parts, p);
    }
  }

  lemma KeptOrderIsAlike<I, O>(
      events: seq<Event<I, O>>, ids: seq<nat>, ops: seq<Operation<I, O>>, parts: seq<seq<nat>>, p: nat)
    requires Checked(events, ids, ops, parts) && p < |parts| && KeepsOrder(events, parts[p])
    ensures var partOps := PartOps(events, ids, ops, parts, p);
            Alike(LocalOps(parts[p], partOps), partOps)
  {
    var part, partOps := parts[p], PartOps(events, ids, ops, parts, p);
    assert InRange(part, |events|);
    hide Checked, PartOps, KeepsOrder, EventPair, OperationParts, InRange;
    var local := LocalOps(part, partOps);
    forall k, l | 0 <= k < |local| && 0 <= l < |local|
      ensures Precedes(local, k, l) <==> Precedes(partOps, k, l)
    {
      PartPair(events, ids, ops, parts, p, k);
      PartPair(events, ids, ops, parts, p, l);
      KeptPair(events, part, partOps, k, l);
    }
  }

  lemma AlikeKeepsOrder<I, O>(
      events: seq<Event<I, O>>, ids: seq<nat>, ops: seq<Operation<I, O>>, parts: seq<seq<nat>>, p: nat)
    requires Checked(events, ids, ops, parts) && p < |parts|
    requires var partOps := PartOps(events, ids, ops, parts, p); Alike(LocalOps(parts[p], partOps), partOps)
    ensures KeepsOrder(events, parts[p])
  {
    var part, partOps := parts[p], PartOps(events, ids, ops, parts, p);
    assert InRange(part, |events|) && Distinct(part);
    hide Checked, PartOps, Alike, LocalOps, InPart, OperationParts, Distinct;
    forall a, b | 0 <= a < |part| && 0 <= b < |part| && ReturnAndCall(events[part[a]], events[part[b]])
      ensures a < b <==> part[a] < part[b]
    {
      assert part[a] in part && part[b] in part;
      var k := EventInPart(events, ids, ops, parts, p, part[a]);
      var l := EventInPart(events, ids, ops, parts, p, part[b]);
      AlikePair(part, partOps, a, b, k, l);
    }
  }

  lemma KeptPair<I, O>(events: seq<Event<I, O>>, part: seq<nat>, partOps: seq<Operation<I, O>>, k: nat, l: nat)
    requires InRange(part, |events|) && KeepsOrder(events, part)
    requires k < |partOps| && l < |partOps| && forall x :: 0 <= x < |partOps| ==> InPart(part, partOps[x])
    requires exists id :: EventPair(events, id, partOps[k])
    requires exists id :: EventPair(events, id, partOps[l])
    ensures Precedes(LocalOps(part, partOps), k, l) <==> Precedes(partOps, k, l)
  {
    var a, b := PlaceOf(part, partOps[k].returnTime), PlaceOf(part, partOps[l].call);
    assert part[a] == partOps[k].returnTime && part[b] == partOps[l].call;
  }

  lemma AlikePair<I, O>(part: seq<nat>, partOps: seq<Operation<I, O>>, a: nat, b: nat, k: nat, l: nat)
    requires Distinct(part) && a < |part| && b < |part|
    requires k < |partOps| && l < |partOps| && forall x :: 0 <= x < |partOps| ==> InPart(part, partOps[x])
    requires part[a] == partOps[k].returnTime && part[b] == partOps[l].call
    requires Alike(LocalOps(part, partOps), partOps)
    ensures a < b <==> part[a] < part[b]
  {
    PlaceDistinct(part, a);
    PlaceDistinct(part, b);
    assert Precedes(LocalOps(part, partOps), k, l) <==> Precedes(partOps, k, l);
  }

  lemma PlaceDistinct(part: seq<nat>, a: nat)
    requires Distinct(part) && a < |part|
    ensures PlaceOf(part, part[a]) == a
  {
  }

  lemma PartPair<I, O>(
      events: seq<Event<I, O>>, ids: seq<nat>, ops: seq<Operation<I, O>>, parts: seq<seq<nat>>, p: nat, k: nat)
    requires Checked(events, ids, ops, parts) && p < |parts| && k < |PartOps(events, ids, ops, parts, p)|
    ensures k < |OperationParts(parts, |events|, ops)[p]|
    ensures var x := OperationParts(parts, |events|, ops)[p][k];
            x < |ids| && EventPair(events, ids[x], PartOps(events, ids, ops, parts, p)[k])
  {
    PartIndices(events, ids, ops, parts, p);
  }

  // A part that lists calls first is an event history of its own operations, locally timed.
  lemma PartDescribed<I, O>(
      events: seq<Event<I, O>>, ids: seq<nat>, ops: seq<Operation<I, O>>, parts: seq<seq<nat>>, p: nat)
    returns (subIds: seq<nat>)
    requires Checked(events, ids, ops, parts) && p < |parts| && CallsFirst(events, parts[p])
    ensures DescribesEvents(Gather(events, parts[p]), subIds, LocalOps(parts[p], PartOps(events, ids, ops, parts, p)))
    ensures WellFormed(LocalOps(parts[p], PartOps(events, ids, ops, parts, p)))
  {
    PartIndices(events, ids, ops, parts, p);
    var part, opPart := parts[p], OperationParts(parts, |events|, ops)[p];
    var partOps := PartOps(events, ids, ops, parts, p);
    var local, sub := LocalOps(part, partOps), Gather(events, part);
    subIds := Gather(ids, opPart);
    GatherDistinct(ids, opPart);
    forall i | 0 <= i < |sub|
      ensures sub[i].id in subIds
    {
      assert part[i] in part;
      var k := EventInPart(events, ids, ops, parts, p, part[i]);
      assert subIds[k] == sub[i].id;
    }
    forall k | 0 <= k < |local|
      ensures EventPair(sub, subIds[k], local[k])
    {
      PartPair(events, ids, ops, parts, p, k);
      LocalPair(events, subIds[k], partOps[k], part);
    }
  }

  lemma LocalPair<I, O>(events: seq<Event<I, O>>, id: nat, op: Operation<I, O>, part: seq<nat>)
    requires EventPair(events, id, op) && InRange(part, |events|) && CallsFirst(events, part)
    requires InPart(part, op)
    ensures EventPair(Gather(events, part), id, Localize(part, op))
  {
    var a, b := PlaceOf(part, op.call), PlaceOf(part, op.returnTime);
    assert part[a] == op.call && part[b] == op.returnTime;
  }

  lemma GatherDistinct(ids: seq<nat>, indices: seq<nat>)
    requires Distinct(ids) && Distinct(indices) && InRange(indices, |ids|)
    ensures Distinct(Gather(ids, indices))
  {
  }

  // Does the search on these events, if it can run at all, find a linearization?
  ghost predicate SearchAccepts<S, I, O>(m: Model<S, I, O>, events: seq<Event<I, O>>) {
    && WellFormedEvents(events)
    && WellFormedEntries(EventEntries(events))
    && Linearizable(m, OperationsOf(EventEntries(events)))
  }

  // What the search on a part that lists calls first answers for.
  lemma PartAnswers<S, I, O>(
      m: Model<S, I, O>, events: seq<Event<I, O>>, ids: seq<nat>, ops: seq<Operation<I, O>>,
      parts: seq<seq<nat>>, p: nat)
    requires Checked(events, ids, ops, parts) && p < |parts| && CallsFirst(events, parts[p])
    ensures WellFormedEvents(Gather(events, parts[p]))
    ensures WellFormedEntries(EventEntries(Gather(events, parts[p])))
    ensures SearchAccepts(m, Gather(events, parts[p]))
       <==> Linearizable(m, LocalOps(parts[p], PartOps(events, ids, ops, parts, p)))
  {
    PartWellFormed(events, parts, p);
    var subIds := PartDescribed(events, ids, ops, parts, p);
    EventsVerdict(m, Gather(events, parts[p]), subIds, LocalOps(parts[p], PartOps(events, ids, ops, parts, p)));
  }

  // The search on a part that keeps returns and calls in order answers for that part's operations.
  lemma EventPartVerdict<S, I, O>(
      m: Model<S, I, O>, events: seq<Event<I, O>>, ids: seq<nat>, ops: seq<Operation<I, O>>,
      parts: seq<seq<nat>>, p: nat)
    requires Checked(events, ids, ops, parts) && p < |parts| && KeepsOrder(events, parts[p])
    ensures WellFormedEvents(Gather(events, parts[p]))
    ensures WellFormedEntries(EventEntries(Gather(events, parts[p])))
    ensures SearchAccepts(m, Gather(events, parts[p])) <==> Linearizable(m, PartOps(events, ids, ops, parts, p))
  {
    KeepsOrderCallsFirst(events, parts[p]);
    PartAnswers(m, events, ids, ops, parts, p);
    PartOrderExact(events, ids, ops, parts, p);
    AlikeVerdict(m, LocalOps(parts[p], PartOps(events, ids, ops, parts, p)), PartOps(events, ids, ops, parts, p));
  }

  // The condition is exact: when no two operations of the part look the same, the part is checked
  // correctly for every model if and only if it keeps returns and calls in order.
  lemma PartVerdictExact<I, O>(
      events: seq<Event<I, O>>, ids: seq<nat>, ops: seq<Operation<I, O>>, parts: seq<seq<nat>>, p: nat)
    requires Checked(events, ids, ops, parts) && p < |parts|
    requires Telling(PartOps(events, ids, ops, parts, p))
    ensures KeepsOrder(events, parts[p])
       <==> WellFormedEvents(Gather(events, parts[p])) &&
            forall m: Model<nat, I, O> ::
              SearchAccepts(m, Gather(events, parts[p])) <==> Linearizable(m, PartOps(events, ids, ops, parts, p))
  {
    var partOps := PartOps(events, ids, ops, parts, p);
    if KeepsOrder(events, parts[p]) {
      forall m: Model<nat, I, O>
        ensures WellFormedEvents(Gather(events, parts[p]))
        ensures SearchAccepts(m, Gather(events, parts[p])) <==> Linearizable(m, partOps)
      {
        EventPartVerdict(m, events, ids, ops, parts, p);
      }
      KeepsOrderCallsFirst(events, parts[p]);
      PartWellFormed(events, parts, p);
    } else if WellFormedEvents(Gather(events, parts[p])) {
      PartWellFormed(events, parts, p);
      PartOrderExact(events, ids, ops, parts, p);
      var local := LocalOps(parts[p], partOps);
      var subIds := PartDescribed(events, ids, ops, parts, p);
      forall k | 0 <= k < |partOps|
        ensures partOps[k].call <= partOps[k].returnTime
      {
        PartPair(events, ids, ops, parts, p, k);
      }
      var m := OrdersTellApart(local, partOps);
      PartAnswers(m, events, ids, ops, parts, p);
    }
  }

  predicate CallsWith<I, O>(e: Event<I, O>) {
    e.kind.CallEvent? && e.input.Some?
  }

  // Calls in different parts have different keys.
  ghost predicate EventKeysApart<I, O, K>(events: seq<Event<I, O>>, key: I -> K, parts: seq<seq<nat>>)
    requires PartsInRange(parts, |events|)
  {
    forall p, q, i, j ::
      0 <= p < |parts| && 0 <= q < |parts| && p != q && i in parts[p] && j in parts[q] &&
      i < |events| && j < |events| && CallsWith(events[i]) && CallsWith(events[j]) ==>
        key(events[i].input.value) != key(events[j].input.value)
  }

  lemma OperationKeysApart<I, O, K>(
      events: seq<Event<I, O>>, key: I -> K, ids: seq<nat>, ops: seq<Operation<I, O>>, parts: seq<seq<nat>>)
    requires DescribesEvents(events, ids, ops) && IsPartition(parts, |events|) && EventKeysApart(events, key, parts)
    requires forall x :: 0 <= x < |ops| ==> ops[x].call < |events|
    ensures IsPartition(OperationParts(parts, |events|, ops), |ops|)
    ensures KeysApart(ops, key, OperationParts(parts, |events|, ops))
  {
    OperationPartsMeans(parts, |events|, ops);
    var opParts := OperationParts(parts, |events|, ops);
    hide OperationParts, EventKeysApart, DescribesEvents;
    forall p, q | 0 <= p < |opParts| && 0 <= q < |opParts| && p != q
      ensures PairApart(ops, key, opParts[p], opParts[q])
    {
      forall i, j | 0 <= i < |opParts[p]| && 0 <= j < |opParts[q]|
        ensures key(ops[opParts[p][i]].input) != key(ops[opParts[q][j]].input)
      {
        assert opParts[p][i] in opParts[p] && opParts[q][j] in opParts[q];
        CallKeysApart(events, key, ids, ops, parts, p, q, opParts[p][i], opParts[q][j]);
      }
    }
  }

  lemma CallKeysApart<I, O, K>(
      events: seq<Event<I, O>>, key: I -> K, ids: seq<nat>, ops: seq<Operation<I, O>>, parts: seq<seq<nat>>,
      p: nat, q: nat, x: nat, y: nat)
    requires DescribesEvents(events, ids, ops) && PartsInRange(parts, |events|) && EventKeysApart(events, key, parts)
    requires p < |parts| && q < |parts| && p != q && x < |ops| && y < |ops|
    requires ops[x].call in parts[p] && ops[y].call in parts[q]
    ensures key(ops[x].input) != key(ops[y].input)
  {
    assert EventPair(events, ids[x], ops[x]) && EventPair(events, ids[y], ops[y]);
  }

  // The searches on the parts answer for a key-respecting partition of the operations.
  lemma EventPartsAnswer<S, I, O, K>(
      m: Model<S, I, O>, key: I -> K, events: seq<Event<I, O>>, ids: seq<nat>, ops: seq<Operation<I, O>>,
      parts: seq<seq<nat>>)
    requires Checked(events, ids, ops, parts) && EventKeysApart(events, key, parts)
    requires forall p :: 0 <= p < |parts| ==> KeepsOrder(events, parts[p])
    ensures WellFormed(ops)
    ensures var opParts := OperationParts(parts, |events|, ops);
            IsPartition(opParts, |ops|) && KeysApart(ops, key, opParts) &&
            forall p :: 0 <= p < |parts| ==>
              WellFormedEntries(EventEntriesOf(events, parts, p)) &&
              (Linearizable(m, OperationsOf(EventEntriesOf(events, parts, p)))
               <==> Linearizable(m, Gather(ops, opParts[p])))
  {
    forall x | 0 <= x < |ops|
      ensures ops[x].call <= ops[x].returnTime
    {
      assert EventPair(events, ids[x], ops[x]);
    }
    OperationKeysApart(events, key, ids, ops, parts);
    forall p | 0 <= p < |parts|
      ensures WellFormedEntries(EventEntriesOf(events, parts, p))
      ensures Linearizable(m, OperationsOf(EventEntriesOf(events, parts, p)))
         <==> Linearizable(m, PartOps(events, ids, ops, parts, p))
    {
      EventPartVerdict(m, events, ids, ops, parts, p);
    }
  }

  // P-compositionality for event histories.
  lemma EventPCompositionality<S(!new), I(!new), O(!new), K(!new), V>(
      m: Model<S, I, O>, key: I -> K, view: (S, K) -> V,
      events: seq<Event<I, O>>, ids: seq<nat>, ops: seq<Operation<I, O>>, parts: seq<seq<nat>>)
    requires KeyLocal(m, key, view) && Checked(events, ids, ops, parts) && EventKeysApart(events, key, parts)
    requires forall p :: 0 <= p < |parts| ==> KeepsOrder(events, parts[p])
    ensures forall p :: 0 <= p < |parts| ==> WellFormedEntries(EventEntriesOf(events, parts, p))
    ensures Linearizable(m, ops)
       <==> forall p :: 0 <= p < |parts| ==> Linearizable(m, OperationsOf(EventEntriesOf(events, parts, p)))
  {
    EventPartsAnswer(m, key, events, ids, ops, parts);
    PCompositionality(m, key, view, ops, OperationParts(parts, |events|, ops));
  }

  // The same for nondeterministic models.
  lemma NdEventPCompositionality<S(!new), I(!new), O(!new), K(!new), V(!new)>(
      nd: NdModel<S, I, O>, key: I -> K, view: (S, K) -> V,
      events: seq<Event<I, O>>, ids: seq<nat>, ops: seq<Operation<I, O>>, parts: seq<seq<nat>>)
    requires NdKeyLocal(nd, key, view) && Uncorrelated(nd.init, view)
    requires Checked(events, ids, ops, parts) && EventKeysApart(events, key, parts)
    requires forall p :: 0 <= p < |parts| ==> KeepsOrder(events, parts[p])
    ensures forall p :: 0 <= p < |parts| ==> WellFormedEntries(EventEntriesOf(events, parts, p))
    ensures Linearizable(PowerSetModel(nd), ops)
       <==> forall p :: 0 <= p < |parts| ==>
              Linearizable(PowerSetModel(nd), OperationsOf(EventEntriesOf(events, parts, p)))
  {
    EventPartsAnswer(PowerSetModel(nd), key, events, ids, ops, parts);
    NdPCompositionality(nd, key, view, ops, OperationParts(parts, |events|, ops));
  }

  function EventEntriesOf<I, O>(events: seq<Event<I, O>>, parts: seq<seq<nat>>, p: nat): seq<Entry<I, O>>
    requires AllPayload(events) && PartsInRange(parts, |events|) && p < |parts|
  {
    EventEntries(Gather(events, parts[p]))
  }
}
