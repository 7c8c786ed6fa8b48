/** P-compositionality: for a model whose step reads and writes only the operation's key, a history
    is linearizable exactly when each part of a key-respecting partition is. */
module Compositionality {
  import opened Sequences
  import opened Wrappers
  import opened Specification
  import opened Histories

  // Every index below n in exactly one place of exactly one part.
  ghost predicate IsPartition(parts: seq<seq<nat>>, n: nat) {
    && PartsInRange(parts, n)
    && (forall p :: 0 <= p < |parts| ==> Distinct(parts[p]))
    && (forall p, q, x :: 0 <= p < |parts| && 0 <= q < |parts| && x in parts[p] && x in parts[q] ==> p == q)
    && forall x: nat :: x < n ==> Covered(parts, x)
  }

  ghost predicate Covered(parts: seq<seq<nat>>, x: nat) {
    exists p :: 0 <= p < |parts| && x in parts[p]
  }

  // A step looks at nothing but the view of the state at the operation's key, and changes no other view.
  ghost predicate KeyLocal<S(!new), I(!new), O(!new), K(!new), V>(m: Model<S, I, O>, key: I -> K, view: (S, K) -> V) {
    && (forall s, t, i, o :: view(s, key(i)) == view(t, key(i)) ==> SameEffect(m, key, view, s, t, i, o))
    && forall s, i, o, k :: k != key(i) && m.step(s, i, o).Some? ==> view(m.step(s, i, o).value, k) == view(s, k)
  }

  ghost predicate SameEffect<S, I, O, K, V>(
      m: Model<S, I, O>, key: I -> K, view: (S, K) -> V, s: S, t: S, i: I, o: O)
  {
    match (m.step(s, i, o), m.step(t, i, o))
    case (None, None) => true
    case (Some(s'), Some(t')) => view(s', key(i)) == view(t', key(i))
    case _ => false
  }

  predicate PartsInRange(parts: seq<seq<nat>>, n: nat) {
    forall p :: 0 <= p < |parts| ==> InRange(parts[p], n)
  }

  // Operations of different parts have different keys.
  ghost predicate KeysApart<I, O, K>(ops: seq<Operation<I, O>>, key: I -> K, parts: seq<seq<nat>>)
    requires PartsInRange(parts, |ops|)
  {
    forall p, q :: 0 <= p < |parts| && 0 <= q < |parts| && p != q ==> PairApart(ops, key, parts[p], parts[q])
  }

  ghost predicate PairApart<I, O, K>(ops: seq<Operation<I, O>>, key: I -> K, a: seq<nat>, b: seq<nat>)
    requires InRange(a, |ops|) && InRange(b, |ops|)
  {
    forall i, j :: 0 <= i < |a| && 0 <= j < |b| ==> key(ops[a[i]].input) != key(ops[b[j]].input)
  }

  // The two states look the same to the listed operations.
  ghost predicate AgreeOn<S, I, O, K, V>(
      ops: seq<Operation<I, O>>, key: I -> K, view: (S, K) -> V, s: S, t: S, order: seq<nat>)
    requires InRange(order, |ops|)
  {
    forall i :: 0 <= i < |order| ==> view(s, key(ops[order[i]].input)) == view(t, key(ops[order[i]].input))
  }

  // ----- running a part alone -----

  // A run depends only on what its operations can see.
  lemma {:induction false} AgreeingRuns<S(!new), I(!new), O(!new), K(!new), V>(
      m: Model<S, I, O>, key: I -> K, view: (S, K) -> V, ops: seq<Operation<I, O>>, s: S, t: S, order: seq<nat>)
    requires KeyLocal(m, key, view) && InRange(order, |ops|) && AgreeOn(ops, key, view, s, t, order)
    ensures Run(m, s, ops, order).Some? <==> Run(m, t, ops, order).Some?
    decreases |order|
  {
    if order != [] {
      var op, rest := ops[order[0]], order[1..];
      assert SameEffect(m, key, view, s, t, op.input, op.output);
      var s', t' := Step(m, s, op), Step(m, t, op);
      if s'.Some? {
        forall i | 0 <= i < |rest|
          ensures view(s'.value, key(ops[rest[i]].input)) == view(t'.value, key(ops[rest[i]].input))
        {
          assert rest[i] == order[i + 1];
        }
        AgreeingRuns(m, key, view, ops, s'.value, t'.value, rest);
      }
    }
  }

  // A step with another key changes nothing the listed operations can see.
  lemma ForeignStep<S(!new), I(!new), O(!new), K(!new), V>(
      m: Model<S, I, O>, key: I -> K, view: (S, K) -> V, ops: seq<Operation<I, O>>,
      s: S, x: nat, s': S, order: seq<nat>)
    requires KeyLocal(m, key, view) && InRange(order, |ops|) && x < |ops| && Step(m, s, ops[x]) == Some(s')
    requires forall i :: 0 <= i < |order| ==> key(ops[order[i]].input) != key(ops[x].input)
    ensures AgreeOn(ops, key, view, s, s', order)
  {
  }

  // The members of `part`, in the order of `order`.
  function Restrict(order: seq<nat>, part: seq<nat>): seq<nat> {
    if order == [] then []
    else if order[0] in part then [order[0]] + Restrict(order[1..], part)
    else Restrict(order[1..], part)
  }

  lemma {:induction false} RestrictMembers(order: seq<nat>, part: seq<nat>)
    requires Distinct(order)
    ensures forall x :: x in Restrict(order, part) <==> x in order && x in part
    ensures Distinct(Restrict(order, part))
  {
    if order != [] {
      var x, rest := order[0], order[1..];
      assert order == [x] + rest;
      RestrictMembers(rest, part);
      assert x !in rest;
      var tail := Restrict(rest, part);
      if x in part {
        assert x !in tail;
        var all := [x] + tail;
        forall i, j | 0 <= i < j < |all|
          ensures all[i] != all[j]
        {
          assert all[j] == tail[j - 1] && all[j] in tail;
          if i > 0 { assert all[i] == tail[i - 1]; }
        }
      }
    }
  }

  lemma {:induction false} RestrictRealTime<I, O>(ops: seq<Operation<I, O>>, order: seq<nat>, part: seq<nat>)
    requires InRange(order, |ops|) && Distinct(order) && RespectsRealTime(ops, order)
    ensures InRange(Restrict(order, part), |ops|) && RespectsRealTime(ops, Restrict(order, part))
  {
    if order != [] {
      var x, rest := order[0], order[1..];
      RestrictRealTime(ops, rest, part);
      RestrictMembers(rest, part);
      var tail := Restrict(rest, part);
      if x in part {
        var all := [x] + tail;
        forall i, j | 0 <= i < j < |all|
          ensures !Precedes(ops, all[j], all[i])
        {
          assert all[j] == tail[j - 1] && all[j] in tail && all[j] in rest;
          if i == 0 {
            var k :| 0 <= k < |rest| && rest[k] == all[j];
            assert order[k + 1] == all[j];
          } else {
            assert all[i] == tail[i - 1];
          }
        }
      }
    }
  }

  // Whatever a whole run does to the other keys, the part sees the run it would have alone.
  lemma {:induction false} RestrictRun<S(!new), I(!new), O(!new), K(!new), V>(
      m: Model<S, I, O>, key: I -> K, view: (S, K) -> V, ops: seq<Operation<I, O>>, s: S, t: S,
      order: seq<nat>, part: seq<nat>)
    requires KeyLocal(m, key, view) && InRange(order, |ops|) && InRange(part, |ops|)
    requires forall i, j :: 0 <= i < |order| && order[i] !in part && 0 <= j < |part| ==>
               key(ops[order[i]].input) != key(ops[part[j]].input)
    requires AgreeOn(ops, key, view, s, t, part) && Run(m, s, ops, order).Some?
    ensures InRange(Restrict(order, part), |ops|) && Run(m, t, ops, Restrict(order, part)).Some?
    decreases |order|
  {
    if order != [] {
      var x, rest := order[0], order[1..];
      var op := ops[x];
      assert forall i :: 0 <= i < |rest| ==> rest[i] == order[i + 1];
      var s' := Step(m, s, op).value;
      if x in part {
        var j :| 0 <= j < |part| && part[j] == x;
        assert SameEffect(m, key, view, s, t, op.input, op.output);
        var t' := Step(m, t, op).value;
        forall i | 0 <= i < |part|
          ensures view(s', key(ops[part[i]].input)) == view(t', key(ops[part[i]].input))
        {
          assert view(s, key(ops[part[i]].input)) == view(t, key(ops[part[i]].input));
        }
        RestrictRun(m, key, view, ops, s', t', rest, part);
        var tail := Restrict(rest, part);
        assert ([x] + tail)[1..] == tail;
      } else {
        ForeignStep(m, key, view, ops, s, x, s', part);
        RestrictRun(m, key, view, ops, s', t, rest, part);
      }
    }
  }

  // ----- merging the parts' linearizations -----

  // Each remaining order can still run alone, they touch different keys, and together they list
  // exactly what is not done.
  ghost predicate MergeReady<S, I, O, K>(
      m: Model<S, I, O>, key: I -> K, ops: seq<Operation<I, O>>, done: set<nat>, s: S, rem: seq<seq<nat>>)
  {
    && PartsInRange(rem, |ops|)
    && (forall p :: 0 <= p < |rem| ==>
          Distinct(rem[p]) && RespectsRealTime(ops, rem[p]) && Run(m, s, ops, rem[p]).Some?)
    && KeysApart(ops, key, rem)
    && forall x: nat :: x < |ops| ==> (x !in done <==> Covered(rem, x))
  }

  // The pending operation that returns first.
  lemma {:induction false} FirstPendingReturn<I, O>(ops: seq<Operation<I, O>>, pending: set<nat>) returns (r: nat)
    requires pending != {} && forall x :: x in pending ==> x < |ops|
    ensures r in pending && forall x :: x in pending ==> ops[r].returnTime <= ops[x].returnTime
  {
    var x :| x in pending;
    var rest := pending - {x};
    r := x;
    if rest != {} {
      r := FirstPendingReturn(ops, rest);
      if ops[x].returnTime < ops[r].returnTime { r := x; }
    }
    forall y | y in pending
      ensures ops[r].returnTime <= ops[y].returnTime
    {
      assert y == x || y in rest;
    }
  }

  // The head of the part that owns the first pending return may be linearized next.
  lemma HeadIsEnabled<I, O>(ops: seq<Operation<I, O>>, done: set<nat>, order: seq<nat>, r: nat)
    requires WellFormed(ops) && InRange(order, |ops|) && RespectsRealTime(ops, order)
    requires r in order && order[0] !in done
    requires forall y: nat :: y < |ops| && y !in done ==> ops[r].returnTime <= ops[y].returnTime
    ensures Enabled(ops, done, order[0])
  {
    var i :| 0 <= i < |order| && order[i] == r;
    assert i == 0 || !Precedes(ops, order[i], order[0]);
    assert ops[order[0]].call <= ops[r].returnTime;
  }

  lemma {:induction false} Merge<S(!new), I(!new), O(!new), K(!new), V>(
      m: Model<S, I, O>, key: I -> K, view: (S, K) -> V, ops: seq<Operation<I, O>>,
      done: set<nat>, s: S, rem: seq<seq<nat>>)
    returns (order: seq<nat>)
    requires KeyLocal(m, key, view) && WellFormed(ops) && MergeReady(m, key, ops, done, s, rem)
    ensures Completes(m, ops, done, s, order)
    decreases Below(|ops|) - done
  {
    var pending := Below(|ops|) - done;
    if pending == {} {
      forall x | 0 <= x < |ops|
        ensures x in done
      {
        assert x in Below(|ops|);
      }
      return [];
    }
    var r := FirstPendingReturn(ops, pending);
    assert Covered(rem, r);
    var p :| 0 <= p < |rem| && r in rem[p];
    var h := rem[p][0];
    assert h in rem[p] && Covered(rem, h);
    assert forall y: nat :: y < |ops| && y !in done ==> y in pending;
    HeadIsEnabled(ops, done, rem[p], r);
    var s' := Step(m, s, ops[h]).value;
    var rem' := rem[p := rem[p][1..]];
    AdvanceMerge(m, key, view, ops, done, s, rem, p);
    assert h in pending;
    var rest := Merge(m, key, view, ops, done + {h}, s', rem');
    order := [h] + rest;
    assert order[1..] == rest;
  }

  lemma AdvanceMerge<S(!new), I(!new), O(!new), K(!new), V>(
      m: Model<S, I, O>, key: I -> K, view: (S, K) -> V, ops: seq<Operation<I, O>>,
      done: set<nat>, s: S, rem: seq<seq<nat>>, p: nat)
    requires KeyLocal(m, key, view) && MergeReady(m, key, ops, done, s, rem)
    requires p < |rem| && rem[p] != []
    ensures Step(m, s, ops[rem[p][0]]).Some?
    ensures MergeReady(m, key, ops, done + {rem[p][0]}, Step(m, s, ops[rem[p][0]]).value, rem[p := rem[p][1..]])
  {
    var h := rem[p][0];
    var s' := Step(m, s, ops[h]).value;
    var rem' := rem[p := rem[p][1..]];
    forall q | 0 <= q < |rem'|
      ensures InRange(rem'[q], |ops|) && Distinct(rem'[q]) && RespectsRealTime(ops, rem'[q])
      ensures Run(m, s', ops, rem'[q]).Some?
    {
      if q == p {
        assert forall i :: 0 <= i < |rem'[p]| ==> rem'[p][i] == rem[p][i + 1];
      } else {
        assert PairApart(ops, key, rem[q], rem[p]);
        ForeignStep(m, key, view, ops, s, h, s', rem[q]);
        AgreeingRuns(m, key, view, ops, s, s', rem[q]);
      }
    }
    AdvanceKeys(key, ops, rem, p);
    forall x: nat | x < |ops|
      ensures x !in done + {h} <==> Covered(rem', x)
    {
      AdvanceCover(key, ops, rem, p, x);
    }
  }

  lemma AdvanceKeys<I, O, K>(key: I -> K, ops: seq<Operation<I, O>>, rem: seq<seq<nat>>, p: nat)
    requires p < |rem| && rem[p] != []
    requires PartsInRange(rem, |ops|) && KeysApart(ops, key, rem)
    ensures PartsInRange(rem[p := rem[p][1..]], |ops|) && KeysApart(ops, key, rem[p := rem[p][1..]])
  {
    var rem' := rem[p := rem[p][1..]];
    assert forall i :: 0 <= i < |rem'[p]| ==> rem'[p][i] == rem[p][i + 1];
    forall q, r | 0 <= q < |rem'| && 0 <= r < |rem'| && q != r
      ensures PairApart(ops, key, rem'[q], rem'[r])
    {
      assert PairApart(ops, key, rem[q], rem[r]);
    }
  }

  lemma AdvanceCover<I, O, K>(key: I -> K, ops: seq<Operation<I, O>>, rem: seq<seq<nat>>, p: nat, x: nat)
    requires p < |rem| && rem[p] != [] && Distinct(rem[p])
    requires PartsInRange(rem, |ops|) && KeysApart(ops, key, rem)
    ensures Covered(rem[p := rem[p][1..]], x) <==> Covered(rem, x) && x != rem[p][0]
  {
    var h, rest := rem[p][0], rem[p][1..];
    var rem' := rem[p := rest];
    assert rem[p] == [h] + rest && h !in rest;
    if q :| 0 <= q < |rem| && x in rem[q] && x != h {
      assert x in rem'[q];
    }
    if q :| 0 <= q < |rem'| && x in rem'[q] {
      assert x in rem[q];
      if q != p {
        var j :| 0 <= j < |rem[q]| && rem[q][j] == x;
        assert PairApart(ops, key, rem[p], rem[q]);
        assert key(ops[rem[p][0]].input) != key(ops[rem[q][j]].input);
      }
    }
  }

  // ----- a part as a history of its own -----

  function Through(part: seq<nat>, order: seq<nat>): seq<nat>
    requires InRange(order, |part|)
  {
    seq(|order|, i requires 0 <= i < |order| => part[order[i]])
  }

  lemma {:induction false} GatheredRun<S, I, O>(
      m: Model<S, I, O>, ops: seq<Operation<I, O>>, part: seq<nat>, s: S, order: seq<nat>)
    requires InRange(part, |ops|) && InRange(order, |part|)
    ensures InRange(Through(part, order), |ops|)
    ensures Run(m, s, Gather(ops, part), order) == Run(m, s, ops, Through(part, order))
    decreases |order|
  {
    if order != [] {
      assert Through(part, order)[1..] == Through(part, order[1..]);
      var next := Step(m, s, ops[part[order[0]]]);
      if next.Some? { GatheredRun(m, ops, part, next.value, order[1..]); }
    }
  }

  // Does `order` linearize just the operations listed in `part`?
  ghost predicate LinearizesPart<S, I, O>(
      m: Model<S, I, O>, ops: seq<Operation<I, O>>, part: seq<nat>, order: seq<nat>)
  {
    && InRange(order, |ops|) && Distinct(order)
    && (forall x :: x in order <==> x in part)
    && RespectsRealTime(ops, order)
    && Run(m, m.init, ops, order).Some?
  }

  lemma PartFromLocal<S, I, O>(m: Model<S, I, O>, ops: seq<Operation<I, O>>, part: seq<nat>, order: seq<nat>)
    requires InRange(part, |ops|) && Distinct(part) && IsLinearization(m, Gather(ops, part), order)
    ensures LinearizesPart(m, ops, part, Through(part, order))
  {
    var global := Through(part, order);
    GatheredRun(m, ops, part, m.init, order);
    PermutationLists(order, |part|);
    forall x
      ensures x in global <==> x in part
    {
      if x in global {
        var i :| 0 <= i < |global| && global[i] == x;
        assert part[order[i]] == x;
      }
      if x in part {
        var k :| 0 <= k < |part| && part[k] == x;
        assert k in order;
        var i :| 0 <= i < |order| && order[i] == k;
        assert global[i] == x;
      }
    }
    forall i, j | 0 <= i < j < |global|
      ensures global[i] != global[j] && !Precedes(ops, global[j], global[i])
    {
      assert order[i] != order[j] && !Precedes(Gather(ops, part), order[j], order[i]);
    }
  }

  // The places within `part` of the members of `order`.
  function PlacesIn(part: seq<nat>, order: seq<nat>): (local: seq<nat>)
    requires forall i :: 0 <= i < |order| ==> order[i] in part
    ensures InRange(local, |part|) && Through(part, local) == order
  {
    seq(|order|, i requires 0 <= i < |order| && order[i] in part => PlaceOf(part, order[i]))
  }

  lemma PlacesPermute(part: seq<nat>, order: seq<nat>)
    requires Distinct(part) && Distinct(order) && forall x :: x in order <==> x in part
    requires forall i :: 0 <= i < |order| ==> order[i] in part
    ensures IsPermutation(PlacesIn(part, order), |part|)
  {
    var local := PlacesIn(part, order);
    forall i, j | 0 <= i < j < |local|
      ensures local[i] != local[j]
    {
      assert Through(part, local)[i] != Through(part, local)[j];
    }
    forall k: nat | k < |part|
      ensures k in local
    {
      assert part[k] in order;
      var i :| 0 <= i < |order| && order[i] == part[k];
      assert part[local[i]] == part[k] && local[i] == k;
    }
    PermutationLists(local, |part|);
  }

  lemma LocalFromPart<S, I, O>(m: Model<S, I, O>, ops: seq<Operation<I, O>>, part: seq<nat>, order: seq<nat>)
    requires InRange(part, |ops|) && Distinct(part) && LinearizesPart(m, ops, part, order)
    ensures Linearizable(m, Gather(ops, part))
  {
    assert forall i :: 0 <= i < |order| ==> order[i] in order && order[i] in part;
    var local := PlacesIn(part, order);
    PlacesPermute(part, order);
    GatheredRun(m, ops, part, m.init, local);
    forall i, j | 0 <= i < j < |local|
      ensures !Precedes(Gather(ops, part), local[j], local[i])
    {
      assert !Precedes(ops, Through(part, local)[j], Through(part, local)[i]);
    }
    assert IsLinearization(m, Gather(ops, part), local);
  }

  // The order in which a history is listed does not matter.
  lemma ReorderVerdict<S, I, O>(m: Model<S, I, O>, ops: seq<Operation<I, O>>, listing: seq<nat>)
    requires IsPermutation(listing, |ops|)
    ensures Linearizable(m, Gather(ops, listing)) <==> Linearizable(m, ops)
  {
    PermutationLists(listing, |ops|);
    if order :| IsLinearization(m, Gather(ops, listing), order) {
      PartFromLocal(m, ops, listing, order);
      var global := Through(listing, order);
      PermutationLists(global, |ops|);
      assert IsLinearization(m, ops, global);
    }
    if order :| IsLinearization(m, ops, order) {
      PermutationLists(order, |ops|);
      forall x
        ensures x in order <==> x in listing
      {
        if x in order { assert x < |ops|; }
        if x in listing { assert x < |ops|; }
      }
      LocalFromPart(m, ops, listing, order);
    }
  }

  // ----- the theorem -----

  lemma WholeGivesPart<S(!new), I(!new), O(!new), K(!new), V>(
      m: Model<S, I, O>, key: I -> K, view: (S, K) -> V, ops: seq<Operation<I, O>>, parts: seq<seq<nat>>, p: nat)
    requires KeyLocal(m, key, view) && IsPartition(parts, |ops|) && KeysApart(ops, key, parts) && p < |parts|
    requires Linearizable(m, ops)
    ensures Linearizable(m, Gather(ops, parts[p]))
  {
    var order :| IsLinearization(m, ops, order);
    var part := parts[p];
    PermutationLists(order, |ops|);
    RestrictMembers(order, part);
    RestrictRealTime(ops, order, part);
    forall i, j | 0 <= i < |order| && order[i] !in part && 0 <= j < |part|
      ensures key(ops[order[i]].input) != key(ops[part[j]].input)
    {
      assert Covered(parts, order[i]);
      var q :| 0 <= q < |parts| && order[i] in parts[q];
      assert PairApart(ops, key, parts[q], part);
      var k :| 0 <= k < |parts[q]| && parts[q][k] == order[i];
    }
    RestrictRun(m, key, view, ops, m.init, m.init, order, part);
    forall x
      ensures x in Restrict(order, part) <==> x in part
    {
      if x in part { assert x < |ops| && x in order; }
    }
    LocalFromPart(m, ops, part, Restrict(order, part));
  }

  lemma PartsGiveWhole<S(!new), I(!new), O(!new), K(!new), V>(
      m: Model<S, I, O>, key: I -> K, view: (S, K) -> V, ops: seq<Operation<I, O>>, parts: seq<seq<nat>>)
    requires KeyLocal(m, key, view) && WellFormed(ops) && IsPartition(parts, |ops|) && KeysApart(ops, key, parts)
    requires forall p :: 0 <= p < |parts| ==> Linearizable(m, Gather(ops, parts[p]))
    ensures Linearizable(m, ops)
  {
    var rem := PartOrders(m, ops, parts, |parts|);
    forall p, q | 0 <= p < |rem| && 0 <= q < |rem| && p != q
      ensures PairApart(ops, key, rem[p], rem[q])
    {
      assert PairApart(ops, key, parts[p], parts[q]);
      assert LinearizesPart(m, ops, parts[p], rem[p]) && LinearizesPart(m, ops, parts[q], rem[q]);
      SameKeys(ops, key, parts[p], parts[q], rem[p], rem[q]);
    }
    forall x: nat | x < |ops|
      ensures Covered(rem, x)
    {
      assert Covered(parts, x);
      var p :| 0 <= p < |parts| && x in parts[p];
      assert LinearizesPart(m, ops, parts[p], rem[p]);
    }
    forall p | 0 <= p < |rem|
      ensures InRange(rem[p], |ops|) && Distinct(rem[p]) && RespectsRealTime(ops, rem[p])
      ensures Run(m, m.init, ops, rem[p]).Some?
    {
      assert LinearizesPart(m, ops, parts[p], rem[p]);
    }
    var order := Merge(m, key, view, ops, {}, m.init, rem);
    CompletesIsLinearization(m, ops, order);
  }

  lemma SameKeys<I, O, K>(
      ops: seq<Operation<I, O>>, key: I -> K, a: seq<nat>, b: seq<nat>, a': seq<nat>, b': seq<nat>)
    requires InRange(a, |ops|) && InRange(b, |ops|) && InRange(a', |ops|) && InRange(b', |ops|)
    requires PairApart(ops, key, a, b)
    requires (forall x :: x in a' <==> x in a) && forall x :: x in b' <==> x in b
    ensures PairApart(ops, key, a', b')
  {
    forall i, j | 0 <= i < |a'| && 0 <= j < |b'|
      ensures key(ops[a'[i]].input) != key(ops[b'[j]].input)
    {
      assert a'[i] in a && b'[j] in b;
      var k :| 0 <= k < |a| && a[k] == a'[i];
      var l :| 0 <= l < |b| && b[l] == b'[j];
    }
  }

  lemma {:induction false} PartOrders<S, I, O>(
      m: Model<S, I, O>, ops: seq<Operation<I, O>>, parts: seq<seq<nat>>, n: nat) returns (rem: seq<seq<nat>>)
    requires IsPartition(parts, |ops|) && n <= |parts|
    requires forall p :: 0 <= p < |parts| ==> Linearizable(m, Gather(ops, parts[p]))
    ensures |rem| == n && forall p :: 0 <= p < n ==> LinearizesPart(m, ops, parts[p], rem[p])
  {
    if n == 0 {
      rem := [];
    } else {
      var init := PartOrders(m, ops, parts, n - 1);
      var order :| IsLinearization(m, Gather(ops, parts[n - 1]), order);
      PartFromLocal(m, ops, parts[n - 1], order);
      rem := init + [Through(parts[n - 1], order)];
    }
  }

  lemma PCompositionality<S(!new), I(!new), O(!new), K(!new), V>(
      m: Model<S, I, O>, key: I -> K, view: (S, K) -> V, ops: seq<Operation<I, O>>, parts: seq<seq<nat>>)
    requires KeyLocal(m, key, view) && WellFormed(ops) && IsPartition(parts, |ops|) && KeysApart(ops, key, parts)
    ensures Linearizable(m, ops) <==> forall p :: 0 <= p < |parts| ==> Linearizable(m, Gather(ops, parts[p]))
  {
    if Linearizable(m, ops) {
      forall p | 0 <= p < |parts|
        ensures Linearizable(m, Gather(ops, parts[p]))
      {
        WholeGivesPart(m, key, view, ops, parts, p);
      }
    }
    if forall p :: 0 <= p < |parts| ==> Linearizable(m, Gather(ops, parts[p])) {
      PartsGiveWhole(m, key, view, ops, parts);
    }
  }
}
