/** What it means for a history of operations to be linearizable. */
module Specification {
  import opened Sequences
  import opened Wrappers

  // A sequential specification: an initial state and a partial transition function.
  datatype Model<!S, !I, !O> = Model(init: S, step: (S, I, O) -> Option<S>)

  datatype Operation<+I, +O> =
    Operation(clientId: nat, input: I, call: nat, output: O, returnTime: nat)

  predicate InRange(order: seq<nat>, n: nat) {
    forall i :: 0 <= i < |order| ==> order[i] < n
  }

  predicate IsPermutation(order: seq<nat>, n: nat) {
    |order| == n && InRange(order, n) && Distinct(order)
  }

  // Operation x must come before operation y.
  predicate Precedes<I, O>(ops: seq<Operation<I, O>>, x: nat, y: nat)
    requires x < |ops| && y < |ops|
  {
    ops[x].returnTime < ops[y].call
  }

  predicate RespectsRealTime<I, O>(ops: seq<Operation<I, O>>, order: seq<nat>)
    requires InRange(order, |ops|)
  {
    forall i, j :: 0 <= i < j < |order| ==> !Precedes(ops, order[j], order[i])
  }

  function Step<S, I, O>(m: Model<S, I, O>, s: S, op: Operation<I, O>): Option<S> {
    m.step(s, op.input, op.output)
  }

  // The state after running the listed operations one after the other.
  function Run<S, I, O>(m: Model<S, I, O>, s: S, ops: seq<Operation<I, O>>, order: seq<nat>): Option<S>
    requires InRange(order, |ops|)
  {
    if order == [] then Some(s)
    else
      match Step(m, s, ops[order[0]])
      case None => None
      case Some(t) => Run(m, t, ops, order[1..])
  }

  lemma {:induction false} RunAppend<S, I, O>(
      m: Model<S, I, O>, s: S, ops: seq<Operation<I, O>>, order: seq<nat>, x: nat)
    requires InRange(order, |ops|) && x < |ops|
    ensures InRange(order + [x], |ops|)
    ensures Run(m, s, ops, order + [x]) ==
            match Run(m, s, ops, order) case None => None case Some(t) => Step(m, t, ops[x])
    decreases |order|
  {
    if order == [] {
      assert order + [x] == [x];
      assert Run(m, s, ops, [x]) == Step(m, s, ops[x]);
    } else {
      assert (order + [x])[1..] == order[1..] + [x];
      var next := Step(m, s, ops[order[0]]);
      if next.Some? { RunAppend(m, next.value, ops, order[1..], x); }
    }
  }

  predicate IsLinearization<S, I, O>(m: Model<S, I, O>, ops: seq<Operation<I, O>>, order: seq<nat>) {
    && IsPermutation(order, |ops|)
    && RespectsRealTime(ops, order)
    && Run(m, m.init, ops, order).Some?
  }

  ghost predicate Linearizable<S, I, O>(m: Model<S, I, O>, ops: seq<Operation<I, O>>) {
    exists order :: IsLinearization(m, ops, order)
  }

  predicate WellFormed<I, O>(ops: seq<Operation<I, O>>) {
    forall i :: 0 <= i < |ops| ==> ops[i].call <= ops[i].returnTime
  }

  // ----- the same notion, one operation at a time -----

  // May x be linearized next, when exactly `done` has been linearized?
  ghost predicate Enabled<I, O>(ops: seq<Operation<I, O>>, done: set<nat>, x: nat) {
    && x < |ops| && x !in done
    && forall y :: 0 <= y < |ops| && y !in done ==> !Precedes(ops, y, x)
  }

  // `order` linearizes everything outside `done`, starting in state s.
  ghost predicate Completes<S, I, O>(
      m: Model<S, I, O>, ops: seq<Operation<I, O>>, done: set<nat>, s: S, order: seq<nat>)
    decreases |order|
  {
    if order == [] then forall x :: 0 <= x < |ops| ==> x in done
    else
      && Enabled(ops, done, order[0])
      && var next := Step(m, s, ops[order[0]]);
         next.Some? && Completes(m, ops, done + {order[0]}, next.value, order[1..])
  }

  ghost predicate Dead<S, I, O>(m: Model<S, I, O>, ops: seq<Operation<I, O>>, done: set<nat>, s: S) {
    forall order: seq<nat> :: !Completes(m, ops, done, s, order)
  }

  // Linearizing `order` next, from (done, s), leads to (d, t).
  ghost predicate Arrives<S, I, O>(
      m: Model<S, I, O>, ops: seq<Operation<I, O>>, done: set<nat>, s: S, order: seq<nat>, d: set<nat>, t: S)
    decreases |order|
  {
    if order == [] then d == done && t == s
    else
      && Enabled(ops, done, order[0])
      && var next := Step(m, s, ops[order[0]]);
         next.Some? && Arrives(m, ops, done + {order[0]}, next.value, order[1..], d, t)
  }

  // Some run of enabled, accepted operations from the start linearizes exactly d and ends in t.
  ghost predicate Reachable<S, I, O>(m: Model<S, I, O>, ops: seq<Operation<I, O>>, d: set<nat>, t: S) {
    exists order :: Arrives(m, ops, {}, m.init, order, d, t)
  }

  // `order` lists exactly the operations outside `done`, once each.
  ghost predicate Lists(order: seq<nat>, done: set<nat>, n: nat) {
    && InRange(order, n) && Distinct(order)
    && forall x: nat :: x < n ==> (x in order <==> x !in done)
  }

  lemma {:induction false} CompletesMeans<S, I, O>(
      m: Model<S, I, O>, ops: seq<Operation<I, O>>, done: set<nat>, s: S, order: seq<nat>)
    requires WellFormed(ops) && InRange(order, |ops|)
    ensures Completes(m, ops, done, s, order)
       <==> Lists(order, done, |ops|) && RespectsRealTime(ops, order) && Run(m, s, ops, order).Some?
    decreases |order|
  {
    if order != [] {
      var x, rest := order[0], order[1..];
      assert order == [x] + rest;
      var next := Step(m, s, ops[x]);
      if next.Some? {
        CompletesMeans(m, ops, done + {x}, next.value, rest);
      }
      ListsCons(x, rest, done, |ops|);
      if Lists(order, done, |ops|) {
        RealTimeCons(ops, x, rest, done);
      }
    } else {
      assert forall x: nat :: x < |ops| ==> x !in order;
    }
  }

  lemma ListsCons(x: nat, rest: seq<nat>, done: set<nat>, n: nat)
    requires x < n
    ensures Lists([x] + rest, done, n) <==> x !in done && Lists(rest, done + {x}, n)
  {
    var order := [x] + rest;
    assert order[0] == x && order[1..] == rest;
    assert forall y :: y in order <==> y == x || y in rest;
    if Lists(order, done, n) {
      assert x in order;
      assert forall i :: 0 <= i < |rest| ==> rest[i] == order[i + 1];
    }
    if x !in done && Lists(rest, done + {x}, n) {
      assert x !in rest;
      assert forall i :: 1 <= i < |order| ==> order[i] == rest[i - 1];
    }
  }

  lemma RealTimeCons<I, O>(ops: seq<Operation<I, O>>, x: nat, rest: seq<nat>, done: set<nat>)
    requires WellFormed(ops)
    requires Lists([x] + rest, done, |ops|) && Lists(rest, done + {x}, |ops|)
    ensures RespectsRealTime(ops, [x] + rest) <==> Enabled(ops, done, x) && RespectsRealTime(ops, rest)
  {
    var order := [x] + rest;
    assert order[0] == x;
    if RespectsRealTime(ops, order) {
      forall y | 0 <= y < |ops| && y !in done
        ensures !Precedes(ops, y, x)
      {
        assert y in order;
        var j :| 0 <= j < |order| && order[j] == y;
      }
      assert forall i :: 0 <= i < |rest| ==> rest[i] == order[i + 1];
    }
    if Enabled(ops, done, x) && RespectsRealTime(ops, rest) {
      forall i, j | 0 <= i < j < |order|
        ensures !Precedes(ops, order[j], order[i])
      {
        assert order[j] == rest[j - 1] && order[j] in rest;
        if i > 0 { assert order[i] == rest[i - 1]; }
      }
    }
  }

  lemma {:induction false} CompletesInRange<S, I, O>(
      m: Model<S, I, O>, ops: seq<Operation<I, O>>, done: set<nat>, s: S, order: seq<nat>)
    requires Completes(m, ops, done, s, order)
    ensures InRange(order, |ops|)
    decreases |order|
  {
    if order != [] {
      var next := Step(m, s, ops[order[0]]);
      CompletesInRange(m, ops, done + {order[0]}, next.value, order[1..]);
      assert forall i :: 1 <= i < |order| ==> order[i] == order[1..][i - 1];
    }
  }

  // A permutation is a list of everything, each once.
  lemma PermutationLists(order: seq<nat>, n: nat)
    ensures IsPermutation(order, n) <==> Lists(order, {}, n)
  {
    if InRange(order, n) && Distinct(order) {
      var members := Members(order);
      var all := Below(n);
      DistinctSize(order);
      if |order| == n {
        SubsetSize(members, all);
        assert forall x: nat :: x < n ==> x in all && x in members;
      }
      if Lists(order, {}, n) {
        assert forall x: nat :: x in all ==> x in order;
        assert members == all;
      }
    }
  }

  function Below(n: nat): (s: set<nat>)
    ensures |s| == n && forall x: nat :: x in s <==> x < n
  {
    if n == 0 then {} else Below(n - 1) + {n - 1}
  }

  function Members(order: seq<nat>): set<nat> {
    set x | x in order
  }

  lemma {:induction false} DistinctSize(order: seq<nat>)
    requires Distinct(order)
    ensures |Members(order)| == |order|
  {
    if order != [] {
      var rest, x := order[..|order| - 1], order[|order| - 1];
      DistinctSize(rest);
      assert order == rest + [x] && x !in rest;
      assert Members(order) == Members(rest) + {x};
    }
  }

  lemma SubsetSize(a: set<nat>, b: set<nat>)
    requires a <= b && |a| == |b|
    ensures a == b
  {
    assert b == a + (b - a);
    assert |b - a| == 0;
  }

  lemma SubsetBound(a: set<nat>, b: set<nat>)
    requires a <= b
    ensures |a| <= |b|
  {
    assert b == a + (b - a);
  }

  // A history is linearizable exactly when the start of the search is not dead.
  lemma LinearizableIffNotDead<S, I, O>(m: Model<S, I, O>, ops: seq<Operation<I, O>>)
    requires WellFormed(ops)
    ensures Linearizable(m, ops) <==> !Dead(m, ops, {}, m.init)
  {
    forall order: seq<nat>
      ensures Completes(m, ops, {}, m.init, order) <==> IsLinearization(m, ops, order)
    {
      CompletesIsLinearization(m, ops, order);
    }
  }

  lemma CompletesIsLinearization<S, I, O>(m: Model<S, I, O>, ops: seq<Operation<I, O>>, order: seq<nat>)
    requires WellFormed(ops)
    ensures Completes(m, ops, {}, m.init, order) <==> IsLinearization(m, ops, order)
  {
    if Completes(m, ops, {}, m.init, order) {
      CompletesInRange(m, ops, {}, m.init, order);
    }
    if InRange(order, |ops|) {
      CompletesMeans(m, ops, {}, m.init, order);
      PermutationLists(order, |ops|);
    }
  }
}
