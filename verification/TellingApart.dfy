/** Real-time order can be observed: histories of distinguishable operations with different real-time
    orders are told apart by a model. */
module TellingApart {
  import opened Sequences
  import opened Wrappers
  import opened Specification
  import opened Histories

  // No two operations have the same input and output.
  ghost predicate Telling<I, O>(ops: seq<Operation<I, O>>) {
    forall x, y | 0 <= x < |ops| && 0 <= y < |ops| && x != y ::
      ops[x].input != ops[y].input || ops[x].output != ops[y].output
  }

  // ----- a linearization with y before x -----

  // The indices below n in ascending order of their points.
  lemma {:induction false} SortPoints(points: seq<nat>, n: nat) returns (order: seq<nat>)
    requires n <= |points|
    ensures IsPermutation(order, n)
    ensures forall i, j :: 0 <= i < j < n ==> points[order[i]] <= points[order[j]]
  {
    if n == 0 {
      order := [];
    } else {
      var init := SortPoints(points, n - 1);
      var at := n - 1;
      while at > 0 && points[init[at - 1]] > points[n - 1]
        invariant 0 <= at <= n - 1
        invariant forall i :: at <= i < n - 1 ==> points[init[i]] > points[n - 1]
      {
        at := at - 1;
      }
      order := init[..at] + [n - 1] + init[at..];
    }
  }

  // Where an operation takes effect when y is to come before x: y at its call, x at its return.
  function Point<I, O>(ops: seq<Operation<I, O>>, x: nat, z: nat): nat
    requires z < |ops|
  {
    if z == x then 2 * ops[z].returnTime + 1 else 2 * ops[z].call
  }

  // Unless x must precede y, some order that respects real time has y before x.
  lemma OrderWith<I, O>(ops: seq<Operation<I, O>>, x: nat, y: nat) returns (order: seq<nat>)
    requires WellFormed(ops) && x < |ops| && y < |ops| && x != y && !Precedes(ops, x, y)
    ensures IsPermutation(order, |ops|) && RespectsRealTime(ops, order)
    ensures exists i, j :: 0 <= i < j < |order| && order[i] == y && order[j] == x
  {
    var points := seq(|ops|, z requires 0 <= z < |ops| => Point(ops, x, z));
    order := SortPoints(points, |ops|);
    PermutationLists(order, |ops|);
    assert x in order && y in order;
    var i :| 0 <= i < |order| && order[i] == y;
    var j :| 0 <= j < |order| && order[j] == x;
    assert points[y] < points[x];
  }

  // ----- a model that accepts one sequence only -----

  ghost function ReplayStep<I, O>(
      ops: seq<Operation<I, O>>, order: seq<nat>, k: nat, input: I, output: O): Option<nat>
    requires InRange(order, |ops|)
  {
    if k < |order| && ops[order[k]].input == input && ops[order[k]].output == output then Some(k + 1) else None
  }

  ghost function Replay<I, O>(ops: seq<Operation<I, O>>, order: seq<nat>): Model<nat, I, O>
    requires InRange(order, |ops|)
  {
    Model(0, (k: nat, input: I, output: O) => ReplayStep(ops, order, k, input, output))
  }

  lemma {:induction false} ReplayRun<I, O>(
      ops: seq<Operation<I, O>>, order: seq<nat>, other: seq<Operation<I, O>>, k: nat, run: seq<nat>)
    requires InRange(order, |ops|) && InRange(run, |ops|) && Telling(ops) && k <= |order|
    requires |other| == |ops|
    requires forall x :: 0 <= x < |ops| ==> other[x].input == ops[x].input && other[x].output == ops[x].output
    ensures Run(Replay(ops, order), k, other, run).Some? <==> run <= order[k..]
    decreases |run|
  {
    if run != [] && k < |order| {
      assert order[k..] == [order[k]] + order[k + 1..];
      assert run == [run[0]] + run[1..];
      if run[0] == order[k] {
        ReplayRun(ops, order, other, k + 1, run[1..]);
      }
    }
  }

  lemma ReplayAccepts<I, O>(ops: seq<Operation<I, O>>, order: seq<nat>, other: seq<Operation<I, O>>)
    requires IsPermutation(order, |ops|) && Telling(ops) && |other| == |ops|
    requires forall x :: 0 <= x < |ops| ==> other[x].input == ops[x].input && other[x].output == ops[x].output
    ensures Linearizable(Replay(ops, order), other) <==> RespectsRealTime(other, order)
  {
    ReplayRun(ops, order, other, 0, order);
    assert order[0..] == order;
    if RespectsRealTime(other, order) {
      assert IsLinearization(Replay(ops, order), other, order);
    }
    if run :| IsLinearization(Replay(ops, order), other, run) {
      ReplayRun(ops, order, other, 0, run);
    }
  }

  // Two histories of the same distinguishable operations that differ in real-time order are told
  // apart by some model.
  lemma OrdersTellApart<I, O>(a: seq<Operation<I, O>>, b: seq<Operation<I, O>>) returns (m: Model<nat, I, O>)
    requires WellFormed(a) && WellFormed(b) && |a| == |b| && Telling(b) && !Alike(a, b)
    requires forall x :: 0 <= x < |a| ==> a[x].input == b[x].input && a[x].output == b[x].output
    ensures Linearizable(m, a) != Linearizable(m, b)
  {
    var x, y :| 0 <= x < |a| && 0 <= y < |a| && Precedes(a, x, y) != Precedes(b, x, y);
    var free, bound := if Precedes(a, x, y) then b else a, if Precedes(a, x, y) then a else b;
    var order := OrderWith(free, x, y);
    m := Replay(b, order);
    ReplayAccepts(b, order, a);
    ReplayAccepts(b, order, b);
    assert RespectsRealTime(free, order) && !RespectsRealTime(bound, order);
  }
}
