/** The power-set adapters: a nondeterministic model as an ordinary one over sets of states. */
module PowerSet {
  import opened Wrappers
  import opened Specification
  import opened Sequences

  datatype NdModel<!S, !I, !O> = NdModel(init: seq<S>, step: (S, I, O) -> seq<S>)

  // All successors of the listed states, in order, repetitions included.
  function Successors<S, I, O>(nd: NdModel<S, I, O>, states: seq<S>, input: I, output: O): seq<S> {
    if states == [] then []
    else
      var n := |states| - 1;
      Successors(nd, states[..n], input, output) + nd.step(states[n], input, output)
  }

  function NextStates<S(==), I, O>(nd: NdModel<S, I, O>, states: seq<S>, input: I, output: O): Option<seq<S>> {
    var deduped := Dedup(Successors(nd, states, input, output));
    if deduped == [] then None else Some(deduped)
  }

  // The adapted model, as the search sees it.
  function PowerSetModel<S(==), I, O>(nd: NdModel<S, I, O>): Model<seq<S>, I, O> {
    Model(Dedup(nd.init), (states: seq<S>, input: I, output: O) => NextStates(nd, states, input, output))
  }

  // ----- the two adapters -----

  method Deduplicate<S(==)>(states: seq<S>) returns (out: seq<S>)
    ensures out == Dedup(states)
  {
    out := [];
    for i := 0 to |states|
      invariant out == Dedup(states[..i])
    {
      assert states[..i + 1] == states[..i] + [states[i]];
      DedupGrows(states[..i], states[i]);
      if states[i] !in out {
        out := out + [states[i]];
      }
    }
    assert states[..|states|] == states;
  }

  method DeduplicateHashed<S(==)>(states: seq<S>) returns (out: seq<S>)
    ensures out == Dedup(states)
  {
    var seen: set<S> := {};
    out := [];
    for i := 0 to |states|
      invariant out == Dedup(states[..i])
      invariant forall x :: x in seen <==> x in out
    {
      assert states[..i + 1] == states[..i] + [states[i]];
      DedupGrows(states[..i], states[i]);
      var inserted := states[i] !in seen;
      seen := seen + {states[i]};
      if inserted {
        out := out + [states[i]];
      }
    }
    assert states[..|states|] == states;
  }

  method Expand<S, I, O>(nd: NdModel<S, I, O>, states: seq<S>, input: I, output: O) returns (successors: seq<S>)
    ensures successors == Successors(nd, states, input, output)
  {
    successors := [];
    for i := 0 to |states|
      invariant successors == Successors(nd, states[..i], input, output)
    {
      assert states[..i + 1][..i] == states[..i];
      successors := successors + nd.step(states[i], input, output);
    }
    assert states[..|states|] == states;
  }

  method PowerSetStep<S(==), I, O>(nd: NdModel<S, I, O>, states: seq<S>, input: I, output: O)
    returns (next: Option<seq<S>>)
    ensures next == PowerSetModel(nd).step(states, input, output)
  {
    var successors := Expand(nd, states, input, output);
    var deduped := Deduplicate(successors);
    next := if deduped == [] then None else Some(deduped);
  }

  method HashedPowerSetStep<S(==), I, O>(nd: NdModel<S, I, O>, states: seq<S>, input: I, output: O)
    returns (next: Option<seq<S>>)
    ensures next == PowerSetModel(nd).step(states, input, output)
  {
    var successors := Expand(nd, states, input, output);
    var deduped := DeduplicateHashed(successors);
    next := if deduped == [] then None else Some(deduped);
  }

  // ----- nondeterministic runs -----

  // Some branch of the model leads from s through the listed operations to t.
  ghost predicate Branch<S, I, O>(nd: NdModel<S, I, O>, ops: seq<Operation<I, O>>, order: seq<nat>, s: S, t: S)
    requires InRange(order, |ops|)
    decreases |order|
  {
    if order == [] then s == t
    else
      var successors := nd.step(s, ops[order[0]].input, ops[order[0]].output);
      exists j :: 0 <= j < |successors| && Branch(nd, ops, order[1..], successors[j], t)
  }

  ghost predicate IsNdLinearization<S(!new), I, O>(nd: NdModel<S, I, O>, ops: seq<Operation<I, O>>, order: seq<nat>) {
    && IsPermutation(order, |ops|)
    && RespectsRealTime(ops, order)
    && exists i, t :: 0 <= i < |nd.init| && Branch(nd, ops, order, nd.init[i], t)
  }

  ghost predicate NdLinearizable<S(!new), I, O>(nd: NdModel<S, I, O>, ops: seq<Operation<I, O>>) {
    exists order :: IsNdLinearization(nd, ops, order)
  }

  // t is reached by some branch from some of the listed states.
  ghost predicate ReachedFrom<S, I, O>(
      nd: NdModel<S, I, O>, ops: seq<Operation<I, O>>, order: seq<nat>, states: seq<S>, t: S)
    requires InRange(order, |ops|)
  {
    exists i :: 0 <= i < |states| && Branch(nd, ops, order, states[i], t)
  }

  lemma {:induction false} SuccessorsMeans<S, I, O>(nd: NdModel<S, I, O>, states: seq<S>, input: I, output: O)
    ensures forall i, j :: 0 <= i < |states| && 0 <= j < |nd.step(states[i], input, output)| ==>
              nd.step(states[i], input, output)[j] in Successors(nd, states, input, output)
    ensures forall k :: 0 <= k < |Successors(nd, states, input, output)| ==>
              IsSuccessor(nd, states, input, output, Successors(nd, states, input, output)[k])
  {
    if states != [] {
      var n := |states| - 1;
      var init, last := states[..n], nd.step(states[n], input, output);
      var before, all := Successors(nd, init, input, output), Successors(nd, states, input, output);
      SuccessorsMeans(nd, init, input, output);
      forall k | 0 <= k < |all|
        ensures IsSuccessor(nd, states, input, output, all[k])
      {
        if k < |before| {
          assert IsSuccessor(nd, init, input, output, before[k]);
          var i, j :| 0 <= i < |init| && 0 <= j < |nd.step(init[i], input, output)| &&
                      nd.step(init[i], input, output)[j] == before[k];
          assert states[i] == init[i];
        } else {
          assert all[k] == last[k - |before|];
        }
      }
      forall i, j | 0 <= i < |states| && 0 <= j < |nd.step(states[i], input, output)|
        ensures nd.step(states[i], input, output)[j] in all
      {
        if i < n {
          assert init[i] == states[i];
          assert nd.step(init[i], input, output)[j] in before;
        }
      }
    }
  }

  // The j-th successor of the i-th state.
  ghost predicate Offered<S, I, O>(
      nd: NdModel<S, I, O>, states: seq<S>, input: I, output: O, i: nat, j: nat, t: S)
  {
    i < |states| && j < |nd.step(states[i], input, output)| && nd.step(states[i], input, output)[j] == t
  }

  // Where the j-th successor of the i-th state stands among all successors.
  function Offset<S, I, O>(nd: NdModel<S, I, O>, states: seq<S>, input: I, output: O, i: nat, j: nat): nat
    requires i <= |states|
  {
    |Successors(nd, states[..i], input, output)| + j
  }

  // All successors of the earlier states come first, and those of one state stay in its order.
  lemma {:induction false} SuccessorsInOrder<S, I, O>(
      nd: NdModel<S, I, O>, states: seq<S>, input: I, output: O, i: nat, j: nat)
    requires i < |states| && j < |nd.step(states[i], input, output)|
    ensures var a := Offset(nd, states, input, output, i, j);
            a < |Successors(nd, states, input, output)| &&
            Successors(nd, states, input, output)[a] == nd.step(states[i], input, output)[j]
    decreases |states|
  {
    var n := |states| - 1;
    if i < n {
      SuccessorsInOrder(nd, states[..n], input, output, i, j);
      assert states[..n][..i] == states[..i];
    }
  }

  lemma {:induction false} OffsetGrows<S, I, O>(
      nd: NdModel<S, I, O>, states: seq<S>, input: I, output: O, i: nat, j: nat, i': nat)
    requires i < i' <= |states| && j < |nd.step(states[i], input, output)|
    ensures Offset(nd, states, input, output, i, j) < Offset(nd, states, input, output, i', 0)
    decreases i'
  {
    assert states[..i'][..i' - 1] == states[..i' - 1];
    if i < i' - 1 { OffsetGrows(nd, states, input, output, i, j, i' - 1); }
  }

  // Every place among the successors is that of one successor of one state.
  lemma {:induction false} OfferAt<S, I, O>(nd: NdModel<S, I, O>, states: seq<S>, input: I, output: O, a: nat)
    returns (i: nat, j: nat)
    requires a < |Successors(nd, states, input, output)|
    ensures Offered(nd, states, input, output, i, j, Successors(nd, states, input, output)[a])
    ensures a == Offset(nd, states, input, output, i, j)
    decreases |states|
  {
    var n := |states| - 1;
    var before := |Successors(nd, states[..n], input, output)|;
    if a < before {
      i, j := OfferAt(nd, states[..n], input, output, a);
      assert states[..n][..i] == states[..i];
    } else {
      i, j := n, a - before;
    }
  }

  // Is t offered before u is: by an earlier state, or earlier by the same one?
  ghost predicate OfferedBefore<S, I, O>(
      nd: NdModel<S, I, O>, states: seq<S>, input: I, output: O, t: S, u: S)
  {
    exists i, j :: Offered(nd, states, input, output, i, j, t) &&
      forall i', j' :: Offered(nd, states, input, output, i', j', u) ==> i < i' || (i == i' && j < j')
  }

  // The next power state lists its members in the order in which they are first offered.
  lemma NextStatesInOrder<S, I, O>(
      nd: NdModel<S, I, O>, states: seq<S>, input: I, output: O, k: nat, l: nat)
    requires var next := NextStates(nd, states, input, output); next.Some? && k < l < |next.value|
    ensures var next := NextStates(nd, states, input, output).value;
            OfferedBefore(nd, states, input, output, next[k], next[l])
  {
    var all := Successors(nd, states, input, output);
    var t, u := Dedup(all)[k], Dedup(all)[l];
    DedupKeepsOrder(all, k, l);
    var a :| 0 <= a < |all| && all[a] == t && forall b :: 0 <= b <= a ==> all[b] != u;
    var i, j := OfferAt(nd, states, input, output, a);
    forall i', j' | Offered(nd, states, input, output, i', j', u)
      ensures i < i' || (i == i' && j < j')
    {
      SuccessorsInOrder(nd, states, input, output, i', j');
      if i' < i { OffsetGrows(nd, states, input, output, i', j', i); }
    }
  }

  ghost predicate IsSuccessor<S, I, O>(nd: NdModel<S, I, O>, states: seq<S>, input: I, output: O, t: S) {
    exists i, j :: 0 <= i < |states| && 0 <= j < |nd.step(states[i], input, output)| &&
                   nd.step(states[i], input, output)[j] == t
  }

  // One power step goes exactly to the successors.
  lemma NextStatesMeans<S(!new), I, O>(nd: NdModel<S, I, O>, states: seq<S>, input: I, output: O)
    ensures var d := Dedup(Successors(nd, states, input, output));
            Distinct(d) && forall t :: t in d <==> IsSuccessor(nd, states, input, output, t)
  {
    var all := Successors(nd, states, input, output);
    DedupMeans(all);
    SuccessorsMeans(nd, states, input, output);
    forall t
      ensures t in all <==> IsSuccessor(nd, states, input, output, t)
    {
      if t in all {
        var k :| 0 <= k < |all| && all[k] == t;
      }
    }
  }

  // After any accepted sequence the power state lists, without repetitions, exactly the states some
  // branch reaches; a sequence is refused exactly when no branch survives it.
  lemma {:induction false} PowerRun<S(!new), I, O>(
      nd: NdModel<S, I, O>, ops: seq<Operation<I, O>>, order: seq<nat>, states: seq<S>)
    requires InRange(order, |ops|) && Distinct(states) && states != []
    ensures var run := Run(PowerSetModel(nd), states, ops, order);
            if run.Some?
            then run.value != [] && Distinct(run.value) &&
                 forall t :: t in run.value <==> ReachedFrom(nd, ops, order, states, t)
            else forall t :: !ReachedFrom(nd, ops, order, states, t)
    decreases |order|
  {
    var run := Run(PowerSetModel(nd), states, ops, order);
    if order == [] {
      forall t
        ensures t in states <==> ReachedFrom(nd, ops, order, states, t)
      {
        if t in states {
          var i :| 0 <= i < |states| && states[i] == t;
          assert Branch(nd, ops, order, states[i], t);
        }
      }
    } else {
      var op, rest := ops[order[0]], order[1..];
      NextStatesMeans(nd, states, op.input, op.output);
      var next := Dedup(Successors(nd, states, op.input, op.output));
      assert Step(PowerSetModel(nd), states, op) == NextStates(nd, states, op.input, op.output);
      forall t
        ensures ReachedFrom(nd, ops, order, states, t) <==> ReachedFrom(nd, ops, rest, next, t)
      {
        ReachedOneStep(nd, ops, order, states, next, t);
      }
      if next != [] {
        PowerRun(nd, ops, rest, next);
      }
    }
  }

  lemma ReachedOneStep<S(!new), I, O>(
      nd: NdModel<S, I, O>, ops: seq<Operation<I, O>>, order: seq<nat>, states: seq<S>, next: seq<S>, t: S)
    requires InRange(order, |ops|) && order != []
    requires var op := ops[order[0]];
             forall u :: u in next <==> IsSuccessor(nd, states, op.input, op.output, u)
    ensures ReachedFrom(nd, ops, order, states, t) <==> ReachedFrom(nd, ops, order[1..], next, t)
  {
    var op, rest := ops[order[0]], order[1..];
    if ReachedFrom(nd, ops, order, states, t) {
      var i :| 0 <= i < |states| && Branch(nd, ops, order, states[i], t);
      var successors := nd.step(states[i], op.input, op.output);
      var j :| 0 <= j < |successors| && Branch(nd, ops, rest, successors[j], t);
      var u := successors[j];
      assert IsSuccessor(nd, states, op.input, op.output, u);
      assert u in next;
      var k :| 0 <= k < |next| && next[k] == u;
    }
    if ReachedFrom(nd, ops, rest, next, t) {
      var k :| 0 <= k < |next| && Branch(nd, ops, rest, next[k], t);
      assert next[k] in next && IsSuccessor(nd, states, op.input, op.output, next[k]);
      var i, j :| 0 <= i < |states| && 0 <= j < |nd.step(states[i], op.input, op.output)| &&
                  nd.step(states[i], op.input, op.output)[j] == next[k];
      assert Branch(nd, ops, order, states[i], t);
    }
  }

  // The adapted model accepts exactly the orders that have a nondeterministic run; except that with
  // no initial state and no operation it accepts, although there is no run.
  lemma PowerSetOrder<S(!new), I, O>(nd: NdModel<S, I, O>, ops: seq<Operation<I, O>>, order: seq<nat>)
    ensures IsLinearization(PowerSetModel(nd), ops, order)
       <==> IsNdLinearization(nd, ops, order) || (nd.init == [] && ops == [] && order == [])
  {
    var start := Dedup(nd.init);
    DedupMeans(nd.init);
    if IsPermutation(order, |ops|) {
      var run := Run(PowerSetModel(nd), start, ops, order);
      if nd.init == [] {
        if order != [] {
          NextStatesMeans(nd, start, ops[order[0]].input, ops[order[0]].output);
        }
      } else {
        assert nd.init[0] in start;
        PowerRun(nd, ops, order, start);
        if run.Some? {
          assert run.value[0] in run.value;
          var i :| 0 <= i < |start| && Branch(nd, ops, order, start[i], run.value[0]);
          assert start[i] in nd.init;
        }
        if i, t :| 0 <= i < |nd.init| && Branch(nd, ops, order, nd.init[i], t) {
          assert nd.init[i] in start;
          var k :| 0 <= k < |start| && start[k] == nd.init[i];
          assert ReachedFrom(nd, ops, order, start, t);
        }
      }
    }
  }

  // Without an initial state the adapter still accepts the empty history.
  ghost predicate AdapterAccepts<S(!new), I, O>(nd: NdModel<S, I, O>, ops: seq<Operation<I, O>>) {
    NdLinearizable(nd, ops) || (nd.init == [] && ops == [])
  }

  lemma PowerSetVerdict<S(!new), I, O>(nd: NdModel<S, I, O>, ops: seq<Operation<I, O>>)
    ensures Linearizable(PowerSetModel(nd), ops) <==> AdapterAccepts(nd, ops)
  {
    forall order
      ensures IsLinearization(PowerSetModel(nd), ops, order)
         <==> IsNdLinearization(nd, ops, order) || (nd.init == [] && ops == [] && order == [])
    {
      PowerSetOrder(nd, ops, order);
    }
    assert nd.init == [] && ops == [] ==> IsLinearization(PowerSetModel(nd), ops, []);
  }
}
