/** P-compositionality for nondeterministic models, and the initial states for which it fails. */
module NdCompositionality {
  import opened Sequences
  import opened Wrappers
  import opened Specification
  import opened Histories
  import opened Compositionality
  import opened PowerSet

  // What can be seen at the operation's key decides what can be seen there next, and no other view
  // changes.
  ghost predicate NdKeyLocal<S(!new), I(!new), O(!new), K(!new), V>(
      nd: NdModel<S, I, O>, key: I -> K, view: (S, K) -> V)
  {
    && (forall s, t, i, o, j :: view(s, key(i)) == view(t, key(i)) && 0 <= j < |nd.step(s, i, o)| ==>
          Offers(nd, key, view, t, i, o, view(nd.step(s, i, o)[j], key(i))))
    && forall s, i, o, k, j :: k != key(i) && 0 <= j < |nd.step(s, i, o)| ==>
         view(nd.step(s, i, o)[j], k) == view(s, k)
  }

  // Some successor shows v at the operation's key.
  ghost predicate Offers<S, I, O, K, V>(
      nd: NdModel<S, I, O>, key: I -> K, view: (S, K) -> V, s: S, i: I, o: O, v: V)
  {
    exists j :: 0 <= j < |nd.step(s, i, o)| && view(nd.step(s, i, o)[j], key(i)) == v
  }

  // u looks like t at k and like s everywhere else.
  ghost predicate Mixes<S, K(!new), V>(view: (S, K) -> V, u: S, s: S, t: S, k: K) {
    view(u, k) == view(t, k) && forall l :: l != k ==> view(u, l) == view(s, l)
  }

  ghost predicate MixedIn<S, K(!new), V>(states: seq<S>, view: (S, K) -> V, s: S, t: S, k: K) {
    exists i :: 0 <= i < |states| && Mixes(view, states[i], s, t, k)
  }

  // Any state's view at one key goes with any other state's views at the others. A single state is
  // uncorrelated, and so is no state.
  ghost predicate Uncorrelated<S(!new), K(!new), V>(states: seq<S>, view: (S, K) -> V) {
    forall s, t, k :: s in states && t in states ==> MixedIn(states, view, s, t, k)
  }

  // ----- the deterministic product over keys -----

  ghost predicate Shown<S, K, V>(states: seq<S>, view: (S, K) -> V, k: K, v: V) {
    exists i :: 0 <= i < |states| && view(states[i], k) == v
  }

  // The views that can be seen at k.
  ghost function SeenAt<S, K, V(!new)>(states: seq<S>, view: (S, K) -> V, k: K): iset<V> {
    iset v | Shown(states, view, k, v)
  }

  ghost function Seen<S, K(!new), V(!new)>(states: seq<S>, view: (S, K) -> V): imap<K, iset<V>> {
    imap k | true :: SeenAt(states, view, k)
  }

  ghost function At<K, V>(d: imap<K, iset<V>>, k: K): iset<V> {
    if k in d then d[k] else iset{}
  }

  ghost predicate ShownNext<S(!new), I, O, K, V>(
      nd: NdModel<S, I, O>, key: I -> K, view: (S, K) -> V, seen: iset<V>, i: I, o: O, v: V)
  {
    exists s :: view(s, key(i)) in seen && Offers(nd, key, view, s, i, o, v)
  }

  ghost function NextSeen<S(!new), I, O, K, V(!new)>(
      nd: NdModel<S, I, O>, key: I -> K, view: (S, K) -> V, seen: iset<V>, i: I, o: O): iset<V>
  {
    iset v | ShownNext(nd, key, view, seen, i, o, v)
  }

  ghost function ProductStep<S(!new), I, O, K, V(!new)>(
      nd: NdModel<S, I, O>, key: I -> K, view: (S, K) -> V, d: imap<K, iset<V>>, i: I, o: O): Option<imap<K, iset<V>>>
  {
    var next := NextSeen(nd, key, view, At(d, key(i)), i, o);
    if next == iset{} then None else Some(d[key(i) := next])
  }

  // Every key goes its own way.
  ghost function Product<S(!new), I, O, K(!new), V(!new)>(nd: NdModel<S, I, O>, key: I -> K, view: (S, K) -> V)
    : Model<imap<K, iset<V>>, I, O>
  {
    Model(Seen(Dedup(nd.init), view),
      (d: imap<K, iset<V>>, i: I, o: O) => ProductStep(nd, key, view, d, i, o))
  }

  lemma ProductIsKeyLocal<S(!new), I(!new), O(!new), K(!new), V(!new)>(
      nd: NdModel<S, I, O>, key: I -> K, view: (S, K) -> V)
    ensures KeyLocal(Product(nd, key, view), key, At)
  {
  }

  // ----- the product follows the power set -----

  lemma NextMixed<S(!new), I(!new), O(!new), K(!new), V>(
      nd: NdModel<S, I, O>, key: I -> K, view: (S, K) -> V, states: seq<S>, i: I, o: O, next: seq<S>)
    requires NdKeyLocal(nd, key, view) && Uncorrelated(states, view)
    requires forall u :: u in next <==> IsSuccessor(nd, states, i, o, u)
    ensures Uncorrelated(next, view)
  {
    forall s', t', k | s' in next && t' in next
      ensures MixedIn(next, view, s', t', k)
    {
      var s := Predecessor(nd, states, i, o, s');
      var t := Predecessor(nd, states, i, o, t');
      assert MixedIn(states, view, s, t, k);
      var m :| 0 <= m < |states| && Mixes(view, states[m], s, t, k);
      var u := states[m];
      var v := view(if k == key(i) then t' else s', key(i));
      assert Offers(nd, key, view, u, i, o, v);
      var j :| 0 <= j < |nd.step(u, i, o)| && view(nd.step(u, i, o)[j], key(i)) == v;
      var u' := nd.step(u, i, o)[j];
      assert IsSuccessor(nd, states, i, o, u');
      assert u' in next && Mixes(view, u', s', t', k);
    }
  }

  lemma Predecessor<S, I, O>(nd: NdModel<S, I, O>, states: seq<S>, i: I, o: O, u: S) returns (s: S)
    requires IsSuccessor(nd, states, i, o, u)
    ensures s in states && u in nd.step(s, i, o)
  {
    var a, j :| 0 <= a < |states| && 0 <= j < |nd.step(states[a], i, o)| && nd.step(states[a], i, o)[j] == u;
    s := states[a];
  }

  // What can be seen after a step: the next views at its key, and elsewhere what could be seen before.
  lemma NextSeenAt<S(!new), I(!new), O(!new), K(!new), V(!new)>(
      nd: NdModel<S, I, O>, key: I -> K, view: (S, K) -> V, states: seq<S>, i: I, o: O, next: seq<S>, k: K)
    requires NdKeyLocal(nd, key, view) && Uncorrelated(states, view)
    requires forall u :: u in next <==> IsSuccessor(nd, states, i, o, u)
    ensures SeenAt(next, view, key(i)) == NextSeen(nd, key, view, SeenAt(states, view, key(i)), i, o)
    ensures next != [] && k != key(i) ==> SeenAt(next, view, k) == SeenAt(states, view, k)
  {
    forall v
      ensures v in SeenAt(next, view, key(i)) <==>
              v in NextSeen(nd, key, view, SeenAt(states, view, key(i)), i, o)
    {
      SeenNext(nd, key, view, states, i, o, next, v);
    }
    if next != [] && k != key(i) {
      forall v
        ensures v in SeenAt(next, view, k) <==> v in SeenAt(states, view, k)
      {
        SeenElsewhere(nd, key, view, states, i, o, next, k, v);
      }
    }
  }

  lemma SeenNext<S(!new), I(!new), O(!new), K(!new), V(!new)>(
      nd: NdModel<S, I, O>, key: I -> K, view: (S, K) -> V, states: seq<S>, i: I, o: O, next: seq<S>, v: V)
    requires NdKeyLocal(nd, key, view)
    requires forall u :: u in next <==> IsSuccessor(nd, states, i, o, u)
    ensures v in SeenAt(next, view, key(i)) <==>
            v in NextSeen(nd, key, view, SeenAt(states, view, key(i)), i, o)
  {
    if a :| 0 <= a < |next| && view(next[a], key(i)) == v {
      assert next[a] in next;
      var s := Predecessor(nd, states, i, o, next[a]);
      assert view(s, key(i)) in SeenAt(states, view, key(i));
      assert Offers(nd, key, view, s, i, o, v);
    }
    if s :| view(s, key(i)) in SeenAt(states, view, key(i)) && Offers(nd, key, view, s, i, o, v) {
      var a :| 0 <= a < |states| && view(states[a], key(i)) == view(s, key(i));
      assert Offers(nd, key, view, states[a], i, o, v);
      var j :| 0 <= j < |nd.step(states[a], i, o)| && view(nd.step(states[a], i, o)[j], key(i)) == v;
      assert IsSuccessor(nd, states, i, o, nd.step(states[a], i, o)[j]);
      assert nd.step(states[a], i, o)[j] in next;
    }
  }

  lemma SeenElsewhere<S(!new), I(!new), O(!new), K(!new), V(!new)>(
      nd: NdModel<S, I, O>, key: I -> K, view: (S, K) -> V, states: seq<S>, i: I, o: O, next: seq<S>, k: K, v: V)
    requires NdKeyLocal(nd, key, view) && Uncorrelated(states, view) && next != [] && k != key(i)
    requires forall u :: u in next <==> IsSuccessor(nd, states, i, o, u)
    ensures v in SeenAt(next, view, k) <==> v in SeenAt(states, view, k)
  {
    if a :| 0 <= a < |next| && view(next[a], k) == v {
      assert next[a] in next;
      var s := Predecessor(nd, states, i, o, next[a]);
      assert view(s, k) == v;
    }
    if a :| 0 <= a < |states| && view(states[a], k) == v {
      assert next[0] in next;
      var t := Predecessor(nd, states, i, o, next[0]);
      assert MixedIn(states, view, states[a], t, key(i));
      var m :| 0 <= m < |states| && Mixes(view, states[m], states[a], t, key(i));
      var u := states[m];
      assert Offers(nd, key, view, u, i, o, view(next[0], key(i)));
      var j :| 0 <= j < |nd.step(u, i, o)| && view(nd.step(u, i, o)[j], key(i)) == view(next[0], key(i));
      assert IsSuccessor(nd, states, i, o, nd.step(u, i, o)[j]);
      assert nd.step(u, i, o)[j] in next && view(nd.step(u, i, o)[j], k) == v;
    }
  }

  // One step of the product shows what the successors show.
  lemma ProductFollows<S(!new), I(!new), O(!new), K(!new), V(!new)>(
      nd: NdModel<S, I, O>, key: I -> K, view: (S, K) -> V, states: seq<S>, d: imap<K, iset<V>>,
      i: I, o: O, next: seq<S>)
    requires NdKeyLocal(nd, key, view) && Uncorrelated(states, view)
    requires forall k :: At(d, k) == SeenAt(states, view, k)
    requires forall u :: u in next <==> IsSuccessor(nd, states, i, o, u)
    ensures var d' := ProductStep(nd, key, view, d, i, o);
            if next == [] then d' == None
            else d'.Some? && forall k :: At(d'.value, k) == SeenAt(next, view, k)
  {
    NextSeenAt(nd, key, view, states, i, o, next, key(i));
    if next != [] {
      assert view(next[0], key(i)) in SeenAt(next, view, key(i));
      forall k
        ensures k != key(i) ==> SeenAt(next, view, k) == At(d, k)
      {
        NextSeenAt(nd, key, view, states, i, o, next, k);
      }
    }
  }

  // From uncorrelated states the product accepts the same orders as the power set.
  lemma {:induction false} ProductRun<S(!new), I(!new), O(!new), K(!new), V(!new)>(
      nd: NdModel<S, I, O>, key: I -> K, view: (S, K) -> V, ops: seq<Operation<I, O>>, order: seq<nat>,
      states: seq<S>, d: imap<K, iset<V>>)
    requires NdKeyLocal(nd, key, view) && Uncorrelated(states, view) && states != []
    requires InRange(order, |ops|) && forall k :: At(d, k) == SeenAt(states, view, k)
    ensures Run(PowerSetModel(nd), states, ops, order).Some? <==> Run(Product(nd, key, view), d, ops, order).Some?
    decreases |order|
  {
    if order != [] {
      var op := ops[order[0]];
      var next := Dedup(Successors(nd, states, op.input, op.output));
      assert Step(PowerSetModel(nd), states, op) == NextStates(nd, states, op.input, op.output);
      assert Step(Product(nd, key, view), d, op) == ProductStep(nd, key, view, d, op.input, op.output);
      hide NdKeyLocal, Uncorrelated, SeenAt, ProductStep;
      NextStatesMeans(nd, states, op.input, op.output);
      ProductFollows(nd, key, view, states, d, op.input, op.output, next);
      if next != [] {
        NextMixed(nd, key, view, states, op.input, op.output, next);
        ProductRun(nd, key, view, ops, order[1..], next, Step(Product(nd, key, view), d, op).value);
      }
    }
  }

  lemma ProductVerdict<S(!new), I(!new), O(!new), K(!new), V(!new)>(
      nd: NdModel<S, I, O>, key: I -> K, view: (S, K) -> V, ops: seq<Operation<I, O>>)
    requires NdKeyLocal(nd, key, view) && Uncorrelated(nd.init, view) && nd.init != []
    ensures Linearizable(PowerSetModel(nd), ops) <==> Linearizable(Product(nd, key, view), ops)
  {
    DedupMeans(nd.init);
    var start := Dedup(nd.init);
    assert nd.init[0] in start;
    forall s, t, k | s in start && t in start
      ensures MixedIn(start, view, s, t, k)
    {
      assert MixedIn(nd.init, view, s, t, k);
      var i :| 0 <= i < |nd.init| && Mixes(view, nd.init[i], s, t, k);
      assert nd.init[i] in start;
    }
    forall order
      ensures IsLinearization(PowerSetModel(nd), ops, order) <==> IsLinearization(Product(nd, key, view), ops, order)
    {
      if InRange(order, |ops|) {
        ProductRun(nd, key, view, ops, order, start, Seen(start, view));
      }
    }
  }

  // A key-local nondeterministic model that starts in uncorrelated states may be checked key by key.
  lemma NdPCompositionality<S(!new), I(!new), O(!new), K(!new), V(!new)>(
      nd: NdModel<S, I, O>, key: I -> K, view: (S, K) -> V, ops: seq<Operation<I, O>>, parts: seq<seq<nat>>)
    requires NdKeyLocal(nd, key, view) && Uncorrelated(nd.init, view)
    requires WellFormed(ops) && IsPartition(parts, |ops|) && KeysApart(ops, key, parts)
    ensures Linearizable(PowerSetModel(nd), ops)
       <==> forall p :: 0 <= p < |parts| ==> Linearizable(PowerSetModel(nd), Gather(ops, parts[p]))
  {
    if nd.init == [] {
      PowerSetVerdict(nd, ops);
      forall p | 0 <= p < |parts|
        ensures Linearizable(PowerSetModel(nd), Gather(ops, parts[p])) <==> parts[p] == []
      {
        PowerSetVerdict(nd, Gather(ops, parts[p]));
      }
      if ops != [] {
        assert Covered(parts, 0);
      } else {
        assert forall p :: 0 <= p < |parts| && parts[p] != [] ==> parts[p][0] < 0;
      }
    } else {
      ProductVerdict(nd, key, view, ops);
      forall p | 0 <= p < |parts|
        ensures Linearizable(PowerSetModel(nd), Gather(ops, parts[p]))
           <==> Linearizable(Product(nd, key, view), Gather(ops, parts[p]))
      {
        ProductVerdict(nd, key, view, Gather(ops, parts[p]));
      }
      ProductIsKeyLocal(nd, key, view);
      PCompositionality(Product(nd, key, view), key, At, ops, parts);
    }
  }

  // ----- correlated initial states -----

  // The model whose operations read one view: input (k, v) is accepted where k shows v.
  ghost function Readers<S(!new), K, V>(init: seq<S>, view: (S, K) -> V): NdModel<S, (K, V), ()> {
    NdModel(init, (s: S, input: (K, V), output: ()) => if view(s, input.0) == input.1 then [s] else [])
  }

  function KeyRead<K, V>(input: (K, V)): K {
    input.0
  }

  lemma ReadersAreKeyLocal<S(!new), K(!new), V(!new)>(init: seq<S>, view: (S, K) -> V)
    ensures NdKeyLocal(Readers(init, view), KeyRead, view)
  {
    var nd := Readers(init, view);
    forall s, t, i, o, j | view(s, KeyRead(i)) == view(t, KeyRead(i)) && 0 <= j < |nd.step(s, i, o)|
      ensures Offers(nd, KeyRead, view, t, i, o, view(nd.step(s, i, o)[j], KeyRead(i)))
    {
      assert nd.step(t, i, o)[0] == t;
    }
  }

  ghost predicate Shows<S, K, V>(view: (S, K) -> V, s: S, ops: seq<Operation<(K, V), ()>>) {
    forall x :: 0 <= x < |ops| ==> view(s, ops[x].input.0) == ops[x].input.1
  }

  lemma {:induction false} ReadersBranch<S(!new), K, V>(
      init: seq<S>, view: (S, K) -> V, ops: seq<Operation<(K, V), ()>>, order: seq<nat>, s: S, t: S)
    requires InRange(order, |ops|)
    ensures Branch(Readers(init, view), ops, order, s, t)
       <==> s == t && forall i :: 0 <= i < |order| ==> view(s, ops[order[i]].input.0) == ops[order[i]].input.1
    decreases |order|
  {
    if order != [] {
      var op := ops[order[0]];
      ReadersBranch(init, view, ops, order[1..], s, t);
      var successors := Readers(init, view).step(s, op.input, op.output);
      assert forall i :: 1 <= i < |order| ==> order[i] == order[1..][i - 1];
      if view(s, op.input.0) == op.input.1 {
        assert successors[0] == s;
      }
    }
  }

  // Concurrent reads are linearizable when one initial state shows them all.
  lemma ReadersVerdict<S(!new), K, V>(init: seq<S>, view: (S, K) -> V, ops: seq<Operation<(K, V), ()>>)
    requires forall x, y :: 0 <= x < |ops| && 0 <= y < |ops| ==> !Precedes(ops, x, y)
    ensures NdLinearizable(Readers(init, view), ops) <==> exists s :: s in init && Shows(view, s, ops)
  {
    var nd := Readers(init, view);
    if order :| IsNdLinearization(nd, ops, order) {
      var i, t :| 0 <= i < |init| && Branch(nd, ops, order, init[i], t);
      ReadersBranch(init, view, ops, order, init[i], t);
      PermutationLists(order, |ops|);
      forall x | 0 <= x < |ops|
        ensures view(t, ops[x].input.0) == ops[x].input.1
      {
        assert x in order;
      }
      assert t in init && Shows(view, t, ops);
    }
    if s :| s in init && Shows(view, s, ops) {
      var order := Upto(|ops|);
      var i :| 0 <= i < |init| && init[i] == s;
      ReadersBranch(init, view, ops, order, s, s);
      assert Branch(nd, ops, order, init[i], s);
      assert IsNdLinearization(nd, ops, order);
    }
  }

  // Keys other than k at which each listed state that differs from s there does differ.
  lemma {:induction false} Differences<S, K(!new), V>(states: seq<S>, view: (S, K) -> V, s: S, k: K)
    returns (keys: seq<K>)
    ensures k !in keys
    ensures forall u :: u in states && (forall l :: l in keys ==> view(u, l) == view(s, l)) ==>
              forall l :: l != k ==> view(u, l) == view(s, l)
  {
    keys := [];
    if states != [] {
      keys := Differences(states[1..], view, s, k);
      assert states == [states[0]] + states[1..];
      if l :| l != k && view(states[0], l) != view(s, l) {
        keys := keys + [l];
      }
    }
  }

  // Concurrent reads: of what s shows at the keys, and of what t shows at k.
  function ConcurrentReads<S, K, V>(view: (S, K) -> V, s: S, keys: seq<K>, t: S, k: K): seq<Operation<(K, V), ()>> {
    seq(|keys| + 1, x requires 0 <= x <= |keys| =>
      Operation(0, if x == |keys| then (k, view(t, k)) else (keys[x], view(s, keys[x])), 0, (), 0))
  }

  function Upto(n: nat): (part: seq<nat>)
    ensures |part| == n && forall x :: 0 <= x < n ==> part[x] == x
  {
    seq(n, x requires 0 <= x < n => x)
  }

  lemma ReadsApart<S, K, V>(view: (S, K) -> V, s: S, keys: seq<K>, t: S, k: K)
    requires k !in keys
    ensures var ops, parts := ConcurrentReads(view, s, keys, t, k), [Upto(|keys|), [|keys|]];
            WellFormed(ops) && IsPartition(parts, |ops|) && KeysApart(ops, KeyRead, parts) &&
            Shows(view, s, Gather(ops, parts[0])) && Shows(view, t, Gather(ops, parts[1]))
  {
    var n := |keys|;
    var parts := [Upto(n), [n]];
    forall x: nat | x < n + 1
      ensures Covered(parts, x)
    {
      assert x < n ==> parts[0][x] == x;
      assert x in parts[if x < n then 0 else 1];
    }
  }

  // The initial state of one part and that of the other do not go together: each part is accepted
  // and the whole is not.
  lemma CorrelatedFails<S(!new), K(!new), V(!new)>(init: seq<S>, view: (S, K) -> V)
    returns (ops: seq<Operation<(K, V), ()>>, parts: seq<seq<nat>>)
    requires !Uncorrelated(init, view)
    ensures WellFormed(ops) && IsPartition(parts, |ops|) && KeysApart(ops, KeyRead, parts)
    ensures forall p :: 0 <= p < |parts| ==> NdLinearizable(Readers(init, view), Gather(ops, parts[p]))
    ensures !NdLinearizable(Readers(init, view), ops)
  {
    var s, t, k :| s in init && t in init && !MixedIn(init, view, s, t, k);
    var keys := Differences(init, view, s, k);
    ops, parts := ConcurrentReads(view, s, keys, t, k), [Upto(|keys|), [|keys|]];
    ReadsApart(view, s, keys, t, k);
    ReadersVerdict(init, view, ops);
    forall p | 0 <= p < |parts|
      ensures NdLinearizable(Readers(init, view), Gather(ops, parts[p]))
    {
      hide IsPartition, KeysApart, NdLinearizable;
      ReadersVerdict(init, view, Gather(ops, parts[p]));
    }
    forall u | u in init
      ensures !Shows(view, u, ops)
    {
      ShowsBoth(view, s, keys, t, k, u);
      assert Shows(view, u, ops) ==> Mixes(view, u, s, t, k);
    }
  }

  lemma ShowsBoth<S, K(!new), V>(view: (S, K) -> V, s: S, keys: seq<K>, t: S, k: K, u: S)
    ensures Shows(view, u, ConcurrentReads(view, s, keys, t, k))
       <==> view(u, k) == view(t, k) && forall l :: l in keys ==> view(u, l) == view(s, l)
  {
    var ops, n := ConcurrentReads(view, s, keys, t, k), |keys|;
    assert ops[n].input == (k, view(t, k));
    assert forall x :: 0 <= x < n ==> ops[x].input == (keys[x], view(s, keys[x]));
    if Shows(view, u, ops) {
      assert view(u, ops[n].input.0) == ops[n].input.1;
      forall l | l in keys
        ensures view(u, l) == view(s, l)
      {
        var x :| 0 <= x < n && keys[x] == l;
        assert view(u, ops[x].input.0) == ops[x].input.1;
      }
    }
  }

  // For a model that only reads, the condition is exact.
  lemma ReadersExact<S(!new), K(!new), V(!new)>(init: seq<S>, view: (S, K) -> V)
    ensures Uncorrelated(init, view)
       <==> forall ops, parts | WellFormed(ops) && IsPartition(parts, |ops|) && KeysApart(ops, KeyRead, parts) ::
              (Linearizable(PowerSetModel(Readers(init, view)), ops)
               <==> forall p :: 0 <= p < |parts| ==>
                      Linearizable(PowerSetModel(Readers(init, view)), Gather(ops, parts[p])))
  {
    var nd := Readers(init, view);
    if Uncorrelated(init, view) {
      ReadersAreKeyLocal(init, view);
      forall ops, parts | WellFormed(ops) && IsPartition(parts, |ops|) && KeysApart(ops, KeyRead, parts)
        ensures Linearizable(PowerSetModel(nd), ops)
           <==> forall p :: 0 <= p < |parts| ==> Linearizable(PowerSetModel(nd), Gather(ops, parts[p]))
      {
        NdPCompositionality(nd, KeyRead, view, ops, parts);
      }
    } else {
      var ops, parts := CorrelatedFails(init, view);
      PowerSetVerdict(nd, ops);
      assert init != [];
      forall p | 0 <= p < |parts|
        ensures Linearizable(PowerSetModel(nd), Gather(ops, parts[p]))
      {
        PowerSetVerdict(nd, Gather(ops, parts[p]));
      }
    }
  }

  function Flag(flags: (bool, bool), second: bool): bool {
    if second then flags.1 else flags.0
  }

  // Two flags that start equal, either both down or both up.
  lemma EqualFlagsAreCorrelated()
    ensures !Uncorrelated([(false, false), (true, true)], Flag)
  {
    var init := [(false, false), (true, true)];
    assert init[0] in init && init[1] in init;
    forall i | 0 <= i < |init|
      ensures !Mixes(Flag, init[i], init[0], init[1], true)
    {
      assert Flag(init[i], false) != Flag(init[0], false) || Flag(init[i], true) != Flag(init[1], true);
    }
    assert !MixedIn(init, Flag, init[0], init[1], true);
  }
}
