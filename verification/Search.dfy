/** The backtracking search for one partition: `check_single`. */
module Search {
  import opened Sequences
  import opened Wrappers
  import opened Specification
  import opened Entries
  import opened Arena
  import opened Bits
  import opened Bitsets
  import opened Caching
  import opened Exploration
  import opened Exhaustion
  import Protocol

  // ----- one lemma per branch of the loop -----

  // The flag was read as false by every load from clock up to now.
  ghost predicate Quiet(kill: nat -> bool, clock: nat, now: nat) {
    clock <= now && forall k :: clock <= k < now ==> !kill(k)
  }

  ghost predicate Listed<S>(expanded: seq<(set<nat>, S)>, d: set<nat>, t: S) {
    exists i :: 0 <= i < |expanded| && expanded[i] == (d, t)
  }

  // Every pair pushed is reached by some run.
  ghost predicate OnlyReachable<S, I, O>(
      m: Model<S, I, O>, ops: seq<Operation<I, O>>, expanded: seq<(set<nat>, S)>)
  {
    forall i :: 0 <= i < |expanded| ==> Reachable(m, ops, expanded[i].0, expanded[i].1)
  }

  // Every pair that some run reaches, but the start, was pushed.
  ghost predicate AllExpanded<S(!new), I, O>(
      m: Model<S, I, O>, ops: seq<Operation<I, O>>, expanded: seq<(set<nat>, S)>)
  {
    forall d, t :: d != {} && Reachable(m, ops, d, t) ==> Listed(expanded, d, t)
  }

  // Every nonempty prefix of `order`, as a set with the state after it, was pushed.
  ghost predicate PrefixesExpanded<S, I, O>(
      m: Model<S, I, O>, ops: seq<Operation<I, O>>, order: seq<nat>, expanded: seq<(set<nat>, S)>)
  {
    && InRange(order, |ops|)
    && forall i :: 0 < i <= |order| ==> PrefixExpanded(m, ops, order[..i], expanded)
  }

  ghost predicate PrefixExpanded<S, I, O>(
      m: Model<S, I, O>, ops: seq<Operation<I, O>>, prefix: seq<nat>, expanded: seq<(set<nat>, S)>)
    requires InRange(prefix, |ops|)
  {
    var run := Run(m, m.init, ops, prefix);
    run.Some? && Listed(expanded, Members(prefix), run.value)
  }

  lemma PrefixesRecorded<S(!new), I, O>(
      p: Problem<S, I, O>, cache: Cache<S>, calls: seq<CallFrame<S>>, done: set<nat>, s: S,
      expanded: seq<(set<nat>, S)>)
    requires Sound(p) && Path(p, calls, done, s) && StackTried(p, cache, calls, done, s) && Recorded(cache, expanded)
    ensures |Order(p, calls, done, s)| == |calls|
    ensures PrefixesExpanded(p.model, p.ops, Order(p, calls, done, s), expanded)
  {
    var order := Order(p, calls, done, s);
    var last := PrefixCached(p, cache, calls, done, s, |calls|);
    forall i | 0 < i <= |order|
      ensures PrefixExpanded(p.model, p.ops, order[..i], expanded)
    {
      var t := PrefixCached(p, cache, calls, done, s, i);
    }
  }

  // The cache holds exactly the pairs pushed so far, and no pair was pushed twice.
  ghost predicate Recorded<S(!new)>(cache: Cache<S>, expanded: seq<(set<nat>, S)>) {
    && (forall i :: 0 <= i < |expanded| ==> Cached(cache, expanded[i].0, expanded[i].1))
    && (forall d, t :: Cached(cache, d, t) ==> Listed(expanded, d, t))
    && Distinct(expanded)
  }

  // Everything the loop maintains, over the heap's contents: arena nodes, number of lifts and words of
  // the bitset.
  ghost predicate LoopInv<S(!new), I, O>(
      p: Problem<S, I, O>, nodes: seq<Node<I, O>>, lifts: nat, words: seq<Word>,
      calls: seq<CallFrame<S>>, done: set<nat>,
      s: S, cache: Cache<S>, cursor: Option<nat>, expanded: seq<(set<nat>, S)>)
  {
    && Inv(p, nodes, calls, done, s, cache, cursor)
    && 0 < Position(p, cursor) <= |p.entries| + 1
    && |p.ops| <= 64 * |words| && Elements(words) == done
    && Filed(cache, |words|)
    && Recorded(cache, expanded)
    && lifts == |expanded| == CacheSize(cache)
    && Sweep(p, cache, calls, done, s, cursor)
  }

  lemma StartBranch<S(!new), I, O>(p: Problem<S, I, O>, nodes: seq<Node<I, O>>, words: seq<Word>)
    requires Sound(p) && Layout(nodes, p.entries, p.ops) && Linked(nodes, Live(p.entries, {}))
    requires |p.ops| <= 64 * |words| && Elements(words) == {}
    ensures |nodes| > 0
    ensures LoopInv(p, nodes, 0, words, [], {}, p.model.init, map[], AsCursor(nodes[0].next), [])
  {
    StartLemma(p, nodes);
    MoveOn(p, nodes, {}, p.model.init, 0);
    SweepStart(p, nodes);
    assert CacheSize<S>(map[]) == 0 by { assert Slots<S>(map[]) == {}; }
  }

  // A refused call and a cached pair are both passed over.
  lemma SkipBranch<S(!new), I, O>(
      p: Problem<S, I, O>, nodes: seq<Node<I, O>>, lifts: nat, words: seq<Word>,
      calls: seq<CallFrame<S>>, done: set<nat>,
      s: S, cache: Cache<S>, c: nat, expanded: seq<(set<nat>, S)>)
    requires LoopInv(p, nodes, lifts, words, calls, done, s, cache, Some(c), expanded)
    requires IsCallNode(p, c)
    requires var x := OpAt(p, c);
             var next := Step(p.model, s, p.ops[x]);
             next.None? || Cached(cache, done + {x}, next.value)
    ensures c < |nodes|
    ensures var cursor := AsCursor(nodes[c].next);
            LoopInv(p, nodes, lifts, words, calls, done, s, cache, cursor, expanded) &&
            Budget(p, calls, cursor) < Budget(p, calls, Some(c))
  {
    var next := Step(p.model, s, p.ops[OpAt(p, c)]);
    if next.Some? {
      HitIsDead(p, nodes, calls, done, s, cache, c, next.value);
    }
    SkipLemma(p, nodes, calls, done, s, cache, c);
    SweepSkip(p, nodes, calls, done, s, cache, c);
    BudgetPositive(p, calls, done, s, Some(c));
    BudgetAfterSkip(p, calls, Some(c), AsCursor(nodes[c].next));
  }

  lemma PushBranch<S(!new), I, O>(
      p: Problem<S, I, O>, nodes: seq<Node<I, O>>, lifts: nat, words: seq<Word>,
      calls: seq<CallFrame<S>>, done: set<nat>,
      s: S, cache: Cache<S>, c: Link, expanded: seq<(set<nat>, S)>, next: S)
    requires LoopInv(p, nodes, lifts, words, calls, done, s, cache, Some(c), expanded)
    requires IsCallNode(p, c)
    requires Step(p.model, s, p.ops[OpAt(p, c)]) == Some(next)
    requires !Cached(cache, done + {OpAt(p, c)}, next)
    ensures OpAt(p, c) < 64 * |words| && Elements(WithBit(words, OpAt(p, c))) == done + {OpAt(p, c)}
    ensures Liftable(nodes, c) && |nodes| > 0
    ensures var x := OpAt(p, c);
            var more := WithBit(words, x);
            var after := Lifted(nodes, c);
            var grown := Insert(cache, SlotKey(more), CacheEntry(more, next));
            var cursor := AsCursor(after[0].next);
            var longer := calls + [CallFrame(c, s)];
            LoopInv(p, after, lifts + 1, more, longer, done + {x}, next, grown, cursor,
              expanded + [(done + {x}, next)]) &&
            Budget(p, longer, cursor) < Budget(p, calls, Some(c))
  {
    var x := OpAt(p, c);
    ElementsWithBit(words, x);
    var more := WithBit(words, x);
    InsertLemma(cache, |words|, more, next);
    var grown := Insert(cache, SlotKey(more), CacheEntry(more, next));
    InsertAddsOne(cache, SlotKey(more), CacheEntry(more, next));
    PushLemma(p, nodes, calls, done, s, cache, c, next, grown);
    var after := Lifted(nodes, c);
    NextStop(p, after, done + {x}, 0);
    SweepPush(p, nodes, calls, done, s, cache, c, next, grown, AsCursor(after[0].next));
    PathSize(p, calls + [CallFrame(c, s)], done + {x}, next);
    BudgetAfterPush(p, calls, CallFrame(c, s), AsCursor(after[0].next));
    RecordPush(cache, grown, expanded, (done + {x}, next));
  }

  lemma RecordPush<S(!new)>(
      cache: Cache<S>, grown: Cache<S>, expanded: seq<(set<nat>, S)>, pair: (set<nat>, S))
    requires Recorded(cache, expanded) && !Cached(cache, pair.0, pair.1)
    requires forall d, t :: Cached(grown, d, t) <==> Cached(cache, d, t) || (d == pair.0 && t == pair.1)
    ensures Recorded(grown, expanded + [pair])
  {
    var longer := expanded + [pair];
    forall d, t | Cached(grown, d, t)
      ensures Listed(longer, d, t)
    {
      if Cached(cache, d, t) {
        var i :| 0 <= i < |expanded| && expanded[i] == (d, t);
        assert longer[i] == (d, t);
      } else {
        assert longer[|expanded|] == (d, t);
      }
    }
  }

  lemma PopBranch<S(!new), I, O>(
      p: Problem<S, I, O>, nodes: seq<Node<I, O>>, lifts: nat, words: seq<Word>,
      calls: seq<CallFrame<S>>, done: set<nat>,
      s: S, cache: Cache<S>, r: nat, expanded: seq<(set<nat>, S)>)
    requires LoopInv(p, nodes, lifts, words, calls, done, s, cache, Some(r), expanded)
    requires !IsCallNode(p, r) && calls != []
    ensures var f := Top(calls);
            1 <= f.nodeRef <= |p.entries| && f.nodeRef < |nodes| && Unliftable(nodes, f.nodeRef) &&
            var x := OpAt(p, f.nodeRef);
            nodes[f.nodeRef].id == x && x < 64 * |words| &&
            var before := Unlifted(nodes, f.nodeRef);
            f.nodeRef < |before| &&
            var cursor := AsCursor(before[f.nodeRef].next);
            LoopInv(p, before, lifts, WithoutBit(words, x), Rest(calls), done - {x}, f.state, cache, cursor,
              expanded) &&
            Budget(p, Rest(calls), cursor) < Budget(p, calls, Some(r))
  {
    PopLemma(p, nodes, calls, done, s, cache, r);
    AtTop(p, nodes, calls, done, s, cache, r);
    var f := Top(calls);
    var x := OpAt(p, f.nodeRef);
    ElementsWithoutBit(words, x);
    SweepPop(p, Unlifted(nodes, f.nodeRef), calls, done, s, cache, r);
    BudgetPositive(p, calls, done, s, Some(r));
    BudgetAfterPop(p, calls, Some(r), AsCursor(Unlifted(nodes, f.nodeRef)[f.nodeRef].next));
  }

  // What the node under the cursor holds.
  lemma AtCursor<S(!new), I, O>(
      p: Problem<S, I, O>, nodes: seq<Node<I, O>>, lifts: nat, words: seq<Word>,
      calls: seq<CallFrame<S>>, done: set<nat>,
      s: S, cache: Cache<S>, c: nat, expanded: seq<(set<nat>, S)>)
    requires LoopInv(p, nodes, lifts, words, calls, done, s, cache, Some(c), expanded)
    ensures Sound(p) && Path(p, calls, done, s) && 1 <= c <= |p.entries| && |nodes| == |p.entries| + 1
    ensures nodes[c].id == OpAt(p, c) < |p.ops| <= 64 * |words|
    ensures Elements(words) == done && OpAt(p, c) !in done && Filed(cache, |words|)
    ensures IsCallNode(p, c) <==> nodes[c].matchIdx != NONE
    ensures IsCallNode(p, c) ==>
              var op := p.ops[OpAt(p, c)];
              nodes[c].value == Some(Call(op.input)) &&
              nodes[c].matchIdx < |nodes| && nodes[nodes[c].matchIdx].value == Some(Return(op.output))
  {
    LayoutAt(p, nodes, c);
    if IsCallNode(p, c) { LayoutAt(p, nodes, nodes[c].matchIdx); }
  }

  lemma LayoutAt<S, I, O>(p: Problem<S, I, O>, nodes: seq<Node<I, O>>, c: nat)
    requires Sound(p) && Layout(nodes, p.entries, p.ops) && 1 <= c <= |p.entries|
    ensures |nodes| == |p.entries| + 1 && nodes[c].id == OpAt(p, c) && nodes[c].value == Some(p.entries[c - 1].value)
    ensures var op := p.ops[OpAt(p, c)];
            if IsCallNode(p, c)
            then nodes[c].value == Some(Call(op.input)) && nodes[c].matchIdx == op.returnTime + 1 <= |p.entries| &&
                 OpAt(p, nodes[c].matchIdx) == OpAt(p, c) && !IsCallNode(p, nodes[c].matchIdx)
            else nodes[c].value == Some(Return(op.output)) && nodes[c].matchIdx == NONE
  {
    assert NodeOf(nodes, p.entries, p.ops, c);
    EntryFacts(p.entries, p.ops, c - 1);
    PairFacts(p.entries, p.ops, OpAt(p, c));
  }

  lemma BudgetStart<S(!new), I, O>(
      p: Problem<S, I, O>, nodes: seq<Node<I, O>>, lifts: nat, words: seq<Word>,
      calls: seq<CallFrame<S>>, done: set<nat>,
      s: S, cache: Cache<S>, cursor: Option<nat>, expanded: seq<(set<nat>, S)>)
    requires LoopInv(p, nodes, lifts, words, calls, done, s, cache, cursor, expanded)
    ensures Sound(p) && Path(p, calls, done, s) && Budget(p, calls, cursor) > 0
    ensures Distinct(expanded) && OnlyReachable(p.model, p.ops, expanded) && lifts == |expanded|
  {
    BudgetPositive(p, calls, done, s, cursor);
  }

  lemma FinishBranch<S(!new), I, O>(
      p: Problem<S, I, O>, nodes: seq<Node<I, O>>, lifts: nat, words: seq<Word>,
      calls: seq<CallFrame<S>>, done: set<nat>,
      s: S, cache: Cache<S>, expanded: seq<(set<nat>, S)>)
    requires LoopInv(p, nodes, lifts, words, calls, done, s, cache, None, expanded)
    ensures Sound(p) && Path(p, calls, done, s)
    ensures IsLinearization(p.model, p.ops, Order(p, calls, done, s)) && Linearizable(p.model, p.ops)
    ensures PrefixesExpanded(p.model, p.ops, Order(p, calls, done, s), expanded)
    ensures |Order(p, calls, done, s)| == |calls|
  {
    PrefixesRecorded(p, cache, calls, done, s, expanded);
    ExploredAllIsDone(p, done, s);
    PathCompletes(p, calls, done, s, []);
    var order := Order(p, calls, done, s);
    assert order + [] == order;
    CompletesIsLinearization(p.model, p.ops, order);
  }

  lemma FailBranch<S(!new), I, O>(
      p: Problem<S, I, O>, nodes: seq<Node<I, O>>, lifts: nat, words: seq<Word>, done: set<nat>, s: S, cache: Cache<S>,
      r: nat, expanded: seq<(set<nat>, S)>)
    requires LoopInv(p, nodes, lifts, words, [], done, s, cache, Some(r), expanded)
    requires !IsCallNode(p, r)
    ensures !Linearizable(p.model, p.ops) && AllExpanded(p.model, p.ops, expanded)
  {
    forall d, t | d != {} && Reachable(p.model, p.ops, d, t)
      ensures Listed(expanded, d, t)
    {
      FailedIsExhaustive(p, cache, done, s, r, d, t);
    }
    StuckIsDead(p, done, s, r);
    LinearizableIffNotDead(p.model, p.ops);
  }

  // ----- check_single -----

  // The cursor is on a call node: linearize its operation if the model accepts it and the resulting
  // pair is new, otherwise move on. Names ending in 0 are the values before the step.
  method TryCall<S(==, !new), I, O>(
      ghost p: Problem<S, I, O>, model: Model<S, I, O>, arena: NodeArena<I, O>, linearized: Bitset,
      calls0: seq<CallFrame<S>>, state0: S, cache0: Cache<S>, idx: Link, retRef: nat,
      ghost done0: set<nat>, ghost expanded0: seq<(set<nat>, S)>)
    returns (calls: seq<CallFrame<S>>, state: S, cache: Cache<S>, cursor: Option<nat>,
             ghost done: set<nat>, ghost expanded: seq<(set<nat>, S)>)
    requires LoopInv(p, arena.nodes[..], arena.lifts, linearized.data[..], calls0, done0, state0, cache0,
               Some(idx), expanded0)
    requires model == p.model && idx < arena.nodes.Length && retRef == arena.nodes[idx].matchIdx != NONE
    modifies arena.nodes, arena`lifts, linearized.data
    ensures LoopInv(p, arena.nodes[..], arena.lifts, linearized.data[..], calls, done, state, cache, cursor, expanded)
    ensures Budget(p, calls, cursor) < Budget(p, calls0, Some(idx))
    ensures Sound(p) && 1 <= idx <= |p.entries|
    ensures var x := OpAt(p, idx);
            var next := Step(p.model, state0, p.ops[x]);
            if next.None? || Cached(cache0, done0 + {x}, next.value)
            then calls == calls0 && state == state0 && done == done0 && cache == cache0 && expanded == expanded0
            else calls == calls0 + [CallFrame(idx, state0)] && state == next.value && done == done0 + {x} &&
                 expanded == expanded0 + [(done, state)]
  {
    hide Distinct, Recorded, Inv, Sweep, LoopInv, Path, Describes, Layout, Linked, Budget, Filed, Elements, WithBit;
    hide Cached, SlotKey, Insert;
    ghost var nodes, lifts, words := arena.nodes[..], arena.lifts, linearized.data[..];
    AtCursor(p, nodes, lifts, words, calls0, done0, state0, cache0, idx, expanded0);
    calls, state, cache, done, expanded := calls0, state0, cache0, done0, expanded0;
    var opId := arena.nodes[idx].id;
    var input, output := arena.nodes[idx].value.value.input, arena.nodes[retRef].value.value.output;
    var stepped := model.step(state, input, output);
    if stepped.None? {
      SkipBranch(p, nodes, lifts, words, calls, done, state, cache, idx, expanded);
      cursor := arena.NextOf(idx);
      return;
    }
    var nextState := stepped.value;
    var h := linearized.HashWithBit(opId);
    var hit := CacheContainsWithBit(cache, h, linearized, opId, nextState);
    if hit {
      SkipBranch(p, nodes, lifts, words, calls, done, state, cache, idx, expanded);
      cursor := arena.NextOf(idx);
      return;
    }
    PushBranch(p, nodes, lifts, words, calls, done, state, cache, idx, expanded, nextState);
    var newLinearized := linearized.Clone();
    newLinearized.Set(opId);
    state := nextState;
    cache := Insert(cache, h, CacheEntry(newLinearized.data[..], state));
    calls := calls + [CallFrame(idx, state0)];
    done, expanded := done + {opId}, expanded + [(done + {opId}, state)];
    linearized.Set(opId);
    assert arena.nodes[..] == nodes;
    arena.Lift(idx);
    assert linearized.data[..] == WithBit(words, opId);
    cursor := arena.HeadNext();
  }

  // The cursor is on a return node: undo the newest step and resume behind its call.
  method Backtrack<S(!new), I, O>(
      ghost p: Problem<S, I, O>, arena: NodeArena<I, O>, linearized: Bitset,
      calls0: seq<CallFrame<S>>, ghost state0: S, ghost cache: Cache<S>, ghost idx: Link,
      ghost done0: set<nat>, ghost expanded: seq<(set<nat>, S)>)
    returns (calls: seq<CallFrame<S>>, state: S, cursor: Option<nat>, ghost done: set<nat>)
    requires LoopInv(p, arena.nodes[..], arena.lifts, linearized.data[..], calls0, done0, state0, cache,
               Some(idx), expanded)
    requires idx < arena.nodes.Length && arena.nodes[idx].matchIdx == NONE && calls0 != []
    modifies arena.nodes, linearized.data
    ensures LoopInv(p, arena.nodes[..], arena.lifts, linearized.data[..], calls, done, state, cache, cursor, expanded)
    ensures Budget(p, calls, cursor) < Budget(p, calls0, Some(idx))
    ensures calls == Rest(calls0) && state == Top(calls0).state
  {
    hide Distinct, Recorded, Inv, Sweep, LoopInv, Path, Describes, Layout, Linked, Budget, Filed, Elements, WithoutBit;
    ghost var nodes, lifts, words := arena.nodes[..], arena.lifts, linearized.data[..];
    AtCursor(p, nodes, lifts, words, calls0, done0, state0, cache, idx, expanded);
    PopBranch(p, nodes, lifts, words, calls0, done0, state0, cache, idx, expanded);
    var frame := Top(calls0);
    var callOpId := arena.nodes[frame.nodeRef].id;
    calls, state, done := Rest(calls0), frame.state, done0 - {callOpId};
    linearized.Clear(callOpId);
    assert arena.nodes[..] == nodes;
    arena.Unlift(frame.nodeRef);
    assert linearized.data[..] == WithoutBit(words, callOpId);
    cursor := arena.NextOf(frame.nodeRef);
  }

  lemma EmptyHistory<S, I, O>(model: Model<S, I, O>, ops: seq<Operation<I, O>>)
    requires ops == []
    ensures IsLinearization(model, ops, []) && Linearizable(model, ops)
  {
  }

  lemma NothingExpanded<S, I, O>(model: Model<S, I, O>, ops: seq<Operation<I, O>>)
    ensures Distinct<(set<nat>, S)>([]) && OnlyReachable(model, ops, []) && PrefixesExpanded(model, ops, [], [])
  {
  }

  // Decide one partition. `kill(k)` is what the k-th load of the shared flag returns; this run
  // makes the loads clock, ..., now - 1. The witness `order` is the stack, bottom to top, and
  // `expanded` lists the (linearized set, state) pairs pushed, in order, one for each lift: only pairs
  // that runs reach, none twice; on success every prefix of the witness is among them, and after a
  // complete failure every reachable pair but the start. The flag is loaded before the answer and
  // before every lift and every unlift, of which there are as many as lifts, less those on the stack.
  method CheckSingle<S(==, !new), I, O>(
      model: Model<S, I, O>, entries: seq<Entry<I, O>>, kill: nat -> bool, clock: nat)
    returns (ok: bool, now: nat, ghost order: seq<nat>, ghost expanded: seq<(set<nat>, S)>, ghost lifts: nat)
    requires WellFormedEntries(entries) && |entries| < NONE
    ensures Protocol.Answers(Linearizable(model, OperationsOf(entries)), ok, Quiet(kill, clock, now))
    ensures clock <= now && (!Quiet(kill, clock, now) ==> !ok && clock < now && kill(now - 1))
    ensures if entries == [] then ok && now == clock else lifts < now - clock
    ensures entries != [] && kill(clock) ==> !ok && now == clock + 1
    ensures ok && entries != [] ==> |order| <= lifts && 2 * lifts - |order| < now - clock
    ensures !ok && Quiet(kill, clock, now) ==> 2 * lifts < now - clock
    ensures ok ==> IsLinearization(model, OperationsOf(entries), order)
    ensures Distinct(expanded) && lifts == |expanded|
    ensures OnlyReachable(model, OperationsOf(entries), expanded)
    ensures ok ==> PrefixesExpanded(model, OperationsOf(entries), order, expanded)
    ensures !ok && Quiet(kill, clock, now) ==> AllExpanded(model, OperationsOf(entries), expanded)
  {
    hide Distinct, Recorded, Inv, Sweep, LoopInv, Path, Describes, Layout, Linked, Budget, Elements;
    hide OperationsOf, WellFormed, WellFormedEntries, IsLinearization, Linearizable, NodeOf;
    hide OnlyReachable, AllExpanded, PrefixesExpanded;
    now, order, expanded, lifts := clock, [], [], 0;
    ghost var ops := OperationsOf(entries);
    NothingExpanded(model, ops);
    OperationsDescribed(entries);
    ghost var p := Problem(model, entries, ops);
    if entries == [] {
      EmptyHistory(model, ops);
      ok := true;
      return;
    }
    var nOps := |entries| / 2;
    var arena := new NodeArena.FromEntries(entries, ops);
    var linearized := new Bitset(nOps);
    var cache: Cache<S> := map[];
    var calls: seq<CallFrame<S>> := [];
    var state := model.init;
    var cursor := arena.HeadNext();
    ghost var done: set<nat> := {};
    StartBranch(p, arena.nodes[..], linearized.data[..]);

    while true
      invariant LoopInv(p, arena.nodes[..], arena.lifts, linearized.data[..], calls, done, state, cache, cursor,
                  expanded)
      invariant Quiet(kill, clock, now)
      invariant |calls| <= |expanded| && 2 * |expanded| - |calls| <= now - clock
      decreases Budget(p, calls, cursor)
    {
      BudgetStart(p, arena.nodes[..], arena.lifts, linearized.data[..], calls, done, state, cache, cursor, expanded);
      lifts := arena.lifts;
      var stop := kill(now);
      now := now + 1;
      if stop {
        assert kill(now - 1);
        ok := false;
        return;
      }
      if cursor == None {
        FinishBranch(p, arena.nodes[..], arena.lifts, linearized.data[..], calls, done, state, cache, expanded);
        order := Order(p, calls, done, state);
        ok := true;
        return;
      }
      var idx := cursor.value;
      AtCursor(p, arena.nodes[..], arena.lifts, linearized.data[..], calls, done, state, cache, idx, expanded);
      var matched := arena.MatchOf(idx);
      if matched.Some? {
        calls, state, cache, cursor, done, expanded :=
          TryCall(p, model, arena, linearized, calls, state, cache, idx, matched.value, done, expanded);
      } else {
        if calls == [] {
          FailBranch(p, arena.nodes[..], arena.lifts, linearized.data[..], done, state, cache, idx, expanded);
          ok := false;
          return;
        }
        calls, state, cursor, done := Backtrack(p, arena, linearized, calls, state, cache, idx, done, expanded);
      }
    }
  }
}
