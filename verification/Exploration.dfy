/** What the search knows: refuted calls, dead ends, the stack as an accepted run, the arena behind it,
    and the measure that makes it stop. */
module Exploration {
  import opened Sequences
  import opened Wrappers
  import opened Specification
  import opened Entries
  import opened Arena
  import opened Numbers
  import opened Termination
  import opened Caching

  // ----- what the search knows -----

  datatype CallFrame<+S> = CallFrame(nodeRef: Link, state: S) // state before the step

  // One search: the model, the entries, and the operations they stand for.
  datatype Problem<!S, !I, !O> =
    Problem(model: Model<S, I, O>, entries: seq<Entry<I, O>>, ops: seq<Operation<I, O>>)

  ghost predicate Sound<S, I, O>(p: Problem<S, I, O>) {
    Describes(p.entries, p.ops) && WellFormed(p.ops) && |p.entries| < NONE
  }

  ghost predicate IsCallNode<S, I, O>(p: Problem<S, I, O>, c: nat)
    requires Sound(p)
  {
    1 <= c <= |p.entries| && p.entries[c - 1].value.Call?
  }

  ghost function OpAt<S, I, O>(p: Problem<S, I, O>, c: nat): (x: nat)
    requires Sound(p) && 1 <= c <= |p.entries|
    ensures x < |p.ops| && x == NodeId(p.entries, c)
  {
    assert EntryOf(p.entries, p.ops, c - 1);
    p.entries[c - 1].id
  }

  ghost predicate IsLive<S, I, O>(p: Problem<S, I, O>, done: set<nat>, c: nat)
    requires Sound(p)
  {
    1 <= c <= |p.entries| && OpAt(p, c) !in done
  }

  // Linearizing the operation of call node c next leads nowhere.
  ghost predicate Refuted<S, I, O>(p: Problem<S, I, O>, done: set<nat>, s: S, c: nat)
    requires Sound(p) && 1 <= c <= |p.entries|
  {
    var x := OpAt(p, c);
    var next := Step(p.model, s, p.ops[x]);
    IsCallNode(p, c) && (next.None? || Dead(p.model, p.ops, done + {x}, next.value))
  }

  // Every live node before position `pos` is a refuted call.
  ghost predicate Explored<S, I, O>(p: Problem<S, I, O>, done: set<nat>, s: S, pos: nat)
    requires Sound(p)
  {
    forall c :: 1 <= c < pos && IsLive(p, done, c) ==> Refuted(p, done, s, c)
  }

  // A live call node whose live predecessors are all calls may be linearized next.
  lemma FrontierIsEnabled<S, I, O>(p: Problem<S, I, O>, done: set<nat>, s: S, c: nat)
    requires Sound(p) && Explored(p, done, s, c) && IsLive(p, done, c) && IsCallNode(p, c)
    ensures Enabled(p.ops, done, OpAt(p, c))
  {
    var x := OpAt(p, c);
    assert EntryOf(p.entries, p.ops, c - 1);
    forall y | 0 <= y < |p.ops| && y !in done
      ensures !Precedes(p.ops, y, x)
    {
      assert PairOf(p.entries, p.ops, y);
      var r := p.ops[y].returnTime + 1;
      assert IsLive(p, done, r) && !IsCallNode(p, r);
    }
  }

  // Where y's return stands relative to call node c, and whether it is live.
  lemma ReturnNodeFacts<S, I, O>(p: Problem<S, I, O>, done: set<nat>, c: nat, y: nat)
    requires Sound(p) && IsCallNode(p, c) && y < |p.ops|
    ensures 1 <= p.ops[y].returnTime + 1 <= |p.entries| && OpAt(p, p.ops[y].returnTime + 1) == y
    ensures !IsCallNode(p, p.ops[y].returnTime + 1)
    ensures Precedes(p.ops, y, OpAt(p, c)) <==> p.ops[y].returnTime + 1 < c
  {
    EntryFacts(p.entries, p.ops, c - 1);
    PairFacts(p.entries, p.ops, y);
  }

  // The live calls in front of the first live return are exactly the operations that may come next.
  lemma FrontierExact<S, I, O>(p: Problem<S, I, O>, done: set<nat>, c: nat)
    requires Sound(p) && IsLive(p, done, c) && IsCallNode(p, c)
    ensures Enabled(p.ops, done, OpAt(p, c)) <==> forall d :: 1 <= d < c && IsLive(p, done, d) ==> IsCallNode(p, d)
  {
    var x := OpAt(p, c);
    forall d | 1 <= d < c && IsLive(p, done, d) && !IsCallNode(p, d)
      ensures Precedes(p.ops, OpAt(p, d), x)
    {
      EntryFacts(p.entries, p.ops, d - 1);
      ReturnNodeFacts(p, done, c, OpAt(p, d));
    }
    forall y | 0 <= y < |p.ops| && y !in done && Precedes(p.ops, y, x)
      ensures exists d :: 1 <= d < c && IsLive(p, done, d) && !IsCallNode(p, d)
    {
      ReturnNodeFacts(p, done, c, y);
      assert IsLive(p, done, p.ops[y].returnTime + 1);
    }
  }

  // When the first live node that is not a refuted call is a return, nothing can come next.
  lemma StuckIsDead<S, I, O>(p: Problem<S, I, O>, done: set<nat>, s: S, r: nat)
    requires Sound(p) && Explored(p, done, s, r) && IsLive(p, done, r) && !IsCallNode(p, r)
    ensures Dead(p.model, p.ops, done, s)
  {
    forall order: seq<nat>
      ensures !Completes(p.model, p.ops, done, s, order)
    {
      var y := OpAt(p, r);
      assert EntryOf(p.entries, p.ops, r - 1);
      if order == [] {
        assert y < |p.ops| && y !in done;
      } else if Enabled(p.ops, done, order[0]) {
        var x := order[0];
        assert PairOf(p.entries, p.ops, x) && !Precedes(p.ops, y, x);
        var c := p.ops[x].call + 1;
        assert c < r && IsLive(p, done, c) && OpAt(p, c) == x;
        assert Refuted(p, done, s, c);
      }
    }
  }

  // When every live node is a refuted call, there is no live node.
  lemma ExploredAllIsDone<S, I, O>(p: Problem<S, I, O>, done: set<nat>, s: S)
    requires Sound(p) && Explored(p, done, s, |p.entries| + 1)
    ensures Completes(p.model, p.ops, done, s, [])
  {
    forall x | 0 <= x < |p.ops|
      ensures x in done
    {
      assert PairOf(p.entries, p.ops, x);
      var r := p.ops[x].returnTime + 1;
      assert !IsCallNode(p, r) && (IsLive(p, done, r) <==> x !in done);
    }
  }

  // ----- the stack -----

  function Top<S>(calls: seq<CallFrame<S>>): CallFrame<S>
    requires calls != []
  {
    calls[|calls| - 1]
  }

  function Rest<S>(calls: seq<CallFrame<S>>): seq<CallFrame<S>>
    requires calls != []
  {
    calls[..|calls| - 1]
  }

  // The frames are an accepted run from the initial state to (done, s), and in every frame
  // everything before the chosen node has been refuted.
  ghost predicate Path<S, I, O>(p: Problem<S, I, O>, calls: seq<CallFrame<S>>, done: set<nat>, s: S)
    requires Sound(p)
    decreases |calls|
  {
    if calls == [] then done == {} && s == p.model.init
    else
      var f := Top(calls);
      && IsCallNode(p, f.nodeRef)
      && var x := OpAt(p, f.nodeRef);
         && x in done
         && Step(p.model, f.state, p.ops[x]) == Some(s)
         && Explored(p, done - {x}, f.state, f.nodeRef)
         && Path(p, Rest(calls), done - {x}, f.state)
  }

  // Is (d, t) the pair reached by some nonempty part of the stack?
  ghost predicate OnPath<S, I, O>(
      p: Problem<S, I, O>, calls: seq<CallFrame<S>>, done: set<nat>, s: S, d: set<nat>, t: S)
    requires Sound(p) && Path(p, calls, done, s)
    decreases |calls|
  {
    calls != [] &&
    ((d == done && t == s) ||
     OnPath(p, Rest(calls), done - {OpAt(p, Top(calls).nodeRef)}, Top(calls).state, d, t))
  }

  // The operations on the stack, bottom to top.
  ghost function Order<S, I, O>(p: Problem<S, I, O>, calls: seq<CallFrame<S>>, done: set<nat>, s: S): seq<nat>
    requires Sound(p) && Path(p, calls, done, s)
    decreases |calls|
  {
    if calls == [] then []
    else
      var x := OpAt(p, Top(calls).nodeRef);
      Order(p, Rest(calls), done - {x}, Top(calls).state) + [x]
  }

  lemma {:induction false} PathSize<S, I, O>(p: Problem<S, I, O>, calls: seq<CallFrame<S>>, done: set<nat>, s: S)
    requires Sound(p) && Path(p, calls, done, s)
    ensures |done| == |calls| <= |p.ops|
    ensures forall x :: x in done ==> x < |p.ops|
    decreases |calls|
  {
    if calls != [] {
      var x := OpAt(p, Top(calls).nodeRef);
      PathSize(p, Rest(calls), done - {x}, Top(calls).state);
      assert done == done - {x} + {x};
    }
    assert done <= Below(|p.ops|);
    SubsetBound(done, Below(|p.ops|));
  }

  lemma {:induction false} OnPathIsSmall<S, I, O>(
      p: Problem<S, I, O>, calls: seq<CallFrame<S>>, done: set<nat>, s: S, d: set<nat>, t: S)
    requires Sound(p) && Path(p, calls, done, s) && OnPath(p, calls, done, s, d, t)
    ensures |d| <= |done|
    decreases |calls|
  {
    if !(d == done && t == s) {
      var x := OpAt(p, Top(calls).nodeRef);
      OnPathIsSmall(p, Rest(calls), done - {x}, Top(calls).state, d, t);
      SubsetBound(done - {x}, done);
    }
  }

  // Whatever completes the current pair completes the whole history, behind the stack.
  lemma {:induction false} PathCompletes<S, I, O>(
      p: Problem<S, I, O>, calls: seq<CallFrame<S>>, done: set<nat>, s: S, suffix: seq<nat>)
    requires Sound(p) && Path(p, calls, done, s)
    requires Completes(p.model, p.ops, done, s, suffix)
    ensures Completes(p.model, p.ops, {}, p.model.init, Order(p, calls, done, s) + suffix)
    decreases |calls|
  {
    if calls == [] {
      assert Order(p, calls, done, s) + suffix == suffix;
    } else {
      var f := Top(calls);
      var x := OpAt(p, f.nodeRef);
      var before := done - {x};
      FrontierIsEnabled(p, before, f.state, f.nodeRef);
      var longer := [x] + suffix;
      assert longer[0] == x && longer[1..] == suffix && before + {x} == done;
      assert Completes(p.model, p.ops, before, f.state, longer);
      PathCompletes(p, Rest(calls), before, f.state, longer);
      assert Order(p, calls, done, s) + suffix == Order(p, Rest(calls), before, f.state) + longer;
    }
  }

  // ----- the whole search state -----

  // Undoing the lifts of the stack, last one first, restores the arena of every earlier moment,
  // and at each of those moments the links thread exactly the operations not yet linearized.
  ghost predicate Nested<S, I, O>(
      p: Problem<S, I, O>, nodes: seq<Node<I, O>>, calls: seq<CallFrame<S>>, done: set<nat>, s: S)
    requires Sound(p) && Path(p, calls, done, s)
    decreases |calls|
  {
    && Layout(nodes, p.entries, p.ops)
    && Linked(nodes, Live(p.entries, done))
    && (calls != [] ==>
          var f := Top(calls);
          && Unliftable(nodes, f.nodeRef)
          && Nested(p, Unlifted(nodes, f.nodeRef), Rest(calls), done - {OpAt(p, f.nodeRef)}, f.state))
  }

  // Every cached pair is on the stack or a proven dead end.
  ghost predicate CacheSound<S(!new), I, O>(
      p: Problem<S, I, O>, cache: Cache<S>, calls: seq<CallFrame<S>>, done: set<nat>, s: S)
    requires Sound(p) && Path(p, calls, done, s)
  {
    forall d, t :: Cached(cache, d, t) ==> OnPath(p, calls, done, s, d, t) || Dead(p.model, p.ops, d, t)
  }

  ghost function Position<S, I, O>(p: Problem<S, I, O>, cursor: Option<nat>): nat {
    if cursor.None? then |p.entries| + 1 else cursor.value
  }

  ghost predicate CursorOk<S, I, O>(
      p: Problem<S, I, O>, done: set<nat>, s: S, cursor: Option<nat>)
    requires Sound(p)
  {
    && (cursor.Some? ==> IsLive(p, done, cursor.value))
    && Explored(p, done, s, Position(p, cursor))
  }

  ghost predicate Inv<S(!new), I, O>(
      p: Problem<S, I, O>, nodes: seq<Node<I, O>>, calls: seq<CallFrame<S>>, done: set<nat>, s: S,
      cache: Cache<S>, cursor: Option<nat>)
  {
    && Sound(p)
    && Path(p, calls, done, s)
    && Nested(p, nodes, calls, done, s)
    && CacheSound(p, cache, calls, done, s)
    && CursorOk(p, done, s, cursor)
  }

  function AsCursor(link: Link): Option<nat> {
    if link == NONE then None else Some(link)
  }

  // No live node lies between node i (or the head) and the cursor's next stop.
  lemma NextStop<S, I, O>(p: Problem<S, I, O>, nodes: seq<Node<I, O>>, done: set<nat>, i: nat)
    requires Sound(p) && Layout(nodes, p.entries, p.ops) && Linked(nodes, Live(p.entries, done))
    requires i == 0 || IsLive(p, done, i)
    ensures i < |nodes| && i < Position(p, AsCursor(nodes[i].next)) <= |p.entries| + 1
    ensures nodes[i].next != NONE ==> IsLive(p, done, nodes[i].next)
    ensures forall c: nat :: IsLive(p, done, c) && c < Position(p, AsCursor(nodes[i].next)) ==> c <= i
  {
    var live := Live(p.entries, done);
    assert forall c :: c in live <==> IsLive(p, done, c);
    NextFacts(nodes, live, i);
  }

  // The cursor's next stop after node i (or after the head), when everything up to i is refuted.
  lemma MoveOn<S, I, O>(p: Problem<S, I, O>, nodes: seq<Node<I, O>>, done: set<nat>, s: S, i: nat)
    requires Sound(p) && Layout(nodes, p.entries, p.ops) && Linked(nodes, Live(p.entries, done))
    requires Explored(p, done, s, i + 1) && (i == 0 || IsLive(p, done, i))
    ensures i < |nodes| && CursorOk(p, done, s, AsCursor(nodes[i].next))
    ensures i < Position(p, AsCursor(nodes[i].next)) <= |p.entries| + 1
  {
    NextStop(p, nodes, done, i);
  }

  lemma ExploreOne<S, I, O>(p: Problem<S, I, O>, done: set<nat>, s: S, c: nat)
    requires Sound(p) && Explored(p, done, s, c) && 1 <= c <= |p.entries| && Refuted(p, done, s, c)
    ensures Explored(p, done, s, c + 1)
  {
  }

  lemma StartLemma<S(!new), I, O>(p: Problem<S, I, O>, nodes: seq<Node<I, O>>)
    requires Sound(p) && Layout(nodes, p.entries, p.ops) && Linked(nodes, Live(p.entries, {}))
    ensures Inv(p, nodes, [], {}, p.model.init, map[], AsCursor(nodes[0].next))
  {
    MoveOn(p, nodes, {}, p.model.init, 0);
  }

  lemma SkipLemma<S(!new), I, O>(
      p: Problem<S, I, O>, nodes: seq<Node<I, O>>, calls: seq<CallFrame<S>>, done: set<nat>, s: S,
      cache: Cache<S>, c: nat)
    requires Inv(p, nodes, calls, done, s, cache, Some(c)) && Refuted(p, done, s, c)
    ensures c < |nodes| && Inv(p, nodes, calls, done, s, cache, AsCursor(nodes[c].next))
    ensures c < Position(p, AsCursor(nodes[c].next)) <= |p.entries| + 1
  {
    MoveOn(p, nodes, done, s, c);
  }

  // The cursor is off the list exactly when everything is linearized.
  lemma CursorNoneIffDone<S(!new), I, O>(
      p: Problem<S, I, O>, nodes: seq<Node<I, O>>, calls: seq<CallFrame<S>>, done: set<nat>, s: S,
      cache: Cache<S>, cursor: Option<nat>)
    requires Inv(p, nodes, calls, done, s, cache, cursor)
    ensures cursor == None <==> forall x :: 0 <= x < |p.ops| ==> x in done
  {
    if cursor == None {
      ExploredAllIsDone(p, done, s);
    }
  }

  // A cache hit cannot be an ancestor on the stack, because its set is larger than theirs.
  lemma HitIsDead<S(!new), I, O>(
      p: Problem<S, I, O>, nodes: seq<Node<I, O>>, calls: seq<CallFrame<S>>, done: set<nat>, s: S,
      cache: Cache<S>, c: nat, next: S)
    requires Inv(p, nodes, calls, done, s, cache, Some(c)) && IsCallNode(p, c)
    requires Step(p.model, s, p.ops[OpAt(p, c)]) == Some(next)
    requires Cached(cache, done + {OpAt(p, c)}, next)
    ensures Refuted(p, done, s, c)
  {
    var d := done + {OpAt(p, c)};
    if OnPath(p, calls, done, s, d, next) {
      OnPathIsSmall(p, calls, done, s, d, next);
      assert false;
    }
  }

  lemma PushLemma<S(!new), I, O>(
      p: Problem<S, I, O>, nodes: seq<Node<I, O>>, calls: seq<CallFrame<S>>, done: set<nat>, s: S,
      cache: Cache<S>, c: Link, next: S, grown: Cache<S>)
    requires Inv(p, nodes, calls, done, s, cache, Some(c)) && IsCallNode(p, c)
    requires Step(p.model, s, p.ops[OpAt(p, c)]) == Some(next)
    requires forall d, t :: Cached(grown, d, t) <==> Cached(cache, d, t) || (d == done + {OpAt(p, c)} && t == next)
    ensures Liftable(nodes, c)
    ensures var after := Lifted(nodes, c);
            |after| > 0 &&
            Inv(p, after, calls + [CallFrame(c, s)], done + {OpAt(p, c)}, next, grown, AsCursor(after[0].next)) &&
            0 < Position(p, AsCursor(after[0].next)) <= |p.entries| + 1
  {
    var x := OpAt(p, c);
    var longer, more := calls + [CallFrame(c, s)], done + {x};
    assert Top(longer) == CallFrame(c, s) && Rest(longer) == calls && more - {x} == done;
    assert c in Live(p.entries, done);
    LiftLemma(nodes, p.entries, p.ops, done, c);
    var after := Lifted(nodes, c);
    assert Path(p, longer, more, next);
    assert Nested(p, after, longer, more, next);
    MoveOn(p, after, more, next, 0);
    forall d, t | Cached(grown, d, t)
      ensures OnPath(p, longer, more, next, d, t) || Dead(p.model, p.ops, d, t)
    {
      if Cached(cache, d, t) {
        assert OnPath(p, calls, done, s, d, t) || Dead(p.model, p.ops, d, t);
      }
    }
  }

  lemma PopLemma<S(!new), I, O>(
      p: Problem<S, I, O>, nodes: seq<Node<I, O>>, calls: seq<CallFrame<S>>, done: set<nat>, s: S,
      cache: Cache<S>, r: nat)
    requires Inv(p, nodes, calls, done, s, cache, Some(r)) && !IsCallNode(p, r) && calls != []
    ensures var f := Top(calls);
            1 <= f.nodeRef <= |p.entries| && Unliftable(nodes, f.nodeRef) &&
            var before := Unlifted(nodes, f.nodeRef);
            f.nodeRef < |before| &&
            var cursor := AsCursor(before[f.nodeRef].next);
            Inv(p, before, Rest(calls), done - {OpAt(p, f.nodeRef)}, f.state, cache, cursor) &&
            f.nodeRef < Position(p, cursor) <= |p.entries| + 1
  {
    StuckIsDead(p, done, s, r);
    var f := Top(calls);
    var x := OpAt(p, f.nodeRef);
    var less := done - {x};
    assert less + {x} == done;
    ExploreOne(p, less, f.state, f.nodeRef);
    assert IsLive(p, less, f.nodeRef);
    var before := Unlifted(nodes, f.nodeRef);
    assert Nested(p, before, Rest(calls), less, f.state);
    MoveOn(p, before, less, f.state, f.nodeRef);
    PopCache(p, calls, done, s, cache);
  }

  // When the current pair is dead, the cache stays sound without the top frame.
  lemma PopCache<S(!new), I, O>(
      p: Problem<S, I, O>, calls: seq<CallFrame<S>>, done: set<nat>, s: S, cache: Cache<S>)
    requires Sound(p) && Path(p, calls, done, s) && calls != []
    requires CacheSound(p, cache, calls, done, s) && Dead(p.model, p.ops, done, s)
    ensures CacheSound(p, cache, Rest(calls), done - {OpAt(p, Top(calls).nodeRef)}, Top(calls).state)
  {
    var less, t' := done - {OpAt(p, Top(calls).nodeRef)}, Top(calls).state;
    forall d, t | Cached(cache, d, t)
      ensures OnPath(p, Rest(calls), less, t', d, t) || Dead(p.model, p.ops, d, t)
    {
      assert OnPath(p, calls, done, s, d, t) || Dead(p.model, p.ops, d, t);
    }
  }

  // What the node of the top frame holds.
  lemma AtTop<S(!new), I, O>(
      p: Problem<S, I, O>, nodes: seq<Node<I, O>>, calls: seq<CallFrame<S>>, done: set<nat>, s: S,
      cache: Cache<S>, c: nat)
    requires Inv(p, nodes, calls, done, s, cache, Some(c)) && calls != []
    ensures 1 <= Top(calls).nodeRef <= |p.entries| && |nodes| == |p.entries| + 1
    ensures nodes[Top(calls).nodeRef].id == OpAt(p, Top(calls).nodeRef) < |p.ops|
  {
    assert NodeOf(nodes, p.entries, p.ops, Top(calls).nodeRef);
  }

  // ----- termination -----

  function Refs<S>(calls: seq<CallFrame<S>>): seq<nat> {
    seq(|calls|, i requires 0 <= i < |calls| => calls[i].nodeRef)
  }

  // The stack positions followed by the cursor position.
  ghost function Trail<S, I, O>(p: Problem<S, I, O>, calls: seq<CallFrame<S>>, cursor: Option<nat>): seq<nat> {
    Refs(calls) + [Position(p, cursor)]
  }

  ghost function Budget<S, I, O>(p: Problem<S, I, O>, calls: seq<CallFrame<S>>, cursor: Option<nat>): int {
    var base, width := |p.entries| + 2, |p.ops| + 2;
    if |calls| < width then Power(base, width) - Rank(Trail(p, calls, cursor), base, width) else 0
  }

  lemma {:induction false} RefsAreDigits<S, I, O>(
      p: Problem<S, I, O>, calls: seq<CallFrame<S>>, done: set<nat>, s: S)
    requires Sound(p) && Path(p, calls, done, s)
    ensures IsDigits(Refs(calls), |p.entries| + 2)
    decreases |calls|
  {
    if calls != [] {
      RefsAreDigits(p, Rest(calls), done - {OpAt(p, Top(calls).nodeRef)}, Top(calls).state);
      assert Refs(calls) == Refs(Rest(calls)) + [Top(calls).nodeRef];
    }
  }

  lemma BudgetPositive<S, I, O>(
      p: Problem<S, I, O>, calls: seq<CallFrame<S>>, done: set<nat>, s: S, cursor: Option<nat>)
    requires Sound(p) && Path(p, calls, done, s) && 0 < Position(p, cursor) <= |p.entries| + 1
    ensures |calls| <= |p.ops| && Budget(p, calls, cursor) > 0
  {
    PathSize(p, calls, done, s);
    RefsAreDigits(p, calls, done, s);
    RankBound(Trail(p, calls, cursor), |p.entries| + 2, |p.ops| + 2);
  }

  lemma BudgetAfterSkip<S, I, O>(
      p: Problem<S, I, O>, calls: seq<CallFrame<S>>, cursor: Option<nat>, next: Option<nat>)
    requires |calls| <= |p.ops| && 0 < Position(p, cursor) < Position(p, next) <= |p.entries| + 1
    ensures Budget(p, calls, next) < Budget(p, calls, cursor)
  {
    AdvanceIncreases(Refs(calls), Position(p, cursor), Position(p, next), |p.entries| + 2, |p.ops| + 2);
  }

  lemma BudgetAfterPush<S, I, O>(
      p: Problem<S, I, O>, calls: seq<CallFrame<S>>, f: CallFrame<S>, next: Option<nat>)
    requires |calls| < |p.ops| && 0 < f.nodeRef <= |p.entries| && 0 < Position(p, next) <= |p.entries| + 1
    ensures Budget(p, calls + [f], next) < Budget(p, calls, Some(f.nodeRef))
  {
    assert Refs(calls + [f]) == Refs(calls) + [f.nodeRef];
    PushIncreases(Refs(calls), f.nodeRef, Position(p, next), |p.entries| + 2, |p.ops| + 2);
  }

  lemma BudgetAfterPop<S, I, O>(
      p: Problem<S, I, O>, calls: seq<CallFrame<S>>, cursor: Option<nat>, next: Option<nat>)
    requires calls != [] && |calls| <= |p.ops| && 0 < Position(p, cursor) <= |p.entries| + 1
    requires 0 < Top(calls).nodeRef < Position(p, next) <= |p.entries| + 1
    ensures Budget(p, Rest(calls), next) < Budget(p, calls, cursor)
  {
    assert Refs(calls) == Refs(Rest(calls)) + [Top(calls).nodeRef];
    PopIncreases(Refs(Rest(calls)), Top(calls).nodeRef, Position(p, cursor), Position(p, next),
                 |p.entries| + 2, |p.ops| + 2);
  }
}
