/** How much the search expands: every cached pair was reached by a run, and a failed search has
    cached every pair that any run reaches. */
module Exhaustion {
  import opened Sequences
  import opened Wrappers
  import opened Specification
  import opened Entries
  import opened Arena
  import opened Caching
  import opened Exploration

  // The model refuses x in (done, s), or the pair it leads to is cached.
  ghost predicate SuccessorCached<S, I, O>(p: Problem<S, I, O>, cache: Cache<S>, done: set<nat>, s: S, x: nat)
    requires x < |p.ops|
  {
    var next := Step(p.model, s, p.ops[x]);
    next.Some? ==> Cached(cache, done + {x}, next.value)
  }

  // Every live node before `pos` is a call that has been tried.
  ghost predicate TriedBefore<S, I, O>(p: Problem<S, I, O>, cache: Cache<S>, done: set<nat>, s: S, pos: nat)
    requires Sound(p)
  {
    forall c :: 1 <= c < pos && IsLive(p, done, c) ==>
      IsCallNode(p, c) && SuccessorCached(p, cache, done, s, OpAt(p, c))
  }

  // Everything that may come next in (done, s) has been tried.
  ghost predicate Spent<S, I, O>(p: Problem<S, I, O>, cache: Cache<S>, done: set<nat>, s: S) {
    forall x: nat :: Enabled(p.ops, done, x) ==> SuccessorCached(p, cache, done, s, x)
  }

  // Every pair on the stack is cached, and every frame has tried everything before its node.
  ghost predicate StackTried<S, I, O>(
      p: Problem<S, I, O>, cache: Cache<S>, calls: seq<CallFrame<S>>, done: set<nat>, s: S)
    requires Sound(p) && Path(p, calls, done, s)
    decreases |calls|
  {
    calls != [] ==>
      var f := Top(calls);
      var before := done - {OpAt(p, f.nodeRef)};
      && Cached(cache, done, s)
      && TriedBefore(p, cache, before, f.state, f.nodeRef)
      && StackTried(p, cache, Rest(calls), before, f.state)
  }

  // Every cached pair is still on the stack or has nothing left to try.
  ghost predicate CacheClosed<S(!new), I, O>(
      p: Problem<S, I, O>, cache: Cache<S>, calls: seq<CallFrame<S>>, done: set<nat>, s: S)
    requires Sound(p) && Path(p, calls, done, s)
  {
    forall d, t :: Cached(cache, d, t) ==> OnPath(p, calls, done, s, d, t) || Spent(p, cache, d, t)
  }

  ghost predicate CacheReached<S(!new), I, O>(p: Problem<S, I, O>, cache: Cache<S>) {
    forall d, t :: Cached(cache, d, t) ==> Reachable(p.model, p.ops, d, t)
  }

  ghost predicate Sweep<S(!new), I, O>(
      p: Problem<S, I, O>, cache: Cache<S>, calls: seq<CallFrame<S>>, done: set<nat>, s: S, cursor: Option<nat>)
    requires Sound(p) && Path(p, calls, done, s)
  {
    && StackTried(p, cache, calls, done, s)
    && TriedBefore(p, cache, done, s, Position(p, cursor))
    && CacheClosed(p, cache, calls, done, s)
    && CacheReached(p, cache)
  }

  // ----- growing the cache loses nothing -----

  ghost predicate Grows<S(!new)>(cache: Cache<S>, grown: Cache<S>) {
    forall d, t :: Cached(cache, d, t) ==> Cached(grown, d, t)
  }

  lemma {:induction false} StackTriedGrows<S(!new), I, O>(
      p: Problem<S, I, O>, cache: Cache<S>, grown: Cache<S>, calls: seq<CallFrame<S>>, done: set<nat>, s: S)
    requires Sound(p) && Path(p, calls, done, s) && Grows(cache, grown) && StackTried(p, cache, calls, done, s)
    ensures StackTried(p, grown, calls, done, s)
    decreases |calls|
  {
    if calls != [] {
      StackTriedGrows(p, cache, grown, Rest(calls), done - {OpAt(p, Top(calls).nodeRef)}, Top(calls).state);
    }
  }

  // ----- runs along the stack -----

  lemma {:induction false} PathArrives<S, I, O>(
      p: Problem<S, I, O>, calls: seq<CallFrame<S>>, done: set<nat>, s: S, suffix: seq<nat>, d: set<nat>, t: S)
    requires Sound(p) && Path(p, calls, done, s) && Arrives(p.model, p.ops, done, s, suffix, d, t)
    ensures Arrives(p.model, p.ops, {}, p.model.init, Order(p, calls, done, s) + suffix, d, t)
    decreases |calls|
  {
    if calls == [] {
      assert Order(p, calls, done, s) + suffix == suffix;
    } else {
      var f := Top(calls);
      var x := OpAt(p, f.nodeRef);
      var before := done - {x};
      FrontierIsEnabled(p, before, f.state, f.nodeRef);
      var longer := [x] + suffix;
      assert longer[0] == x && longer[1..] == suffix && before + {x} == done;
      PathArrives(p, Rest(calls), before, f.state, longer, d, t);
      assert Order(p, calls, done, s) + suffix == Order(p, Rest(calls), before, f.state) + longer;
    }
  }

  lemma PathReachable<S, I, O>(p: Problem<S, I, O>, calls: seq<CallFrame<S>>, done: set<nat>, s: S)
    requires Sound(p) && Path(p, calls, done, s)
    ensures Reachable(p.model, p.ops, done, s)
  {
    PathArrives(p, calls, done, s, [], done, s);
  }

  // ----- the branches of the loop -----

  lemma SweepStart<S(!new), I, O>(p: Problem<S, I, O>, nodes: seq<Node<I, O>>)
    requires Sound(p) && Layout(nodes, p.entries, p.ops) && Linked(nodes, Live(p.entries, {}))
    ensures Sweep(p, map[], [], {}, p.model.init, AsCursor(nodes[0].next))
  {
    NextStop(p, nodes, {}, 0);
  }

  lemma SweepSkip<S(!new), I, O>(
      p: Problem<S, I, O>, nodes: seq<Node<I, O>>, calls: seq<CallFrame<S>>, done: set<nat>, s: S,
      cache: Cache<S>, c: nat)
    requires Inv(p, nodes, calls, done, s, cache, Some(c)) && IsCallNode(p, c)
    requires Sweep(p, cache, calls, done, s, Some(c)) && SuccessorCached(p, cache, done, s, OpAt(p, c))
    ensures c < |nodes| && Sweep(p, cache, calls, done, s, AsCursor(nodes[c].next))
  {
    TriedMovesOn(p, nodes, cache, done, s, c);
  }

  lemma SweepPush<S(!new), I, O>(
      p: Problem<S, I, O>, nodes: seq<Node<I, O>>, calls: seq<CallFrame<S>>, done: set<nat>, s: S,
      cache: Cache<S>, c: Link, next: S, grown: Cache<S>, cursor: Option<nat>)
    requires Inv(p, nodes, calls, done, s, cache, Some(c)) && IsCallNode(p, c)
    requires Sweep(p, cache, calls, done, s, Some(c))
    requires Step(p.model, s, p.ops[OpAt(p, c)]) == Some(next)
    requires forall d, t :: Cached(grown, d, t) <==> Cached(cache, d, t) || (d == done + {OpAt(p, c)} && t == next)
    requires Path(p, calls + [CallFrame(c, s)], done + {OpAt(p, c)}, next)
    requires forall d: nat :: IsLive(p, done + {OpAt(p, c)}, d) ==> Position(p, cursor) <= d
    ensures Sweep(p, grown, calls + [CallFrame(c, s)], done + {OpAt(p, c)}, next, cursor)
  {
    var x := OpAt(p, c);
    var longer, more := calls + [CallFrame(c, s)], done + {x};
    assert Top(longer) == CallFrame(c, s) && Rest(longer) == calls && more - {x} == done;
    StackTriedGrows(p, cache, grown, calls, done, s);
    PathReachable(p, longer, more, next);
    forall d, t | Cached(grown, d, t)
      ensures OnPath(p, longer, more, next, d, t) || Spent(p, grown, d, t)
    {
      if Cached(cache, d, t) {
        assert OnPath(p, calls, done, s, d, t) || Spent(p, cache, d, t);
      }
    }
  }

  // At a live return, everything that may come next has been tried.
  lemma StuckIsSpent<S, I, O>(p: Problem<S, I, O>, cache: Cache<S>, done: set<nat>, s: S, r: nat)
    requires Sound(p) && IsLive(p, done, r) && !IsCallNode(p, r) && TriedBefore(p, cache, done, s, r)
    ensures Spent(p, cache, done, s)
  {
    var y := OpAt(p, r);
    EntryFacts(p.entries, p.ops, r - 1);
    forall x: nat | Enabled(p.ops, done, x)
      ensures SuccessorCached(p, cache, done, s, x)
    {
      PairFacts(p.entries, p.ops, x);
      assert !Precedes(p.ops, y, x);
      var c := p.ops[x].call + 1;
      assert c < r && IsLive(p, done, c) && OpAt(p, c) == x;
    }
  }

  lemma SweepPop<S(!new), I, O>(
      p: Problem<S, I, O>, before: seq<Node<I, O>>, calls: seq<CallFrame<S>>, done: set<nat>, s: S,
      cache: Cache<S>, r: nat)
    requires Sound(p) && Path(p, calls, done, s) && calls != [] && Sweep(p, cache, calls, done, s, Some(r))
    requires IsLive(p, done, r) && !IsCallNode(p, r)
    requires Layout(before, p.entries, p.ops)
    requires Linked(before, Live(p.entries, done - {OpAt(p, Top(calls).nodeRef)}))
    ensures var f := Top(calls);
            f.nodeRef < |before| &&
            Sweep(p, cache, Rest(calls), done - {OpAt(p, f.nodeRef)}, f.state, AsCursor(before[f.nodeRef].next))
  {
    StuckIsSpent(p, cache, done, s, r);
    var f := Top(calls);
    var less := done - {OpAt(p, f.nodeRef)};
    assert less + {OpAt(p, f.nodeRef)} == done;
    TriedMovesOn(p, before, cache, less, f.state, f.nodeRef);
    forall d, t | Cached(cache, d, t)
      ensures OnPath(p, Rest(calls), less, f.state, d, t) || Spent(p, cache, d, t)
    {
      assert OnPath(p, calls, done, s, d, t) || Spent(p, cache, d, t);
    }
  }

  lemma TriedMovesOn<S, I, O>(
      p: Problem<S, I, O>, nodes: seq<Node<I, O>>, cache: Cache<S>, done: set<nat>, s: S, c: nat)
    requires Sound(p) && Layout(nodes, p.entries, p.ops) && Linked(nodes, Live(p.entries, done))
    requires IsLive(p, done, c) && IsCallNode(p, c)
    requires TriedBefore(p, cache, done, s, c) && SuccessorCached(p, cache, done, s, OpAt(p, c))
    ensures c < |nodes| && TriedBefore(p, cache, done, s, Position(p, AsCursor(nodes[c].next)))
  {
    NextStop(p, nodes, done, c);
  }

  // ----- what the finished search has expanded -----

  lemma {:induction false} ClosedReaches<S(!new), I, O>(
      p: Problem<S, I, O>, cache: Cache<S>, done: set<nat>, s: S, order: seq<nat>, d: set<nat>, t: S)
    requires Spent(p, cache, done, s)
    requires forall d', t' :: Cached(cache, d', t') ==> Spent(p, cache, d', t')
    requires order != [] && Arrives(p.model, p.ops, done, s, order, d, t)
    ensures Cached(cache, d, t)
    decreases |order|
  {
    var x, rest := order[0], order[1..];
    var next := Step(p.model, s, p.ops[x]).value;
    assert SuccessorCached(p, cache, done, s, x);
    if rest != [] {
      ClosedReaches(p, cache, done + {x}, next, rest, d, t);
    }
  }

  // A failed search has cached every reachable pair but the start.
  lemma FailedIsExhaustive<S(!new), I, O>(
      p: Problem<S, I, O>, cache: Cache<S>, done: set<nat>, s: S, r: nat, d: set<nat>, t: S)
    requires Sound(p) && Path(p, [], done, s) && Sweep(p, cache, [], done, s, Some(r))
    requires IsLive(p, done, r) && !IsCallNode(p, r)
    requires Reachable(p.model, p.ops, d, t) && d != {}
    ensures Cached(cache, d, t)
  {
    StuckIsSpent(p, cache, done, s, r);
    var order :| Arrives(p.model, p.ops, {}, p.model.init, order, d, t);
    assert forall d', t' :: Cached(cache, d', t') ==> OnPath(p, [], done, s, d', t') || Spent(p, cache, d', t');
    ClosedReaches(p, cache, {}, p.model.init, order, d, t);
  }

  // Every nonempty prefix of the stack, as a set with its state, is cached.
  lemma {:induction false} PrefixCached<S(!new), I, O>(
      p: Problem<S, I, O>, cache: Cache<S>, calls: seq<CallFrame<S>>, done: set<nat>, s: S, i: nat)
    returns (t: S)
    requires Sound(p) && Path(p, calls, done, s) && StackTried(p, cache, calls, done, s)
    requires i <= |calls|
    ensures var order := Order(p, calls, done, s);
            |order| == |calls| && InRange(order, |p.ops|) && Members(order) == done &&
            Run(p.model, p.model.init, p.ops, order) == Some(s) &&
            Run(p.model, p.model.init, p.ops, order[..i]) == Some(t) &&
            (i > 0 ==> Cached(cache, Members(order[..i]), t))
    decreases |calls|
  {
    var order := Order(p, calls, done, s);
    if calls == [] {
      t := s;
    } else {
      var f := Top(calls);
      var x := OpAt(p, f.nodeRef);
      var init := Order(p, Rest(calls), done - {x}, f.state);
      t := PrefixCached(p, cache, Rest(calls), done - {x}, f.state, if i < |calls| then i else i - 1);
      RunAppend(p.model, p.model.init, p.ops, init, x);
      assert Members(order) == Members(init) + {x};
      if i == |calls| {
        t := s;
        assert order[..i] == order;
      } else {
        assert order[..i] == init[..i];
      }
    }
  }
}
