/** The index-based doubly-linked list ("dancing links") of unlinearized entries. Node 0 is the
    sentinel head; entry c is node c + 1. */
module Arena {
  import opened Wrappers
  import opened Specification
  import opened Entries

  // `u32::MAX`, the absent link.
  const NONE: nat := 0xFFFF_FFFF

  // Links are held as `u32`, so none may exceed NONE.
  type Link = x: nat | x <= NONE

  datatype Node<+I, +O> =
    Node(value: Option<EntryValue<I, O>>, id: Link, matchIdx: Link, prev: Link, next: Link)

  // ----- unlinking and relinking, on node vectors -----

  predicate Wired<I, O>(nodes: seq<Node<I, O>>, x: nat) {
    && x < |nodes|
    && nodes[x].prev < |nodes| && nodes[x].prev != x
    && (nodes[x].next == NONE || (nodes[x].next < |nodes| && nodes[x].next != x))
  }

  function SetNext<I, O>(nodes: seq<Node<I, O>>, x: nat, to: Link): seq<Node<I, O>>
    requires x < |nodes|
  {
    nodes[x := nodes[x].(next := to)]
  }

  function SetPrev<I, O>(nodes: seq<Node<I, O>>, x: nat, to: Link): seq<Node<I, O>>
    requires x < |nodes|
  {
    nodes[x := nodes[x].(prev := to)]
  }

  function Unlink<I, O>(nodes: seq<Node<I, O>>, x: nat): (result: seq<Node<I, O>>)
    requires Wired(nodes, x)
    ensures |result| == |nodes| && result[x] == nodes[x]
  {
    var p, n := nodes[x].prev, nodes[x].next;
    var bridged := SetNext(nodes, p, n);
    if n == NONE then bridged else SetPrev(bridged, n, p)
  }

  function Relink<I, O>(nodes: seq<Node<I, O>>, x: Link): (result: seq<Node<I, O>>)
    requires Wired(nodes, x)
    ensures |result| == |nodes| && result[x] == nodes[x]
  {
    var p, n := nodes[x].prev, nodes[x].next;
    var closed := SetNext(nodes, p, x);
    if n == NONE then closed else SetPrev(closed, n, x)
  }

  // A call node can be lifted when it and its return can be unlinked in this order.
  predicate Liftable<I, O>(nodes: seq<Node<I, O>>, c: nat) {
    && Wired(nodes, c)
    && nodes[c].matchIdx != c
    && Wired(Unlink(nodes, c), nodes[c].matchIdx)
  }

  function Lifted<I, O>(nodes: seq<Node<I, O>>, c: nat): seq<Node<I, O>>
    requires Liftable(nodes, c)
  {
    Unlink(Unlink(nodes, c), nodes[c].matchIdx)
  }

  predicate Unliftable<I, O>(nodes: seq<Node<I, O>>, c: Link) {
    && c < |nodes|
    && Wired(nodes, nodes[c].matchIdx)
    && Wired(Relink(nodes, nodes[c].matchIdx), c)
  }

  function Unlifted<I, O>(nodes: seq<Node<I, O>>, c: Link): seq<Node<I, O>>
    requires Unliftable(nodes, c)
  {
    Relink(Relink(nodes, nodes[c].matchIdx), c)
  }

  // ----- the list the links encode -----

  // `next` of i is the closest live node after i, and that node points back.
  ghost predicate NextIs<I, O>(nodes: seq<Node<I, O>>, live: set<nat>, i: nat)
    requires i < |nodes|
  {
    var n := nodes[i].next;
    if n == NONE then forall j :: j in live ==> j <= i
    else
      && n in live && i < n < |nodes| && nodes[n].prev == i
      && forall j :: j in live ==> !(i < j < n)
  }

  ghost predicate PrevIs<I, O>(nodes: seq<Node<I, O>>, live: set<nat>, j: nat)
    requires j < |nodes|
  {
    var p := nodes[j].prev;
    && p < j && (p == 0 || p in live) && nodes[p].next == j
  }

  // The links thread the sentinel and the live nodes in ascending order.
  ghost predicate Linked<I, O>(nodes: seq<Node<I, O>>, live: set<nat>) {
    && 0 < |nodes| <= NONE
    && (forall j :: j in live ==> 0 < j < |nodes| && PrevIs(nodes, live, j))
    && NextIs(nodes, live, 0)
    && forall i :: i in live ==> i < |nodes| && NextIs(nodes, live, i)
  }

  // Unlinking changes one `next` and one `prev`, and nothing else.
  ghost predicate UnlinkEffect<I, O>(nodes: seq<Node<I, O>>, after: seq<Node<I, O>>, p: Link, n: Link) {
    && |after| == |nodes|
    && forall i :: 0 <= i < |nodes| ==>
         after[i] == nodes[i].(next := if i == p then n else nodes[i].next, prev := if i == n then p else nodes[i].prev)
  }

  lemma UnlinkNextBefore<I, O>(nodes: seq<Node<I, O>>, after: seq<Node<I, O>>, live: set<nat>, x: nat)
    requires Linked(nodes, live) && x in live
    requires UnlinkEffect(nodes, after, nodes[x].prev, nodes[x].next)
    ensures nodes[x].prev < |after| && NextIs(after, live - {x}, nodes[x].prev)
  {
    assert PrevIs(nodes, live, x);
    var p, n := nodes[x].prev, nodes[x].next;
    assert NextIs(nodes, live, p) && NextIs(nodes, live, x);
    assert after[p].next == n;
    if n != NONE { assert after[n].prev == p; }
    forall j | j in live - {x}
      ensures n == NONE ==> j <= p
      ensures n != NONE ==> !(p < j < n)
    {
      assert !(p < j < x);
    }
  }

  lemma UnlinkNextElsewhere<I, O>(nodes: seq<Node<I, O>>, after: seq<Node<I, O>>, live: set<nat>, x: nat, i: nat)
    requires Linked(nodes, live) && x in live && (i == 0 || i in live - {x}) && i != nodes[x].prev
    requires UnlinkEffect(nodes, after, nodes[x].prev, nodes[x].next)
    ensures i < |after| && NextIs(after, live - {x}, i)
  {
    assert NextIs(nodes, live, i);
    var p, n, m := nodes[x].prev, nodes[x].next, nodes[i].next;
    assert after[i].next == m;
    if m != NONE {
      assert NextIs(nodes, live, x);
      assert m != x && m != n;
      assert after[m].prev == i;
    }
  }

  lemma UnlinkPrev<I, O>(nodes: seq<Node<I, O>>, after: seq<Node<I, O>>, live: set<nat>, x: nat, j: nat)
    requires Linked(nodes, live) && x in live && j in live - {x}
    requires UnlinkEffect(nodes, after, nodes[x].prev, nodes[x].next)
    ensures 0 < j < |after| && PrevIs(after, live - {x}, j)
  {
    assert PrevIs(nodes, live, j) && PrevIs(nodes, live, x) && NextIs(nodes, live, x);
    if nodes[j].prev == x { assert j == nodes[x].next; }
  }

  lemma UnlinkKeepsLinked<I, O>(nodes: seq<Node<I, O>>, live: set<nat>, x: nat)
    requires Linked(nodes, live) && x in live
    ensures Wired(nodes, x) && Linked(Unlink(nodes, x), live - {x})
    ensures UnlinkEffect(nodes, Unlink(nodes, x), nodes[x].prev, nodes[x].next)
  {
    assert PrevIs(nodes, live, x) && NextIs(nodes, live, x);
    var after, left := Unlink(nodes, x), live - {x};
    assert UnlinkEffect(nodes, after, nodes[x].prev, nodes[x].next);
    UnlinkNextBefore(nodes, after, live, x);
    if nodes[x].prev != 0 { UnlinkNextElsewhere(nodes, after, live, x, 0); }
    forall i | i in left
      ensures 0 < i < |after| && PrevIs(after, left, i) && NextIs(after, left, i)
    {
      if nodes[x].prev != i { UnlinkNextElsewhere(nodes, after, live, x, i); }
      UnlinkPrev(nodes, after, live, x, i);
    }
  }

  // Relinking undoes unlinking, node for node.
  lemma RelinkUndoesUnlink<I, O>(nodes: seq<Node<I, O>>, live: set<nat>, x: nat)
    requires Linked(nodes, live) && x in live
    ensures Wired(nodes, x) && Wired(Unlink(nodes, x), x) && Relink(Unlink(nodes, x), x) == nodes
  {
    assert PrevIs(nodes, live, x) && NextIs(nodes, live, x);
  }

  // The nodes met by following `next` from node i (from 0: from the head).
  ghost function Walk<I, O>(nodes: seq<Node<I, O>>, live: set<nat>, i: nat): seq<nat>
    requires Linked(nodes, live) && (i == 0 || i in live)
    decreases |nodes| - i
  {
    NextFacts(nodes, live, i);
    if nodes[i].next == NONE then [] else [nodes[i].next as nat] + Walk(nodes, live, nodes[i].next)
  }

  ghost predicate ListsAbove(walk: seq<nat>, live: set<nat>, i: nat) {
    && (forall x :: x in walk <==> x in live && x > i)
    && forall j, k :: 0 <= j < k < |walk| ==> walk[j] < walk[k]
  }

  lemma ListsAboveCons(walk: seq<nat>, live: set<nat>, i: nat, n: nat)
    requires ListsAbove(walk, live, n) && n in live && i < n
    requires forall j :: j in live && i < j ==> n <= j
    ensures ListsAbove([n] + walk, live, i)
  {
    var all := [n] + walk;
    forall j, k | 0 <= j < k < |all|
      ensures all[j] < all[k]
    {
      assert all[k] == walk[k - 1] && walk[k - 1] in walk;
      if j > 0 { assert all[j] == walk[j - 1]; }
    }
  }

  // Walking the list visits exactly the live nodes, in ascending order.
  lemma {:induction false} WalkVisitsLive<I, O>(nodes: seq<Node<I, O>>, live: set<nat>, i: nat)
    requires Linked(nodes, live) && (i == 0 || i in live)
    ensures ListsAbove(Walk(nodes, live, i), live, i)
    decreases |nodes| - i
  {
    NextFacts(nodes, live, i);
    hide Linked, ListsAbove;
    if nodes[i].next == NONE {
      ListsNone(live, i);
    } else {
      WalkVisitsLive(nodes, live, nodes[i].next);
      ListsAboveCons(Walk(nodes, live, nodes[i].next), live, i, nodes[i].next);
    }
  }

  lemma ListsNone(live: set<nat>, i: nat)
    requires forall j :: j in live ==> j <= i
    ensures ListsAbove([], live, i)
  {
  }

  lemma NextFacts<I, O>(nodes: seq<Node<I, O>>, live: set<nat>, i: nat)
    requires Linked(nodes, live) && (i == 0 || i in live)
    ensures i < |nodes|
    ensures nodes[i].next == NONE ==> forall j :: j in live ==> j <= i
    ensures nodes[i].next != NONE ==> i < nodes[i].next && nodes[i].next in live
    ensures nodes[i].next != NONE ==> forall j :: j in live && i < j ==> nodes[i].next <= j
  {
    assert NextIs(nodes, live, i);
  }

  // ----- the arena of one entry list -----

  // The parts of the nodes that never change.
  ghost predicate Layout<I, O>(nodes: seq<Node<I, O>>, entries: seq<Entry<I, O>>, ops: seq<Operation<I, O>>) {
    && |nodes| == |entries| + 1 <= NONE
    && Describes(entries, ops)
    && nodes[0].value == None
    && forall c :: 1 <= c < |nodes| ==> NodeOf(nodes, entries, ops, c)
  }

  ghost predicate NodeOf<I, O>(
      nodes: seq<Node<I, O>>, entries: seq<Entry<I, O>>, ops: seq<Operation<I, O>>, c: nat)
    requires 1 <= c < |nodes| && |nodes| == |entries| + 1 && Describes(entries, ops)
  {
    var e := entries[c - 1];
    assert EntryOf(entries, ops, c - 1);
    && nodes[c].value == Some(e.value)
    && nodes[c].id == e.id
    && nodes[c].matchIdx == if e.value.Call? then ops[e.id].returnTime + 1 else NONE
  }

  // The nodes of the operations not yet linearized.
  ghost function Live<I, O>(entries: seq<Entry<I, O>>, done: set<nat>): set<nat> {
    set c: nat | 1 <= c <= |entries| && NodeId(entries, c) !in done
  }

  function NodeId<I, O>(entries: seq<Entry<I, O>>, c: nat): nat
    requires 1 <= c <= |entries|
  {
    entries[c - 1].id
  }

  lemma LiveWithout<I, O>(entries: seq<Entry<I, O>>, ops: seq<Operation<I, O>>, done: set<nat>, c: nat)
    requires Describes(entries, ops) && c in Live(entries, done) && entries[c - 1].value.Call?
    ensures var x := entries[c - 1].id;
            x < |ops| && ops[x].returnTime + 1 in Live(entries, done) - {c} &&
            Live(entries, done + {x}) == Live(entries, done) - {c} - {ops[x].returnTime + 1}
  {
    var x := entries[c - 1].id;
    assert EntryOf(entries, ops, c - 1);
    assert PairOf(entries, ops, x);
    forall d: nat | 1 <= d <= |entries|
      ensures NodeId(entries, d) == x <==> d == c || d == ops[x].returnTime + 1
    {
      assert EntryOf(entries, ops, d - 1);
    }
  }

  // Lifting an operation removes exactly its two nodes from the list, and unlifting restores every node.
  lemma LiftLemma<I, O>(
      nodes: seq<Node<I, O>>, entries: seq<Entry<I, O>>, ops: seq<Operation<I, O>>, done: set<nat>, c: nat)
    requires Layout(nodes, entries, ops) && Linked(nodes, Live(entries, done))
    requires c in Live(entries, done) && entries[c - 1].value.Call?
    ensures Liftable(nodes, c)
    ensures Layout(Lifted(nodes, c), entries, ops)
    ensures Linked(Lifted(nodes, c), Live(entries, done + {entries[c - 1].id}))
    ensures Unliftable(Lifted(nodes, c), c) && Unlifted(Lifted(nodes, c), c) == nodes
  {
    var live := Live(entries, done);
    assert NodeOf(nodes, entries, ops, c);
    var r := nodes[c].matchIdx;
    LiveWithout(entries, ops, done, c);
    UnlinkKeepsLinked(nodes, live, c);
    RelinkUndoesUnlink(nodes, live, c);
    var once := Unlink(nodes, c);
    UnlinkKeepsLinked(once, live - {c}, r);
    RelinkUndoesUnlink(once, live - {c}, r);
    var twice := Unlink(once, r);
    forall d | 1 <= d < |twice|
      ensures NodeOf(twice, entries, ops, d)
    {
      assert NodeOf(nodes, entries, ops, d);
    }
  }

  // ----- building the arena -----

  // Node c with its links not yet filled in, and with its match filled in or not.
  ghost function RawNode<I, O>(
      entries: seq<Entry<I, O>>, ops: seq<Operation<I, O>>, c: nat, matched: bool): Node<I, O>
    requires 1 <= c <= |entries| < NONE && Describes(entries, ops)
  {
    var e := entries[c - 1];
    assert EntryOf(entries, ops, c - 1) && PairOf(entries, ops, e.id);
    Node(Some(e.value), e.id, if matched && e.value.Call? then ops[e.id].returnTime + 1 else NONE, 0, NONE)
  }

  ghost function InitialNode<I, O>(entries: seq<Entry<I, O>>, ops: seq<Operation<I, O>>, c: nat): Node<I, O>
    requires 1 <= c <= |entries| < NONE && Describes(entries, ops)
  {
    RawNode(entries, ops, c, true).(prev := c - 1, next := if c < |entries| then c + 1 else NONE)
  }

  lemma InitialArena<I, O>(nodes: seq<Node<I, O>>, entries: seq<Entry<I, O>>, ops: seq<Operation<I, O>>)
    requires Describes(entries, ops) && |nodes| == |entries| + 1 <= NONE
    requires nodes[0].value == None && nodes[0].next == if |entries| > 0 then 1 else NONE
    requires forall c :: 1 <= c < |nodes| ==> nodes[c] == InitialNode(entries, ops, c)
    ensures Layout(nodes, entries, ops) && Linked(nodes, Live(entries, {}))
  {
    forall c | 1 <= c < |nodes|
      ensures NodeOf(nodes, entries, ops, c)
    {
      assert nodes[c] == InitialNode(entries, ops, c);
    }
    var live := Live(entries, {});
    assert forall c :: 1 <= c < |nodes| ==> c in live;
    forall c | c in live
      ensures 0 < c < |nodes| && PrevIs(nodes, live, c) && NextIs(nodes, live, c)
    {
      assert nodes[c] == InitialNode(entries, ops, c);
      if c > 1 { assert nodes[c - 1] == InitialNode(entries, ops, c - 1); }
      if c < |entries| { assert nodes[c + 1] == InitialNode(entries, ops, c + 1); }
    }
    if |entries| > 0 { assert nodes[1] == InitialNode(entries, ops, 1); }
    assert NextIs(nodes, live, 0);
  }

  // First pass: one node an entry, remembering where each operation's return went.
  method AllocateNodes<I, O>(
      entries: seq<Entry<I, O>>, ghost ops: seq<Operation<I, O>>, ns: array<Node<I, O>>, returnIdx: array<Link>)
    requires Describes(entries, ops) && ns.Length == |entries| + 1 <= NONE && returnIdx.Length == |ops|
    modifies ns, returnIdx
    ensures ns[0] == old(ns[0])
    ensures forall c :: 1 <= c <= |entries| ==> ns[c] == RawNode(entries, ops, c, false)
    ensures forall x :: 0 <= x < |ops| ==> returnIdx[x] == ops[x].returnTime + 1
  {
    hide Describes;
    for i := 0 to |entries|
      invariant ns[0] == old(ns[0])
      invariant forall c :: 1 <= c <= i ==> ns[c] == RawNode(entries, ops, c, false)
      invariant forall x :: 0 <= x < |ops| && ops[x].returnTime < i ==> returnIdx[x] == ops[x].returnTime + 1
    {
      EntryFacts(entries, ops, i);
      if entries[i].value.Return? {
        returnIdx[entries[i].id] := i + 1;
      }
      ns[i + 1] := Node(Some(entries[i].value), entries[i].id, NONE, 0, NONE);
      forall x | 0 <= x < |ops| && ops[x].returnTime < i + 1
        ensures returnIdx[x] == ops[x].returnTime + 1
      {
        PairFacts(entries, ops, x);
      }
    }
    forall x | 0 <= x < |ops|
      ensures returnIdx[x] == ops[x].returnTime + 1
    {
      PairFacts(entries, ops, x);
    }
  }

  // Second pass: point each call at its return.
  method FillMatches<I, O>(
      entries: seq<Entry<I, O>>, ghost ops: seq<Operation<I, O>>, ns: array<Node<I, O>>, returnIdx: array<Link>)
    requires Describes(entries, ops) && ns.Length == |entries| + 1 <= NONE && returnIdx.Length == |ops|
    requires forall c :: 1 <= c <= |entries| ==> ns[c] == RawNode(entries, ops, c, false)
    requires forall x :: 0 <= x < |ops| ==> returnIdx[x] == ops[x].returnTime + 1
    modifies ns
    ensures ns[0] == old(ns[0])
    ensures forall c :: 1 <= c <= |entries| ==> ns[c] == RawNode(entries, ops, c, true)
  {
    hide Describes;
    for i := 1 to |entries| + 1
      invariant ns[0] == old(ns[0])
      invariant forall c :: 1 <= c <= |entries| ==> ns[c] == RawNode(entries, ops, c, c < i)
    {
      EntryFacts(entries, ops, i - 1);
      assert ns[i] == RawNode(entries, ops, i, false);
      if ns[i].value.value.Call? {
        var ret := returnIdx[ns[i].id];
        if ret != NONE {
          ns[i] := ns[i].(matchIdx := ret);
        }
      }
      assert ns[i] == RawNode(entries, ops, i, true);
    }
  }

  // Third pass: thread every node behind its predecessor, starting at the sentinel.
  method LinkNodes<I, O>(entries: seq<Entry<I, O>>, ghost ops: seq<Operation<I, O>>, ns: array<Node<I, O>>)
    requires Describes(entries, ops) && ns.Length == |entries| + 1 <= NONE && ns[0].value == None
    requires forall c :: 1 <= c <= |entries| ==> ns[c] == RawNode(entries, ops, c, true)
    modifies ns
    ensures Layout(ns[..], entries, ops) && Linked(ns[..], Live(entries, {}))
  {
    hide Describes, Layout, Linked;
    var n := |entries|;
    for i := 1 to n + 1
      invariant ns[0].value == None
      invariant forall c :: 1 <= c < i ==> ns[c] == InitialNode(entries, ops, c)
      invariant forall c :: i <= c <= n ==> ns[c] == RawNode(entries, ops, c, true)
    {
      ns[i] := ns[i].(prev := i - 1, next := if i < n then i + 1 else NONE);
    }
    ns[0] := ns[0].(next := if n > 0 then 1 else NONE);
    InitialArena(ns[..], entries, ops);
  }

  // ----- the mutable arena -----

  class NodeArena<I, O> {
    const nodes: array<Node<I, O>>
    ghost var lifts: nat // how often Lift was called

    constructor FromEntries(entries: seq<Entry<I, O>>, ghost ops: seq<Operation<I, O>>)
      requires Describes(entries, ops) && |entries| < NONE
      ensures fresh(nodes) && nodes.Length == |entries| + 1 && lifts == 0
      ensures Layout(nodes[..], entries, ops) && Linked(nodes[..], Live(entries, {}))
    {
      hide Layout, Linked, Live;
      var sentinel: Node<I, O> := Node(None, NONE, NONE, 0, NONE);
      var ns := new Node<I, O>[|entries| + 1](_ => sentinel);
      var returnIdx := new Link[|entries| / 2](_ => NONE);
      AllocateNodes(entries, ops, ns, returnIdx);
      FillMatches(entries, ops, ns, returnIdx);
      LinkNodes(entries, ops, ns);
      nodes, lifts := ns, 0;
    }

    function HeadNext(): (r: Option<nat>)
      requires nodes.Length > 0
      reads nodes
    {
      if nodes[0].next == NONE then None else Some(nodes[0].next)
    }

    function NextOf(c: nat): (r: Option<nat>)
      requires c < nodes.Length
      reads nodes
    {
      if nodes[c].next == NONE then None else Some(nodes[c].next)
    }

    function MatchOf(c: nat): (r: Option<nat>)
      requires c < nodes.Length
      reads nodes
    {
      if nodes[c].matchIdx == NONE then None else Some(nodes[c].matchIdx)
    }

    // Remove call node c and its return node from the list. Their own links are left as they were.
    method Lift(c: nat)
      requires Liftable(nodes[..], c)
      modifies nodes, this`lifts
      ensures nodes[..] == Lifted(old(nodes[..]), c) && lifts == old(lifts) + 1
    {
      lifts := lifts + 1;
      var matchIdx := nodes[c].matchIdx;
      var callPrev, callNext := nodes[c].prev, nodes[c].next;
      nodes[callPrev] := nodes[callPrev].(next := callNext);
      if callNext != NONE {
        nodes[callNext] := nodes[callNext].(prev := callPrev);
      }
      assert nodes[..] == Unlink(old(nodes[..]), c);
      var retPrev, retNext := nodes[matchIdx].prev, nodes[matchIdx].next;
      nodes[retPrev] := nodes[retPrev].(next := retNext);
      if retNext != NONE {
        nodes[retNext] := nodes[retNext].(prev := retPrev);
      }
    }

    // Put call node c and its return node back where their own links say.
    method Unlift(c: Link)
      requires Unliftable(nodes[..], c)
      modifies nodes
      ensures nodes[..] == Unlifted(old(nodes[..]), c)
    {
      var matchIdx := nodes[c].matchIdx;
      var retPrev, retNext := nodes[matchIdx].prev, nodes[matchIdx].next;
      nodes[retPrev] := nodes[retPrev].(next := matchIdx);
      if retNext != NONE {
        nodes[retNext] := nodes[retNext].(prev := matchIdx);
      }
      assert nodes[..] == Relink(old(nodes[..]), matchIdx);
      var callPrev, callNext := nodes[c].prev, nodes[c].next;
      nodes[callPrev] := nodes[callPrev].(next := c);
      if callNext != NONE {
        nodes[callNext] := nodes[callNext].(prev := c);
      }
    }
  }
}
