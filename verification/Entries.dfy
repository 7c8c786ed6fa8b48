/** The call and return entries the search runs on, and the operations they stand for. */
module Entries {
  import opened Specification

  datatype EntryValue<+I, +O> = Call(input: I) | Return(output: O)

  datatype Entry<+I, +O> = Entry(id: nat, time: nat, value: EntryValue<I, O>)

  // Each id below |entries| / 2 has one call entry and, later, one return entry, and there is no other entry.
  ghost predicate WellFormedEntries<I, O>(entries: seq<Entry<I, O>>) {
    && |entries| % 2 == 0
    && (forall c :: 0 <= c < |entries| ==> entries[c].id < |entries| / 2)
    && (forall c, d :: 0 <= c < d < |entries| && entries[c].id == entries[d].id ==>
          entries[c].value.Call? && entries[d].value.Return?)
    && forall x: nat :: x < |entries| / 2 ==> HasCall(entries, x) && HasReturn(entries, x)
  }

  ghost predicate HasCall<I, O>(entries: seq<Entry<I, O>>, x: nat) {
    exists c :: 0 <= c < |entries| && entries[c].id == x && entries[c].value.Call?
  }

  ghost predicate HasReturn<I, O>(entries: seq<Entry<I, O>>, x: nat) {
    exists c :: 0 <= c < |entries| && entries[c].id == x && entries[c].value.Return?
  }

  // `ops` are the operations whose calls and returns are the entries, timed by position.
  ghost predicate Describes<I, O>(entries: seq<Entry<I, O>>, ops: seq<Operation<I, O>>) {
    && |entries| == 2 * |ops|
    && (forall c :: 0 <= c < |entries| ==> EntryOf(entries, ops, c))
    && forall x :: 0 <= x < |ops| ==> PairOf(entries, ops, x)
  }

  ghost predicate EntryOf<I, O>(entries: seq<Entry<I, O>>, ops: seq<Operation<I, O>>, c: nat)
    requires c < |entries|
  {
    var e := entries[c];
    && e.id < |ops|
    && (e.value.Call? ==> ops[e.id].call == c && ops[e.id].input == e.value.input)
    && (e.value.Return? ==> ops[e.id].returnTime == c && ops[e.id].output == e.value.output)
  }

  ghost predicate PairOf<I, O>(entries: seq<Entry<I, O>>, ops: seq<Operation<I, O>>, x: nat)
    requires x < |ops|
  {
    var op := ops[x];
    && op.call < op.returnTime < |entries|
    && entries[op.call].id == x && entries[op.call].value.Call?
    && entries[op.returnTime].id == x && entries[op.returnTime].value.Return?
  }

  lemma EntryFacts<I, O>(entries: seq<Entry<I, O>>, ops: seq<Operation<I, O>>, c: nat)
    requires Describes(entries, ops) && c < |entries|
    ensures |entries| == 2 * |ops|
    ensures EntryOf(entries, ops, c) && PairOf(entries, ops, entries[c].id)
  {
    assert EntryOf(entries, ops, c);
  }

  lemma PairFacts<I, O>(entries: seq<Entry<I, O>>, ops: seq<Operation<I, O>>, x: nat)
    requires Describes(entries, ops) && x < |ops|
    ensures PairOf(entries, ops, x)
    ensures EntryOf(entries, ops, ops[x].call) && EntryOf(entries, ops, ops[x].returnTime)
  {
    assert PairOf(entries, ops, x);
  }

  ghost function CallOf<I, O>(entries: seq<Entry<I, O>>, x: nat): (c: nat)
    requires HasCall(entries, x)
    ensures c < |entries| && entries[c].id == x && entries[c].value.Call?
  {
    var c :| 0 <= c < |entries| && entries[c].id == x && entries[c].value.Call?;
    c
  }

  ghost function ReturnOf<I, O>(entries: seq<Entry<I, O>>, x: nat): (c: nat)
    requires HasReturn(entries, x)
    ensures c < |entries| && entries[c].id == x && entries[c].value.Return?
  {
    var c :| 0 <= c < |entries| && entries[c].id == x && entries[c].value.Return?;
    c
  }

  // The operations of well-formed entries; an operation's times are the positions of its entries.
  ghost function OperationsOf<I, O>(entries: seq<Entry<I, O>>): (ops: seq<Operation<I, O>>)
    requires WellFormedEntries(entries)
  {
    seq(|entries| / 2, x requires 0 <= x < |entries| / 2 && HasCall(entries, x) && HasReturn(entries, x) =>
      var c, r := CallOf(entries, x), ReturnOf(entries, x);
      Operation(0, entries[c].value.input, c, entries[r].value.output, r))
  }

  lemma OperationsDescribed<I, O>(entries: seq<Entry<I, O>>)
    requires WellFormedEntries(entries)
    ensures Describes(entries, OperationsOf(entries)) && WellFormed(OperationsOf(entries))
  {
    var ops := OperationsOf(entries);
    forall x | 0 <= x < |ops|
      ensures PairOf(entries, ops, x)
    {
      var c, r := CallOf(entries, x), ReturnOf(entries, x);
      if r < c { assert false; }
    }
    forall c | 0 <= c < |entries|
      ensures EntryOf(entries, ops, c)
    {
      var x := entries[c].id;
      assert PairOf(entries, ops, x);
    }
  }
}
