/** Removing repetitions while keeping first occurrences in order. */
module Sequences {

  predicate Distinct<T(==)>(items: seq<T>) {
    forall i, j :: 0 <= i < j < |items| ==> items[i] != items[j]
  }

  function Dedup<T(==)>(items: seq<T>): seq<T> {
    if items == [] then []
    else
      var seen, last := Dedup(items[..|items| - 1]), items[|items| - 1];
      if last in seen then seen else seen + [last]
  }

  lemma {:induction false} DedupMeans<T>(items: seq<T>)
    ensures Distinct(Dedup(items))
    ensures forall x :: x in Dedup(items) <==> x in items
    ensures |Dedup(items)| <= |items|
  {
    if items != [] {
      var init, last := items[..|items| - 1], items[|items| - 1];
      assert items == init + [last];
      DedupMeans(init);
    }
  }

  // x occurs before y does for the first time.
  ghost predicate SeenBefore<T>(items: seq<T>, x: T, y: T) {
    exists i :: 0 <= i < |items| && items[i] == x && forall j :: 0 <= j <= i ==> items[j] != y
  }

  lemma {:induction false} DedupFrom<T>(items: seq<T>, k: nat) returns (i: nat)
    requires k < |Dedup(items)|
    ensures i < |items| && items[i] == Dedup(items)[k]
  {
    i := |items| - 1;
    if k < |Dedup(items[..i])| {
      i := DedupFrom(items[..i], k);
    }
  }

  // Members are kept in the order of their first occurrences.
  lemma {:induction false} DedupKeepsOrder<T>(items: seq<T>, k: nat, l: nat)
    requires k < l < |Dedup(items)|
    ensures SeenBefore(items, Dedup(items)[k], Dedup(items)[l])
  {
    var init, last := items[..|items| - 1], items[|items| - 1];
    assert items == init + [last];
    DedupMeans(init);
    var x, y := Dedup(items)[k], Dedup(items)[l];
    if l < |Dedup(init)| {
      DedupKeepsOrder(init, k, l);
      var i :| 0 <= i < |init| && init[i] == x && forall j :: 0 <= j <= i ==> init[j] != y;
      assert items[i] == x;
    } else {
      var i := DedupFrom(init, k);
      assert items[i] == x && forall j :: 0 <= j <= i ==> items[j] != y;
    }
  }

  // Extending the list only extends the result.
  lemma DedupGrows<T>(items: seq<T>, x: T)
    ensures Dedup(items + [x]) == if x in Dedup(items) then Dedup(items) else Dedup(items) + [x]
  {
    assert (items + [x])[..|items|] == items;
  }

  function PlaceOf<T(==)>(items: seq<T>, x: T): (i: nat)
    requires x in items
    ensures i < |items| && items[i] == x
    ensures forall j :: 0 <= j < i ==> items[j] != x
  {
    if items[0] == x then 0 else 1 + PlaceOf(items[1..], x)
  }
}
