/** The runtime check that a partitioner's index lists cover the history exactly once. */
module Partitions {
  import opened Sequences
  import opened Wrappers
  import opened Specification
  import opened Compositionality

  function Flat(parts: seq<seq<nat>>): seq<nat> {
    if parts == [] then [] else Flat(parts[..|parts| - 1]) + parts[|parts| - 1]
  }

  ghost predicate Disjoint(parts: seq<seq<nat>>) {
    forall p, q, x :: 0 <= p < |parts| && 0 <= q < |parts| && x in parts[p] && x in parts[q] ==> p == q
  }

  lemma {:induction false} FlatMembers(parts: seq<seq<nat>>)
    ensures forall x :: x in Flat(parts) <==> Covered(parts, x)
  {
    if parts != [] {
      var n := |parts| - 1;
      var init := parts[..n];
      FlatMembers(init);
      forall x
        ensures x in Flat(parts) <==> Covered(parts, x)
      {
        if p :| 0 <= p < |parts| && x in parts[p] {
          if p < n { assert x in init[p]; }
        }
        if p :| 0 <= p < |init| && x in init[p] {
          assert x in parts[p];
        }
      }
    }
  }

  lemma {:induction false} FlatDistinct(parts: seq<seq<nat>>)
    ensures Distinct(Flat(parts)) <==> Disjoint(parts) && forall p :: 0 <= p < |parts| ==> Distinct(parts[p])
  {
    if parts != [] {
      var n := |parts| - 1;
      var init, last := parts[..n], parts[n];
      FlatDistinct(init);
      FlatMembers(init);
      DistinctConcat(Flat(init), last);
      assert forall p :: 0 <= p < n ==> init[p] == parts[p];
      if Distinct(Flat(parts)) {
        forall p, q, x | 0 <= p < |parts| && 0 <= q < |parts| && x in parts[p] && x in parts[q]
          ensures p == q
        {
          assert p < n ==> x in init[p];
          assert q < n ==> x in init[q];
          assert x in Flat(init) <==> Covered(init, x);
        }
      }
      if Disjoint(parts) {
        assert Disjoint(init) by {
          forall p, q, x | 0 <= p < n && 0 <= q < n && x in init[p] && x in init[q]
            ensures p == q
          {
            assert x in parts[p] && x in parts[q];
          }
        }
        forall x | x in Flat(init)
          ensures x !in last
        {
          var p :| 0 <= p < |init| && x in init[p];
          assert x in parts[p];
        }
      }
    }
  }

  lemma DistinctConcat(a: seq<nat>, b: seq<nat>)
    ensures Distinct(a + b) <==> Distinct(a) && Distinct(b) && forall x :: x in a ==> x !in b
  {
    var c := a + b;
    if Distinct(c) {
      forall i, j | 0 <= i < j < |b|
        ensures b[i] != b[j]
      {
        assert c[|a| + i] != c[|a| + j];
      }
      forall i, j | 0 <= i < |a| && 0 <= j < |b|
        ensures a[i] != b[j]
      {
        assert c[i] != c[|a| + j];
      }
      assert forall i, j :: 0 <= i < j < |a| ==> c[i] == a[i] && c[j] == a[j];
    }
    if Distinct(a) && Distinct(b) && forall x :: x in a ==> x !in b {
      forall i, j | 0 <= i < j < |c|
        ensures c[i] != c[j]
      {
        assert i < |a| ==> c[i] in a;
        assert j >= |a| ==> c[j] in b;
      }
    }
  }

  // Valid by counting: in bounds, no repetition, and n indices in all leave nothing out.
  lemma PartitionByCounting(parts: seq<seq<nat>>, n: nat)
    ensures IsPartition(parts, n) <==> IsPermutation(Flat(parts), n)
  {
    FlatMembers(parts);
    FlatDistinct(parts);
    PermutationLists(Flat(parts), n);
    var flat := Flat(parts);
    if InRange(flat, n) {
      forall p, i | 0 <= p < |parts| && 0 <= i < |parts[p]|
        ensures parts[p][i] < n
      {
        assert parts[p][i] in parts[p] && Covered(parts, parts[p][i]);
        assert parts[p][i] in flat;
      }
    }
    if PartsInRange(parts, n) {
      forall i | 0 <= i < |flat|
        ensures flat[i] < n
      {
        assert flat[i] in flat;
        var p :| 0 <= p < |parts| && flat[i] in parts[p];
      }
    }
  }

  lemma {:induction false} FlatPrefix(parts: seq<seq<nat>>, p: nat)
    requires p <= |parts|
    ensures Flat(parts[..p]) <= Flat(parts)
    ensures p < |parts| ==> Flat(parts[..p]) + parts[p] <= Flat(parts)
    decreases |parts| - p
  {
    if p < |parts| {
      assert parts[..p + 1][..p] == parts[..p];
      FlatPrefix(parts, p + 1);
    } else {
      assert parts[..p] == parts;
    }
  }

  // Every index seen so far, and no other, has its owner in the table.
  ghost predicate TableOk(parts: seq<seq<nat>>, table: seq<Option<nat>>, flat: seq<nat>) {
    && InRange(flat, |table|) && Distinct(flat)
    && forall i :: 0 <= i < |table| ==> if i in flat then OwnedBy(parts, table[i], i) else table[i] == None
  }

  predicate OwnedBy(parts: seq<seq<nat>>, owner: Option<nat>, i: nat) {
    owner.Some? && owner.value < |parts| && i in parts[owner.value]
  }

  lemma TableNext(parts: seq<seq<nat>>, table: seq<Option<nat>>, flat: seq<nat>, p: nat, idx: nat)
    requires TableOk(parts, table, flat) && p < |parts| && idx in parts[p]
    requires idx < |table| && table[idx] == None
    ensures TableOk(parts, table[idx := Some(p)], flat + [idx])
  {
    DistinctConcat(flat, [idx]);
  }

  // A repeated or out-of-range index spoils every list that goes on from it.
  lemma TableReject(parts: seq<seq<nat>>, table: seq<Option<nat>>, flat: seq<nat>, idx: nat, all: seq<nat>)
    requires TableOk(parts, table, flat) && flat + [idx] <= all
    requires idx >= |table| || table[idx].Some?
    ensures !IsPermutation(all, |table|)
  {
    assert all[|flat|] == idx;
    if idx < |table| {
      var i :| 0 <= i < |flat| && flat[i] == idx;
      assert all[i] == idx;
    }
  }

  // `scan_partition_covering`: a failed assertion is `ok == false`.
  method ScanPartitionCovering(parts: seq<seq<nat>>, n: nat) returns (ok: bool, idxToPart: seq<Option<nat>>)
    ensures ok <==> IsPartition(parts, n)
    ensures ok ==> |idxToPart| == n && forall i :: 0 <= i < n ==> OwnedBy(parts, idxToPart[i], i)
  {
    PartitionByCounting(parts, n);
    hide IsPartition, TableOk, IsPermutation;
    var table := new Option<nat>[n](_ => None);
    var count := 0;
    ghost var flat: seq<nat> := [];
    assert TableOk(parts, table[..], flat) by { TableStart(parts, table[..]); }
    for p := 0 to |parts|
      invariant flat == Flat(parts[..p]) && count == |flat| && TableOk(parts, table[..], flat)
    {
      FlatPrefix(parts, p);
      assert parts[..p + 1][..p] == parts[..p];
      ghost var before := flat;
      for j := 0 to |parts[p]|
        invariant flat == before + parts[p][..j] && count == |flat| && TableOk(parts, table[..], flat)
      {
        var idx := parts[p][j];
        assert flat + [idx] == before + parts[p][..j + 1];
        assert flat + [idx] <= Flat(parts);
        if idx >= n || table[idx].Some? {
          TableReject(parts, table[..], flat, idx, Flat(parts));
          return false, [];
        }
        TableNext(parts, table[..], flat, p, idx);
        table[idx] := Some(p);
        count := count + 1;
        flat := flat + [idx];
      }
      assert parts[p][..|parts[p]|] == parts[p];
    }
    assert parts[..|parts|] == parts;
    ok := count == n;
    idxToPart := table[..];
    TableEnd(parts, idxToPart, flat);
  }

  lemma TableStart(parts: seq<seq<nat>>, table: seq<Option<nat>>)
    requires forall i :: 0 <= i < |table| ==> table[i] == None
    ensures TableOk(parts, table, [])
  {
  }

  lemma TableEnd(parts: seq<seq<nat>>, table: seq<Option<nat>>, flat: seq<nat>)
    requires TableOk(parts, table, flat)
    ensures |flat| == |table| <==> IsPermutation(flat, |table|)
    ensures |flat| == |table| ==> forall i :: 0 <= i < |table| ==> OwnedBy(parts, table[i], i)
  {
    PermutationLists(flat, |table|);
  }
}
