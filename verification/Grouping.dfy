/** Splitting the indices of a list by a label: how the partitioners build their parts. */
module Grouping {
  import opened Sequences
  import opened Specification
  import opened Compositionality

  // The indices below n whose label is k, ascending.
  function IndicesOf<K(==)>(labels: seq<K>, k: K, n: nat): seq<nat>
    requires n <= |labels|
  {
    if n == 0 then []
    else if labels[n - 1] == k then IndicesOf(labels, k, n - 1) + [n - 1]
    else IndicesOf(labels, k, n - 1)
  }

  predicate Ascending(indices: seq<nat>) {
    forall i, j :: 0 <= i < j < |indices| ==> indices[i] < indices[j]
  }

  lemma {:induction false} IndicesOfMeans<K>(labels: seq<K>, k: K, n: nat)
    requires n <= |labels|
    ensures Ascending(IndicesOf(labels, k, n))
    ensures forall i: nat :: i in IndicesOf(labels, k, n) <==> i < n && labels[i] == k
  {
    if n > 0 {
      IndicesOfMeans(labels, k, n - 1);
      var init := IndicesOf(labels, k, n - 1);
      assert forall i :: 0 <= i < |init| ==> init[i] in init;
    }
  }

  // One group for each label that occurs, in some order of the labels.
  ghost predicate Groups<K>(labels: seq<K>, keys: seq<K>, parts: seq<seq<nat>>) {
    && |parts| == |keys| && Distinct(keys)
    && (forall p :: 0 <= p < |keys| ==> parts[p] == IndicesOf(labels, keys[p], |labels|))
    && forall i :: 0 <= i < |labels| ==> labels[i] in keys
  }

  lemma GroupsPartition<K>(labels: seq<K>, keys: seq<K>, parts: seq<seq<nat>>)
    requires Groups(labels, keys, parts)
    ensures IsPartition(parts, |labels|)
    ensures forall p :: 0 <= p < |parts| ==> Ascending(parts[p])
    ensures forall p, i :: 0 <= p < |parts| && 0 <= i < |parts[p]| ==> labels[parts[p][i]] == keys[p]
    ensures forall p, i: nat :: 0 <= p < |parts| ==> (i in parts[p] <==> i < |labels| && labels[i] == keys[p])
  {
    forall p | 0 <= p < |parts|
      ensures Ascending(parts[p]) && InRange(parts[p], |labels|) && Distinct(parts[p])
      ensures forall i :: 0 <= i < |parts[p]| ==> labels[parts[p][i]] == keys[p]
    {
      IndicesOfMeans(labels, keys[p], |labels|);
      assert forall i :: 0 <= i < |parts[p]| ==> parts[p][i] in parts[p];
    }
    forall p, i: nat | 0 <= p < |parts|
      ensures i in parts[p] <==> i < |labels| && labels[i] == keys[p]
    {
      IndicesOfMeans(labels, keys[p], |labels|);
    }
    forall p, q, x | 0 <= p < |parts| && 0 <= q < |parts| && x in parts[p] && x in parts[q]
      ensures p == q
    {
      IndicesOfMeans(labels, keys[p], |labels|);
      IndicesOfMeans(labels, keys[q], |labels|);
      assert keys[p] == keys[q];
    }
    forall x: nat | x < |labels|
      ensures Covered(parts, x)
    {
      assert labels[x] in keys;
      var p :| 0 <= p < |keys| && keys[p] == labels[x];
      IndicesOfMeans(labels, keys[p], |labels|);
      assert x in parts[p];
    }
  }

  // Push every index onto its label's list, then take the lists in whatever order the map yields them.
  method GroupByLabel<K(==)>(labels: seq<K>) returns (parts: seq<seq<nat>>, ghost keys: seq<K>)
    ensures Groups(labels, keys, parts) && forall p :: 0 <= p < |parts| ==> parts[p] != []
  {
    var byLabel: map<K, seq<nat>> := map[];
    for i := 0 to |labels|
      invariant forall k :: k in byLabel <==> k in labels[..i]
      invariant forall k :: k in byLabel ==> byLabel[k] == IndicesOf(labels, k, i) != []
      invariant forall k :: k !in byLabel ==> IndicesOf(labels, k, i) == []
    {
      var group := if labels[i] in byLabel then byLabel[labels[i]] else [];
      assert labels[..i + 1] == labels[..i] + [labels[i]];
      byLabel := byLabel[labels[i] := group + [i]];
    }
    assert labels[..|labels|] == labels;
    parts, keys := [], [];
    var left := byLabel.Keys;
    while left != {}
      invariant |parts| == |keys| && Distinct(keys)
      invariant forall k :: k in byLabel <==> k in left || k in keys
      invariant forall p :: 0 <= p < |keys| ==> keys[p] !in left && keys[p] in byLabel && parts[p] == byLabel[keys[p]]
      decreases left
    {
      var k :| k in left;
      left := left - {k};
      parts, keys := parts + [byLabel[k]], keys + [k];
    }
    forall i | 0 <= i < |labels|
      ensures labels[i] in keys
    {
      assert labels[i] in labels;
    }
  }
}
