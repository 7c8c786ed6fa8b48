/** The pruning cache of the search: buckets of (linearized set, state) pairs filed by hash. */
module Caching {
  import opened Bits
  import opened Bitsets

  // A linearized set, as the frozen words of its bitset, and the model state it was reached in.
  datatype CacheEntry<+S> = CacheEntry(linearized: seq<Word>, state: S)

  type Cache<S> = map<Word, seq<CacheEntry<S>>>

  function Bucket<S>(cache: Cache<S>, key: Word): seq<CacheEntry<S>> {
    if key in cache then cache[key] else []
  }

  function Insert<S>(cache: Cache<S>, key: Word, e: CacheEntry<S>): Cache<S> {
    cache[key := Bucket(cache, key) + [e]]
  }

  // The places of the entries: bucket and index.
  ghost function Slots<S>(cache: Cache<S>): set<(Word, nat)> {
    set key, k: nat | key in cache && k < |cache[key]| :: (key, k)
  }

  // How many entries all buckets hold together.
  ghost function CacheSize<S>(cache: Cache<S>): nat {
    |Slots(cache)|
  }

  lemma InsertAddsOne<S>(cache: Cache<S>, key: Word, e: CacheEntry<S>)
    ensures CacheSize(Insert(cache, key, e)) == CacheSize(cache) + 1
  {
    var at := (key, |Bucket(cache, key)|);
    assert at !in Slots(cache);
    assert Slots(Insert(cache, key, e)) == Slots(cache) + {at};
  }

  // Was this (set, state) pair inserted?
  ghost predicate Cached<S>(cache: Cache<S>, done: set<nat>, s: S) {
    exists key, k: nat :: Holds(cache, key, k, done, s)
  }

  ghost predicate Holds<S>(cache: Cache<S>, key: Word, k: nat, done: set<nat>, s: S) {
    && key in cache && k < |cache[key]|
    && Elements(cache[key][k].linearized) == done && cache[key][k].state == s
  }

  // Every entry has `width` words and is filed under the key of its set.
  ghost predicate Filed<S>(cache: Cache<S>, width: nat) {
    forall key, k: nat :: key in cache && k < |cache[key]| ==> FiledAt(cache, width, key, k)
  }

  ghost predicate FiledAt<S>(cache: Cache<S>, width: nat, key: Word, k: nat)
    requires key in cache && k < |cache[key]|
  {
    var words := cache[key][k].linearized;
    |words| == width && Elements(words) != {} && SlotKey(words) == key
  }

  // Equal sets land in one bucket, so looking there is enough.
  lemma CachedInBucket<S>(cache: Cache<S>, words: seq<Word>, s: S)
    requires Filed(cache, |words|) && Elements(words) != {}
    ensures Cached(cache, Elements(words), s)
       <==> exists k: nat ::
              k < |Bucket(cache, SlotKey(words))| && Bucket(cache, SlotKey(words))[k] == CacheEntry(words, s)
  {
    var bucket := Bucket(cache, SlotKey(words));
    if Cached(cache, Elements(words), s) {
      var key, k: nat :| Holds(cache, key, k, Elements(words), s);
      assert FiledAt(cache, |words|, key, k);
      ElementsInjective(cache[key][k].linearized, words);
      assert bucket[k] == CacheEntry(words, s);
    }
    if k: nat :| k < |bucket| && bucket[k] == CacheEntry(words, s) {
      assert Holds(cache, SlotKey(words), k, Elements(words), s);
    }
  }

  lemma InsertLemma<S>(cache: Cache<S>, width: nat, words: seq<Word>, s: S)
    requires Filed(cache, width) && |words| == width && Elements(words) != {}
    ensures Filed(Insert(cache, SlotKey(words), CacheEntry(words, s)), width)
    ensures forall done, t :: Cached(Insert(cache, SlotKey(words), CacheEntry(words, s)), done, t)
                         <==> Cached(cache, done, t) || (done == Elements(words) && t == s)
  {
    var at := SlotKey(words);
    var after := Insert(cache, at, CacheEntry(words, s));
    forall key, k: nat | key in after && k < |after[key]|
      ensures FiledAt(after, width, key, k)
    {
      if key == at && k == |Bucket(cache, at)| {
      } else {
        assert FiledAt(cache, width, key, k);
      }
    }
    forall done, t
      ensures Cached(after, done, t) <==> Cached(cache, done, t) || (done == Elements(words) && t == s)
    {
      if Cached(after, done, t) {
        var key, k: nat :| Holds(after, key, k, done, t);
        if key == at && k == |Bucket(cache, at)| {
        } else {
          assert Holds(cache, key, k, done, t);
        }
      }
      if Cached(cache, done, t) {
        var key, k: nat :| Holds(cache, key, k, done, t);
        assert Holds(after, key, k, done, t);
      }
      if done == Elements(words) && t == s {
        assert Holds(after, at, |Bucket(cache, at)|, done, t);
      }
    }
  }

  // Was the pair inserted whose set is `bitset` with one more element? Neither set nor cache changes.
  method CacheContainsWithBit<S(==)>(cache: Cache<S>, hash: Word, bitset: Bitset, bitPos: nat, state: S)
    returns (found: bool)
    requires Filed(cache, bitset.data.Length)
    requires bitPos < 64 * bitset.data.Length
    requires Elements(WithBit(bitset.data[..], bitPos)) == bitset.Contents() + {bitPos}
    requires hash == SlotKey(WithBit(bitset.data[..], bitPos))
    ensures found <==> Cached(cache, bitset.Contents() + {bitPos}, state)
  {
    ghost var words := WithBit(bitset.data[..], bitPos);
    CachedInBucket(cache, words, state);
    var entries := Bucket(cache, hash);
    for i := 0 to |entries|
      invariant forall k :: 0 <= k < i ==> entries[k] != CacheEntry(words, state)
    {
      var e := entries[i];
      var eq := bitset.EqWithBit(bitPos, e.linearized);
      if eq && e.state == state {
        ElementsInjective(e.linearized, words);
        return true;
      }
      assert eq ==> e.state != state;
      if e.linearized == words { assert eq; }
    }
    return false;
  }
}
