/** The bitset of linearized operations: set, clear, hash, and the two "virtual bit" probes that
    answer for the set with one more element without touching it. */
module Bitsets {
  import opened Numbers
  import opened Bits

  // The number of elements, combined with every word.
  function HashOf(words: seq<Word>): Word {
    Xor(ToWord(Popcnt(words)), XorAll(words))
  }

  // The hash the source derives for `words` with bit `p` added.
  function VirtualHash(words: seq<Word>, p: nat): Word
    requires p < 64 * |words|
  {
    Xor(Xor(Xor(HashOf(words), words[p / 64]), WithBit(words, p)[p / 64]), ToWord(1))
  }

  // The key under which a nonempty set is filed: a function of the set alone.
  function SlotKey(words: seq<Word>): Word
    requires Elements(words) != {}
  {
    Xor(Xor(ToWord(|Elements(words)| - 1), XorAll(words)), ToWord(1))
  }

  // Bit k of the hash, read off the set: the k-th binary digit of its size and the parity of its
  // members at place k of their words.
  lemma HashMeans(words: seq<Word>, k: nat)
    requires k < 64
    ensures var s := Elements(words);
            HashOf(words)[k] <==> (BinaryDigit(|s|, k) + |Column(s, k)|) % 2 == 1
  {
    hide BinaryDigit, Elements, Column;
    PopcntIsSize(words);
    WordDigit(Popcnt(words), k);
    XorAllIsParity(words, k);
  }

  // The key is the same with the size less one, and the lowest bit flipped.
  lemma SlotKeyMeans(words: seq<Word>, k: nat)
    requires k < 64 && Elements(words) != {}
    ensures var s, flip := Elements(words), if k == 0 then 1 else 0;
            SlotKey(words)[k] <==> (BinaryDigit(|s| - 1, k) + |Column(s, k)| + flip) % 2 == 1
  {
    hide BinaryDigit, Elements, Column;
    var count, all, one := ToWord(|Elements(words)| - 1), XorAll(words), ToWord(1);
    XorThree(count, all, one, k);
    WordDigit(|Elements(words)| - 1, k);
    XorAllIsParity(words, k);
    OneDigit();
  }

  lemma XorThree(a: Word, b: Word, c: Word, k: nat)
    requires k < 64
    ensures Xor(Xor(a, b), c)[k] <==> ((a[k] != b[k]) != c[k])
  {
  }

  // Whichever element was the virtual one, the probe computes the key of the resulting set.
  lemma VirtualHashIsSlotKey(words: seq<Word>, p: nat)
    requires p < 64 * |words| && p !in Elements(words)
    ensures Elements(WithBit(words, p)) == Elements(words) + {p}
    ensures VirtualHash(words, p) == SlotKey(WithBit(words, p))
  {
    hide Xor, ToWord;
    ElementsWithBit(words, p);
    PopcntIsSize(words);
    XorAllUpdate(words, p / 64, WithBit(words, p)[p / 64]);
    var c, x, w, v := ToWord(Popcnt(words)), XorAll(words), words[p / 64], WithBit(words, p)[p / 64];
    XorAssociates(c, x, w);
    XorAssociates(c, Xor(x, w), v);
  }

  // Two routes to one set compute one key.
  lemma VirtualHashCoherent(a: seq<Word>, p: nat, b: seq<Word>, q: nat)
    requires |a| == |b| && p < 64 * |a| && q < 64 * |b|
    requires p !in Elements(a) && q !in Elements(b)
    requires Elements(a) + {p} == Elements(b) + {q}
    ensures VirtualHash(a, p) == VirtualHash(b, q)
  {
    VirtualHashIsSlotKey(a, p);
    VirtualHashIsSlotKey(b, q);
    ElementsInjective(WithBit(a, p), WithBit(b, q));
  }

  // The virtual hash is the hash of the resulting set exactly when that set has odd size.
  lemma VirtualHashIsHash(words: seq<Word>, p: nat)
    requires p < 64 * |words| && p !in Elements(words)
    ensures VirtualHash(words, p) == HashOf(WithBit(words, p)) <==> (|Elements(words)| + 1) % 2 == 1
  {
    hide Xor, ToWord, Or;
    VirtualHashIsSlotKey(words, p);
    PopcntIsSize(WithBit(words, p));
    var n, x := |Elements(words)|, XorAll(WithBit(words, p));
    XorAssociates(ToWord(n), x, ToWord(1));
    XorCommutes(x, ToWord(1));
    XorAssociates(ToWord(n), ToWord(1), x);
    XorInjective(Xor(ToWord(n), ToWord(1)), ToWord(n + 1), x);
    FlipIsIncrement(n);
  }

  // Putting 1 into {0} probes a key that is not the hash of {0, 1}.
  lemma VirtualHashCanDiffer() returns (words: seq<Word>)
    ensures |words| == 1 && Elements(words) == {0}
    ensures VirtualHash(words, 1) != HashOf(WithBit(words, 1))
  {
    var empty := [ZERO];
    words := WithBit(empty, 0);
    ElementsWithBit(empty, 0);
    assert Elements(empty) == {};
    assert Elements(words) == {0};
    VirtualHashIsHash(words, 1);
  }

  lemma XorInjective(a: Word, b: Word, x: Word)
    ensures Xor(a, x) == Xor(b, x) <==> a == b
  {
    XorAssociates(a, x, x);
    XorAssociates(b, x, x);
    XorCancels(x);
    XorCancels(a);
    XorCancels(b);
  }

  // Flipping the lowest bit adds one exactly to even numbers.
  lemma FlipIsIncrement(n: nat)
    ensures Xor(ToWord(n), ToWord(1)) == ToWord(n + 1) <==> n % 2 == 0
  {
    hide ToWord, Digits, Xor, Bit;
    OneDigit();
    FlipSplits(n);
    FirstDigit(n + 1);
    var low, carried := Digits(n / 2, 63), Digits((n + 1) / 2, 63);
    SameFrom(n % 2 == 0, low, (n + 1) % 2 == 1, carried);
    if n % 2 == 0 {
      assert (n + 1) / 2 == n / 2;
    } else {
      assert (n + 1) / 2 == n / 2 + 1;
      CarryDiffers(n / 2, 63);
    }
  }

  lemma SameFrom(a: bool, x: seq<bool>, b: bool, y: seq<bool>)
    ensures [a] + x == [b] + y <==> a == b && x == y
  {
    assert ([a] + x)[0] == a && ([b] + y)[0] == b;
    assert ([a] + x)[1..] == x && ([b] + y)[1..] == y;
  }

  lemma FirstDigit(n: nat)
    ensures ToWord(n) == [n % 2 == 1] + Digits(n / 2, 63)
  {
  }

  lemma FlipSplits(n: nat)
    requires ToWord(1) == Bit(0)
    ensures Xor(ToWord(n), ToWord(1)) == [n % 2 == 0] + Digits(n / 2, 63)
  {
    FirstDigit(n);
  }

  // The digits of n and n + 1 differ as soon as there is one digit to see.
  lemma CarryDiffers(n: nat, width: nat)
    requires width > 0
    ensures Digits(n, width) != Digits(n + 1, width)
  {
    assert Digits(n, width)[0] != Digits(n + 1, width)[0];
  }

  lemma OneDigit()
    ensures ToWord(1) == Bit(0)
  {
    FirstDigit(1);
  }

  class Bitset {
    const data: array<Word>

    ghost function Contents(): set<nat>
      reads data
    {
      Elements(data[..])
    }

    constructor (n: nat)
      ensures fresh(data) && data.Length == (n + 63) / 64
      ensures n <= 64 * data.Length && Contents() == {}
    {
      data := new Word[(n + 63) / 64](_ => ZERO);
    }

    method Set(pos: nat)
      requires pos < 64 * data.Length
      modifies data
      ensures data[..] == WithBit(old(data[..]), pos)
      ensures Contents() == old(Contents()) + {pos}
    {
      ElementsWithBit(data[..], pos);
      data[pos / 64] := Or(data[pos / 64], Bit(pos % 64));
    }

    method Clear(pos: nat)
      requires pos < 64 * data.Length
      modifies data
      ensures data[..] == WithoutBit(old(data[..]), pos)
      ensures Contents() == old(Contents()) - {pos}
    {
      ElementsWithoutBit(data[..], pos);
      data[pos / 64] := AndNot(data[pos / 64], Bit(pos % 64));
    }

    method CountOnes() returns (count: nat)
      ensures count == |Contents()|
    {
      count := 0;
      for i := 0 to data.Length
        invariant count == Popcnt(data[..i])
      {
        assert data[..i + 1][..i] == data[..i];
        count := count + |Ones(data[i])|;
      }
      assert data[..data.Length] == data[..];
      PopcntIsSize(data[..]);
    }

    method Hash() returns (h: Word)
      ensures h == HashOf(data[..])
    {
      PopcntIsSize(data[..]);
      var count := CountOnes();
      h := ToWord(count);
      XorCancels(h);
      for i := 0 to data.Length
        invariant h == Xor(ToWord(count), XorAll(data[..i]))
      {
        assert data[..i + 1][..i] == data[..i];
        XorAssociates(ToWord(count), XorAll(data[..i]), data[i]);
        h := Xor(h, data[i]);
      }
      assert data[..data.Length] == data[..];
    }

    // The key of the set with `pos` added; the set itself is not touched.
    method HashWithBit(pos: nat) returns (h: Word)
      requires pos < 64 * data.Length && pos !in Contents()
      ensures Elements(WithBit(data[..], pos)) == Contents() + {pos}
      ensures h == SlotKey(WithBit(data[..], pos))
    {
      var oldWord := data[pos / 64];
      var newWord := Or(oldWord, Bit(pos % 64));
      h := Hash();
      h := Xor(Xor(Xor(h, oldWord), newWord), ToWord(1));
      VirtualHashIsSlotKey(data[..], pos);
    }

    // Does `other` hold this set with `pos` added?
    method EqWithBit(pos: nat, other: seq<Word>) returns (eq: bool)
      requires pos < 64 * data.Length
      ensures eq <==> other == WithBit(data[..], pos)
      ensures eq <==> |other| == data.Length && Elements(other) == Contents() + {pos}
    {
      ElementsWithBit(data[..], pos);
      if data.Length != |other| {
        return false;
      }
      ghost var virtual := WithBit(data[..], pos);
      for i := 0 to data.Length
        invariant virtual[..i] == other[..i]
      {
        var adjusted := if i == pos / 64 then Or(data[i], Bit(pos % 64)) else data[i];
        assert adjusted == virtual[i];
        if adjusted != other[i] {
          if Elements(other) == Elements(virtual) {
            ElementsInjective(other, virtual);
          }
          return false;
        }
        assert virtual[..i + 1] == virtual[..i] + [virtual[i]];
        assert other[..i + 1] == other[..i] + [other[i]];
      }
      assert virtual[..data.Length] == virtual && other[..data.Length] == other;
      return true;
    }

    method Clone() returns (copy: Bitset)
      ensures fresh(copy) && fresh(copy.data) && copy.data[..] == data[..]
    {
      copy := new Bitset(64 * data.Length);
      for i := 0 to data.Length
        invariant copy.data.Length == data.Length && copy.data[..i] == data[..i]
      {
        copy.data[i] := data[i];
      }
      assert copy.data[..data.Length] == copy.data[..] && data[..data.Length] == data[..];
    }
  }
}
