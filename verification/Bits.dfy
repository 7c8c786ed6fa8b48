/** 64-bit words, and vectors of words read as sets of bit positions. A word is its 64 bits,
    least significant first, so that every operation wraps at the machine width. */
module Bits {
  import opened Numbers

  type Word = w: seq<bool> | |w| == 64 witness Digits(0, 64)

  const ZERO: Word := Digits(0, 64)

  // `1u64 << minor`
  function Bit(minor: nat): Word
    requires minor < 64
  {
    seq(64, i requires 0 <= i < 64 => i == minor)
  }

  function Or(a: Word, b: Word): Word {
    seq(64, i requires 0 <= i < 64 => a[i] || b[i])
  }

  function AndNot(a: Word, b: Word): Word {
    seq(64, i requires 0 <= i < 64 => a[i] && !b[i])
  }

  function Xor(a: Word, b: Word): Word {
    seq(64, i requires 0 <= i < 64 => a[i] != b[i])
  }

  // `count_ones`
  function Ones(w: Word): set<nat> {
    set k: nat | k < 64 && w[k]
  }

  // The `usize as u64` cast: the low binary digits of `n`.
  function Digits(n: nat, width: nat): (w: seq<bool>)
    ensures |w| == width
    ensures n == 0 ==> forall i :: 0 <= i < width ==> !w[i]
  {
    if width == 0 then [] else [n % 2 == 1] + Digits(n / 2, width - 1)
  }

  function ToWord(n: nat): Word {
    Digits(n, 64)
  }

  // The number whose binary digits are w, least significant first.
  function Value(w: seq<bool>): nat {
    if w == [] then 0 else (if w[0] then 1 else 0) + 2 * Value(w[1..])
  }

  // The low digits of n are the digits of n modulo a power of two.
  lemma {:induction false} DigitsValue(n: nat, width: nat)
    ensures Value(Digits(n, width)) == n % Power(2, width)
    decreases width
  {
    if width > 0 {
      DigitsValue(n / 2, width - 1);
      assert Digits(n, width)[1..] == Digits(n / 2, width - 1);
      DivideHalf(n, Power(2, width - 1));
    }
  }

  // A count that fits a word is the word's value.
  lemma ToWordValue(n: nat)
    requires n < Power(2, 64)
    ensures Value(ToWord(n)) == n
  {
    DigitsValue(n, 64);
    DivideUnique(n, Power(2, 64), 0, n);
  }

  lemma {:induction false} DigitAt(n: nat, width: nat, k: nat)
    requires k < width
    ensures Digits(n, width)[k] <==> BinaryDigit(n, k) == 1
    decreases k
  {
    if k > 0 {
      DigitAt(n / 2, width - 1, k - 1);
      DivideHalf(n, Power(2, k - 1));
    }
  }

  lemma WordDigit(n: nat, k: nat)
    requires k < 64
    ensures ToWord(n)[k] <==> BinaryDigit(n, k) == 1
  {
    DigitAt(n, 64, k);
  }

  lemma XorCommutes(a: Word, b: Word)
    ensures Xor(a, b) == Xor(b, a)
  {
  }

  lemma XorAssociates(a: Word, b: Word, c: Word)
    ensures Xor(Xor(a, b), c) == Xor(a, Xor(b, c))
  {
  }

  lemma XorCancels(a: Word)
    ensures Xor(a, a) == ZERO && Xor(a, ZERO) == a
  {
  }

  // ----- vectors of words -----

  predicate Test(words: seq<Word>, p: nat)
    requires p < 64 * |words|
  {
    words[p / 64][p % 64]
  }

  function Elements(words: seq<Word>): set<nat> {
    set p: nat | p < 64 * |words| && Test(words, p)
  }

  function Popcnt(words: seq<Word>): nat {
    if words == [] then 0 else Popcnt(words[..|words| - 1]) + |Ones(words[|words| - 1])|
  }

  function XorAll(words: seq<Word>): Word {
    if words == [] then ZERO else Xor(XorAll(words[..|words| - 1]), words[|words| - 1])
  }

  function WithBit(words: seq<Word>, p: nat): seq<Word>
    requires p < 64 * |words|
  {
    words[p / 64 := Or(words[p / 64], Bit(p % 64))]
  }

  function WithoutBit(words: seq<Word>, p: nat): seq<Word>
    requires p < 64 * |words|
  {
    words[p / 64 := AndNot(words[p / 64], Bit(p % 64))]
  }

  lemma ElementsWithBit(words: seq<Word>, p: nat)
    requires p < 64 * |words|
    ensures Elements(WithBit(words, p)) == Elements(words) + {p}
  {
    forall q: nat | q < 64 * |words|
      ensures Test(WithBit(words, p), q) <==> q == p || Test(words, q)
    {
    }
  }

  lemma ElementsWithoutBit(words: seq<Word>, p: nat)
    requires p < 64 * |words|
    ensures Elements(WithoutBit(words, p)) == Elements(words) - {p}
  {
    forall q: nat | q < 64 * |words|
      ensures Test(WithoutBit(words, p), q) <==> q != p && Test(words, q)
    {
    }
  }

  // Two vectors of one length that hold the same set are the same vector.
  lemma ElementsInjective(a: seq<Word>, b: seq<Word>)
    requires |a| == |b| && Elements(a) == Elements(b)
    ensures a == b
  {
    forall i, k | 0 <= i < |a| && 0 <= k < 64
      ensures a[i][k] == b[i][k]
    {
      var p := 64 * i + k;
      assert p / 64 == i && p % 64 == k;
      assert p in Elements(a) <==> Test(a, p);
      assert p in Elements(b) <==> Test(b, p);
    }
    forall i | 0 <= i < |a|
      ensures a[i] == b[i]
    {
    }
  }

  function Shifted(s: set<nat>, base: nat): set<nat> {
    set k | k in s :: base + k
  }

  lemma {:induction false} ShiftedSize(s: set<nat>, base: nat)
    ensures |Shifted(s, base)| == |s|
  {
    if s == {} {
      assert Shifted(s, base) == {};
    } else {
      var x :| x in s;
      var rest := s - {x};
      ShiftedSize(rest, base);
      forall k
        ensures k in Shifted(s, base) <==> k in Shifted(rest, base) + {base + x}
      {
        if k in Shifted(s, base) {
          var j :| j in s && k == base + j;
          assert j == x || j in rest;
        }
      }
      assert Shifted(s, base) == Shifted(rest, base) + {base + x};
    }
  }

  // `popcnt` is the number of elements.
  lemma {:induction false} PopcntIsSize(words: seq<Word>)
    ensures Popcnt(words) == |Elements(words)|
  {
    if words == [] {
      assert Elements(words) == {};
    } else {
      var n := |words| - 1;
      PopcntIsSize(words[..n]);
      var high := Shifted(Ones(words[n]), 64 * n);
      ShiftedSize(Ones(words[n]), 64 * n);
      forall p: nat
        ensures p in Elements(words) <==> p in Elements(words[..n]) || p in high
      {
        if p < 64 * n {
          assert p / 64 < n;
          assert Test(words, p) == Test(words[..n], p);
        } else if p < 64 * |words| {
          assert p / 64 == n && p == 64 * n + p % 64;
          assert p in high <==> p % 64 in Ones(words[n]);
        }
      }
      assert Elements(words) == Elements(words[..n]) + high;
      assert Elements(words[..n]) !! high;
    }
  }

  // The members of a set that sit at place k of their word.
  ghost function Column(s: set<nat>, k: nat): set<nat> {
    set p | p in s && p % 64 == k
  }

  // Bit k of all words together is the parity of the members at place k.
  lemma {:induction false} XorAllIsParity(words: seq<Word>, k: nat)
    requires k < 64
    ensures XorAll(words)[k] <==> |Column(Elements(words), k)| % 2 == 1
  {
    if words == [] {
      assert Column(Elements(words), k) == {};
    } else {
      XorAllIsParity(words[..|words| - 1], k);
      ColumnGrows(words, k);
    }
  }

  lemma ColumnGrows(words: seq<Word>, k: nat)
    requires words != [] && k < 64
    ensures var n := |words| - 1;
            |Column(Elements(words), k)| == |Column(Elements(words[..n]), k)| + if words[n][k] then 1 else 0
  {
    var n := |words| - 1;
    var low, high := Column(Elements(words[..n]), k), if words[n][k] then {64 * n + k} else {};
    forall p: nat
      ensures p in Column(Elements(words), k) <==> p in low || p in high
    {
      if p < 64 * n {
        assert p / 64 < n && Test(words, p) == Test(words[..n], p);
      } else if p < 64 * |words| {
        assert p / 64 == n && p == 64 * n + p % 64;
      }
    }
    assert Column(Elements(words), k) == low + high;
    assert 64 * n + k !in low;
  }

  lemma {:induction false} XorAllUpdate(words: seq<Word>, i: nat, v: Word)
    requires i < |words|
    ensures XorAll(words[i := v]) == Xor(Xor(XorAll(words), words[i]), v)
  {
    var n := |words| - 1;
    if i == n {
      assert words[i := v][..n] == words[..n];
      XorAssociates(XorAll(words[..n]), words[n], words[n]);
      XorCancels(words[n]);
      XorCancels(XorAll(words[..n]));
    } else {
      XorAllUpdate(words[..n], i, v);
      assert words[i := v][..n] == words[..n][i := v];
      XorSwap(XorAll(words[..n]), words[i], v, words[n]);
    }
  }

  lemma XorSwap(x: Word, w: Word, v: Word, z: Word)
    ensures Xor(Xor(Xor(x, w), v), z) == Xor(Xor(Xor(x, z), w), v)
  {
  }
}
