/** Why the search stops for any model: read the node positions on the stack, followed by the cursor
    position, as the leading digits of a number. Every step makes that number larger. */
module Termination {
  import opened Numbers

  function Horner(digits: seq<nat>, base: nat): nat {
    if digits == [] then 0 else Horner(digits[..|digits| - 1], base) * base + digits[|digits| - 1]
  }

  // The digits as the leading digits of a number of `width` digits.
  function Rank(digits: seq<nat>, base: nat, width: nat): nat
    requires base > 0 && |digits| <= width
  {
    Horner(digits, base) * Power(base, width - |digits|)
  }

  predicate IsDigits(digits: seq<nat>, base: nat) {
    forall i :: 0 <= i < |digits| ==> 0 < digits[i] < base
  }

  lemma {:induction false} HornerBound(digits: seq<nat>, base: nat)
    requires base > 0 && IsDigits(digits, base)
    ensures Horner(digits, base) < Power(base, |digits|)
  {
    if digits != [] {
      var init, d := digits[..|digits| - 1], digits[|digits| - 1];
      HornerBound(init, base);
      DigitFits(Horner(init, base), Power(base, |init|), base, d);
    }
  }

  lemma DigitFits(h: nat, p: nat, base: nat, d: nat)
    requires h < p && d < base
    ensures h * base + d < base * p
  {
    Scale(h + 1, p, base);
    assert (h + 1) * base == h * base + base;
  }

  lemma {:induction false} PowerSplit(base: nat, a: nat, b: nat)
    requires base > 0
    ensures Power(base, a) * Power(base, b) == Power(base, a + b)
  {
    if a > 0 {
      PowerSplit(base, a - 1, b);
      Associate(base, Power(base, a - 1), Power(base, b));
    }
  }

  lemma Associate(a: nat, b: nat, c: nat)
    ensures (a * b) * c == a * (b * c)
  {
  }

  lemma RankBound(digits: seq<nat>, base: nat, width: nat)
    requires base > 0 && |digits| <= width && IsDigits(digits, base)
    ensures Rank(digits, base, width) < Power(base, width)
  {
    HornerBound(digits, base);
    PowerSplit(base, |digits|, width - |digits|);
    var h, p, q := Horner(digits, base), Power(base, |digits|), Power(base, width - |digits|);
    BelowProduct(h, p, q);
  }

  lemma BelowProduct(h: nat, p: nat, q: nat)
    requires h < p && q > 0
    ensures h * q < p * q
  {
  }

  // The cursor moves on.
  lemma AdvanceIncreases(stack: seq<nat>, at: nat, next: nat, base: nat, width: nat)
    requires |stack| < width && 0 < at < next < base
    ensures Rank(stack + [at], base, width) < Rank(stack + [next], base, width)
  {
    assert (stack + [at])[..|stack|] == stack && (stack + [next])[..|stack|] == stack;
    var h, q := Horner(stack, base) * base, Power(base, width - |stack| - 1);
    Scale(h + at + 1, h + next, q);
    assert (h + at + 1) * q == (h + at) * q + q;
  }

  // The node under the cursor is pushed and the cursor restarts.
  lemma PushIncreases(stack: seq<nat>, at: nat, restart: nat, base: nat, width: nat)
    requires |stack| + 1 < width && 0 < at < base && 0 < restart < base
    ensures Rank(stack + [at], base, width) < Rank(stack + [at] + [restart], base, width)
  {
    var pushed := stack + [at];
    assert (pushed + [restart])[..|pushed|] == pushed;
    var h, q := Horner(pushed, base), Power(base, width - |pushed| - 1);
    assert Power(base, width - |pushed|) == base * q;
    Associate(h, base, q);
    Scale(h * base + 1, h * base + restart, q);
    assert (h * base + 1) * q == h * base * q + q;
  }

  // The top node is popped and the cursor resumes behind it.
  lemma PopIncreases(stack: seq<nat>, top: nat, at: nat, next: nat, base: nat, width: nat)
    requires |stack| + 1 < width && 0 < top < next < base && 0 < at < base
    ensures Rank(stack + [top] + [at], base, width) < Rank(stack + [next], base, width)
  {
    var pushed := stack + [top];
    assert (pushed + [at])[..|pushed|] == pushed && pushed[..|stack|] == stack;
    assert (stack + [next])[..|stack|] == stack;
    var h, g := Horner(pushed, base), Horner(stack + [next], base);
    var q := Power(base, width - |pushed| - 1);
    assert Power(base, width - |pushed|) == base * q;
    DigitFits(h, g, base, at);
    BelowProduct(h * base + at, base * g, q);
    Associate(g, base, q);
  }
}
