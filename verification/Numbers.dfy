/** Powers, and products and quotients that the solver does not settle alone. */
module Numbers {

  function Power(base: nat, e: nat): (p: nat)
    requires base > 0
    ensures p > 0
  {
    if e == 0 then 1 else base * Power(base, e - 1)
  }

  // The k-th binary digit.
  function BinaryDigit(n: nat, k: nat): (d: nat)
    ensures d <= 1
  {
    n / Power(2, k) % 2
  }

  lemma Scale(a: nat, b: nat, c: nat)
    requires a <= b
    ensures a * c <= b * c
  {
  }

  // A quotient and remainder are the only ones.
  lemma DivideUnique(n: nat, d: nat, k: nat, r: nat)
    requires n == k * d + r && r < d
    ensures n / d == k && n % d == r
  {
    var k' := n / d;
    assert n == k' * d + n % d;
    if k' > k { Scale(k + 1, k', d); }
    if k > k' { Scale(k' + 1, k, d); }
  }

  // Dividing by 2q is halving and then dividing by q.
  lemma DivideHalf(n: nat, q: nat)
    requires q > 0
    ensures n / (2 * q) == n / 2 / q
    ensures n % (2 * q) == n % 2 + 2 * (n / 2 % q)
  {
    var k, r := n / 2 / q, n / 2 % q;
    assert n / 2 == k * q + r;
    assert n == k * (2 * q) + (n % 2 + 2 * r);
    DivideUnique(n, 2 * q, k, n % 2 + 2 * r);
  }
}
