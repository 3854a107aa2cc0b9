/** Division of natural numbers, as bits are read with it. */
module Arithmetic {
  lemma TimesMono(p: nat, a: int, b: int)
    requires a <= b
    ensures p * a <= p * b
  {
  }

  lemma Cancel(p: nat, a: int, b: int)
    requires p * a < p * b
    ensures a < b
  {
    if b <= a {
      TimesMono(p, b, a);
    }
  }

  /** The quotient is known from any way to write the number with a small remainder. */
  lemma Quotient(n: nat, p: nat, q: nat, r: nat)
    requires n == p * q + r && r < p
    ensures n / p == q
  {
    var d := n / p;
    assert p * d <= n < p * d + p;
    assert p * (d + 1) == p * d + p && p * (q + 1) == p * q + p;
    Cancel(p, d, q + 1);
    Cancel(p, q, d + 1);
  }

  /** Dividing by two and then by p. */
  lemma Halved(n: nat, p: nat)
    requires p > 0
    ensures n / (2 * p) == n / 2 / p
  {
    var h, e := n / 2, n % 2;
    var q, r := h / p, h % p;
    assert n == 2 * h + e && h == p * q + r;
    assert 2 * p * q == 2 * (p * q);
    Quotient(n, 2 * p, q, 2 * r + e);
  }
}
