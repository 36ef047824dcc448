/** Quotients and remainders. */
module Arithmetic {

  lemma MulAtLeast(k: int, n: int)
    requires k >= 1 && n > 0
    ensures k * n >= n
  {
  }

  /** A quotient and remainder are what a decomposition says. */
  lemma QuotientIs(x: int, n: int, q: int, r: int)
    requires n > 0 && x == q * n + r && 0 <= r < n
    ensures x / n == q && x % n == r
  {
    var q', r' := x / n, x % n;
    assert x == q' * n + r';
    assert (q - q') * n == r' - r && (q' - q) * n == r - r';
    if q > q' { MulAtLeast(q - q', n); }
    if q < q' { MulAtLeast(q' - q, n); }
  }

  lemma ModShift(a: int, n: int, k: int)
    requires n > 0
    ensures (a + k * n) % n == a % n
  {
    assert a + k * n == (a / n + k) * n + a % n;
    QuotientIs(a + k * n, n, a / n + k, a % n);
  }

  lemma DivTwice(n: nat, p: nat, q: nat)
    requires p > 0 && q > 0
    ensures p * q > 0 && n / (p * q) == (n / p) / q
  {
    var a, r := n / p, n % p;
    var b, s := a / q, a % q;
    MulAtLeast(p, q);
    assert n == p * (q * b + s) + r;
    assert p * (q * b + s) == b * (p * q) + p * s;
    Fits(p, q, r, s);
    QuotientIs(n, p * q, b, p * s + r);
  }

  lemma Fits(p: nat, q: nat, r: nat, s: nat)
    requires r < p && s < q
    ensures 0 <= p * s + r < p * q
  {
    assert p * (s + 1) <= p * q by { MulMore(p, s + 1, q); }
    assert p * (s + 1) == p * s + p;
  }

  lemma MulMore(p: nat, a: nat, b: nat)
    requires a <= b
    ensures p * a <= p * b
  {
  }
}
