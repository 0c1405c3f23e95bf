/** Quotients and remainders by numbers that the solver does not know. */
module Division {
  import opened Powers

  // The bits of x * q + a below m, when q leaves room for a.
  lemma LowPart(a: nat, x: nat, p: nat, q: nat, m: nat)
    requires a < q && p > 0 && p * q == m
    ensures m > 0 && (a + x * q) % m == a + x % p * q
  {
    SplitProduct(x, p, q);
    RemainderUnique(a + x * q, x / p, a + x % p * q, m);
  }

  lemma SplitProduct(x: nat, p: nat, q: nat)
    requires p > 0
    ensures x * q == x % p * q + x / p * (p * q) && x % p * q <= p * q - q
  {
    var u, v := x % p, x / p;
    assert x == u + v * p;
    Distribute(u, v, p, q);
    MulMonotonic(u, p - 1, q, q);
    assert (p - 1) * q == p * q - q;
  }

  lemma Distribute(u: nat, v: nat, p: nat, q: nat)
    ensures (u + v * p) * q == u * q + v * (p * q)
  {
  }

  lemma RemainderUnique(x: nat, k: nat, r: nat, m: nat)
    requires r < m && x == r + k * m
    ensures x % m == r
  {
    Quotient(x, m);
    Difference(x / m, k, m);
    hide *;
    SmallMultiple(x / m - k, m);
  }

  lemma Quotient(x: nat, m: nat)
    requires m > 0
    ensures x == x % m + x / m * m
  {
  }

  lemma Difference(a: nat, b: nat, m: nat)
    ensures (a - b) * m == a * m - b * m
  {
  }

  lemma SmallMultiple(d: int, m: nat)
    requires 0 - m < d * m < m
    ensures d == 0
  {
    assert d >= 1 ==> d * m >= m;
    assert d <= -1 ==> d * m <= 0 - m;
  }

  lemma LowBits(x: nat, p: nat, q: nat, m: nat)
    requires p > 0 && m > 0 && q * p == m
    ensures x % m % p == x % p
  {
    Quotient(x, m);
    Quotient(x % m, p);
    Regroup(x / m, q, p, x % m / p);
    RemainderUnique(x, x / m * q + x % m / p, x % m % p, p);
  }

  lemma Regroup(a: nat, q: nat, p: nat, c: nat)
    ensures (a * q + c) * p == a * (q * p) + c * p
  {
  }

  lemma AddMultiple(x: nat, k: nat, m: nat)
    requires m > 0
    ensures (x + k * m) % m == x % m
  {
    Quotient(x, m);
    Collect(x / m, k, m);
    RemainderUnique(x + k * m, x / m + k, x % m, m);
  }

  lemma Collect(a: nat, b: nat, m: nat)
    ensures (a + b) * m == a * m + b * m
  {
  }

  lemma QuotientUnique(x: nat, k: nat, r: nat, m: nat)
    requires r < m && x == r + k * m
    ensures x / m == k
  {
    Quotient(x, m);
    Difference(x / m, k, m);
    hide *;
    SmallMultiple(x / m - k, m);
  }
}
