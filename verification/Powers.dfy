/** Powers of natural numbers, and the few facts about them that the codecs and the scalar recoding share. */
module Powers {

  function Pow(b: nat, e: nat): nat {
    if e == 0 then 1 else b * Pow(b, e - 1)
  }

  lemma {:induction false} PowPositive(b: nat, e: nat)
    requires b > 0
    ensures Pow(b, e) > 0
  {
    if e > 0 {
      PowPositive(b, e - 1);
    }
  }

  lemma PowNext(b: nat, e: nat)
    requires e > 0
    ensures Pow(b, e) == b * Pow(b, e - 1)
  {
  }

  lemma Product3(x: nat, y: nat, z: nat)
    ensures x * (y * z) == (x * y) * z
  {
  }

  lemma {:induction false} PowAdd(b: nat, m: nat, n: nat)
    ensures Pow(b, m + n) == Pow(b, m) * Pow(b, n)
  {
    if m > 0 {
      hide *;
      PowAdd(b, m - 1, n);
      PowNext(b, m);
      PowNext(b, m + n);
      Product3(b, Pow(b, m - 1), Pow(b, n));
    }
  }

  lemma {:induction false} PowMul(b: nat, m: nat, n: nat)
    ensures Pow(b, m * n) == Pow(Pow(b, m), n)
  {
    if n > 0 {
      PowMul(b, m, n - 1);
      assert m * n == m + m * (n - 1);
      PowAdd(b, m, m * (n - 1));
    } else {
      assert m * n == 0;
    }
  }

  lemma MulMonotonic(x: nat, x': nat, y: nat, y': nat)
    requires x <= x' && y <= y'
    ensures x * y <= x' * y'
  {
    assert x' * y' - x * y == (x' - x) * y' + x * (y' - y);
    assert (x' - x) * y' >= 0;
    assert x * (y' - y) >= 0;
  }

  lemma MulStrict(x: nat, x': nat, y: nat)
    requires x < x' && 0 < y
    ensures x * y < x' * y
  {
    assert x' * y == x * y + (x' - x) * y;
    MulMonotonic(1, x' - x, 1, y);
  }

  lemma PowMonotonic(b: nat, m: nat, n: nat)
    requires b > 0 && m <= n
    ensures Pow(b, m) <= Pow(b, n)
  {
    PowAdd(b, m, n - m);
    PowPositive(b, n - m);
    MulMonotonic(Pow(b, m), Pow(b, m), 1, Pow(b, n - m));
  }

  lemma PowBaseStrict(a: nat, b: nat, e: nat)
    requires a < b && e > 0
    ensures Pow(a, e) < Pow(b, e)
  {
    PowBase(a, b, e - 1);
    PowPositive(b, e - 1);
    MulMonotonic(a, a, Pow(a, e - 1), Pow(b, e - 1));
    MulStrict(a, b, Pow(b, e - 1));
  }

  lemma {:induction false} PowBase(a: nat, b: nat, e: nat)
    requires a <= b
    ensures Pow(a, e) <= Pow(b, e)
  {
    if e > 0 {
      PowBase(a, b, e - 1);
      MulMonotonic(a, b, Pow(a, e - 1), Pow(b, e - 1));
    }
  }

  // Comparing two numbers by comparing the same positive power of both.
  lemma PowRoot(a: nat, b: nat, e: nat)
    requires e > 0 && Pow(a, e) <= Pow(b, e)
    ensures a <= b
  {
    if b < a {
      PowBaseStrict(b, a, e);
    }
  }
}
