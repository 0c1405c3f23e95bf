/** Bitwise operations on natural numbers, and what they are on the parts that masks and shifts take out. */
module Bits {
  import opened Powers

  function And(x: nat, y: nat): nat {
    if x == 0 || y == 0 then 0 else 2 * And(x / 2, y / 2) + Both(x, y)
  }

  function Or(x: nat, y: nat): nat {
    if x == 0 && y == 0 then 0 else 2 * Or(x / 2, y / 2) + (if x % 2 == 1 || y % 2 == 1 then 1 else 0)
  }

  lemma {:induction false} AndSelf(x: nat)
    ensures And(x, x) == x
  {
    if x > 0 {
      AndSelf(x / 2);
    }
  }

  lemma {:induction false} OrZero(x: nat)
    ensures Or(x, 0) == x && Or(0, x) == x
  {
    if x > 0 {
      OrZero(x / 2);
    }
  }

  lemma {:induction false} AndBounded(x: nat, y: nat)
    ensures And(x, y) <= x && And(x, y) <= y
  {
    if x > 0 && y > 0 {
      AndBounded(x / 2, y / 2);
    }
  }

  // A product whose multiplication the solver need not look into.
  function Times(x: nat, p: nat): nat { x * p }

  lemma Twice(x: nat, p: nat)
    ensures Times(x, 2 * p) == 2 * Times(x, p)
  {
  }

  lemma TimesOne(x: nat)
    ensures Times(x, 1) == x
  {
  }

  function Both(x: nat, y: nat): nat { if x % 2 == 1 && y % 2 == 1 then 1 else 0 }

  lemma AndDouble(a: nat, u: nat, c: nat, v: nat)
    ensures And(a + 2 * u, c + 2 * v) == 2 * And(a / 2 + u, c / 2 + v) + Both(a, c)
  {
    AndStep(a + 2 * u, c + 2 * v);
    hide And;
    assert (a + 2 * u) / 2 == a / 2 + u && (c + 2 * v) / 2 == c / 2 + v;
  }

  lemma {:induction false} AndParts(a: nat, b: nat, c: nat, d: nat, k: nat)
    requires a < Pow(2, k) && c < Pow(2, k)
    ensures And(a + Times(b, Pow(2, k)), c + Times(d, Pow(2, k))) == And(a, c) + Times(And(b, d), Pow(2, k))
  {
    if k == 0 {
      hide Times;
      TimesOne(b);
      TimesOne(d);
      TimesOne(And(b, d));
    } else {
      hide *;
      var p := Pow(2, k - 1);
      PowNext(2, k);
      Twice(b, p);
      Twice(d, p);
      Twice(And(b, d), p);
      AndParts(a / 2, b, c / 2, d, k - 1);
      AndDouble(a, Times(b, p), c, Times(d, p));
      AndStep(a, c);
    }
  }

  lemma AndStep(x: nat, y: nat)
    ensures And(x, y) == 2 * And(x / 2, y / 2) + Both(x, y)
  {
    if x > 0 && y > 0 {
    } else {
      assert And(x / 2, y / 2) == 0;
    }
  }

  lemma OrDouble(a: nat, u: nat)
    ensures Or(a, 2 * u) == 2 * Or(a / 2, u) + a % 2
  {
    if a == 0 && u == 0 {
    } else {
      assert (2 * u) / 2 == u;
    }
  }

  lemma {:induction false} OrParts(a: nat, b: nat, k: nat)
    requires a < Pow(2, k)
    ensures Or(a, Times(b, Pow(2, k))) == a + Times(b, Pow(2, k))
  {
    if k == 0 {
      assert Pow(2, 0) == 1;
      TimesOne(b);
      OrZero(b);
    } else {
      var p := Pow(2, k - 1);
      assert Pow(2, k) == 2 * p;
      hide Or, Pow, Times;
      Twice(b, p);
      OrParts(a / 2, b, k - 1);
      OrDouble(a, Times(b, p));
    }
  }

  // Masking the low k bits.
  lemma AndLow(x: nat, k: nat)
    ensures Pow(2, k) > 0 && And(x, Pow(2, k) - 1) == x % Pow(2, k)
  {
    PowPositive(2, k);
    var p := Pow(2, k);
    AndShort(x, p - 1, k);
    AllOnes(x % p, k);
  }

  lemma {:induction false} AllOnes(x: nat, k: nat)
    requires x < Pow(2, k)
    ensures And(x, Pow(2, k) - 1) == x
  {
    if k > 0 && x > 0 {
      PowPositive(2, k - 1);
      AllOnes(x / 2, k - 1);
      assert (Pow(2, k) - 1) / 2 == Pow(2, k - 1) - 1;
    }
  }

  // A mask below 2^k only sees the low k bits.
  lemma AndShort(x: nat, mask: nat, k: nat)
    requires mask < Pow(2, k)
    ensures And(x, mask) == And(x % Pow(2, k), mask)
  {
    var p := Pow(2, k);
    PowPositive(2, k);
    assert And(x / p, 0) == 0;
    hide And, Pow, Times;
    Divide(x, p);
    NoTimes(p);
    AndParts(x % p, x / p, mask, 0, k);
  }

  lemma NoTimes(p: nat)
    ensures Times(0, p) == 0
  {
  }

  lemma Divide(x: nat, p: nat)
    requires p > 0
    ensures x == x % p + Times(x / p, p)
  {
  }
}
