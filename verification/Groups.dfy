/**
 The curve points as an abstract abelian group. The group operations of the library (Jacobian and affine
 formulas) are not modelled; the values of this datatype are the contracts they are called under.
 */
module Groups {

  // The order of secp256k1, section 2.4.1 of SEC 2.
  const ORDER: nat := 0xFFFFFFFF_FFFFFFFF_FFFFFFFF_FFFFFFFE_BAAEDCE6_AF48A03B_BFD25E8C_D0364141

  type Scalar = n: nat | n < 0xFFFFFFFF_FFFFFFFF_FFFFFFFF_FFFFFFFE_BAAEDCE6_AF48A03B_BFD25E8C_D0364141

  datatype Group<!P> = Group(zero: P, add: (P, P) -> P, neg: P -> P)

  // The laws are stated through predicates that name one instance each, so that a proof chooses its instances.
  ghost predicate ZeroAt<P>(g: Group<P>, x: P) { g.add(g.zero, x) == x }
  ghost predicate NegAt<P>(g: Group<P>, x: P) { g.add(x, g.neg(x)) == g.zero }
  ghost predicate CommAt<P>(g: Group<P>, x: P, y: P) { g.add(x, y) == g.add(y, x) }
  ghost predicate AssocAt<P>(g: Group<P>, x: P, y: P, z: P) { g.add(g.add(x, y), z) == g.add(x, g.add(y, z)) }

  ghost predicate IsAbelianGroup<P(!new)>(g: Group<P>) {
    && (forall x :: ZeroAt(g, x))
    && (forall x :: NegAt(g, x))
    && (forall x, y :: CommAt(g, x, y))
    && (forall x, y, z :: AssocAt(g, x, y, z))
  }

  // The naive scalar multiple: k copies of x added up, negated for a negative k.
  ghost function Mul<P>(g: Group<P>, k: int, x: P): P
    decreases if k < 0 then 1 - k else k
  {
    if k == 0 then g.zero
    else if k > 0 then g.add(Mul(g, k - 1, x), x)
    else g.neg(Mul(g, -k, x))
  }

  // x has order exactly n: the multiples that vanish are the multiples of n.
  ghost predicate HasOrder<P(!new)>(g: Group<P>, x: P, n: nat)
    requires n > 0
  {
    forall k: int :: Mul(g, k, x) == g.zero <==> k % n == 0
  }

  lemma Cancel<P(!new)>(g: Group<P>, x: P, y: P)
    requires IsAbelianGroup(g)
    ensures g.add(g.add(x, y), g.neg(y)) == x
  {
    assert AssocAt(g, x, y, g.neg(y)) && NegAt(g, y) && CommAt(g, x, g.zero) && ZeroAt(g, x);
  }

  lemma NegUnique<P(!new)>(g: Group<P>, x: P, y: P)
    requires IsAbelianGroup(g) && g.add(x, y) == g.zero
    ensures y == g.neg(x)
  {
    Cancel(g, y, x);
    assert CommAt(g, x, y) && ZeroAt(g, g.neg(x));
  }

  lemma NegNeg<P(!new)>(g: Group<P>, x: P)
    requires IsAbelianGroup(g)
    ensures g.neg(g.neg(x)) == x
  {
    assert NegAt(g, x) && CommAt(g, x, g.neg(x));
    NegUnique(g, g.neg(x), x);
  }

  lemma NegZero<P(!new)>(g: Group<P>)
    requires IsAbelianGroup(g)
    ensures g.neg(g.zero) == g.zero
  {
    assert ZeroAt(g, g.zero);
    NegUnique(g, g.zero, g.zero);
  }

  lemma MulOne<P(!new)>(g: Group<P>, x: P)
    requires IsAbelianGroup(g)
    ensures Mul(g, 1, x) == x
  {
    assert ZeroAt(g, x) && Mul(g, 0, x) == g.zero;
  }

  lemma MulNeg<P(!new)>(g: Group<P>, k: int, x: P)
    requires IsAbelianGroup(g)
    ensures Mul(g, -k, x) == g.neg(Mul(g, k, x))
  {
    if k == 0 {
      NegZero(g);
    } else if k < 0 {
      NegNeg(g, Mul(g, -k, x));
    }
  }

  lemma MulSucc<P(!new)>(g: Group<P>, k: int, x: P)
    requires IsAbelianGroup(g)
    ensures Mul(g, k + 1, x) == g.add(Mul(g, k, x), x)
  {
    if k < 0 {
      var y := Mul(g, -k - 1, x);
      assert Mul(g, -k, x) == g.add(y, x);
      MulNeg(g, -k - 1, x);
      MulNeg(g, -k, x);
      // -(y + x) + x == -y
      var z := g.neg(g.add(y, x));
      assert NegAt(g, g.add(y, x)) && AssocAt(g, y, x, z) && CommAt(g, x, z);
      NegUnique(g, y, g.add(x, z));
    }
  }

  lemma {:induction false} MulAdd<P(!new)>(g: Group<P>, j: int, k: int, x: P)
    requires IsAbelianGroup(g)
    ensures Mul(g, j + k, x) == g.add(Mul(g, j, x), Mul(g, k, x))
    decreases if k < 0 then 1 - k else k
  {
    if k == 0 {
      assert CommAt(g, Mul(g, j, x), g.zero) && ZeroAt(g, Mul(g, j, x));
    } else if k > 0 {
      MulAdd(g, j, k - 1, x);
      MulSucc(g, j + k - 1, x);
      assert AssocAt(g, Mul(g, j, x), Mul(g, k - 1, x), x);
    } else {
      MulAdd(g, j + k, -k, x);
      MulNeg(g, k, x);
      Cancel(g, Mul(g, j + k, x), Mul(g, -k, x));
      NegNeg(g, Mul(g, k, x));
    }
  }

  lemma {:induction false} MulMul<P(!new)>(g: Group<P>, j: int, k: nat, x: P)
    requires IsAbelianGroup(g)
    ensures Mul(g, k, Mul(g, j, x)) == Mul(g, j * k, x)
  {
    if k == 0 {
      assert j * k == 0;
    } else {
      MulMul(g, j, k - 1, x);
      assert j * k == j * (k - 1) + j;
      MulAdd(g, j * (k - 1), j, x);
    }
  }

  // Multiples only depend on the factor modulo the order.
  lemma MulMod<P(!new)>(g: Group<P>, j: int, k: int, x: P, n: nat)
    requires n > 0 && IsAbelianGroup(g) && HasOrder(g, x, n)
    ensures Mul(g, j, x) == Mul(g, k, x) <==> (j - k) % n == 0
  {
    var y := Mul(g, k, x);
    MulAdd(g, j - k, k, x);
    Cancel(g, Mul(g, j - k, x), y);
    assert ZeroAt(g, y) && NegAt(g, y);
    assert Mul(g, j, x) == y <==> Mul(g, j - k, x) == g.zero;
  }
}
