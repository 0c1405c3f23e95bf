/**
 ECDSA signing and verification over an abstract group of the curve's order. The multiplication of points, the
 inversion of scalars and the comparison of a Jacobian x coordinate are taken by their contracts.
 */
module Ecdsa {
  import opened Division
  import opened Groups

  const FIELD: nat := 0xFFFFFFFF_FFFFFFFF_FFFFFFFF_FFFFFFFF_FFFFFFFF_FFFFFFFF_FFFFFFFE_FFFFFC2F
  const FIELD_MINUS_ORDER: nat := 0x1_45512319_50B75FC4_402DA172_2FC9BAEE

  // What the library's field, group and scalar code provides: the affine x coordinate and the parity of the y
  // coordinate of points other than infinity, multiples of points, and inverses of nonzero scalars.
  datatype Curve<!P> = Curve(g: Group<P>, base: P, x: P -> nat, odd: P -> bool, mul: (nat, P) -> P, inverse: nat -> nat)

  ghost predicate CoordinatesAt<P>(c: Curve<P>, pt: P) {
    && c.x(pt) < FIELD
    && (pt != c.g.zero ==> c.x(c.g.neg(pt)) == c.x(pt) && c.odd(c.g.neg(pt)) == !c.odd(pt))
  }

  ghost predicate MulAt<P>(c: Curve<P>, k: nat, pt: P) { c.mul(k, pt) == Mul(c.g, k, pt) }

  ghost predicate InverseAt<P>(c: Curve<P>, s: nat) {
    0 < s < ORDER ==> 0 < c.inverse(s) < ORDER && s * c.inverse(s) % ORDER == 1
  }

  ghost predicate IsCurve<P(!new)>(c: Curve<P>) {
    && IsAbelianGroup(c.g) && HasOrder(c.g, c.base, ORDER)
    && (forall pt :: CoordinatesAt(c, pt))
    && (forall k, pt :: MulAt(c, k, pt))
    && (forall s :: InverseAt(c, s))
  }

  // ---- congruence ----

  ghost predicate Congruent(a: int, b: int, n: nat)
    requires n > 0
  {
    exists k :: a == b + k * n
  }

  lemma CongruentBy(a: int, b: int, n: nat, k: int)
    requires n > 0 && a == b + k * n
    ensures Congruent(a, b, n)
  {
  }

  lemma CongruentMod(a: int, n: nat)
    requires n > 0
    ensures Congruent(a, a % n, n) && Congruent(a % n, a, n)
  {
    CongruentBy(a, a % n, n, a / n);
    CongruentBy(a % n, a, n, -(a / n));
  }

  lemma CongruentTrans(a: int, b: int, c: int, n: nat)
    requires n > 0 && Congruent(a, b, n) && Congruent(b, c, n)
    ensures Congruent(a, c, n)
  {
    var j :| a == b + j * n;
    var k :| b == c + k * n;
    CongruentBy(a, c, n, j + k);
  }

  lemma CongruentMul(a: int, b: int, c: int, n: nat)
    requires n > 0 && Congruent(a, b, n)
    ensures Congruent(c * a, c * b, n)
  {
    var k :| a == b + k * n;
    assert c * (k * n) == (c * k) * n;
    CongruentBy(c * a, c * b, n, c * k);
  }

  lemma CongruentAdd(a: int, b: int, c: int, d: int, n: nat)
    requires n > 0 && Congruent(a, b, n) && Congruent(c, d, n)
    ensures Congruent(a + c, b + d, n)
  {
    var j :| a == b + j * n;
    var k :| c == d + k * n;
    CongruentBy(a + c, b + d, n, j + k);
  }

  // Congruent factors have the same multiples of the base point.
  lemma SameMultiple<P(!new)>(c: Curve<P>, j: int, k: int)
    requires IsCurve(c) && Congruent(j, k, ORDER)
    ensures Mul(c.g, j, c.base) == Mul(c.g, k, c.base)
  {
    var q :| j == k + q * ORDER;
    if q >= 0 {
      AddMultiple(0, q, ORDER);
      MulMod(c.g, j, k, c.base, ORDER);
    } else {
      AddMultiple(0, -q, ORDER);
      MulMod(c.g, k, j, c.base, ORDER);
    }
  }

  // ---- verification ----

  // The point that verification recomputes, section 4.1.4 of SEC 1.
  ghost function Recomputed<P>(c: Curve<P>, r: Scalar, s: Scalar, q: P, message: Scalar): P {
    var u1 := c.inverse(s) * message % ORDER;
    var u2 := c.inverse(s) * r % ORDER;
    c.g.add(Mul(c.g, u2, q), Mul(c.g, u1, c.base))
  }

  // The signature (r, s) is valid: the x coordinate of the point, modulo the order, is r.
  ghost predicate IsValid<P>(c: Curve<P>, r: Scalar, s: Scalar, q: P, message: Scalar) {
    var pt := Recomputed(c, r, s, q, message);
    r != 0 && s != 0 && pt != c.g.zero && c.x(pt) % ORDER == r
  }

  // An x coordinate that is r modulo the order is r or r + n, for p < 2n.
  lemma TwoCases(x: nat, r: Scalar)
    requires x < FIELD
    ensures x % ORDER == r <==> x == r || (r < FIELD_MINUS_ORDER && x == r + ORDER)
  {
    assert FIELD_MINUS_ORDER == FIELD - ORDER && FIELD < 2 * ORDER;
  }

  method Verify<P(!new, ==)>(c: Curve<P>, r: Scalar, s: Scalar, q: P, message: Scalar) returns (valid: bool)
    requires IsCurve(c)
    ensures valid <==> IsValid(c, r, s, q, message)
    ensures forall key: Scalar | q == Mul(c.g, key, c.base) ::
      valid <==> r != 0 && s != 0 && exists k: nat :: IsNonce(c, key, r, s, message, k)
  {
    forall key: Scalar | q == Mul(c.g, key, c.base)
      ensures IsValid(c, r, s, q, message) <==> r != 0 && s != 0 && exists k: nat :: IsNonce(c, key, r, s, message, k)
    {
      ValidIff(c, key, r, s, message);
    }
    hide IsValid, IsNonce;
    if r == 0 || s == 0 {
      return false;
    }
    var sn := c.inverse(s);
    var u1 := sn * message % ORDER;
    var u2 := sn * r % ORDER;
    assert MulAt(c, u2, q) && MulAt(c, u1, c.base);
    var pr := c.g.add(c.mul(u2, q), c.mul(u1, c.base));
    assert pr == Recomputed(c, r, s, q, message);
    if pr == c.g.zero {
      return false;
    }
    assert CoordinatesAt(c, pr);
    TwoCases(c.x(pr), r);
    var xr: nat := r;
    if c.x(pr) == xr {
      return true;
    }
    if xr >= FIELD_MINUS_ORDER {
      return false;
    }
    xr := xr + ORDER;
    return c.x(pr) == xr;
  }

  // A signature is valid for the public key of a secret exactly when it is one that the secret could have made: s solves
  // the signing equation for a nonce whose point has an x coordinate that is r modulo the order.
  lemma ValidIff<P(!new)>(c: Curve<P>, key: Scalar, r: Scalar, s: Scalar, message: Scalar)
    requires IsCurve(c)
    ensures IsValid(c, r, s, Mul(c.g, key, c.base), message) <==>
      r != 0 && s != 0 && exists k: nat :: IsNonce(c, key, r, s, message, k)
  {
    hide IsCurve, Congruent, Mul, Recomputed;
    if r != 0 && s != 0 {
      var k := c.inverse(s) * (r * key + message);
      CurveLaws(c, s);
      Solves(r * key + message, s, c.inverse(s));
      RecomputesNonce(c, key, r, s, message, k);
      forall k: nat | IsNonce(c, key, r, s, message, k) ensures IsValid(c, r, s, Mul(c.g, key, c.base), message) {
        RecomputesNonce(c, key, r, s, message, k);
      }
      assert IsValid(c, r, s, Mul(c.g, key, c.base), message) ==> IsNonce(c, key, r, s, message, k);
    }
  }

  // k is a nonce for which (r, s) signs the message.
  ghost predicate IsNonce<P>(c: Curve<P>, key: Scalar, r: Scalar, s: Scalar, message: Scalar, k: nat) {
    && Congruent(r * key + message, s * k, ORDER)
    && Mul(c.g, k, c.base) != c.g.zero && c.x(Mul(c.g, k, c.base)) % ORDER == r
  }

  lemma Solves(t: nat, s: Scalar, sn: nat)
    requires s * sn % ORDER == 1
    ensures Congruent(t, s * (sn * t), ORDER)
  {
    CongruentMod(s * sn, ORDER);
    CongruentMul(1, s * sn, t, ORDER);
    assert t * (s * sn) == s * (sn * t) && t * 1 == t;
  }

  // A signature whose s solves the signing equation for k recomputes the point k * base.
  lemma RecomputesNonce<P(!new)>(c: Curve<P>, key: Scalar, r: Scalar, s: Scalar, message: Scalar, k: int)
    requires IsCurve(c) && s != 0 && Congruent(r * key + message, s * k, ORDER)
    ensures Recomputed(c, r, s, Mul(c.g, key, c.base), message) == Mul(c.g, k, c.base)
  {
    hide IsCurve, IsAbelianGroup, Congruent, Mul;
    CurveLaws(c, s);
    var sn := c.inverse(s);
    var u1, u2 := sn * message % ORDER, sn * r % ORDER;
    MulMul(c.g, key, u2, c.base);
    MulAdd(c.g, key * u2, u1, c.base);
    FactorsCongruent(key, r, s, message, k, sn);
    SameMultiple(c, key * u2 + u1, k);
  }

  lemma CurveLaws<P(!new)>(c: Curve<P>, s: Scalar)
    requires IsCurve(c) && s != 0
    ensures IsAbelianGroup(c.g) && s * c.inverse(s) % ORDER == 1
  {
    assert InverseAt(c, s);
    hide IsAbelianGroup;
  }

  lemma FactorsCongruent(key: Scalar, r: Scalar, s: Scalar, message: Scalar, k: int, sn: nat)
    requires s * sn % ORDER == 1 && Congruent(r * key + message, s * k, ORDER)
    ensures Congruent(key * (sn * r % ORDER) + sn * message % ORDER, k, ORDER)
  {
    CongruentMod(sn * r, ORDER);
    CongruentMod(sn * message, ORDER);
    CongruentMod(s * sn, ORDER);
    CongruentMul(sn * r % ORDER, sn * r, key, ORDER);
    CongruentAdd(key * (sn * r % ORDER), key * (sn * r), sn * message % ORDER, sn * message, ORDER);
    CongruentMul(r * key + message, s * k, sn, ORDER);
    CongruentMul(s * sn, 1, k, ORDER);
    Rearrange(key, r, s, message, k, sn);
    CongruentTrans(key * (sn * r % ORDER) + sn * message % ORDER, sn * (r * key + message), sn * (s * k), ORDER);
    CongruentTrans(key * (sn * r % ORDER) + sn * message % ORDER, k * (s * sn), k, ORDER);
  }

  lemma Rearrange(key: int, r: int, s: int, message: int, k: int, sn: int)
    ensures key * (sn * r) + sn * message == sn * (r * key + message) && sn * (s * k) == k * (s * sn) && k * 1 == k
  {
    assert key * (sn * r) == sn * (r * key);
    assert sn * (s * k) == (sn * s) * k;
  }

  // ---- signing ----

  // The signature of a message, or none when s vanishes. recid tells which point verification recomputes: its
  // low bit is the parity of the y coordinate, the next one says that the x coordinate is not below the order.
  method Sign<P(!new, ==)>(c: Curve<P>, key: Scalar, message: Scalar, nonce: Scalar)
      returns (ok: bool, r: Scalar, s: Scalar, recid: nat)
    requires IsCurve(c) && nonce != 0 && c.x(Mul(c.g, nonce, c.base)) % ORDER != 0
    ensures ok <==> (r * key + message) % ORDER != 0
    ensures r == c.x(Mul(c.g, nonce, c.base)) % ORDER
    ensures ok ==> IsValid(c, r, s, Mul(c.g, key, c.base), message) && 0 < s <= ORDER / 2
    ensures ok ==> Recovers(c, Recomputed(c, r, s, Mul(c.g, key, c.base), message), r, recid)
  {
    hide IsCurve, Congruent, Mul, IsValid, Recomputed, CoordinatesAt, Recovers;
    NonceAt(c, nonce);
    ghost var k: int := nonce;
    var rp := c.mul(nonce, c.base);
    r := c.x(rp) % ORDER;
    var overflow := c.x(rp) >= ORDER;
    recid := (if overflow then 2 else 0) + (if c.odd(rp) then 1 else 0);
    RecidOf(c, rp);
    var n := (r * key % ORDER + message) % ORDER;
    s := c.inverse(nonce) * n % ORDER;
    SigningEquation(key, r, message, nonce, c.inverse(nonce), s);
    if s == 0 {
      return false, r, s, recid;
    }
    if s > ORDER / 2 {
      NegatedEquation(key, r, message, nonce, s);
      NegatedNonce(c, nonce, r, recid);
      s := ORDER - s;
      recid := if recid % 2 == 1 then recid - 1 else recid + 1;
      SignatureOf(c, key, r, s, message, -k, recid);
    } else {
      SignatureOf(c, key, r, s, message, nonce, recid);
    }
    return true, r, s, recid;
  }

  // recid names the point whose x coordinate is r modulo the order.
  ghost predicate Recovers<P>(c: Curve<P>, pt: P, r: Scalar, recid: nat) {
    c.x(pt) == r + ORDER * (recid / 2) && c.odd(pt) == (recid % 2 == 1)
  }

  // The nonce point is not infinity.
  lemma NonceFinite<P(!new)>(c: Curve<P>, nonce: Scalar)
    requires IsCurve(c) && nonce != 0
    ensures Mul(c.g, nonce, c.base) != c.g.zero
  {
    assert nonce % ORDER == nonce;
  }

  lemma NonceAt<P(!new)>(c: Curve<P>, nonce: Scalar)
    requires IsCurve(c) && nonce != 0
    ensures c.mul(nonce, c.base) == Mul(c.g, nonce, c.base) != c.g.zero
    ensures nonce * c.inverse(nonce) % ORDER == 1 && CoordinatesAt(c, Mul(c.g, nonce, c.base))
  {
    assert MulAt(c, nonce, c.base) && InverseAt(c, nonce);
    assert CoordinatesAt(c, Mul(c.g, nonce, c.base));
    NonceFinite(c, nonce);
  }

  lemma RecidOf<P>(c: Curve<P>, pt: P)
    requires CoordinatesAt(c, pt)
    ensures Recovers(c, pt, c.x(pt) % ORDER, (if c.x(pt) >= ORDER then 2 else 0) + (if c.odd(pt) then 1 else 0))
  {
  }

  // The negated nonce gives the point with the same x coordinate and the other parity.
  lemma NegatedNonce<P(!new)>(c: Curve<P>, nonce: int, r: Scalar, recid: nat)
    requires IsCurve(c) && Mul(c.g, nonce, c.base) != c.g.zero && Recovers(c, Mul(c.g, nonce, c.base), r, recid)
    ensures var pt := Mul(c.g, -nonce, c.base);
      pt != c.g.zero && Recovers(c, pt, r, if recid % 2 == 1 then recid - 1 else recid + 1)
  {
    var rp := Mul(c.g, nonce, c.base);
    assert CoordinatesAt(c, rp);
    assert IsAbelianGroup(c.g);
    hide IsCurve, IsAbelianGroup, Mul;
    MulNeg(c.g, nonce, c.base);
    NegNeg(c.g, rp);
    NegZero(c.g);
  }

  // A nonzero s that solves the equation for a nonce with the x coordinate r makes a valid signature.
  lemma SignatureOf<P(!new)>(c: Curve<P>, key: Scalar, r: Scalar, s: Scalar, message: Scalar, k: int, recid: nat)
    requires IsCurve(c) && r != 0 && s != 0 && Congruent(r * key + message, s * k, ORDER)
    requires Mul(c.g, k, c.base) != c.g.zero && Recovers(c, Mul(c.g, k, c.base), r, recid)
    ensures IsValid(c, r, s, Mul(c.g, key, c.base), message)
    ensures Recovers(c, Recomputed(c, r, s, Mul(c.g, key, c.base), message), r, recid)
  {
    hide IsCurve, Congruent, Mul, Recomputed;
    RecomputesNonce(c, key, r, s, message, k);
    RemainderUnique(c.x(Mul(c.g, k, c.base)), recid / 2, r, ORDER);
  }

  // s * nonce is congruent to r * key + message, and vanishes only with it.
  lemma SigningEquation(key: Scalar, r: Scalar, message: Scalar, nonce: Scalar, inverse: nat, s: Scalar)
    requires nonce * inverse % ORDER == 1
    requires s == inverse * ((r * key % ORDER + message) % ORDER) % ORDER
    ensures Congruent(r * key + message, s * nonce, ORDER)
    ensures s == 0 <==> (r * key + message) % ORDER == 0
  {
    hide *;
    OrderPositive();
    var t := r * key;
    ReducedSum(t, message);
    SolvesEquation(t + message, (t % ORDER + message) % ORDER, nonce, inverse, s);
  }

  lemma OrderPositive()
    ensures ORDER > 0
  {
  }

  lemma ReducedSum(a: nat, b: nat)
    ensures Congruent((a % ORDER + b) % ORDER, a + b, ORDER) && (a % ORDER + b) % ORDER == (a + b) % ORDER
  {
    var n := (a % ORDER + b) % ORDER;
    CongruentMod(a, ORDER);
    CongruentMod(a % ORDER + b, ORDER);
    CongruentBy(b, b, ORDER, 0);
    CongruentAdd(a % ORDER, a, b, b, ORDER);
    CongruentTrans(n, a % ORDER + b, a + b, ORDER);
    hide Congruent;
    SameRemainder(n, a + b, ORDER);
  }

  lemma SolvesEquation(t: nat, n: nat, nonce: Scalar, inverse: nat, s: Scalar)
    requires nonce * inverse % ORDER == 1 && s == inverse * n % ORDER
    requires Congruent(n, t, ORDER) && n == t % ORDER
    ensures Congruent(t, s * nonce, ORDER) && (s == 0 <==> n == 0)
  {
    hide Congruent;
    CongruentMod(inverse * n, ORDER);
    CongruentMul(s, inverse * n, nonce, ORDER);
    CongruentMod(nonce * inverse, ORDER);
    CongruentMul(nonce * inverse, 1, n, ORDER);
    Regroup(n, nonce, inverse, s);
    CongruentTrans(s * nonce, n * (nonce * inverse), n, ORDER);
    CongruentTrans(s * nonce, n, t, ORDER);
    CongruentSym(s * nonce, t, ORDER);
    if s == 0 {
      SameRemainder(0, t, ORDER);
    }
    if n == 0 {
      Regroup(0, nonce, inverse, s);
    }
  }

  lemma Regroup(n: int, nonce: int, inverse: int, s: int)
    ensures nonce * (inverse * n) == n * (nonce * inverse) && nonce * s == s * nonce && n * 1 == n
    ensures inverse * 0 == 0 && 0 * nonce == 0
  {
    assert nonce * (inverse * n) == (nonce * inverse) * n;
  }

  lemma CongruentSym(a: int, b: int, n: nat)
    requires n > 0 && Congruent(a, b, n)
    ensures Congruent(b, a, n)
  {
    var k :| a == b + k * n;
    CongruentBy(b, a, n, -k);
  }

  lemma SameRemainder(a: nat, b: nat, n: nat)
    requires n > 0 && Congruent(a, b, n)
    ensures a % n == b % n
  {
    var k :| a == b + k * n;
    SameRemainderBy(a, b, n, k);
  }

  lemma SameRemainderBy(a: nat, b: nat, n: nat, k: int)
    requires n > 0 && a == b + k * n
    ensures a % n == b % n
  {
    if k >= 0 {
      AddMultiple(b, k, n);
    } else {
      Opposite(k, n);
      AddMultiple(a, -k, n);
    }
  }

  lemma Opposite(k: int, n: nat)
    ensures (-k) * n == -(k * n)
  {
  }

  // The negated s solves the equation for the negated nonce.
  lemma NegatedEquation(key: Scalar, r: Scalar, message: Scalar, nonce: int, s: Scalar)
    requires Congruent(r * key + message, s * nonce, ORDER)
    ensures Congruent(r * key + message, (ORDER - s) * (-nonce), ORDER)
  {
    assert s * nonce == (ORDER - s) * (-nonce) + nonce * ORDER;
    CongruentBy(s * nonce, (ORDER - s) * (-nonce), ORDER, nonce);
    CongruentTrans(r * key + message, s * nonce, (ORDER - s) * (-nonce), ORDER);
  }
}
