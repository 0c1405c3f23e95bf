/**
 The Poly1305 authenticator in five limbs of 26 bits. All arithmetic is on 32- and 64-bit words: every word that is
 assigned is shown to be in range, so no addition wraps except the one that is meant to.
 */
module Poly1305 {
  import opened Bits
  import opened Division
  import opened LittleEndian
  import opened Powers

  const B: nat := 0x400_0000
  const W: nat := 0x1_0000_0000
  const P: nat := 0x3_ffff_ffff_ffff_ffff_ffff_ffff_ffff_fffb // 2^130 - 5
  const W4: nat := 0x1_0000_0000_0000_0000_0000_0000_0000_0000
  const CLAMP: nat := 0x0fff_fffc_0fff_fffc_0fff_fffc_0fff_ffff

  // ---- the authenticator as section 2.5 of RFC 7539 defines it ----

  function Clamped(key: Bytes): nat
    requires |key| == 32
  {
    And(LE(key[..16]), CLAMP)
  }

  // The mask byte by byte: the upper four bits of bytes 3, 7, 11 and 15 are cleared, and the lower two of 4, 8 and 12.
  function ClampedByte(b: Byte, j: nat): Byte {
    if j % 4 == 3 then b % 16 else if j % 4 == 0 && j > 0 then b - b % 4 else b
  }

  function ClampedBytes(bytes: Bytes, j: nat): (c: Bytes)
    ensures |c| == |bytes|
  {
    if bytes == [] then [] else [ClampedByte(bytes[0], j)] + ClampedBytes(bytes[1..], j + 1)
  }

  lemma ClampMeaning(key: Bytes)
    requires |key| == 32
    ensures Clamped(key) == LE(ClampedBytes(key[..16], 0))
  {
    ClampMask();
    MaskedBytes(key[..16], 0);
    hide And, LE, MaskBytes, ClampedBytes;
  }

  function MaskByte(j: nat): Byte { if j % 4 == 3 then 0x0f else if j % 4 == 0 && j > 0 then 0xfc else 0xff }

  function MaskBytes(count: nat, j: nat): (m: Bytes)
    ensures |m| == count
  {
    if count == 0 then [] else [MaskByte(j)] + MaskBytes(count - 1, j + 1)
  }

  lemma ClampMask()
    ensures LE(MaskBytes(16, 0)) == CLAMP
  {
    hide *;
    MaskWord(16, 0);
    MaskWord(12, 4);
    MaskWord(8, 8);
    MaskWord(4, 12);
    MaskNone(16);
    MaskValue();
  }

  lemma MaskValue()
    ensures CLAMP == 0x0fff_ffff + W * (0x0fff_fffc + W * (0x0fff_fffc + W * 0x0fff_fffc)) && W == 0x1_0000_0000
  {
  }

  // Four bytes of the mask.
  lemma MaskWord(count: nat, j: nat)
    requires count >= 4 && j % 4 == 0
    ensures LE(MaskBytes(count, j)) ==
      (if j == 0 then 0x0fff_ffff else 0x0fff_fffc) + 0x1_0000_0000 * LE(MaskBytes(count - 4, j + 4))
  {
    MaskNext(count, j);
    MaskNext(count - 1, j + 1);
    MaskNext(count - 2, j + 2);
    MaskNext(count - 3, j + 3);
    MaskFour(j);
    hide LE, MaskBytes, MaskByte;
  }

  lemma MaskFour(j: nat)
    requires j % 4 == 0
    ensures MaskByte(j) == (if j == 0 then 0xff else 0xfc)
    ensures MaskByte(j + 1) == 0xff && MaskByte(j + 2) == 0xff && MaskByte(j + 3) == 0x0f
  {
  }

  lemma MaskNext(count: nat, j: nat)
    requires count > 0
    ensures LE(MaskBytes(count, j)) == MaskByte(j) + 256 * LE(MaskBytes(count - 1, j + 1))
  {
    LENext(MaskBytes(count, j));
    hide LE;
  }

  lemma MaskNone(j: nat)
    ensures LE(MaskBytes(0, j)) == 0
  {
  }

  lemma {:induction false} MaskedBytes(bytes: Bytes, j: nat)
    ensures And(LE(bytes), LE(MaskBytes(|bytes|, j))) == LE(ClampedBytes(bytes, j))
  {
    if bytes == [] {
      MaskNone(j);
    } else {
      hide *;
      MaskedBytes(bytes[1..], j + 1);
      MaskNext(|bytes|, j);
      LENext(bytes);
      ClampedNext(bytes, j);
      MaskedByte(bytes[0], j);
      AndBytes(bytes[0], LE(bytes[1..]), MaskByte(j), LE(MaskBytes(|bytes| - 1, j + 1)));
    }
  }

  lemma ClampedNext(bytes: Bytes, j: nat)
    requires bytes != []
    ensures LE(ClampedBytes(bytes, j)) == ClampedByte(bytes[0], j) + 256 * LE(ClampedBytes(bytes[1..], j + 1))
  {
    LENext(ClampedBytes(bytes, j));
    hide LE;
  }

  lemma AndBytes(a: Byte, b: nat, c: Byte, d: nat)
    ensures And(a + 256 * b, c + 256 * d) == And(a, c) + 256 * And(b, d)
  {
    hide And, Pow;
    SmallPowers();
    AndParts(a, b, c, d, 8);
  }

  lemma MaskedByte(b: Byte, j: nat)
    ensures And(b, MaskByte(j)) == ClampedByte(b, j)
  {
    hide And;
    if j % 4 == 3 {
      MaskedHigh(b);
    } else if j % 4 == 0 && j > 0 {
      MaskedLow(b);
    } else {
      MaskedNot(b);
    }
  }

  lemma MaskedHigh(b: Byte)
    ensures And(b, 0x0f) == b % 16
  {
    hide *;
    SmallPowers();
    AndLow(b, 4);
  }

  lemma MaskedNot(b: Byte)
    ensures And(b, 0xff) == b
  {
    hide *;
    SmallPowers();
    AndLow(b, 8);
  }

  lemma MaskedLow(b: Byte)
    ensures And(b, 0xfc) == b - b % 4
  {
    hide *;
    SmallPowers();
    AndLow(b / 4, 6);
    AndParts(b % 4, b / 4, 0, 63, 2);
    AndNone(b % 4);
    Quarter(b);
  }

  lemma AndNone(x: nat)
    ensures And(x, 0) == 0
  {
  }

  lemma Quarter(b: Byte)
    ensures b % 4 < 4 && b % 4 + Times(b / 4, 4) == b && 0 + Times(63, 4) == 0xfc && b / 4 % 64 == b / 4
    ensures Times(b / 4, 4) == b - b % 4
  {
  }

  // The start of the last block of data.
  function LastBlock(data: Bytes): (k: nat)
    requires data != []
    ensures k < |data| <= k + 16 && k % 16 == 0
  {
    (|data| - 1) / 16 * 16
  }

  // The accumulator after the blocks of data: a block, ended by a one, is added and the sum multiplied by r.
  function Absorb(acc: nat, r: nat, data: Bytes): nat {
    if data == [] then acc
    else
      var k := LastBlock(data);
      Next(Absorb(acc, r, data[..k]), LE(data[k..] + [1]), r)
  }

  function Next(acc: nat, block: nat, r: nat): nat { (acc + block) * r % P }

  function ModP(x: nat): nat { x % P }

  function Tag(key: Bytes, data: Bytes): Bytes
    requires |key| == 32
  {
    ToLE(Sum128(Absorb(0, Clamped(key), data), LE(key[16..])), 16)
  }

  // ---- limbs ----

  datatype Limbs = Limbs(l0: nat, l1: nat, l2: nat, l3: nat, l4: nat) {
    function Value(): nat {
      l0 + 0x400_0000 * l1 + 0x10_0000_0000_0000 * l2 + 0x4000_0000_0000_0000_0000 * l3
        + 0x100_0000_0000_0000_0000_0000_0000 * l4
    }

    // What every block leaves.
    predicate Reduced() {
      l0 < B && l1 < B + 64 && l2 < B && l3 < B && l4 < B
    }
  }

  function LimbsOf(h: array<Word32>): Limbs
    requires h.Length == 5
    reads h
  {
    Limbs(h[0], h[1], h[2], h[3], h[4])
  }

  // Words of 32 bits, least significant first.
  datatype Words = Words(w0: Word32, w1: Word32, w2: Word32, w3: Word32) {
    function Value(): nat {
      w0 + 0x1_0000_0000 * w1 + 0x1_0000_0000_0000_0000 * w2 + 0x1_0000_0000_0000_0000_0000_0000 * w3
    }
  }

  // ---- words and limbs ----

  // The bits of two consecutive words from bit k on: (lo >> k) | (hi << (32 - k)).
  function Straddle(lo: Word32, hi: Word32, k: nat): nat
    requires k <= 32
  {
    PowPositive(2, k);
    Or(lo / Pow(2, k), hi * Pow(2, 32 - k) % W)
  }

  lemma Straddle26(lo: Word32, hi: Word32)
    ensures Straddle(lo, hi, 26) == lo / 0x4000000 + hi % 0x4000000 * 0x40
  {
    SmallPowers();
    hide Or, Pow;
    LowPart(0, hi, 0x4000000, 0x40, W);
    assert Times(hi % 0x4000000, 0x40) == hi % 0x4000000 * 0x40;
    OrParts(lo / 0x4000000, hi % 0x4000000, 6);
  }

  lemma Straddle20(lo: Word32, hi: Word32)
    ensures Straddle(lo, hi, 20) == lo / 0x100000 + hi % 0x100000 * 0x1000
  {
    SmallPowers();
    hide Or, Pow;
    LowPart(0, hi, 0x100000, 0x1000, W);
    assert Times(hi % 0x100000, 0x1000) == hi % 0x100000 * 0x1000;
    OrParts(lo / 0x100000, hi % 0x100000, 12);
  }

  lemma Straddle14(lo: Word32, hi: Word32)
    ensures Straddle(lo, hi, 14) == lo / 0x4000 + hi % 0x4000 * 0x40000
  {
    SmallPowers();
    hide Or, Pow;
    LowPart(0, hi, 0x4000, 0x40000, W);
    assert Times(hi % 0x4000, 0x40000) == hi % 0x4000 * 0x40000;
    OrParts(lo / 0x4000, hi % 0x4000, 18);
  }

  lemma SmallPowers()
    ensures Pow(2, 2) == 4 && Pow(2, 4) == 16 && Pow(2, 6) == 64 && Pow(2, 12) == 4096 && Pow(2, 18) == 0x4_0000
    ensures Pow(2, 14) == 0x4000 && Pow(2, 20) == 0x10_0000 && Pow(2, 26) == B && Pow(2, 32) == W
    ensures Pow(2, 8) == 256 && Pow(2, 24) == 0x100_0000
  {
    assert Pow(2, 4) == 16;
    PowAdd(2, 4, 4);
    PowAdd(2, 2, 4);
    PowAdd(2, 6, 6);
    PowAdd(2, 6, 12);
    PowAdd(2, 2, 12);
    PowAdd(2, 6, 14);
    PowAdd(2, 6, 20);
    PowAdd(2, 6, 26);
    PowAdd(2, 8, 8);
    PowAdd(2, 12, 12);
  }

  // The limbs of four words.
  function Split(t: Words): Limbs {
    Limbs(t.w0 % B, Straddle(t.w0, t.w1, 26) % B, Straddle(t.w1, t.w2, 20) % B, Straddle(t.w2, t.w3, 14) % B, t.w3 / 256)
  }

  lemma SplitStraddle(lo: Word32, hi: Word32)
    ensures Straddle(lo, hi, 26) % B == lo / 0x400_0000 + hi % 0x10_0000 * 64
    ensures Straddle(lo, hi, 20) % B == lo / 0x10_0000 + hi % 0x4000 * 4096
    ensures Straddle(lo, hi, 14) % B == lo / 0x4000 + hi % 256 * 0x4_0000
  {
    Straddle26(lo, hi);
    Straddle20(lo, hi);
    Straddle14(lo, hi);
    hide Straddle;
    LowPart(lo / 0x400_0000, hi % 0x400_0000, 0x10_0000, 64, B);
    LowPart(lo / 0x10_0000, hi % 0x10_0000, 0x4000, 4096, B);
    LowPart(lo / 0x4000, hi % 0x4000, 256, 0x4_0000, B);
    LowBits(hi, 0x10_0000, 64, B);
    LowBits(hi, 0x4000, 64, 0x10_0000);
    LowBits(hi, 256, 64, 0x4000);
  }

  lemma SplitValue(t: Words)
    ensures Split(t).Value() == t.Value() && Split(t).Reduced() && Split(t).l4 < 0x100_0000
  {
    SplitStraddle(t.w0, t.w1);
    SplitStraddle(t.w1, t.w2);
    SplitStraddle(t.w2, t.w3);
    hide Straddle;
  }

  // Clamping limb by limb clamps the number.
  function ClampedLimbs(t: Limbs): Limbs {
    Limbs(And(t.l0, 0x03ff_ffff), And(t.l1, 0x03ff_ff03), And(t.l2, 0x03ff_c0ff), And(t.l3, 0x03f0_3fff),
          And(t.l4, 0x000f_ffff))
  }

  lemma ClampValue(t: Limbs)
    requires t.l0 < B && t.l1 < B && t.l2 < B && t.l3 < B && t.l4 < B
    ensures ClampedLimbs(t).Value() == And(t.Value(), CLAMP)
  {
    hide And;
    var m3 := 0x03f0_3fff + B * 0x000f_ffff;
    var m2 := 0x03ff_c0ff + B * m3;
    var m1 := 0x03ff_ff03 + B * m2;
    var t3 := t.l3 + B * t.l4;
    var t2 := t.l2 + B * t3;
    var t1 := t.l1 + B * t2;
    AndLimb(t.l3, t.l4, 0x03f0_3fff, 0x000f_ffff);
    AndLimb(t.l2, t3, 0x03ff_c0ff, m3);
    AndLimb(t.l1, t2, 0x03ff_ff03, m2);
    AndLimb(t.l0, t1, 0x03ff_ffff, m1);
  }

  lemma ClampBounds(t: Limbs)
    ensures ClampedLimbs(t).Reduced() && ClampedLimbs(t).l1 < B && ClampedLimbs(t).l4 < 0x10_0000
  {
    AndBounded(t.l0, 0x03ff_ffff);
    AndBounded(t.l1, 0x03ff_ff03);
    AndBounded(t.l2, 0x03ff_c0ff);
    AndBounded(t.l3, 0x03f0_3fff);
    AndBounded(t.l4, 0x000f_ffff);
    hide And;
  }

  lemma AndLimb(a: nat, b: nat, c: nat, d: nat)
    requires a < B && c < B
    ensures And(a + B * b, c + B * d) == And(a, c) + B * And(b, d)
  {
    SmallPowers();
    hide And, Pow;
    AndParts(a, b, c, d, 26);
  }

  function WordsOf(x: Bytes): Words
    requires |x| == 16
  {
    WordBound(x[..4]);
    WordBound(x[4..8]);
    WordBound(x[8..12]);
    WordBound(x[12..]);
    Words(LE(x[..4]), LE(x[4..8]), LE(x[8..12]), LE(x[12..]))
  }

  lemma WordBound(x: Bytes)
    requires |x| == 4
    ensures LE(x) < W
  {
    LEBound(x);
    PowAdd(256, 2, 2);
  }

  lemma WordsValue(x: Bytes)
    requires |x| == 16
    ensures WordsOf(x).Value() == LE(x)
  {
    assert x == x[..4] + (x[4..8] + (x[8..12] + x[12..]));
    PowAdd(256, 2, 2);
    assert Pow(256, 4) == W;
    hide LE;
    LEAppend(x[8..12], x[12..]);
    LEAppend(x[4..8], x[8..12] + x[12..]);
    LEAppend(x[..4], x[4..8] + (x[8..12] + x[12..]));
  }

  // ---- a block ----

  // A 64-bit product of two words.
  function Mul(x: nat, y: nat): nat { x * y }

  // The product of two numbers by their limbs: what exceeds the fifth limb comes back five times.
  function Convolve(a: Limbs, r: Limbs): Limbs {
    Limbs(Mul(a.l0, r.l0) + Mul(a.l1, r.l4) * 5 + Mul(a.l2, r.l3) * 5 + Mul(a.l3, r.l2) * 5 + Mul(a.l4, r.l1) * 5,
          Mul(a.l0, r.l1) + Mul(a.l1, r.l0) + Mul(a.l2, r.l4) * 5 + Mul(a.l3, r.l3) * 5 + Mul(a.l4, r.l2) * 5,
          Mul(a.l0, r.l2) + Mul(a.l1, r.l1) + Mul(a.l2, r.l0) + Mul(a.l3, r.l4) * 5 + Mul(a.l4, r.l3) * 5,
          Mul(a.l0, r.l3) + Mul(a.l1, r.l2) + Mul(a.l2, r.l1) + Mul(a.l3, r.l0) + Mul(a.l4, r.l4) * 5,
          Mul(a.l0, r.l4) + Mul(a.l1, r.l3) + Mul(a.l2, r.l2) + Mul(a.l3, r.l1) + Mul(a.l4, r.l0))
  }

  // What comes back, as multiples of the modulus.
  function Excess(a: Limbs, r: Limbs): nat {
    Limbs(Mul(a.l1, r.l4) + Mul(a.l2, r.l3) + Mul(a.l3, r.l2) + Mul(a.l4, r.l1),
          Mul(a.l2, r.l4) + Mul(a.l3, r.l3) + Mul(a.l4, r.l2),
          Mul(a.l3, r.l4) + Mul(a.l4, r.l3), Mul(a.l4, r.l4), 0).Value()
  }

  function Scaled(x: nat, r: Limbs): Limbs {
    Limbs(Mul(x, r.l0), Mul(x, r.l1), Mul(x, r.l2), Mul(x, r.l3), Mul(x, r.l4))
  }

  lemma ScaleLimbs(x: nat, r: Limbs)
    ensures Mul(x, r.Value()) == Mul(r.Value(), x) == Scaled(x, r).Value()
  {
  }

  lemma ProductIs(a: Limbs, r: Limbs)
    ensures a.Value() * r.Value() == Mul(r.Value(), a.Value())
  {
  }

  lemma ConvolveValue(a: Limbs, r: Limbs)
    ensures a.Value() * r.Value() == Convolve(a, r).Value() + Excess(a, r) * P
  {
    hide Mul;
    ProductIs(a, r);
    ScaleLimbs(r.Value(), a);
    ScaleLimbs(a.l0, r);
    ScaleLimbs(a.l1, r);
    ScaleLimbs(a.l2, r);
    ScaleLimbs(a.l3, r);
    ScaleLimbs(a.l4, r);
  }

  // The limbs that a block is multiplied from.
  predicate Summed(a: Limbs) {
    a.l0 < 2 * B + 64 && a.l1 < 2 * B + 64 && a.l2 < 2 * B + 64 && a.l3 < 2 * B + 64 && a.l4 < 2 * B + 64
  }

  // The limbs of the clamped key.
  predicate IsKey(r: Limbs) {
    r.l0 < B && r.l1 < B && r.l2 < B && r.l3 < B && r.l4 < 0x10_0000
  }

  const PRODUCT_BOUND: nat := (2 * B + 63) * (B - 1)

  lemma ProductBound(a: Limbs, y: nat)
    requires Summed(a) && y < B
    ensures Mul(a.l0, y) <= PRODUCT_BOUND && Mul(a.l1, y) <= PRODUCT_BOUND && Mul(a.l2, y) <= PRODUCT_BOUND
    ensures Mul(a.l3, y) <= PRODUCT_BOUND && Mul(a.l4, y) <= PRODUCT_BOUND
  {
    MulMonotonic(a.l0, 2 * B + 63, y, B - 1);
    MulMonotonic(a.l1, 2 * B + 63, y, B - 1);
    MulMonotonic(a.l2, 2 * B + 63, y, B - 1);
    MulMonotonic(a.l3, 2 * B + 63, y, B - 1);
    MulMonotonic(a.l4, 2 * B + 63, y, B - 1);
  }

  predicate InRoom(d: Limbs) {
    && d.l0 <= 21 * PRODUCT_BOUND && d.l1 <= 21 * PRODUCT_BOUND && d.l2 <= 21 * PRODUCT_BOUND
    && d.l3 <= 21 * PRODUCT_BOUND && d.l4 <= 5 * PRODUCT_BOUND
  }

  lemma ConvolveBounds(a: Limbs, r: Limbs)
    requires Summed(a) && IsKey(r)
    ensures InRoom(Convolve(a, r))
  {
    hide Mul;
    ProductBound(a, r.l0);
    ProductBound(a, r.l1);
    ProductBound(a, r.l2);
    ProductBound(a, r.l3);
    ProductBound(a, r.l4);
  }

  // x & 0x03ffffff and x >> 26.
  function Low(x: nat): nat { x % B }

  function High(x: nat): nat { x / B }

  lemma HighBounds(x: nat)
    ensures x == Low(x) + 0x400_0000 * High(x) && Low(x) < 0x400_0000
    ensures x < 0x400_0000_0000_0000 ==> High(x) < 0x1_0000_0000
    ensures x < 0xa1_0000_0000_0000 ==> High(x) < 0x2840_0000
    ensures x < 0x1_0000_0000 ==> High(x) < 64
  {
  }

  // The carries between the limbs, from the last one back to the first.
  function Carried(d: Limbs): Limbs {
    var d1 := d.l1 + High(d.l0);
    var d2 := d.l2 + High(d1);
    var d3 := d.l3 + High(d2);
    var d4 := d.l4 + High(d3);
    var h0 := Low(d.l0) + High(d4) * 5;
    Limbs(Low(h0), Low(d1) + High(h0), Low(d2), Low(d3), Low(d4))
  }

  // The multiples of the modulus that carrying drops.
  function Dropped(d: Limbs): nat {
    High(d.l4 + High(d.l3 + High(d.l2 + High(d.l1 + High(d.l0)))))
  }

  lemma CarriedValue(d: Limbs)
    ensures d.Value() == Carried(d).Value() + Dropped(d) * P
  {
  }

  lemma CarriedBounds(d: Limbs)
    requires InRoom(d)
    ensures Carried(d).Reduced()
  {
  }

  lemma MaskLow(x: nat)
    ensures And(x, 0x03ff_ffff) == x % B == Low(x)
  {
    SmallPowers();
    AndLow(x, 26);
  }

  // h += x, with the bit that ends a full block.
  method AddBlock(h: array<Word32>, x: Bytes, full: bool)
    requires h.Length == 5 && |x| == 16 && LimbsOf(h).Reduced()
    modifies h
    ensures Summed(LimbsOf(h))
    ensures LimbsOf(h).Value() == old(LimbsOf(h).Value()) + LE(x) + (if full then W4 else 0)
  {
    hide And, Or, Straddle, LE, WordsOf, High;
    var t := WordsOf(x);
    WordsValue(x);
    SplitValue(t);
    MaskLow(t.w0);
    MaskLow(Straddle(t.w0, t.w1, 26));
    MaskLow(Straddle(t.w1, t.w2, 20));
    MaskLow(Straddle(t.w2, t.w3, 14));
    AppendOne(t.w3 / 256);
    h[0] := h[0] + And(t.w0, 0x03ff_ffff);
    h[1] := h[1] + And(Straddle(t.w0, t.w1, 26), 0x03ff_ffff);
    h[2] := h[2] + And(Straddle(t.w1, t.w2, 20), 0x03ff_ffff);
    h[3] := h[3] + And(Straddle(t.w2, t.w3, 14), 0x03ff_ffff);
    h[4] := h[4] + Or(t.w3 / 256, if full then 0x100_0000 else 0);
  }

  lemma AppendOne(x: nat)
    requires x < 0x100_0000
    ensures Or(x, 0x100_0000) == x + 0x100_0000 && Or(x, 0) == x
  {
    SmallPowers();
    hide Or, Pow;
    OrParts(x, 1, 24);
    OrZero(x);
  }

  // The five sums fit 64 bits, with room for the carries between them.
  lemma SumsFit(a: Limbs, r: Limbs)
    requires Summed(a) && IsKey(r)
    ensures var d := Convolve(a, r);
      && Mul(a.l0, r.l0) + Mul(a.l1, r.l4) * 5 + Mul(a.l2, r.l3) * 5 + Mul(a.l3, r.l2) * 5 + Mul(a.l4, r.l1) * 5 == d.l0
      && Mul(a.l0, r.l1) + Mul(a.l1, r.l0) + Mul(a.l2, r.l4) * 5 + Mul(a.l3, r.l3) * 5 + Mul(a.l4, r.l2) * 5 == d.l1
      && Mul(a.l0, r.l2) + Mul(a.l1, r.l1) + Mul(a.l2, r.l0) + Mul(a.l3, r.l4) * 5 + Mul(a.l4, r.l3) * 5 == d.l2
      && Mul(a.l0, r.l3) + Mul(a.l1, r.l2) + Mul(a.l2, r.l1) + Mul(a.l3, r.l0) + Mul(a.l4, r.l4) * 5 == d.l3
      && Mul(a.l0, r.l4) + Mul(a.l1, r.l3) + Mul(a.l2, r.l2) + Mul(a.l3, r.l1) + Mul(a.l4, r.l0) == d.l4
      && InRoom(d)
      && d.l0 < 0x1_0000_0000_0000_0000 && d.l1 < 0x1_0000_0000_0000_0000 && d.l2 < 0x1_0000_0000_0000_0000
      && d.l3 < 0x1_0000_0000_0000_0000 && d.l4 < 0x1_0000_0000_0000_0000
  {
    hide Mul, InRoom;
    ConvolveBounds(a, r);
    Room(Convolve(a, r));
  }

  lemma LimbsAre(h: array<Word32>)
    requires h.Length == 5
    ensures LimbsOf(h) == Limbs(h[0], h[1], h[2], h[3], h[4])
  {
  }

  // h *= r, partially reduced.
  method MultiplyReduce(h: array<Word32>, r: Limbs)
    requires h.Length == 5 && Summed(LimbsOf(h)) && IsKey(r)
    modifies h
    ensures LimbsOf(h) == Carried(Convolve(old(LimbsOf(h)), r)) && LimbsOf(h).Reduced()
  {
    hide *;
    SumsFit(LimbsOf(h), r);
    CarriedBounds(Convolve(LimbsOf(h), r));
    LimbsAre(h);
    var r0, r1, r2, r3, r4 := r.l0, r.l1, r.l2, r.l3, r.l4;
    var d0: Word64 := Mul(h[0], r0) + Mul(h[1], r4) * 5 + Mul(h[2], r3) * 5 + Mul(h[3], r2) * 5 + Mul(h[4], r1) * 5;
    var d1: Word64 := Mul(h[0], r1) + Mul(h[1], r0) + Mul(h[2], r4) * 5 + Mul(h[3], r3) * 5 + Mul(h[4], r2) * 5;
    var d2: Word64 := Mul(h[0], r2) + Mul(h[1], r1) + Mul(h[2], r0) + Mul(h[3], r4) * 5 + Mul(h[4], r3) * 5;
    var d3: Word64 := Mul(h[0], r3) + Mul(h[1], r2) + Mul(h[2], r1) + Mul(h[3], r0) + Mul(h[4], r4) * 5;
    var d4: Word64 := Mul(h[0], r4) + Mul(h[1], r3) + Mul(h[2], r2) + Mul(h[3], r1) + Mul(h[4], r0);
    Carry(h, d0, d1, d2, d3, d4);
  }

  // Every carry out of a 64-bit sum fits 32 bits.
  method Carry(h: array<Word32>, d0: Word64, in1: Word64, in2: Word64, in3: Word64, in4: Word64)
    requires h.Length == 5
    requires InRoom(Limbs(d0, in1, in2, in3, in4))
    modifies h
    ensures LimbsOf(h) == Carried(Limbs(d0, in1, in2, in3, in4))
  {
    var d1, d2, d3, d4 := in1, in2, in3, in4;
    hide *;
    Room(Limbs(d0, in1, in2, in3, in4));
    HighBounds(d0);
    var c: Word32 := High(d0);
    d1 := d1 + c;
    HighBounds(d1);
    h[1] := Low(d1);
    c := High(d1);
    d2 := d2 + c;
    HighBounds(d2);
    h[2] := Low(d2);
    c := High(d2);
    d3 := d3 + c;
    HighBounds(d3);
    h[3] := Low(d3);
    c := High(d3);
    d4 := d4 + c;
    HighBounds(d4);
    h[4] := Low(d4);
    c := High(d4);
    h[0] := Low(d0) + c * 5;
    CarriedIs(Limbs(d0, in1, in2, in3, in4), d1, d2, d3, d4);
    HighBounds(h[0]);
    h[1] := h[1] + High(h[0]);
    h[0] := Low(h[0]);
    LimbsAre(h);
  }

  // What the sums leave room for.
  lemma Room(d: Limbs)
    requires InRoom(d)
    ensures d.l0 < 0x400_0000_0000_0000 && d.l1 + 0x1_0000_0000 < 0x400_0000_0000_0000
    ensures d.l2 + 0x1_0000_0000 < 0x400_0000_0000_0000 && d.l3 + 0x1_0000_0000 < 0x400_0000_0000_0000
    ensures d.l4 + 0x1_0000_0000 < 0xa1_0000_0000_0000
  {
  }

  lemma CarriedIs(d: Limbs, d1: nat, d2: nat, d3: nat, d4: nat)
    requires d1 == d.l1 + High(d.l0) && d2 == d.l2 + High(d1) && d3 == d.l3 + High(d2) && d4 == d.l4 + High(d3)
    ensures var h0 := Low(d.l0) + High(d4) * 5;
      Carried(d) == Limbs(Low(h0), Low(d1) + High(h0), Low(d2), Low(d3), Low(d4))
  {
    hide Low, High;
  }

  // ---- the end ----

  predicate Canonical(a: Limbs) {
    a.l0 < B && a.l1 < B && a.l2 < B && a.l3 < B && a.l4 < B
  }

  // Fully carries h. The second carry into h[1] cannot overflow it: there is one only when h[1] was reduced.
  method FullCarry(h: array<Word32>)
    requires h.Length == 5 && LimbsOf(h).Reduced()
    modifies h
    ensures Canonical(LimbsOf(h)) && ModP(LimbsOf(h).Value()) == old(ModP(LimbsOf(h).Value()))
  {
    hide Low, High, ModP;
    ghost var v := LimbsOf(h).Value();
    HighBounds(h[1]);
    h[2] := h[2] + High(h[1]);
    h[1] := Low(h[1]);
    HighBounds(h[2]);
    h[3] := h[3] + High(h[2]);
    h[2] := Low(h[2]);
    HighBounds(h[3]);
    h[4] := h[4] + High(h[3]);
    h[3] := Low(h[3]);
    HighBounds(h[4]);
    ghost var k := High(h[4]);
    h[0] := h[0] + High(h[4]) * 5;
    h[4] := Low(h[4]);
    HighBounds(h[0]);
    h[1] := h[1] + High(h[0]);
    h[0] := Low(h[0]);
    assert LimbsOf(h).Value() + k * P == v;
    DropMultiple(LimbsOf(h).Value(), k);
  }

  // x where the mask b is clear, y where it is set.
  function Select(x: Word32, y: Word32, b: Word32): nat {
    Or(And(x, W - 1 - b), And(y, b))
  }

  lemma SelectMeaning(x: Word32, y: Word32)
    ensures Select(x, y, 0) == x && Select(x, y, W - 1) == y
  {
    hide And, Or;
    FullMask(x);
    FullMask(y);
    OrZero(x);
    OrZero(y);
  }

  lemma FullMask(x: Word32)
    ensures And(x, W - 1) == x && And(x, 0) == 0
  {
    assert And(x, 0) == 0;
    hide And, Pow;
    SmallPowers();
    AndLow(x, 32);
  }

  // Selects h if h < p, and h - p otherwise.
  method SubtractModulus(h: array<Word32>)
    requires h.Length == 5 && Canonical(LimbsOf(h))
    modifies h
    ensures Canonical(LimbsOf(h)) && LimbsOf(h).Value() == ModP(old(LimbsOf(h).Value()))
  {
    hide Select;
    var t0, t1, t2, t3, t4, b := AddMinusP(h);
    SelectMeaning(h[0], t0);
    SelectMeaning(h[1], t1);
    SelectMeaning(h[2], t2);
    SelectMeaning(h[3], t3);
    SelectMeaning(h[4], t4);
    h[0] := Select(h[0], t0, b);
    h[1] := Select(h[1], t1, b);
    h[2] := Select(h[2], t2, b);
    h[3] := Select(h[3], t3, b);
    h[4] := Select(h[4], t4, b);
  }

  // Computes h + -p, whose last limb wraps around below zero when h < p, and the mask that tells.
  method AddMinusP(h: array<Word32>) returns (t0: Word32, t1: Word32, t2: Word32, t3: Word32, t4: Word32, b: Word32)
    requires h.Length == 5 && Canonical(LimbsOf(h))
    ensures b == if LimbsOf(h).Value() < P then 0 else W - 1
    ensures LimbsOf(h).Value() >= P ==>
      Limbs(t0, t1, t2, t3, t4).Value() == LimbsOf(h).Value() - P && Canonical(Limbs(t0, t1, t2, t3, t4))
  {
    hide *;
    LimbsAre(h);
    AddFive(LimbsOf(h));
    t0 := h[0] + 5;
    t1 := h[1] + High(t0);
    t0 := Low(t0);
    t2 := h[2] + High(t1);
    t1 := Low(t1);
    t3 := h[3] + High(t2);
    t2 := Low(t2);
    ghost var top := h[4] + High(t3);
    WrapMask(top);
    t4 := (h[4] + High(t3) - B) % W;
    t3 := Low(t3);
    b := (t4 / 0x8000_0000 - 1) % W;
    MinusP(LimbsOf(h).Value(), t0, t1, t2, t3, top, t4);
  }

  // The limbs of a + 5, all but the last one carried.
  lemma AddFive(a: Limbs)
    requires Canonical(a)
    ensures var x0 := a.l0 + 5; var x1 := a.l1 + High(x0); var x2 := a.l2 + High(x1); var x3 := a.l3 + High(x2);
      var x4 := a.l4 + High(x3);
      && x0 < 0x1_0000_0000 && x1 < 0x1_0000_0000 && x2 < 0x1_0000_0000 && x3 < 0x1_0000_0000 && x4 <= B
      && Low(x0) < 0x400_0000 && Low(x1) < 0x400_0000 && Low(x2) < 0x400_0000 && Low(x3) < 0x400_0000
      && Limbs(Low(x0), Low(x1), Low(x2), Low(x3), x4).Value() == a.Value() + 5
  {
    hide Low, High;
    var x0 := a.l0 + 5;
    CarryOne(x0);
    var x1 := a.l1 + High(x0);
    CarryOne(x1);
    var x2 := a.l2 + High(x1);
    CarryOne(x2);
    var x3 := a.l3 + High(x2);
    CarryOne(x3);
  }

  lemma CarryOne(x: nat)
    requires x < 2 * B
    ensures x == Low(x) + 0x400_0000 * High(x) && Low(x) < B && High(x) <= 1
  {
  }

  // The last limb without 2^26 wraps around exactly when it was below it, and its top bit tells.
  lemma WrapMask(top: nat)
    requires top <= B
    ensures W > 0
    ensures var t4 := (top - B) % W;
      && t4 < 0x1_0000_0000 && (top == B ==> t4 == 0)
      && (t4 / 0x8000_0000 - 1) % W == (if top < B then 0 else W - 1) < 0x1_0000_0000
  {
  }

  lemma MinusP(v: nat, t0: nat, t1: nat, t2: nat, t3: nat, top: nat, t4: nat)
    requires t0 < 0x400_0000 && t1 < 0x400_0000 && t2 < 0x400_0000 && t3 < 0x400_0000
    requires top <= B && Limbs(t0, t1, t2, t3, top).Value() == v + 5 && (top == B ==> t4 == 0)
    ensures v < P <==> top < B
    ensures v >= P ==> Limbs(t0, t1, t2, t3, t4).Value() == v - P && Canonical(Limbs(t0, t1, t2, t3, t4))
  {
  }

  // The last k bits of a limb from bit k on, and the next limb above them, cut to a word.
  function Merge(lo: Word32, hi: Word32, k: nat): nat
    requires k <= 26
  {
    PowPositive(2, k);
    Or(lo / Pow(2, k), hi * Pow(2, 26 - k) % W)
  }

  lemma MergeParts(lo: Word32, hi: Word32, k: nat, p: nat, q: nat, room: nat)
    requires k <= 26 && lo < B && p == Pow(2, k) && q == Pow(2, 26 - k) && p * q == B && room * q == W
    ensures p > 0 && room > 0 && Merge(lo, hi, k) == lo / p + hi % room * q < W
  {
    PowPositive(2, k);
    PositiveFactors(room, q, W);
    LowPart(0, hi, room, q, W);
    DivideBelow(lo, p, q);
    BelowProduct(hi % room, room, q);
    OrProduct(lo / p, hi % room, 26 - k, q);
    hide Or, Pow;
  }

  lemma BelowProduct(x: nat, room: nat, q: nat)
    requires x < room
    ensures x * q + q <= room * q
  {
    MulMonotonic(x + 1, room, q, q);
    assert (x + 1) * q == x * q + q;
  }

  lemma PositiveFactors(a: nat, b: nat, m: nat)
    requires a * b == m > 0
    ensures a > 0 && b > 0
  {
  }

  lemma OrProduct(a: nat, b: nat, k: nat, q: nat)
    requires q == Pow(2, k) && a < q
    ensures Or(a, b * q) == a + b * q
  {
    OrParts(a, b, k);
  }

  lemma DivideBelow(x: nat, p: nat, q: nat)
    requires p > 0 && x < p * q
    ensures x / p < q
  {
    Quotient(x, p);
    if x / p >= q { MulMonotonic(q, x / p, p, p); }
  }

  // The words that limbs merge into, if nothing but their topmost bits is lost.
  function Merged(a: Limbs): Limbs {
    Limbs(a.l0 + a.l1 % 64 * B, a.l1 / 64 + a.l2 % 4096 * 0x10_0000, a.l2 / 4096 + a.l3 % 0x4_0000 * 0x4000,
          a.l3 / 0x4_0000 + a.l4 % 0x100_0000 * 256, a.l4 / 0x100_0000)
  }

  lemma MergedValue(a: Limbs)
    requires Canonical(a)
    ensures var m := Merged(a);
      m.l0 + 0x1_0000_0000 * m.l1 + 0x1_0000_0000_0000_0000 * m.l2 + 0x1_0000_0000_0000_0000_0000_0000 * m.l3
        + m.l4 * W4 == a.Value()
  {
  }

  // h = h % 2^128, as four words.
  method Pack(h: array<Word32>)
    requires h.Length == 5 && Canonical(LimbsOf(h))
    modifies h
    ensures Words(h[0], h[1], h[2], h[3]).Value() == old(LimbsOf(h).Value()) % W4
  {
    ghost var a := LimbsOf(h);
    MergedValue(a);
    SmallPowers();
    assert Pow(2, 0) == 1;
    MergeParts(h[0], h[1], 0, 1, B, 64);
    MergeParts(h[1], h[2], 6, 64, 0x10_0000, 4096);
    MergeParts(h[2], h[3], 12, 4096, 0x4000, 0x4_0000);
    MergeParts(h[3], h[4], 18, 0x4_0000, 256, 0x100_0000);
    MergedWords(a, Merge(h[0], h[1], 0), Merge(h[1], h[2], 6), Merge(h[2], h[3], 12), Merge(h[3], h[4], 18));
    hide *;
    h[0] := Merge(h[0], h[1], 0);
    h[1] := Merge(h[1], h[2], 6);
    h[2] := Merge(h[2], h[3], 12);
    h[3] := Merge(h[3], h[4], 18);
  }

  lemma MergedWords(a: Limbs, w0: Word32, w1: Word32, w2: Word32, w3: Word32)
    requires Canonical(a)
    requires var m := Merged(a); w0 == m.l0 && w1 == m.l1 && w2 == m.l2 && w3 == m.l3
    ensures Words(w0, w1, w2, w3).Value() == a.Value() % W4
  {
    MergedValue(a);
    var v := Words(w0, w1, w2, w3).Value();
    assert v < W4 && v + Merged(a).l4 * W4 == a.Value();
    hide *;
    RemainderUnique(a.Value(), Merged(a).l4, v, W4);
  }

  // A sum of 128 bits.
  function Sum128(a: nat, b: nat): nat { (a + b) % W4 }

  // mac = (h + pad) % 2^128
  method AddPad(h: array<Word32>, pad: Words)
    requires h.Length == 5
    modifies h
    ensures WordsOfTag(h).Value() == Sum128(old(WordsOfTag(h).Value()), pad.Value())
  {
    hide Sum128, Words.Value;
    var d0: Word64 := h[0] + pad.w0;
    var d1: Word64 := h[1] + pad.w1 + d0 / W;
    var d2: Word64 := h[2] + pad.w2 + d1 / W;
    var d3: Word64 := h[3] + pad.w3 + d2 / W;
    CarriedSum(Words(h[0], h[1], h[2], h[3]), pad, d0, d1, d2, d3);
    h[0] := d0 % W;
    h[1] := d1 % W;
    h[2] := d2 % W;
    h[3] := d3 % W;
  }

  lemma CarriedSum(a: Words, b: Words, d0: nat, d1: nat, d2: nat, d3: nat)
    requires d0 == a.w0 + b.w0 && d1 == a.w1 + b.w1 + d0 / W && d2 == a.w2 + b.w2 + d1 / W
    requires d3 == a.w3 + b.w3 + d2 / W
    ensures Words(d0 % W, d1 % W, d2 % W, d3 % W).Value() == Sum128(a.Value(), b.Value())
  {
    hide *;
    PartsOf(d0);
    PartsOf(d1);
    PartsOf(d2);
    PartsOf(d3);
    var sum := Words(d0 % W, d1 % W, d2 % W, d3 % W);
    WordValue(a);
    WordValue(b);
    WordValue(sum);
    Limits();
    RemainderUnique(a.Value() + b.Value(), d3 / W, sum.Value(), W4);
    SumIs(a.Value(), b.Value());
  }

  lemma PartsOf(d: nat)
    ensures W > 0 && d % W < W && d == d % W + 0x1_0000_0000 * (d / W) && W == 0x1_0000_0000
  {
  }

  lemma WordValue(t: Words)
    ensures t.Value() == t.w0 + 0x1_0000_0000 * t.w1 + 0x1_0000_0000_0000_0000 * t.w2
      + 0x1_0000_0000_0000_0000_0000_0000 * t.w3
    ensures t.Value() < 0x1_0000_0000_0000_0000_0000_0000_0000_0000
  {
  }

  lemma Limits()
    ensures W4 == 0x1_0000_0000_0000_0000_0000_0000_0000_0000
  {
  }

  lemma SumIs(x: nat, y: nat)
    ensures W4 > 0 && Sum128(x, y) == (x + y) % W4
  {
  }

  function WordsOfTag(h: array<Word32>): Words
    requires h.Length == 5
    reads h
  {
    Words(h[0], h[1], h[2], h[3])
  }

  // ---- runs of blocks ----

  // The block of data at i, in sixteen bytes: the last one, if it is short, is ended by a one and filled with zeros.
  function BlockAt(data: Bytes, i: nat): Bytes
    requires i < |data|
  {
    if i + 16 > |data| then data[i..] + [1] + Zeros(15 - (|data| - i)) else data[i..i + 16]
  }

  function BlockEnd(data: Bytes, i: nat): nat { if i + 16 > |data| then |data| else i + 16 }

  lemma BlockValue(data: Bytes, i: nat)
    requires i < |data|
    ensures |BlockAt(data, i)| == 16
    ensures LE(BlockAt(data, i)) + (if i + 16 <= |data| then W4 else 0) == LE(data[i..BlockEnd(data, i)] + [1])
  {
    hide LE, Zeros, Pow;
    if i + 16 <= |data| {
      FullBlock(data[i..i + 16]);
    } else {
      assert data[i..|data|] == data[i..];
      LEAppend(data[i..] + [1], Zeros(15 - (|data| - i)));
      LEZeros(15 - (|data| - i));
    }
  }

  lemma FullBlock(block: Bytes)
    requires |block| == 16
    ensures LE(block) + W4 == LE(block + [1])
  {
    assert LE([1]) == 1;
    PowAdd(256, 2, 2);
    PowAdd(256, 4, 4);
    PowAdd(256, 8, 8);
    assert Pow(256, 16) == W4;
    hide LE, Pow;
    LEAppend(block, [1]);
  }

  // One more block.
  lemma AbsorbBlock(acc: nat, r: nat, data: Bytes, i: nat)
    requires i < |data| && i % 16 == 0
    ensures Absorb(acc, r, data[..BlockEnd(data, i)])
         == Next(Absorb(acc, r, data[..i]), LE(data[i..BlockEnd(data, i)] + [1]), r)
  {
    hide LE, Next, Absorb;
    var prefix := data[..BlockEnd(data, i)];
    assert LastBlock(prefix) == i;
    assert prefix[..i] == data[..i] && prefix[i..] == data[i..BlockEnd(data, i)];
    AbsorbLast(acc, r, prefix);
  }

  // The limbs after a block are congruent to the accumulator after it.
  lemma BlockStep(before: nat, acc: nat, block: nat, a: Limbs, r: Limbs)
    requires ModP(before) == ModP(acc) && a.Value() == before + block
    ensures ModP(Carried(Convolve(a, r)).Value()) == Next(acc, block, r.Value())
  {
    var d := Convolve(a, r);
    ConvolveValue(a, r);
    CarriedValue(d);
    hide Convolve, Carried, Excess, Dropped, Limbs.Value;
    DropMultiple(Carried(d).Value(), Dropped(d));
    DropMultiple(d.Value(), Excess(a, r));
    Congruent(before, acc, block, r.Value());
  }

  lemma DropMultiple(x: nat, k: nat)
    ensures ModP(x + k * P) == ModP(x)
  {
    AddMultiple(x, k, P);
  }

  lemma Congruent(x: nat, y: nat, block: nat, r: nat)
    requires ModP(x) == ModP(y)
    ensures ModP((x + block) * r) == Next(y, block, r)
  {
    var base := (ModP(x) + block) * r;
    Quotient(x, P);
    Quotient(y, P);
    Expand(x / P, x % P + block, r);
    Expand(y / P, y % P + block, r);
    AddMultiple(base, x / P * r, P);
    AddMultiple(base, y / P * r, P);
  }

  lemma Expand(q: nat, low: nat, r: nat)
    ensures (low + q * P) * r == low * r + q * r * P
  {
  }

  // r, clamped limb by limb.
  function KeyLimbs(key: Bytes): Limbs
    requires |key| == 32
  {
    var t := WordsOf(key[..16]);
    Limbs(And(t.w0, 0x03ff_ffff), And(Straddle(t.w0, t.w1, 26), 0x03ff_ff03), And(Straddle(t.w1, t.w2, 20), 0x03ff_c0ff),
          And(Straddle(t.w2, t.w3, 14), 0x03f0_3fff), And(t.w3 / 256, 0x000f_ffff))
  }

  lemma KeyMeaning(key: Bytes)
    requires |key| == 32
    ensures IsKey(KeyLimbs(key)) && KeyLimbs(key).Value() == Clamped(key)
  {
    var t := WordsOf(key[..16]);
    var limbs := Split(t);
    SmallPowers();
    WordsValue(key[..16]);
    SplitValue(t);
    ClampValue(limbs);
    ClampBounds(limbs);
    hide And, LE, Straddle, Pow, WordsOf;
    AndShort(t.w0, 0x03ff_ffff, 26);
    AndShort(Straddle(t.w0, t.w1, 26), 0x03ff_ff03, 26);
    AndShort(Straddle(t.w1, t.w2, 20), 0x03ff_c0ff, 26);
    AndShort(Straddle(t.w2, t.w3, 14), 0x03f0_3fff, 26);
  }

  // Absorbs the blocks of data, and leaves the tag in the first four words if they are the last ones.
  method Compress(h: array<Word32>, key: Bytes, data: Bytes, final: bool)
    requires h.Length == 5 && |key| == 32 && LimbsOf(h).Reduced()
    modifies h
    ensures !final ==> LimbsOf(h).Reduced()
    ensures !final ==> ModP(LimbsOf(h).Value()) == Absorb(old(ModP(LimbsOf(h).Value())), Clamped(key), data)
    ensures final ==> WordsOfTag(h).Value()
                        == Sum128(Absorb(old(ModP(LimbsOf(h).Value())), Clamped(key), data), LE(key[16..]))
  {
    var r := KeyLimbs(key);
    KeyMeaning(key);
    hide *;
    AbsorbAll(h, r, data);
    if final {
      Finish(h, key);
    }
  }

  method AbsorbAll(h: array<Word32>, r: Limbs, data: Bytes)
    requires h.Length == 5 && IsKey(r) && LimbsOf(h).Reduced()
    modifies h
    ensures LimbsOf(h).Reduced()
    ensures ModP(LimbsOf(h).Value()) == Absorb(old(ModP(LimbsOf(h).Value())), r.Value(), data)
  {
    hide *;
    ghost var acc := ModP(LimbsOf(h).Value());
    ModTwice(LimbsOf(h).Value());
    AbsorbBound(acc, r.Value(), data);
    assert data[..0] == [] && data[..|data|] == data;
    AbsorbNone(acc, r.Value());
    var i := 0;
    ghost var done := 0;
    while i < |data|
      invariant i % 16 == 0 && LimbsOf(h).Reduced()
      invariant done <= |data| && (i < |data| ==> done == i) && (i >= |data| ==> done == |data|)
      invariant ModP(LimbsOf(h).Value()) == ModP(Absorb(acc, r.Value(), data[..done]))
    {
      AbsorbOne(h, r, data, i, acc);
      BlockEndIs(data, i);
      done := BlockEnd(data, i);
      i := i + 16;
    }
  }

  lemma BlockEndIs(data: Bytes, i: nat)
    ensures BlockEnd(data, i) == if i + 16 > |data| then |data| else i + 16
  {
  }

  lemma {:induction false} AbsorbBound(acc: nat, r: nat, data: Bytes)
    requires acc < P
    ensures Absorb(acc, r, data) < P
    ensures ModP(Absorb(acc, r, data)) == Absorb(acc, r, data)
  {
    if data != [] {
      hide LE, ModP;
      var k := LastBlock(data);
      NextReduced(Absorb(acc, r, data[..k]), LE(data[k..] + [1]), r);
      AbsorbBound(acc, r, data[..k]);
    } else {
      assert ModP(acc) == acc;
    }
  }

  // Absorbing in pieces, when all but the last are whole blocks.
  lemma {:induction false} AbsorbAppend(acc: nat, r: nat, a: Bytes, b: Bytes)
    requires |a| % 16 == 0
    ensures Absorb(acc, r, a + b) == Absorb(Absorb(acc, r, a), r, b)
    decreases |b|
  {
    hide *;
    if b == [] {
      assert a + b == a;
      AbsorbNone(Absorb(acc, r, a), r);
    } else {
      var k := LastBlock(b);
      LastBlockAfter(a, b);
      assert (a + b)[..|a| + k] == a + b[..k] && (a + b)[|a| + k..] == b[k..];
      AbsorbLast(acc, r, a + b);
      AbsorbLast(Absorb(acc, r, a), r, b);
      AbsorbAppend(acc, r, a, b[..k]);
    }
  }

  lemma AbsorbLast(acc: nat, r: nat, data: Bytes)
    requires data != []
    ensures var k := LastBlock(data); Absorb(acc, r, data) == Next(Absorb(acc, r, data[..k]), LE(data[k..] + [1]), r)
  {
    hide LE, Next;
  }

  lemma LastBlockAfter(a: Bytes, b: Bytes)
    requires |a| % 16 == 0 && b != []
    ensures LastBlock(a + b) == |a| + LastBlock(b)
  {
  }

  lemma AbsorbNone(acc: nat, r: nat)
    ensures Absorb(acc, r, []) == acc
  {
  }

  lemma ModTwice(x: nat)
    ensures ModP(ModP(x)) == ModP(x) < P
  {
  }

  // The remainder and the pad.
  method Finish(h: array<Word32>, key: Bytes)
    requires h.Length == 5 && |key| == 32 && LimbsOf(h).Reduced()
    modifies h
    ensures WordsOfTag(h).Value() == Sum128(old(ModP(LimbsOf(h).Value())), LE(key[16..]))
  {
    WordsValue(key[16..]);
    PadLow(ModP(LimbsOf(h).Value()), LE(key[16..]));
    hide *;
    FullCarry(h);
    SubtractModulus(h);
    Pack(h);
    AddPad(h, WordsOf(key[16..]));
  }

  lemma PadLow(x: nat, s: nat)
    ensures Sum128(x % W4, s) == Sum128(x, s)
  {
    AddMultiple(x % W4 + s, x / W4, W4);
  }

  // One block.
  method AbsorbOne(h: array<Word32>, r: Limbs, data: Bytes, i: nat, ghost acc: nat)
    requires h.Length == 5 && IsKey(r) && LimbsOf(h).Reduced() && i % 16 == 0 && i < |data|
    requires ModP(LimbsOf(h).Value()) == ModP(Absorb(acc, r.Value(), data[..i]))
    modifies h
    ensures LimbsOf(h).Reduced()
    ensures ModP(LimbsOf(h).Value()) == ModP(Absorb(acc, r.Value(), data[..BlockEnd(data, i)]))
  {
    BlockValue(data, i);
    AbsorbBlock(acc, r.Value(), data, i);
    hide LE, Absorb, Convolve, Carried, IsKey, Limbs.Value, Limbs.Reduced, Summed, BlockAt, BlockEnd, ModP, Next;
    ghost var before := LimbsOf(h).Value();
    AddBlock(h, BlockAt(data, i), i + 16 <= |data|);
    BlockStep(before, Absorb(acc, r.Value(), data[..i]), LE(data[i..BlockEnd(data, i)] + [1]), LimbsOf(h), r);
    NextReduced(Absorb(acc, r.Value(), data[..i]), LE(data[i..BlockEnd(data, i)] + [1]), r.Value());
    MultiplyReduce(h, r);
  }

  lemma NextReduced(acc: nat, block: nat, r: nat)
    ensures ModP(Next(acc, block, r)) == Next(acc, block, r) < P
  {
    ModTwice((acc + block) * r);
  }

  // ---- the authenticator ----

  lemma WordBytes(w: Words)
    ensures ToLE(w.w0, 4) + ToLE(w.w1, 4) + ToLE(w.w2, 4) + ToLE(w.w3, 4) == ToLE(w.Value(), 16)
  {
    PowAdd(256, 2, 2);
    assert Pow(256, 4) == W;
    var a, b, c, d := ToLE(w.w0, 4), ToLE(w.w1, 4), ToLE(w.w2, 4), ToLE(w.w3, 4);
    hide LE, ToLE, Pow;
    LERoundTrip(w.w0, 4);
    LERoundTrip(w.w1, 4);
    LERoundTrip(w.w2, 4);
    LERoundTrip(w.w3, 4);
    LEAppend(c, d);
    LEAppend(b, c + d);
    LEAppend(a, b + (c + d));
    assert a + b + c + d == a + (b + (c + d));
    assert LE(a + b + c + d) == w.Value();
    ToLERoundTrip(a + b + c + d);
  }

  method TagBytes(h: array<Word32>) returns (mac: Bytes)
    requires h.Length == 5
    ensures mac == ToLE(WordsOfTag(h).Value(), 16)
  {
    WordBytes(WordsOfTag(h));
    mac := ToLE(h[0], 4) + ToLE(h[1], 4) + ToLE(h[2], 4) + ToLE(h[3], 4);
  }

  method NewState() returns (h: array<Word32>)
    ensures fresh(h) && h.Length == 5 && LimbsOf(h).Reduced() && ModP(LimbsOf(h).Value()) == 0
  {
    hide Limbs.Reduced, Limbs.Value, ModP;
    h := new Word32[5];
    h[0], h[1], h[2], h[3], h[4] := 0, 0, 0, 0, 0;
    assert LimbsOf(h) == Limbs(0, 0, 0, 0, 0);
    ZeroReduced();
    ZeroValue();
    ZeroRemainder();
  }

  lemma ZeroReduced()
    ensures Limbs(0, 0, 0, 0, 0).Reduced()
  {
  }

  lemma ZeroValue()
    ensures Limbs(0, 0, 0, 0, 0).Value() == 0
  {
  }

  lemma ZeroRemainder()
    ensures ModP(0) == 0
  {
  }

  // The tag of section 2.5 of RFC 7539.
  method Authenticate(key: Bytes, data: Bytes) returns (mac: Bytes)
    requires |key| == 32
    ensures mac == Tag(key, data)
  {
    hide *;
    var h := NewState();
    Compress(h, key, data, true);
    mac := TagBytes(h);
    TagOf(key, data);
  }

  lemma TagOf(key: Bytes, data: Bytes)
    requires |key| == 32
    ensures Tag(key, data) == ToLE(Sum128(Absorb(0, Clamped(key), data), LE(key[16..])), 16)
  {
  }

  // ---- authenticated encryption ----

  function Padded(data: Bytes): Bytes { data + Zeros(Fill(|data|)) }

  function Fill(n: nat): nat { if n % 16 == 0 then 0 else 16 - n % 16 }

  // What section 2.8 of RFC 7539 authenticates: both texts padded to whole blocks, and their lengths.
  function AeadInput(ad: Bytes, text: Bytes): Bytes {
    Padded(ad) + Padded(text) + (ToLE(|ad|, 8) + ToLE(|text|, 8))
  }

  // Both texts in full, with zeros up to the next multiple of 16, and behind them their lengths in eight bytes each.
  lemma AeadLayout(ad: Bytes, text: Bytes)
    requires |ad| < 0x1_0000_0000_0000_0000 && |text| < 0x1_0000_0000_0000_0000
    ensures var all, a, b := AeadInput(ad, text), (|ad| + 15) / 16 * 16, (|text| + 15) / 16 * 16;
      && |all| == a + b + 16 && |ad| <= a && |text| <= b
      && all[..|ad|] == ad && all[a..a + |text|] == text
      && (forall i :: |ad| <= i < a || a + |text| <= i < a + b ==> all[i] == 0)
      && LE(all[a + b..a + b + 8]) == |ad| && LE(all[a + b + 8..]) == |text|
  {
    hide *;
    var a, b, c, d := Padded(ad), Padded(text), ToLE(|ad|, 8), ToLE(|text|, 8);
    PaddedLayout(ad);
    PaddedLayout(text);
    Lengths(|ad|);
    Lengths(|text|);
    AeadParts(ad, text);
    Sections(a, b, c, d);
    var all := AeadInput(ad, text);
    SectionOf(all, 0, a, |ad|);
    SectionOf(all, |a|, b, |text|);
  }

  lemma AeadParts(ad: Bytes, text: Bytes)
    ensures AeadInput(ad, text) == Padded(ad) + Padded(text) + (ToLE(|ad|, 8) + ToLE(|text|, 8))
  {
    hide Padded, ToLE;
  }

  lemma Sections(a: Bytes, b: Bytes, c: Bytes, d: Bytes)
    ensures var all, i, j := a + b + (c + d), |a| + |b|, |a| + |b| + |c|;
      && |all| == j + |d| && all[0..|a|] == a && all[|a|..i] == b && all[i..j] == c && all[j..] == d
  {
  }

  // A section, which starts with some data and is filled up with zeros.
  lemma SectionOf(all: Bytes, at: nat, a: Bytes, n: nat)
    requires n <= |a| && at + |a| <= |all| && all[at..at + |a|] == a && forall i :: n <= i < |a| ==> a[i] == 0
    ensures all[at..at + n] == a[..n] && forall i :: at + n <= i < at + |a| ==> all[i] == 0
  {
    forall i | at <= i < at + |a| ensures all[i] == a[i - at] {
      assert all[at..at + |a|][i - at] == all[i];
    }
  }

  lemma PaddedLayout(data: Bytes)
    ensures var a := Padded(data);
      && |a| == (|data| + 15) / 16 * 16 && |data| <= |a| && a[..|data|] == data
      && forall i :: |data| <= i < |a| ==> a[i] == 0
  {
    ZerosAt(Fill(|data|));
    hide Zeros;
  }

  lemma {:induction false} ZerosAt(count: nat)
    ensures forall i :: 0 <= i < count ==> Zeros(count)[i] == 0
  {
    if count > 0 { ZerosAt(count - 1); }
  }

  lemma Lengths(n: nat)
    requires n < 0x1_0000_0000_0000_0000
    ensures LE(ToLE(n, 8)) == n
  {
    hide LE, ToLE, Pow;
    assert Pow(256, 8) == 0x1_0000_0000_0000_0000 by {
      PowAdd(256, 2, 2);
      PowAdd(256, 4, 4);
      SmallPower256();
    }
    LERoundTrip(n, 8);
  }

  lemma SmallPower256()
    ensures Pow(256, 2) == 65536
  {
  }

  // Absorbs data padded to whole blocks.
  method CompressPadded(h: array<Word32>, key: Bytes, data: Bytes)
    requires h.Length == 5 && |key| == 32 && LimbsOf(h).Reduced()
    modifies h
    ensures LimbsOf(h).Reduced()
    ensures ModP(LimbsOf(h).Value()) == Absorb(old(ModP(LimbsOf(h).Value())), Clamped(key), Padded(data))
  {
    var whole := |data| / 16 * 16;
    PaddedParts(data, whole);
    hide *;
    ghost var acc := ModP(LimbsOf(h).Value());
    Compress(h, key, data[..whole], false);
    if |data| % 16 != 0 {
      var pad := data[whole..] + Zeros(16 - |data| % 16);
      AbsorbAppend(acc, Clamped(key), data[..whole], pad);
      Compress(h, key, pad, false);
    }
  }

  lemma PaddedParts(data: Bytes, whole: nat)
    requires whole == |data| / 16 * 16
    ensures whole <= |data| && whole % 16 == 0
    ensures |data| % 16 != 0 ==> Padded(data) == data[..whole] + (data[whole..] + Zeros(16 - |data| % 16))
    ensures |data| % 16 == 0 ==> Padded(data) == data[..whole]
  {
    hide *;
    WholePart(|data|, whole);
    Join(data, whole, Fill(|data|));
    PaddedIs(data);
  }

  lemma PaddedIs(data: Bytes)
    ensures Padded(data) == data + Zeros(Fill(|data|))
  {
  }

  lemma Join(data: Bytes, k: nat, fill: nat)
    requires k <= |data|
    ensures data + Zeros(fill) == data[..k] + (data[k..] + Zeros(fill))
    ensures k == |data| && fill == 0 ==> data + Zeros(fill) == data[..k]
  {
    assert data == data[..k] + data[k..];
  }

  lemma WholePart(n: nat, whole: nat)
    requires whole == n / 16 * 16
    ensures whole <= n && whole % 16 == 0 && (n % 16 == 0 ==> whole == n)
    ensures Fill(n) == if n % 16 == 0 then 0 else 16 - n % 16
  {
  }

  // The tag that encryption appends to a text and decryption expects after it.
  method AeadTag(macKey: Bytes, ad: Bytes, text: Bytes) returns (mac: Bytes)
    requires |macKey| == 32
    ensures mac == Tag(macKey, AeadInput(ad, text))
  {
    ghost var r := Clamped(macKey);
    hide Clamped, Padded, Absorb;
    PaddedWhole(ad, text);
    AbsorbAppend(0, r, Padded(ad), Padded(text));
    AbsorbAppend(0, r, Padded(ad) + Padded(text), ToLE(|ad|, 8) + ToLE(|text|, 8));
    TagOf(macKey, AeadInput(ad, text));
    InputOf(ad, text);
    hide *;
    var h := NewState();
    CompressPadded(h, macKey, ad);
    CompressPadded(h, macKey, text);
    Compress(h, macKey, ToLE(|ad|, 8) + ToLE(|text|, 8), true);
    mac := TagBytes(h);
  }

  lemma InputOf(ad: Bytes, text: Bytes)
    ensures AeadInput(ad, text) == Padded(ad) + Padded(text) + (ToLE(|ad|, 8) + ToLE(|text|, 8))
  {
  }

  lemma PaddedWhole(ad: Bytes, text: Bytes)
    ensures |Padded(ad)| % 16 == 0 && |Padded(ad) + Padded(text)| % 16 == 0
  {
    FillWhole(|ad|);
    FillWhole(|text|);
    hide Fill;
  }

  lemma FillWhole(n: nat)
    ensures (n + Fill(n)) % 16 == 0
  {
  }
}
