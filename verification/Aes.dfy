/**
 The AES-256 block cipher as it encrypts in place: a state of four columns and a key of eight words that is expanded,
 and for decryption taken back, while the rounds are going on.
 */
module Aes {

  // ---- the tables ----

  // One of sixteen bytes, by a nibble.
  function Choose(n: bv8, v0: bv8, v1: bv8, v2: bv8, v3: bv8, v4: bv8, v5: bv8, v6: bv8, v7: bv8,
                  v8: bv8, v9: bv8, v10: bv8, v11: bv8, v12: bv8, v13: bv8, v14: bv8, v15: bv8): bv8
  {
    if n < 8 then
      if n < 4 then (if n < 2 then (if n < 1 then v0 else v1) else if n < 3 then v2 else v3)
      else (if n < 6 then (if n < 5 then v4 else v5) else if n < 7 then v6 else v7)
    else if n < 12 then (if n < 10 then (if n < 9 then v8 else v9) else if n < 11 then v10 else v11)
    else (if n < 14 then (if n < 13 then v12 else v13) else if n < 15 then v14 else v15)
  }

  function Sbox(x: bv8): bv8 {
    var n := x & 0x0f;
    if x < 0x10 then Choose(n, 0x63, 0x7c, 0x77, 0x7b, 0xf2, 0x6b, 0x6f, 0xc5, 0x30, 0x01, 0x67, 0x2b, 0xfe, 0xd7, 0xab, 0x76)
    else if x < 0x20 then Choose(n, 0xca, 0x82, 0xc9, 0x7d, 0xfa, 0x59, 0x47, 0xf0, 0xad, 0xd4, 0xa2, 0xaf, 0x9c, 0xa4, 0x72, 0xc0)
    else if x < 0x30 then Choose(n, 0xb7, 0xfd, 0x93, 0x26, 0x36, 0x3f, 0xf7, 0xcc, 0x34, 0xa5, 0xe5, 0xf1, 0x71, 0xd8, 0x31, 0x15)
    else if x < 0x40 then Choose(n, 0x04, 0xc7, 0x23, 0xc3, 0x18, 0x96, 0x05, 0x9a, 0x07, 0x12, 0x80, 0xe2, 0xeb, 0x27, 0xb2, 0x75)
    else if x < 0x50 then Choose(n, 0x09, 0x83, 0x2c, 0x1a, 0x1b, 0x6e, 0x5a, 0xa0, 0x52, 0x3b, 0xd6, 0xb3, 0x29, 0xe3, 0x2f, 0x84)
    else if x < 0x60 then Choose(n, 0x53, 0xd1, 0x00, 0xed, 0x20, 0xfc, 0xb1, 0x5b, 0x6a, 0xcb, 0xbe, 0x39, 0x4a, 0x4c, 0x58, 0xcf)
    else if x < 0x70 then Choose(n, 0xd0, 0xef, 0xaa, 0xfb, 0x43, 0x4d, 0x33, 0x85, 0x45, 0xf9, 0x02, 0x7f, 0x50, 0x3c, 0x9f, 0xa8)
    else if x < 0x80 then Choose(n, 0x51, 0xa3, 0x40, 0x8f, 0x92, 0x9d, 0x38, 0xf5, 0xbc, 0xb6, 0xda, 0x21, 0x10, 0xff, 0xf3, 0xd2)
    else if x < 0x90 then Choose(n, 0xcd, 0x0c, 0x13, 0xec, 0x5f, 0x97, 0x44, 0x17, 0xc4, 0xa7, 0x7e, 0x3d, 0x64, 0x5d, 0x19, 0x73)
    else if x < 0xa0 then Choose(n, 0x60, 0x81, 0x4f, 0xdc, 0x22, 0x2a, 0x90, 0x88, 0x46, 0xee, 0xb8, 0x14, 0xde, 0x5e, 0x0b, 0xdb)
    else if x < 0xb0 then Choose(n, 0xe0, 0x32, 0x3a, 0x0a, 0x49, 0x06, 0x24, 0x5c, 0xc2, 0xd3, 0xac, 0x62, 0x91, 0x95, 0xe4, 0x79)
    else if x < 0xc0 then Choose(n, 0xe7, 0xc8, 0x37, 0x6d, 0x8d, 0xd5, 0x4e, 0xa9, 0x6c, 0x56, 0xf4, 0xea, 0x65, 0x7a, 0xae, 0x08)
    else if x < 0xd0 then Choose(n, 0xba, 0x78, 0x25, 0x2e, 0x1c, 0xa6, 0xb4, 0xc6, 0xe8, 0xdd, 0x74, 0x1f, 0x4b, 0xbd, 0x8b, 0x8a)
    else if x < 0xe0 then Choose(n, 0x70, 0x3e, 0xb5, 0x66, 0x48, 0x03, 0xf6, 0x0e, 0x61, 0x35, 0x57, 0xb9, 0x86, 0xc1, 0x1d, 0x9e)
    else if x < 0xf0 then Choose(n, 0xe1, 0xf8, 0x98, 0x11, 0x69, 0xd9, 0x8e, 0x94, 0x9b, 0x1e, 0x87, 0xe9, 0xce, 0x55, 0x28, 0xdf)
    else Choose(n, 0x8c, 0xa1, 0x89, 0x0d, 0xbf, 0xe6, 0x42, 0x68, 0x41, 0x99, 0x2d, 0x0f, 0xb0, 0x54, 0xbb, 0x16)
  }

  function InvSbox(x: bv8): bv8 {
    var n := x & 0x0f;
    if x < 0x10 then Choose(n, 0x52, 0x09, 0x6a, 0xd5, 0x30, 0x36, 0xa5, 0x38, 0xbf, 0x40, 0xa3, 0x9e, 0x81, 0xf3, 0xd7, 0xfb)
    else if x < 0x20 then Choose(n, 0x7c, 0xe3, 0x39, 0x82, 0x9b, 0x2f, 0xff, 0x87, 0x34, 0x8e, 0x43, 0x44, 0xc4, 0xde, 0xe9, 0xcb)
    else if x < 0x30 then Choose(n, 0x54, 0x7b, 0x94, 0x32, 0xa6, 0xc2, 0x23, 0x3d, 0xee, 0x4c, 0x95, 0x0b, 0x42, 0xfa, 0xc3, 0x4e)
    else if x < 0x40 then Choose(n, 0x08, 0x2e, 0xa1, 0x66, 0x28, 0xd9, 0x24, 0xb2, 0x76, 0x5b, 0xa2, 0x49, 0x6d, 0x8b, 0xd1, 0x25)
    else if x < 0x50 then Choose(n, 0x72, 0xf8, 0xf6, 0x64, 0x86, 0x68, 0x98, 0x16, 0xd4, 0xa4, 0x5c, 0xcc, 0x5d, 0x65, 0xb6, 0x92)
    else if x < 0x60 then Choose(n, 0x6c, 0x70, 0x48, 0x50, 0xfd, 0xed, 0xb9, 0xda, 0x5e, 0x15, 0x46, 0x57, 0xa7, 0x8d, 0x9d, 0x84)
    else if x < 0x70 then Choose(n, 0x90, 0xd8, 0xab, 0x00, 0x8c, 0xbc, 0xd3, 0x0a, 0xf7, 0xe4, 0x58, 0x05, 0xb8, 0xb3, 0x45, 0x06)
    else if x < 0x80 then Choose(n, 0xd0, 0x2c, 0x1e, 0x8f, 0xca, 0x3f, 0x0f, 0x02, 0xc1, 0xaf, 0xbd, 0x03, 0x01, 0x13, 0x8a, 0x6b)
    else if x < 0x90 then Choose(n, 0x3a, 0x91, 0x11, 0x41, 0x4f, 0x67, 0xdc, 0xea, 0x97, 0xf2, 0xcf, 0xce, 0xf0, 0xb4, 0xe6, 0x73)
    else if x < 0xa0 then Choose(n, 0x96, 0xac, 0x74, 0x22, 0xe7, 0xad, 0x35, 0x85, 0xe2, 0xf9, 0x37, 0xe8, 0x1c, 0x75, 0xdf, 0x6e)
    else if x < 0xb0 then Choose(n, 0x47, 0xf1, 0x1a, 0x71, 0x1d, 0x29, 0xc5, 0x89, 0x6f, 0xb7, 0x62, 0x0e, 0xaa, 0x18, 0xbe, 0x1b)
    else if x < 0xc0 then Choose(n, 0xfc, 0x56, 0x3e, 0x4b, 0xc6, 0xd2, 0x79, 0x20, 0x9a, 0xdb, 0xc0, 0xfe, 0x78, 0xcd, 0x5a, 0xf4)
    else if x < 0xd0 then Choose(n, 0x1f, 0xdd, 0xa8, 0x33, 0x88, 0x07, 0xc7, 0x31, 0xb1, 0x12, 0x10, 0x59, 0x27, 0x80, 0xec, 0x5f)
    else if x < 0xe0 then Choose(n, 0x60, 0x51, 0x7f, 0xa9, 0x19, 0xb5, 0x4a, 0x0d, 0x2d, 0xe5, 0x7a, 0x9f, 0x93, 0xc9, 0x9c, 0xef)
    else if x < 0xf0 then Choose(n, 0xa0, 0xe0, 0x3b, 0x4d, 0xae, 0x2a, 0xf5, 0xb0, 0xc8, 0xeb, 0xbb, 0x3c, 0x83, 0x53, 0x99, 0x61)
    else Choose(n, 0x17, 0x2b, 0x04, 0x7e, 0xba, 0x77, 0xd6, 0x26, 0xe1, 0x69, 0x14, 0x63, 0x55, 0x21, 0x0c, 0x7d)
  }

  lemma InvSboxSbox(x: bv8)
    ensures InvSbox(Sbox(x)) == x
  {
    hide *;
    if x < 0x40 { InvSbox0(x); } else if x < 0x80 { InvSbox1(x); } else if x < 0xc0 { InvSbox2(x); } else { InvSbox3(x); }
  }

  lemma InvSbox0(x: bv8)
    requires x < 0x40
    ensures InvSbox(Sbox(x)) == x
  {
  }

  lemma InvSbox1(x: bv8)
    requires 0x40 <= x < 0x80
    ensures InvSbox(Sbox(x)) == x
  {
  }

  lemma InvSbox2(x: bv8)
    requires 0x80 <= x < 0xc0
    ensures InvSbox(Sbox(x)) == x
  {
  }

  lemma InvSbox3(x: bv8)
    requires 0xc0 <= x
    ensures InvSbox(Sbox(x)) == x
  {
  }

  // ---- multiplication by x in GF(2^8) ----

  // The macro on promoted bytes: the bit shifted out above the byte is kept.
  function XtInt(x: bv32): bv32 { (x << 1) ^ (((x >> 7) & 1) * 0x1b) }

  function Truncated(x: bv32): bv8 { (x & 0xff) as bv8 }

  function Xt(x: bv8): bv8 { Truncated(XtInt(x as bv32)) }

  // Applied twice before it is cut to a byte.
  function XtXt(x: bv8): bv8 { Truncated(XtInt(XtInt(x as bv32))) }

  lemma XtTwice(x: bv8)
    ensures XtXt(x) == Xt(Xt(x))
  {
  }

  // Sums of bytes. Proofs leave their bits aside and use the laws below.
  function Sum2(x: bv8, y: bv8): bv8 { x ^ y }

  function Sum3(x: bv8, y: bv8, z: bv8): bv8 { x ^ y ^ z }

  function Sum4(x: bv8, y: bv8, z: bv8, t: bv8): bv8 { x ^ y ^ z ^ t }

  function Sum5(x: bv8, y: bv8, z: bv8, t: bv8, u: bv8): bv8 { x ^ y ^ z ^ t ^ u }

  // The product in GF(2^8), bit by bit of the second factor.
  function Product(x: bv8, y: bv8): bv8 {
    Sum2(Sum4(Bit(x, y), Bit(Xt(x), y >> 1), Bit(Xt(Xt(x)), y >> 2), Bit(Xt(Xt(Xt(x))), y >> 3)),
         HighProduct(Xt(Xt(Xt(Xt(x)))), y >> 4))
  }

  function HighProduct(x: bv8, y: bv8): bv8 {
    Sum4(Bit(x, y), Bit(Xt(x), y >> 1), Bit(Xt(Xt(x)), y >> 2), Bit(Xt(Xt(Xt(x))), y >> 3))
  }

  function Bit(x: bv8, y: bv8): bv8 { x * (y & 1) }

  // The affine map of section 5.1.1 of FIPS 197, and its inverse.
  function Affine(y: bv8): bv8 {
    y ^ ((y << 1) | (y >> 7)) ^ ((y << 2) | (y >> 6)) ^ ((y << 3) | (y >> 5)) ^ ((y << 4) | (y >> 4)) ^ 0x63
  }

  function InvAffine(s: bv8): bv8 { ((s << 1) | (s >> 7)) ^ ((s << 3) | (s >> 5)) ^ ((s << 6) | (s >> 2)) ^ 0x05 }

  // The table is the one of section 5.1.1 of FIPS 197: the affine map of the inverse, zero standing for its own.
  lemma SboxMeaning(x: bv8)
    ensures var y := InvAffine(Sbox(x));
      Affine(y) == Sbox(x) && (if x == 0 then y == 0 else Product(x, y) == 1)
  {
    hide *;
    AffineInverse(Sbox(x));
    if x < 0x40 { Sbox0(x); } else if x < 0x80 { Sbox1(x); } else if x < 0xc0 { Sbox2(x); } else if x < 0xe0 { Sbox3(x); }
    else { Sbox4(x); }
  }

  lemma AffineInverse(z: bv8)
    ensures Affine(InvAffine(z)) == z
  {
  }

  lemma Sbox0(x: bv8)
    requires x < 0x40
    ensures if x == 0 then InvAffine(Sbox(x)) == 0 else Product(x, InvAffine(Sbox(x))) == 1
  {
  }

  lemma Sbox1(x: bv8)
    requires 0x40 <= x < 0x80
    ensures Product(x, InvAffine(Sbox(x))) == 1
  {
  }

  lemma Sbox2(x: bv8)
    requires 0x80 <= x < 0xc0
    ensures Product(x, InvAffine(Sbox(x))) == 1
  {
  }

  lemma Sbox3(x: bv8)
    requires 0xc0 <= x < 0xe0
    ensures Product(x, InvAffine(Sbox(x))) == 1
  {
  }

  lemma Sbox4(x: bv8)
    requires 0xe0 <= x
    ensures Product(x, InvAffine(Sbox(x))) == 1
  {
  }

  lemma XtLinear(x: bv8, y: bv8)
    ensures Xt(Sum2(x, y)) == Sum2(Xt(x), Xt(y))
  {
    XtXor(x, y);
    hide Xt;
  }

  lemma XtXor(x: bv8, y: bv8)
    ensures Xt(x ^ y) == Xt(x) ^ Xt(y)
  {
  }

  lemma XtLinear4(x: bv8, y: bv8, z: bv8, t: bv8)
    ensures Xt(Sum4(x, y, z, t)) == Sum4(Xt(x), Xt(y), Xt(z), Xt(t))
  {
    hide Xt, Sum2, Sum4;
    Pairs(x, y, z, t);
    Pairs(Xt(x), Xt(y), Xt(z), Xt(t));
    XtLinear(Sum2(x, y), Sum2(z, t));
    XtLinear(x, y);
    XtLinear(z, t);
  }

  lemma Pairs(x: bv8, y: bv8, z: bv8, t: bv8)
    ensures Sum4(x, y, z, t) == Sum2(Sum2(x, y), Sum2(z, t))
  {
  }

  // The round constant a step back.
  function InvXt(x: bv8): bv8 { (x >> 1) ^ ((x & 1) * 0x8d) }

  lemma InvXtXt(x: bv8)
    ensures InvXt(Xt(x)) == x
  {
  }

  // ---- columns ----

  datatype Word = Word(b0: bv8, b1: bv8, b2: bv8, b3: bv8)

  function Xor(v: Word, w: Word): Word { Word(v.b0 ^ w.b0, v.b1 ^ w.b1, v.b2 ^ w.b2, v.b3 ^ w.b3) }

  lemma XorTwice(v: Word, w: Word)
    ensures Xor(Xor(v, w), w) == v
  {
  }

  function SubWord(w: Word): Word { Word(Sbox(w.b0), Sbox(w.b1), Sbox(w.b2), Sbox(w.b3)) }

  function InvSubWord(w: Word): Word { Word(InvSbox(w.b0), InvSbox(w.b1), InvSbox(w.b2), InvSbox(w.b3)) }

  function RotWord(w: Word): Word { Word(w.b1, w.b2, w.b3, w.b0) }

  // A byte of a mixed column, from the byte, its two successors and its predecessor.
  function MixByte(a: bv8, b: bv8, c: bv8, d: bv8): bv8 { Sum3(a, Sum4(a, b, c, d), Xt(Sum2(a, b))) }

  function MixColumn(w: Word): Word {
    Word(MixByte(w.b0, w.b1, w.b2, w.b3), MixByte(w.b1, w.b2, w.b3, w.b0),
         MixByte(w.b2, w.b3, w.b0, w.b1), MixByte(w.b3, w.b0, w.b1, w.b2))
  }

  // A byte of an unmixed column, from the byte, the sum e of the column, and its sums with the opposite byte and
  // with its successor.
  function Unmixed(a: bv8, e: bv8, opposite: bv8, pair: bv8): bv8 {
    Sum3(a, Sum2(e, XtXt(Sum2(Xt(e), opposite))), Xt(pair))
  }

  function UnmixByte(a: bv8, b: bv8, c: bv8, d: bv8): bv8 { Unmixed(a, Sum4(a, b, c, d), Sum2(a, c), Sum2(a, b)) }

  function UnmixColumn(w: Word): Word {
    Word(UnmixByte(w.b0, w.b1, w.b2, w.b3), UnmixByte(w.b1, w.b2, w.b3, w.b0),
         UnmixByte(w.b2, w.b3, w.b0, w.b1), UnmixByte(w.b3, w.b0, w.b1, w.b2))
  }

  // A row of the matrix of section 5.1.3 of FIPS 197: 2, 3, 1 and 1.
  function MatrixRow(a: bv8, b: bv8, c: bv8, d: bv8): bv8 { Sum5(Xt(a), Xt(b), b, c, d) }

  lemma MixByteRow(a: bv8, b: bv8, c: bv8, d: bv8)
    ensures MixByte(a, b, c, d) == MatrixRow(a, b, c, d)
  {
    XtLinear(a, b);
    RowSum(a, b, c, d, Xt(a), Xt(b));
    hide Xt, Sum2, Sum3, Sum4, Sum5;
  }

  lemma RowSum(a: bv8, b: bv8, c: bv8, d: bv8, x: bv8, y: bv8)
    ensures Sum3(a, Sum4(a, b, c, d), Sum2(x, y)) == Sum5(x, y, b, c, d)
  {
  }

  // The sums of mixed bytes.
  lemma MixedSums(a: bv8, b: bv8, c: bv8, d: bv8)
    ensures var m0, m1, m2, m3 := MatrixRow(a, b, c, d), MatrixRow(b, c, d, a), MatrixRow(c, d, a, b),
        MatrixRow(d, a, b, c);
      && Sum4(m0, m1, m2, m3) == Sum4(a, b, c, d)
      && Sum2(m0, m2) == Sum2(Sum4(Xt(a), Xt(b), Xt(c), Xt(d)), Sum2(a, c))
      && Sum2(m0, m1) == Sum4(Xt(a), Xt(c), a, b)
  {
    hide Xt, Sum2, Sum3, Sum4, Sum5;
    ColumnSum(a, b, c, d, Xt(a), Xt(b), Xt(c), Xt(d));
    OppositeSum(a, b, c, d, Xt(a), Xt(b), Xt(c), Xt(d));
    PairSum(a, b, c, d, Xt(a), Xt(b), Xt(c));
  }

  lemma ColumnSum(a: bv8, b: bv8, c: bv8, d: bv8, x: bv8, y: bv8, z: bv8, t: bv8)
    ensures Sum4(Sum5(x, y, b, c, d), Sum5(y, z, c, d, a), Sum5(z, t, d, a, b), Sum5(t, x, a, b, c)) == Sum4(a, b, c, d)
  {
    ColumnXor(a, b, c, d, x, y, z, t, Sum5(x, y, b, c, d), Sum5(y, z, c, d, a), Sum5(z, t, d, a, b), Sum5(t, x, a, b, c));
  }

  lemma ColumnXor(a: bv8, b: bv8, c: bv8, d: bv8, x: bv8, y: bv8, z: bv8, t: bv8, m0: bv8, m1: bv8, m2: bv8, m3: bv8)
    requires m0 == x ^ y ^ b ^ c ^ d && m1 == y ^ z ^ c ^ d ^ a && m2 == z ^ t ^ d ^ a ^ b && m3 == t ^ x ^ a ^ b ^ c
    ensures m0 ^ m1 ^ m2 ^ m3 == a ^ b ^ c ^ d
  {
  }

  lemma OppositeSum(a: bv8, b: bv8, c: bv8, d: bv8, x: bv8, y: bv8, z: bv8, t: bv8)
    ensures Sum2(Sum5(x, y, b, c, d), Sum5(z, t, d, a, b)) == Sum2(Sum4(x, y, z, t), Sum2(a, c))
  {
    OppositeFlat(a, b, c, d, x, y, z, t);
    Flat(a, c, x, y, z, t);
    hide Sum2, Sum4, Sum5, Sum6;
  }

  function Sum6(x: bv8, y: bv8, z: bv8, t: bv8, u: bv8, v: bv8): bv8 { x ^ y ^ z ^ t ^ u ^ v }

  lemma OppositeFlat(a: bv8, b: bv8, c: bv8, d: bv8, x: bv8, y: bv8, z: bv8, t: bv8)
    ensures Sum2(Sum5(x, y, b, c, d), Sum5(z, t, d, a, b)) == Sum6(x, y, z, t, a, c)
  {
  }

  lemma Flat(a: bv8, c: bv8, x: bv8, y: bv8, z: bv8, t: bv8)
    ensures Sum2(Sum4(x, y, z, t), Sum2(a, c)) == Sum6(x, y, z, t, a, c)
  {
  }

  lemma PairSum(a: bv8, b: bv8, c: bv8, d: bv8, x: bv8, y: bv8, z: bv8)
    ensures Sum2(Sum5(x, y, b, c, d), Sum5(y, z, c, d, a)) == Sum4(x, z, a, b)
  {
  }

  // The first byte of a mixed column comes back.
  lemma UnmixedBack(a: bv8, b: bv8, c: bv8, d: bv8)
    ensures var x, y, z, t := Xt(a), Xt(b), Xt(c), Xt(d);
      Unmixed(MatrixRow(a, b, c, d), Sum4(a, b, c, d), Sum2(Sum4(x, y, z, t), Sum2(a, c)), Sum4(x, z, a, b)) == a
  {
    hide Xt, XtXt, Sum2, Sum3, Sum4, Sum5;
    var x, y, z, t := Xt(a), Xt(b), Xt(c), Xt(d);
    XtLinear4(a, b, c, d);
    Twice(Sum4(x, y, z, t), Sum2(a, c));
    XtTwice(Sum2(a, c));
    XtLinear(a, c);
    XtLinear(x, z);
    XtLinear4(x, z, a, b);
    BackSum(a, b, c, d, x, y, Xt(x), Xt(z));
  }

  lemma Twice(x: bv8, y: bv8)
    ensures Sum2(x, Sum2(x, y)) == y
  {
  }

  lemma BackSum(a: bv8, b: bv8, c: bv8, d: bv8, x: bv8, y: bv8, p: bv8, q: bv8)
    ensures Sum3(Sum5(x, y, b, c, d), Sum2(Sum4(a, b, c, d), Sum2(p, q)), Sum4(p, q, x, y)) == a
  {
    BackXor(a, b, c, d, x, y, Sum5(x, y, b, c, d), Sum4(a, b, c, d), Sum2(p, q), Sum4(p, q, x, y), p, q);
  }

  lemma BackXor(a: bv8, b: bv8, c: bv8, d: bv8, x: bv8, y: bv8, m: bv8, e: bv8, w: bv8, z: bv8, p: bv8, q: bv8)
    requires m == x ^ y ^ b ^ c ^ d && e == a ^ b ^ c ^ d && w == p ^ q && z == p ^ q ^ x ^ y
    ensures m ^ (e ^ w) ^ z == a
  {
  }

  lemma UnmixMix(w: Word)
    ensures UnmixColumn(MixColumn(w)) == w
  {
    UnmixMixByte(w.b0, w.b1, w.b2, w.b3);
    UnmixMixByte(w.b1, w.b2, w.b3, w.b0);
    UnmixMixByte(w.b2, w.b3, w.b0, w.b1);
    UnmixMixByte(w.b3, w.b0, w.b1, w.b2);
    hide UnmixByte, MixByte;
  }

  lemma UnmixMixByte(a: bv8, b: bv8, c: bv8, d: bv8)
    ensures UnmixByte(MixByte(a, b, c, d), MixByte(b, c, d, a), MixByte(c, d, a, b), MixByte(d, a, b, c)) == a
  {
    hide MixByte, MatrixRow, Unmixed, Xt, Sum2, Sum4;
    MixByteRow(a, b, c, d);
    MixByteRow(b, c, d, a);
    MixByteRow(c, d, a, b);
    MixByteRow(d, a, b, c);
    MixedSums(a, b, c, d);
    UnmixedBack(a, b, c, d);
  }

  // ---- the state ----

  datatype State = State(c0: Word, c1: Word, c2: Word, c3: Word)

  function StateOf(x: array<Word>): State
    requires x.Length == 4
    reads x
  {
    State(x[0], x[1], x[2], x[3])
  }

  function AddRoundKey(x: State, k: State): State {
    State(Xor(x.c0, k.c0), Xor(x.c1, k.c1), Xor(x.c2, k.c2), Xor(x.c3, k.c3))
  }

  function SubBytes(x: State): State { State(SubWord(x.c0), SubWord(x.c1), SubWord(x.c2), SubWord(x.c3)) }

  function InvSubBytes(x: State): State {
    State(InvSubWord(x.c0), InvSubWord(x.c1), InvSubWord(x.c2), InvSubWord(x.c3))
  }

  // Row r, that is the bytes br, moves r columns to the left.
  function ShiftRows(x: State): State {
    State(Word(x.c0.b0, x.c1.b1, x.c2.b2, x.c3.b3), Word(x.c1.b0, x.c2.b1, x.c3.b2, x.c0.b3),
          Word(x.c2.b0, x.c3.b1, x.c0.b2, x.c1.b3), Word(x.c3.b0, x.c0.b1, x.c1.b2, x.c2.b3))
  }

  function InvShiftRows(x: State): State {
    State(Word(x.c0.b0, x.c3.b1, x.c2.b2, x.c1.b3), Word(x.c1.b0, x.c0.b1, x.c3.b2, x.c2.b3),
          Word(x.c2.b0, x.c1.b1, x.c0.b2, x.c3.b3), Word(x.c3.b0, x.c2.b1, x.c1.b2, x.c0.b3))
  }

  function MixColumns(x: State): State { State(MixColumn(x.c0), MixColumn(x.c1), MixColumn(x.c2), MixColumn(x.c3)) }

  function InvMixColumns(x: State): State {
    State(UnmixColumn(x.c0), UnmixColumn(x.c1), UnmixColumn(x.c2), UnmixColumn(x.c3))
  }

  lemma AddTwice(x: State, k: State)
    ensures AddRoundKey(AddRoundKey(x, k), k) == x
  {
    XorTwice(x.c0, k.c0);
    XorTwice(x.c1, k.c1);
    XorTwice(x.c2, k.c2);
    XorTwice(x.c3, k.c3);
    hide Xor;
  }

  // Every byte of the key enters: other keys give other states, and state and key may change places.
  lemma AddDistinguishes(x: State, k: State, k': State)
    ensures AddRoundKey(x, k) == AddRoundKey(x, k') <==> k == k'
    ensures AddRoundKey(x, k) == AddRoundKey(k, x)
  {
    AddSwapped(x, k);
    AddSwapped(x, k');
    AddTwice(k, x);
    AddTwice(k', x);
    hide AddRoundKey;
  }

  lemma AddSwapped(x: State, k: State)
    ensures AddRoundKey(x, k) == AddRoundKey(k, x)
  {
    XorSwapped(x.c0, k.c0);
    XorSwapped(x.c1, k.c1);
    XorSwapped(x.c2, k.c2);
    XorSwapped(x.c3, k.c3);
    hide Xor;
  }

  lemma XorSwapped(v: Word, w: Word)
    ensures Xor(v, w) == Xor(w, v)
  {
  }

  lemma UnsubWord(w: Word)
    ensures InvSubWord(SubWord(w)) == w
  {
    InvSboxSbox(w.b0);
    InvSboxSbox(w.b1);
    InvSboxSbox(w.b2);
    InvSboxSbox(w.b3);
    hide Sbox, InvSbox;
  }

  // Substituting and shifting are undone in the opposite order.
  lemma UnshiftUnsub(x: State)
    ensures InvSubBytes(InvShiftRows(ShiftRows(SubBytes(x)))) == x
  {
    UnsubWord(x.c0);
    UnsubWord(x.c1);
    UnsubWord(x.c2);
    UnsubWord(x.c3);
    assert InvShiftRows(ShiftRows(SubBytes(x))) == SubBytes(x);
    hide SubWord, InvSubWord;
  }

  lemma UnmixMixState(x: State)
    ensures InvMixColumns(MixColumns(x)) == x
  {
    UnmixMix(x.c0);
    UnmixMix(x.c1);
    UnmixMix(x.c2);
    UnmixMix(x.c3);
    hide MixColumn, UnmixColumn;
  }

  // ---- the key schedule ----

  // Word j of the eight words that follow k, the first one with a round constant.
  function NextWord(k: seq<Word>, rcon: bv8, j: nat): Word
    requires |k| == 8 && j < 8
  {
    if j == 0 then Xor(k[0], Xor(SubWord(RotWord(k[7])), Word(rcon, 0, 0, 0)))
    else if j == 4 then Xor(k[4], SubWord(NextWord(k, rcon, 3)))
    else Xor(k[j], NextWord(k, rcon, j - 1))
  }

  ghost predicate Follows(k': seq<Word>, k: seq<Word>, rcon: bv8) {
    |k| == |k'| == 8 && forall j :: 0 <= j < 8 ==> k'[j] == NextWord(k, rcon, j)
  }

  function Expand(k: seq<Word>, rcon: bv8): (k': seq<Word>)
    requires |k| == 8
    ensures |k'| == 8
  {
    [NextWord(k, rcon, 0), NextWord(k, rcon, 1), NextWord(k, rcon, 2), NextWord(k, rcon, 3),
     NextWord(k, rcon, 4), NextWord(k, rcon, 5), NextWord(k, rcon, 6), NextWord(k, rcon, 7)]
  }

  lemma ExpandFollows(k: seq<Word>, rcon: bv8)
    requires |k| == 8
    ensures Follows(Expand(k, rcon), k, rcon)
  {
    hide NextWord;
  }

  lemma FollowsUnique(k': seq<Word>, k: seq<Word>, rcon: bv8)
    requires Follows(k', k, rcon)
    ensures k' == Expand(k, rcon)
  {
    hide NextWord;
  }

  // The round constants: the powers of x.
  function Rcon(e: nat): bv8 { if e == 0 then 1 else Xt(Rcon(e - 1)) }

  // The eight words after e expansions.
  function Schedule(key: seq<Word>, e: nat): (k: seq<Word>)
    requires |key| == 8
    ensures |k| == 8
  {
    if e == 0 then key else Expand(Schedule(key, e - 1), Rcon(e - 1))
  }

  // Word i of the expanded key.
  function KeyWord(key: seq<Word>, i: nat): Word
    requires |key| == 8
  {
    Schedule(key, i / 8)[i % 8]
  }

  // The recurrence of section 5.2 of FIPS 197.
  lemma KeyRecurrence(key: seq<Word>, i: nat)
    requires |key| == 8 && i >= 8
    ensures KeyWord(key, i) == Xor(KeyWord(key, i - 8),
      if i % 8 == 0 then Xor(SubWord(RotWord(KeyWord(key, i - 1))), Word(Rcon(i / 8 - 1), 0, 0, 0))
      else if i % 8 == 4 then SubWord(KeyWord(key, i - 1))
      else KeyWord(key, i - 1))
  {
    var e, j := i / 8, i % 8;
    WordIndex(i);
    RecurrenceAt(key, e, j);
    hide Schedule, Rcon, Xor, SubWord, RotWord;
  }

  lemma WordIndex(i: nat)
    requires i >= 8
    ensures (i - 8) / 8 == i / 8 - 1 && (i - 8) % 8 == i % 8
    ensures (i - 1) / 8 == (if i % 8 == 0 then i / 8 - 1 else i / 8)
    ensures (i - 1) % 8 == (if i % 8 == 0 then 7 else i % 8 - 1)
  {
  }

  lemma RecurrenceAt(key: seq<Word>, e: nat, j: nat)
    requires |key| == 8 && e > 0 && j < 8
    ensures var before, after := Schedule(key, e - 1), Schedule(key, e);
      after[j] == Xor(before[j],
        if j == 0 then Xor(SubWord(RotWord(before[7])), Word(Rcon(e - 1), 0, 0, 0))
        else if j == 4 then SubWord(after[3]) else after[j - 1])
  {
    var before := Schedule(key, e - 1);
    assert Schedule(key, e) == Expand(before, Rcon(e - 1));
    ExpandFollows(before, Rcon(e - 1));
    hide Schedule, Rcon, Expand, Xor, SubWord, RotWord;
  }

  function RoundKey(key: seq<Word>, round: nat): State
    requires |key| == 8
  {
    State(KeyWord(key, 4 * round), KeyWord(key, 4 * round + 1), KeyWord(key, 4 * round + 2), KeyWord(key, 4 * round + 3))
  }

  // ---- the cipher ----

  // The state before the key of a round is added, sections 5.1 and 5.1.1 to 5.1.4 of FIPS 197.
  function Encrypting(key: seq<Word>, x: State, round: nat): State
    requires |key| == 8
  {
    if round == 0 then x
    else
      var y := ShiftRows(SubBytes(AddRoundKey(Encrypting(key, x, round - 1), RoundKey(key, round - 1))));
      if round < 14 then MixColumns(y) else y
  }

  function Cipher(key: seq<Word>, x: State): State
    requires |key| == 8
  {
    AddRoundKey(Encrypting(key, x, 14), RoundKey(key, 14))
  }

  // The state before the key of round 14 - i is added, section 5.3 of FIPS 197.
  function Decrypting(key: seq<Word>, y: State, i: nat): State
    requires |key| == 8 && i <= 14
  {
    if i == 0 then y
    else
      var x := AddRoundKey(Decrypting(key, y, i - 1), RoundKey(key, 15 - i));
      InvSubBytes(InvShiftRows(if i == 1 then x else InvMixColumns(x)))
  }

  function InvCipher(key: seq<Word>, y: State): State
    requires |key| == 8
  {
    AddRoundKey(Decrypting(key, y, 14), RoundKey(key, 0))
  }

  lemma {:induction false} DecryptingEncrypting(key: seq<Word>, x: State, i: nat)
    requires |key| == 8 && i <= 14
    ensures Decrypting(key, Cipher(key, x), i) == AddRoundKey(Encrypting(key, x, 14 - i), RoundKey(key, 14 - i))
  {
    if i > 0 {
      var round := 15 - i;
      DecryptingEncrypting(key, x, i - 1);
      AddTwice(Encrypting(key, x, round), RoundKey(key, round));
      var start := AddRoundKey(Encrypting(key, x, round - 1), RoundKey(key, round - 1));
      UnshiftUnsub(start);
      UnmixMixState(ShiftRows(SubBytes(start)));
      hide AddRoundKey, RoundKey, SubBytes, InvSubBytes, ShiftRows, InvShiftRows, MixColumns, InvMixColumns, Cipher;
    }
  }

  // Decryption undoes encryption, for every key and every block.
  lemma DecryptEncrypt(key: seq<Word>, x: State)
    requires |key| == 8
    ensures InvCipher(key, Cipher(key, x)) == x
  {
    DecryptingEncrypting(key, x, 14);
    AddTwice(x, RoundKey(key, 0));
    hide AddRoundKey, RoundKey, Cipher;
  }

  // The key of a round is half of the eight words.
  lemma RoundKeyHalf(key: seq<Word>, round: nat)
    requires |key| == 8
    ensures var k, h := Schedule(key, round / 2), round % 2 * 4;
      RoundKey(key, round) == State(k[h], k[h + 1], k[h + 2], k[h + 3])
  {
    HalfIndex(round, 0);
    HalfIndex(round, 1);
    HalfIndex(round, 2);
    HalfIndex(round, 3);
    hide Schedule;
  }

  lemma HalfIndex(round: nat, j: nat)
    requires j < 4
    ensures (4 * round + j) / 8 == round / 2 && (4 * round + j) % 8 == round % 2 * 4 + j
  {
  }

  // ---- in place ----

  // x[j] ^= k[j + half * 4]
  method AddKey(x: array<Word>, k: array<Word>, half: nat)
    requires x.Length == 4 && k.Length == 8 && x != k && half < 2
    modifies x
    ensures StateOf(x) == AddRoundKey(old(StateOf(x)), State(k[half * 4], k[half * 4 + 1], k[half * 4 + 2], k[half * 4 + 3]))
  {
    hide Xor;
    for j := 0 to 4
      invariant forall i :: 0 <= i < j ==> x[i] == Xor(old(x[i]), k[half * 4 + i])
      invariant forall i :: j <= i < 4 ==> x[i] == old(x[i])
    {
      x[j] := Xor(x[j], k[half * 4 + j]);
    }
  }

  method Sub(x: array<Word>)
    requires x.Length == 4
    modifies x
    ensures StateOf(x) == SubBytes(old(StateOf(x)))
  {
    hide Sbox;
    for j := 0 to 4
      invariant forall i :: 0 <= i < j ==> x[i] == SubWord(old(x[i]))
      invariant forall i :: j <= i < 4 ==> x[i] == old(x[i])
    {
      x[j] := Word(Sbox(x[j].b0), Sbox(x[j].b1), Sbox(x[j].b2), Sbox(x[j].b3));
    }
  }

  method Unsub(x: array<Word>)
    requires x.Length == 4
    modifies x
    ensures StateOf(x) == InvSubBytes(old(StateOf(x)))
  {
    hide InvSbox;
    for j := 0 to 4
      invariant forall i :: 0 <= i < j ==> x[i] == InvSubWord(old(x[i]))
      invariant forall i :: j <= i < 4 ==> x[i] == old(x[i])
    {
      x[j] := Word(InvSbox(x[j].b0), InvSbox(x[j].b1), InvSbox(x[j].b2), InvSbox(x[j].b3));
    }
  }

  // The rows move byte by byte through one temporary.
  method Shift(x: array<Word>)
    requires x.Length == 4
    modifies x
    ensures StateOf(x) == ShiftRows(old(StateOf(x)))
  {
    var a := x[0].b1;
    x[0] := x[0].(b1 := x[1].b1);
    x[1] := x[1].(b1 := x[2].b1);
    x[2] := x[2].(b1 := x[3].b1);
    x[3] := x[3].(b1 := a);
    a := x[2].b2;
    x[2] := x[2].(b2 := x[0].b2);
    x[0] := x[0].(b2 := a);
    a := x[0].b3;
    x[0] := x[0].(b3 := x[3].b3);
    x[3] := x[3].(b3 := x[2].b3);
    x[2] := x[2].(b3 := x[1].b3);
    x[1] := x[1].(b3 := a);
    a := x[3].b2;
    x[3] := x[3].(b2 := x[1].b2);
    x[1] := x[1].(b2 := a);
  }

  method Unshift(x: array<Word>)
    requires x.Length == 4
    modifies x
    ensures StateOf(x) == InvShiftRows(old(StateOf(x)))
  {
    var a := x[0].b1;
    x[0] := x[0].(b1 := x[3].b1);
    x[3] := x[3].(b1 := x[2].b1);
    x[2] := x[2].(b1 := x[1].b1);
    x[1] := x[1].(b1 := a);
    a := x[0].b2;
    x[0] := x[0].(b2 := x[2].b2);
    x[2] := x[2].(b2 := a);
    a := x[0].b3;
    x[0] := x[0].(b3 := x[1].b3);
    x[1] := x[1].(b3 := x[2].b3);
    x[2] := x[2].(b3 := x[3].b3);
    x[3] := x[3].(b3 := a);
    a := x[1].b2;
    x[1] := x[1].(b2 := x[3].b2);
    x[3] := x[3].(b2 := a);
  }

  method Mix(x: array<Word>)
    requires x.Length == 4
    modifies x
    ensures StateOf(x) == MixColumns(old(StateOf(x)))
  {
    hide Xt, Sum2, Sum3, Sum4;
    for j := 0 to 4
      invariant forall i :: 0 <= i < j ==> x[i] == MixColumn(old(x[i]))
      invariant forall i :: j <= i < 4 ==> x[i] == old(x[i])
    {
      var a, b, c, d := x[j].b0, x[j].b1, x[j].b2, x[j].b3;
      Cycle(a, b, c, d);
      var e := Sum4(a, b, c, d);
      x[j] := Word(Sum3(a, e, Xt(Sum2(a, b))), Sum3(b, e, Xt(Sum2(b, c))), Sum3(c, e, Xt(Sum2(c, d))),
                   Sum3(d, e, Xt(Sum2(d, a))));
    }
  }

  lemma Cycle(a: bv8, b: bv8, c: bv8, d: bv8)
    ensures Sum4(b, c, d, a) == Sum4(a, b, c, d) && Sum4(c, d, a, b) == Sum4(a, b, c, d)
    ensures Sum4(d, a, b, c) == Sum4(a, b, c, d) && Sum2(c, a) == Sum2(a, c) && Sum2(d, b) == Sum2(b, d)
  {
  }

  method Unmix(x: array<Word>)
    requires x.Length == 4
    modifies x
    ensures StateOf(x) == InvMixColumns(old(StateOf(x)))
  {
    hide Xt, XtXt, Sum2, Sum3, Sum4;
    for j := 0 to 4
      invariant forall i :: 0 <= i < j ==> x[i] == UnmixColumn(old(x[i]))
      invariant forall i :: j <= i < 4 ==> x[i] == old(x[i])
    {
      var a, b, c, d := x[j].b0, x[j].b1, x[j].b2, x[j].b3;
      Cycle(a, b, c, d);
      var e := Sum4(a, b, c, d);
      var h := Xt(e);
      var f, g := Sum2(e, XtXt(Sum2(h, Sum2(a, c)))), Sum2(e, XtXt(Sum2(h, Sum2(b, d))));
      x[j] := Word(Sum3(a, f, Xt(Sum2(a, b))), Sum3(b, g, Xt(Sum2(b, c))), Sum3(c, f, Xt(Sum2(c, d))),
                   Sum3(d, g, Xt(Sum2(d, a))));
    }
  }

  // The first j words are those of the next expansion already.
  ghost predicate Partly(k: seq<Word>, was: seq<Word>, r: bv8, j: nat) {
    |k| == |was| == 8 && j <= 8 && forall i :: 0 <= i < 8 ==> k[i] == if i < j then NextWord(was, r, i) else was[i]
  }

  lemma PartlyForth(k: seq<Word>, was: seq<Word>, r: bv8, j: nat, w: Word)
    requires Partly(k, was, r, j) && j < 8 && w == NextWord(was, r, j)
    ensures Partly(k[j := w], was, r, j + 1)
  {
    hide NextWord;
  }

  lemma PartlyBack(k: seq<Word>, was: seq<Word>, r: bv8, j: nat, w: Word)
    requires Partly(k, was, r, j + 1) && j < 8 && w == was[j]
    ensures Partly(k[j := w], was, r, j)
  {
    hide NextWord;
  }

  // What is added to word j, from the words around it before it changes and after.
  function Addend(k: seq<Word>, r: bv8, j: nat): Word
    requires |k| == 8 && j < 8
  {
    if j == 0 then Xor(SubWord(RotWord(k[7])), Word(r, 0, 0, 0)) else if j == 4 then SubWord(k[3]) else k[j - 1]
  }

  // Adding it makes the word the next one, and adding it again takes it back.
  lemma AddendStep(k: seq<Word>, was: seq<Word>, r: bv8, j: nat)
    requires j < 8 && (Partly(k, was, r, j) || Partly(k, was, r, j + 1))
    ensures NextWord(was, r, j) == Xor(was[j], Addend(k, r, j))
    ensures Xor(NextWord(was, r, j), Addend(k, r, j)) == was[j]
  {
    XorTwice(was[j], Addend(k, r, j));
    hide Xor, SubWord, RotWord;
  }

  function FirstAddend(w: Word, r: bv8): Word { Word(Sbox(w.b1) ^ r, Sbox(w.b2), Sbox(w.b3), Sbox(w.b0)) }

  lemma FirstWord(w: Word, r: bv8)
    ensures Xor(SubWord(RotWord(w)), Word(r, 0, 0, 0)) == FirstAddend(w, r)
  {
    hide Sbox;
    XorNothing(Sbox(w.b2));
    XorNothing(Sbox(w.b3));
    XorNothing(Sbox(w.b0));
  }

  lemma XorNothing(x: bv8)
    ensures x ^ 0 == x
  {
  }

  // Changes word j either way.
  method ChangeWord(k: array<Word>, j: nat, addend: Word, ghost was: seq<Word>, ghost r: bv8, ghost forth: bool)
    requires k.Length == 8 && j < 8 && addend == Addend(k[..], r, j)
    requires Partly(k[..], was, r, if forth then j else j + 1)
    modifies k
    ensures Partly(k[..], was, r, if forth then j + 1 else j)
  {
    AddendStep(k[..], was, r, j);
    ghost var before := k[..];
    hide Xor, Addend, NextWord;
    k[j] := Xor(k[j], addend);
    assert k[..] == before[j := k[j]];
    if forth { PartlyForth(before, was, r, j, k[j]); } else { PartlyBack(before, was, r, j, k[j]); }
  }

  // Expands the key by eight words, each in the place of the one eight words before it.
  method ExpandKey(k: array<Word>, r: bv8) returns (r': bv8)
    requires k.Length == 8
    modifies k
    ensures k[..] == Expand(old(k[..]), r) && r' == Xt(r)
  {
    ghost var was := k[..];
    FirstWord(k[7], r);
    NoneNext(k[..], r);
    hide Xor, SubWord, RotWord, NextWord, Xt, Expand, Partly, FirstAddend;
    ChangeWord(k, 0, FirstAddend(k[7], r), was, r, true);
    r' := Xt(r);
    for j := 1 to 4
      invariant Partly(k[..], was, r, j)
    {
      ChangeWord(k, j, k[j - 1], was, r, true);
    }
    ChangeWord(k, 4, SubWord(k[3]), was, r, true);
    for j := 5 to 8
      invariant Partly(k[..], was, r, j)
    {
      ChangeWord(k, j, k[j - 1], was, r, true);
    }
    AllNext(k[..], was, r);
  }

  lemma NoneNext(k: seq<Word>, r: bv8)
    requires |k| == 8
    ensures Partly(k, k, r, 0)
  {
  }

  lemma NoneLeft(k: seq<Word>, was: seq<Word>, r: bv8)
    requires Partly(k, was, r, 0)
    ensures k == was
  {
    hide NextWord;
  }

  lemma AllNext(k: seq<Word>, was: seq<Word>, r: bv8)
    requires Partly(k, was, r, 8)
    ensures k == Expand(was, r)
  {
    hide NextWord;
    FollowsUnique(k, was, r);
  }

  lemma ExpandedPartly(was: seq<Word>, r: bv8)
    requires |was| == 8
    ensures Partly(Expand(was, r), was, r, 8)
  {
    ExpandFollows(was, r);
    hide NextWord, Expand;
  }

  // Takes three words back that come one after another.
  method Unchain(k: array<Word>, end: nat, ghost was: seq<Word>, ghost r: bv8)
    requires k.Length == 8 && end in {4, 8} && Partly(k[..], was, r, end)
    modifies k
    ensures Partly(k[..], was, r, end - 3)
  {
    hide Partly, Xor, NextWord, SubWord, RotWord;
    for j := end downto end - 3
      invariant Partly(k[..], was, r, j)
    {
      ChangeWord(k, j, k[j - 1], was, r, false);
    }
  }

  // Takes the last expansion back, from the last word to the first, and the round constant with it.
  method UnexpandKey(k: array<Word>, r: bv8, ghost was: seq<Word>, ghost r0: bv8) returns (r': bv8)
    requires k.Length == 8 && |was| == 8 && k[..] == Expand(was, r0) && r == Xt(r0)
    modifies k
    ensures k[..] == was && r' == r0
  {
    ExpandedPartly(was, r0);
    InvXtXt(r0);
    hide Xor, SubWord, RotWord, NextWord, Xt, InvXt, Expand, Partly, FirstAddend;
    Unchain(k, 8, was, r0);
    ChangeWord(k, 4, SubWord(k[3]), was, r0, false);
    Unchain(k, 4, was, r0);
    r' := InvXt(r);
    FirstWord(k[7], r');
    ChangeWord(k, 0, FirstAddend(k[7], r'), was, r0, false);
    NoneLeft(k[..], was, r0);
  }

  // ---- encryption and decryption ----

  // Encrypts the block in place.
  method Encrypt(key: seq<Word>, buf: array<Word>)
    requires |key| == 8 && buf.Length == 4
    modifies buf
    ensures StateOf(buf) == Cipher(key, old(StateOf(buf)))
  {
    hide *;
    ghost var block := StateOf(buf);
    var k := CopyKey(key);
    var r: bv8 := 1;
    Start(key, block);
    for i := 0 to 14
      invariant StateOf(buf) == Encrypting(key, block, i)
      invariant k[..] == Schedule(key, i / 2) && r == Rcon(i / 2)
    {
      EncryptingNext(key, block, i);
      AddHalf(buf, k, key, i);
      Sub(buf);
      Shift(buf);
      if i < 13 { Mix(buf); }
      if i % 2 != 0 {
        ScheduleNext(key, i);
        r := ExpandKey(k, r);
      } else {
        assert (i + 1) / 2 == i / 2;
      }
    }
    CipherIs(key, block);
    AddHalf(buf, k, key, 14);
  }

  method CopyKey(key: seq<Word>) returns (k: array<Word>)
    requires |key| == 8
    ensures fresh(k) && k.Length == 8 && k[..] == key
  {
    k := new Word[8](i requires 0 <= i < 8 => key[i]);
  }

  lemma Start(key: seq<Word>, x: State)
    requires |key| == 8
    ensures Encrypting(key, x, 0) == Decrypting(key, x, 0) == x && Schedule(key, 0) == key && Rcon(0) == 1
  {
  }

  lemma EncryptingNext(key: seq<Word>, x: State, i: nat)
    requires |key| == 8
    ensures Encrypting(key, x, i + 1) ==
      var y := ShiftRows(SubBytes(AddRoundKey(Encrypting(key, x, i), RoundKey(key, i))));
      if i < 13 then MixColumns(y) else y
  {
    hide AddRoundKey, SubBytes, ShiftRows, MixColumns, RoundKey;
  }

  lemma ScheduleNext(key: seq<Word>, i: nat)
    requires |key| == 8 && i % 2 != 0
    ensures (i + 1) / 2 == i / 2 + 1 && |Schedule(key, i / 2)| == 8
    ensures Schedule(key, i / 2 + 1) == Expand(Schedule(key, i / 2), Rcon(i / 2)) && Rcon(i / 2 + 1) == Xt(Rcon(i / 2))
  {
    hide Expand, Xt;
  }

  lemma CipherIs(key: seq<Word>, x: State)
    requires |key| == 8
    ensures Cipher(key, x) == AddRoundKey(Encrypting(key, x, 14), RoundKey(key, 14))
    ensures InvCipher(key, x) == AddRoundKey(Decrypting(key, x, 14), RoundKey(key, 0))
  {
    hide AddRoundKey, RoundKey;
  }

  // Adds the key of a round, which is half of the words.
  method AddHalf(x: array<Word>, k: array<Word>, ghost key: seq<Word>, round: nat)
    requires x.Length == 4 && k.Length == 8 && x != k && |key| == 8 && k[..] == Schedule(key, round / 2)
    modifies x
    ensures StateOf(x) == AddRoundKey(old(StateOf(x)), RoundKey(key, round))
  {
    RoundKeyHalf(key, round);
    hide *;
    AddKey(x, k, round % 2);
  }

  // The last eight words of the schedule, which decryption starts from.
  method ExpandAll(key: seq<Word>) returns (k: array<Word>, r: bv8)
    requires |key| == 8
    ensures fresh(k) && k.Length == 8 && k[..] == Schedule(key, 7) && r == Rcon(7)
  {
    hide *;
    k := CopyKey(key);
    r := 1;
    Start(key, State(key[0], key[1], key[2], key[3]));
    for i := 0 to 7
      invariant k[..] == Schedule(key, i) && r == Rcon(i)
    {
      ScheduleNext(key, 2 * i + 1);
      r := ExpandKey(k, r);
    }
  }

  lemma DecryptingNext(key: seq<Word>, y: State, i: nat)
    requires |key| == 8 && i < 14
    ensures Decrypting(key, y, i + 1) ==
      var x := AddRoundKey(Decrypting(key, y, i), RoundKey(key, 14 - i));
      InvSubBytes(InvShiftRows(if i == 0 then x else InvMixColumns(x)))
  {
    hide AddRoundKey, InvSubBytes, InvShiftRows, InvMixColumns, RoundKey;
  }

  lemma ScheduleBack(key: seq<Word>, i: nat)
    requires |key| == 8 && i < 14
    ensures i % 2 == 0 ==> Schedule(key, (14 - i) / 2) == Expand(Schedule(key, (13 - i) / 2), Rcon((13 - i) / 2))
    ensures i % 2 == 0 ==> Rcon((14 - i) / 2) == Xt(Rcon((13 - i) / 2))
    ensures i % 2 != 0 ==> (14 - i) / 2 == (13 - i) / 2
    ensures |Schedule(key, (13 - i) / 2)| == 8
  {
    hide Expand, Xt;
    if i % 2 == 0 { assert (14 - i) / 2 == (13 - i) / 2 + 1; }
  }

  // Decrypts the block in place.
  method Decrypt(key: seq<Word>, buf: array<Word>)
    requires |key| == 8 && buf.Length == 4
    modifies buf
    ensures StateOf(buf) == InvCipher(key, old(StateOf(buf)))
  {
    hide *;
    ghost var block := StateOf(buf);
    var k, r := ExpandAll(key);
    Start(key, block);
    for i := 0 to 14
      invariant StateOf(buf) == Decrypting(key, block, i)
      invariant k[..] == Schedule(key, (14 - i) / 2) && r == Rcon((14 - i) / 2)
    {
      DecryptingNext(key, block, i);
      AddHalf(buf, k, key, 14 - i);
      if i > 0 { Unmix(buf); }
      Unshift(buf);
      Unsub(buf);
      ScheduleBack(key, i);
      if i % 2 == 0 {
        r := UnexpandKey(k, r, Schedule(key, (13 - i) / 2), Rcon((13 - i) / 2));
      }
    }
    CipherIs(key, block);
    AddHalf(buf, k, key, 0);
  }
}
