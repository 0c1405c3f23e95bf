/** The example of section 2.5.2 of RFC 7539, block by block. */
module Poly1305Example {
  import opened Division
  import opened LittleEndian
  import opened Poly1305

  const KEY_R: Bytes := [0x85, 0xd6, 0xbe, 0x78, 0x57, 0x55, 0x6d, 0x33, 0x7f, 0x44, 0x52, 0xfe, 0x42, 0xd5, 0x06, 0xa8]
  const KEY_S: Bytes := [0x01, 0x03, 0x80, 0x8a, 0xfb, 0x0d, 0xb2, 0xfd, 0x4a, 0xbf, 0xf6, 0xaf, 0x41, 0x49, 0xf5, 0x1b]
  const CLAMPED: Bytes := [0x85, 0xd6, 0xbe, 0x08, 0x54, 0x55, 0x6d, 0x03, 0x7c, 0x44, 0x52, 0x0e, 0x40, 0xd5, 0x06, 0x08]

  // "Cryptographic Forum Research Group".
  const BLOCK1: Bytes := [0x43, 0x72, 0x79, 0x70, 0x74, 0x6f, 0x67, 0x72, 0x61, 0x70, 0x68, 0x69, 0x63, 0x20, 0x46, 0x6f]
  const BLOCK2: Bytes := [0x72, 0x75, 0x6d, 0x20, 0x52, 0x65, 0x73, 0x65, 0x61, 0x72, 0x63, 0x68, 0x20, 0x47, 0x72, 0x6f]
  const BLOCK3: Bytes := [0x75, 0x70]
  const TAG: Bytes := [0xa8, 0x06, 0x1d, 0xc1, 0x30, 0x51, 0x36, 0xc6, 0xc2, 0x2b, 0x8b, 0xaf, 0x0c, 0x01, 0x27, 0xa9]

  // The accumulator after each block.
  const ACC0: nat := 0
  const ACC1: nat := 0x2c88c77849d64ae9147ddeb88e69c83fc
  const ACC2: nat := 0x2d8adaf23b0337fa7cccfb4ea344b30de
  const ACC3: nat := 0x28d31b7caff946c77c8844335369d03a7

  // ---- numbers of bytes ----

  function Four(a: nat, b: nat, c: nat, d: nat): nat { a + 256 * b + 65536 * c + 16777216 * d }

  lemma LEFour(bytes: Bytes, n: nat)
    requires |bytes| >= 4 && LE(bytes[4..]) == n
    ensures LE(bytes) == Four(bytes[0], bytes[1], bytes[2], bytes[3]) + 4294967296 * n
  {
    LENext(bytes);
    LENext(bytes[1..]);
    LENext(bytes[2..]);
    LENext(bytes[3..]);
    assert bytes[1..][1..] == bytes[2..] && bytes[2..][1..] == bytes[3..] && bytes[3..][1..] == bytes[4..];
    hide LE;
  }

  function Sixteen(b: Bytes): nat
    requires |b| == 16
  {
    Four(b[0], b[1], b[2], b[3])
    + 0x1_0000_0000 * Four(b[4], b[5], b[6], b[7])
    + 0x1_0000_0000_0000_0000 * Four(b[8], b[9], b[10], b[11])
    + 0x1_0000_0000_0000_0000_0000_0000 * Four(b[12], b[13], b[14], b[15])
  }

  lemma LESixteen(bytes: Bytes, more: Bytes)
    requires |bytes| == 16
    ensures LE(bytes + more) == Sixteen(bytes) + 0x1_0000_0000_0000_0000_0000_0000_0000_0000 * LE(more)
  {
    var b := bytes + more;
    assert b[16..] == more && b[12..][4..] == b[16..] && b[8..][4..] == b[12..] && b[4..][4..] == b[8..];
    LEFour(b[12..], LE(b[16..]));
    LEFour(b[8..], LE(b[12..]));
    LEFour(b[4..], LE(b[8..]));
    LEFour(b, LE(b[4..]));
    hide LE, Four;
  }

  lemma LEOnly(bytes: Bytes)
    requires |bytes| == 16
    ensures LE(bytes) == Sixteen(bytes)
  {
    LESixteen(bytes, []);
    assert bytes + [] == bytes && LE([]) == 0;
    hide LE, Sixteen;
  }

  // ---- the example ----

  lemma Numbers()
    ensures Sixteen(CLAMPED) == 0x806d5400e52447c036d555408bed685 && Sixteen(KEY_S) == 0x1bf54941aff6bf4afdb20dfb8a800301
    ensures Sixteen(TAG) == 0xa927010caf8b2bc2c6365130c11d06a8
  {
  }

  lemma Number1()
    ensures Sixteen(BLOCK1) == 0x6f4620636968706172676f7470797243
  {
  }

  lemma Number2()
    ensures Sixteen(BLOCK2) == 0x6f7247206863726165736552206d7572
  {
  }

  lemma Key()
    ensures Clamped(KEY_R + KEY_S) == 0x806d5400e52447c036d555408bed685
  {
    var key := KEY_R + KEY_S;
    assert key[..16] == KEY_R;
    ClampMeaning(key);
    LEOnly(CLAMPED);
    Numbers();
    ClampedKey();
    hide LE, Clamped, ClampedBytes, Sixteen;
  }

  lemma ClampedKey()
    ensures ClampedBytes(KEY_R, 0) == CLAMPED
  {
    hide *;
    KeyLengths();
    forall i | 0 <= i < 16 ensures ClampedBytes(KEY_R, 0)[i] == CLAMPED[i] {
      ClampedAt(KEY_R, 0, i);
      KeyByte(i);
    }
  }

  lemma KeyLengths()
    ensures |KEY_R| == |CLAMPED| == 16
  {
  }

  lemma {:induction false} ClampedAt(bytes: Bytes, j: nat, i: nat)
    requires i < |bytes|
    ensures ClampedBytes(bytes, j)[i] == ClampedByte(bytes[i], j + i)
  {
    hide ClampedByte;
    if i > 0 { ClampedAt(bytes[1..], j + 1, i - 1); }
  }

  lemma KeyByte(i: nat)
    requires i < 16
    ensures ClampedByte(KEY_R[i], i) == CLAMPED[i]
  {
  }

  // One block of the message.
  lemma AbsorbBlock(acc: nat, r: nat, block: Bytes, n: nat, acc': nat, q: nat)
    requires 0 < |block| <= 16 && LE(block + [1]) == n
    requires (acc + n) * r == acc' + q * 0x3_ffff_ffff_ffff_ffff_ffff_ffff_ffff_fffb
    requires acc' < 0x3_ffff_ffff_ffff_ffff_ffff_ffff_ffff_fffb
    ensures Absorb(acc, r, block) == acc'
  {
    AbsorbIs(acc, r, block);
    RemainderUnique((acc + n) * r, q, acc', 0x3_ffff_ffff_ffff_ffff_ffff_ffff_ffff_fffb);
    hide Absorb, LE;
  }

  lemma AbsorbIs(acc: nat, r: nat, block: Bytes)
    requires 0 < |block| <= 16
    ensures Absorb(acc, r, block) == (acc + LE(block + [1])) * r % 0x3_ffff_ffff_ffff_ffff_ffff_ffff_ffff_fffb
  {
    assert LastBlock(block) == 0 && block[..0] == [] && block[0..] == block;
    assert Absorb(acc, r, []) == acc;
    hide LE;
  }

  lemma Absorb1()
    ensures Absorb(ACC0, 0x806d5400e52447c036d555408bed685, BLOCK1) == ACC1
  {
    LESixteen(BLOCK1, [1]);
    Number1();
    assert LE([1]) == 1 && LE(BLOCK1 + [1]) == 0x16f4620636968706172676f7470797243;
    hide LE, Absorb, Sixteen;
    AbsorbBlock(ACC0, 0x806d5400e52447c036d555408bed685, BLOCK1, 0x16f4620636968706172676f7470797243, ACC1, 0x2e0ffa647299a001224557735a7a109);
  }

  lemma Absorb2()
    ensures Absorb(ACC1, 0x806d5400e52447c036d555408bed685, BLOCK2) == ACC2
  {
    LESixteen(BLOCK2, [1]);
    Number2();
    assert LE([1]) == 1 && LE(BLOCK2 + [1]) == 0x16f7247206863726165736552206d7572;
    hide LE, Absorb, Sixteen;
    AbsorbBlock(ACC1, 0x806d5400e52447c036d555408bed685, BLOCK2, 0x16f7247206863726165736552206d7572, ACC2, 0x8773264b431966e900dbd96edfe2158);
  }

  lemma Absorb3()
    ensures Absorb(ACC2, 0x806d5400e52447c036d555408bed685, BLOCK3) == ACC3
  {
    LENext(BLOCK3 + [1]);
    LENext((BLOCK3 + [1])[1..]);
    assert (BLOCK3 + [1])[1..][1..] == [1] && LE([1]) == 1;
    hide LE, Absorb, Sixteen;
    AbsorbBlock(ACC2, 0x806d5400e52447c036d555408bed685, BLOCK3, 0x17075, ACC3, 0x5b6382283cff87793f9285521ab29e8);
  }

  lemma Example()
    ensures Tag(KEY_R + KEY_S, BLOCK1 + BLOCK2 + BLOCK3) == TAG
  {
    hide Absorb, LE, ToLE, Clamped, Sixteen;
    Key();
    var r := Clamped(KEY_R + KEY_S);
    Absorb1();
    Absorb2();
    Absorb3();
    AbsorbAppend(0, r, BLOCK1 + BLOCK2, BLOCK3);
    AbsorbAppend(0, r, BLOCK1, BLOCK2);
    assert (KEY_R + KEY_S)[16..] == KEY_S;
    LEOnly(KEY_S);
    LEOnly(TAG);
    Numbers();
    ToLERoundTrip(TAG);
  }
}
