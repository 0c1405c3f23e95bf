/**
 The published examples of FIPS 197: the key expansion of appendix A.3 and the encryption of appendix C.3, byte by byte.
 */
module AesExamples {
  import opened Aes

  lemma RoundConstants()
    ensures Rcon(0) == 0x01 && Rcon(1) == 0x02 && Rcon(2) == 0x04 && Rcon(3) == 0x08
    ensures Rcon(4) == 0x10 && Rcon(5) == 0x20 && Rcon(6) == 0x40
  {
    RconNext(0x01, 0);
    RconNext(0x02, 1);
    RconNext(0x04, 2);
    RconNext(0x08, 3);
    RconNext(0x10, 4);
    RconNext(0x20, 5);
  }

  lemma RconNext(x: bv8, e: nat)
    requires Rcon(e) == x && x < 0x80
    ensures Rcon(e + 1) == x << 1
  {
  }

  // Eight words from two groups of four.
  function Eight(a: State, b: State): (k: seq<Word>)
    ensures |k| == 8
  {
    [a.c0, a.c1, a.c2, a.c3, b.c0, b.c1, b.c2, b.c3]
  }

  // One expansion, from group to group.
  lemma ExpandNext(key: seq<Word>, e: nat, a: State, b: State, rcon: bv8, a': State, b': State)
    requires |key| == 8 && Schedule(key, e) == Eight(a, b) && Rcon(e) == rcon && IsExpansion(a, b, rcon, a', b')
    ensures Schedule(key, e + 1) == Eight(a', b')
  {
    hide Xor, SubWord, RotWord, Rcon;
    var k := Eight(a, b);
    assert Schedule(key, e + 1) == Expand(k, rcon);
    hide Schedule;
  }

  predicate IsExpansion(a: State, b: State, rcon: bv8, a': State, b': State) {
    && a'.c0 == Xor(a.c0, Xor(SubWord(RotWord(b.c3)), Word(rcon, 0, 0, 0)))
    && a'.c1 == Xor(a.c1, a'.c0) && a'.c2 == Xor(a.c2, a'.c1) && a'.c3 == Xor(a.c3, a'.c2)
    && b'.c0 == Xor(b.c0, SubWord(a'.c3))
    && b'.c1 == Xor(b.c1, b'.c0) && b'.c2 == Xor(b.c2, b'.c1) && b'.c3 == Xor(b.c3, b'.c2)
  }

  lemma ScheduleStart(key: seq<Word>)
    requires |key| == 8
    ensures Schedule(key, 0) == key
  {
  }

  // ---- appendix A.3 ----

  // The words of the expanded key up to number 23, in groups of four.
  const A3_WORDS0 := State(Word(0x60, 0x3d, 0xeb, 0x10), Word(0x15, 0xca, 0x71, 0xbe),
    Word(0x2b, 0x73, 0xae, 0xf0), Word(0x85, 0x7d, 0x77, 0x81))
  const A3_WORDS4 := State(Word(0x1f, 0x35, 0x2c, 0x07), Word(0x3b, 0x61, 0x08, 0xd7),
    Word(0x2d, 0x98, 0x10, 0xa3), Word(0x09, 0x14, 0xdf, 0xf4))
  const A3_WORDS8 := State(Word(0x9b, 0xa3, 0x54, 0x11), Word(0x8e, 0x69, 0x25, 0xaf),
    Word(0xa5, 0x1a, 0x8b, 0x5f), Word(0x20, 0x67, 0xfc, 0xde))
  const A3_WORDS12 := State(Word(0xa8, 0xb0, 0x9c, 0x1a), Word(0x93, 0xd1, 0x94, 0xcd),
    Word(0xbe, 0x49, 0x84, 0x6e), Word(0xb7, 0x5d, 0x5b, 0x9a))
  const A3_WORDS16 := State(Word(0xd5, 0x9a, 0xec, 0xb8), Word(0x5b, 0xf3, 0xc9, 0x17),
    Word(0xfe, 0xe9, 0x42, 0x48), Word(0xde, 0x8e, 0xbe, 0x96))
  const A3_WORDS20 := State(Word(0xb5, 0xa9, 0x32, 0x8a), Word(0x26, 0x78, 0xa6, 0x47),
    Word(0x98, 0x31, 0x22, 0x29), Word(0x2f, 0x6c, 0x79, 0xb3))

  lemma Expansion1()
    ensures IsExpansion(A3_WORDS0, A3_WORDS4, 0x01, A3_WORDS8, A3_WORDS12)
  {
  }

  lemma Expansion2()
    ensures IsExpansion(A3_WORDS8, A3_WORDS12, 0x02, A3_WORDS16, A3_WORDS20)
  {
  }

  lemma ExpandedKey()
    ensures var key := Eight(A3_WORDS0, A3_WORDS4);
      Schedule(key, 1) == Eight(A3_WORDS8, A3_WORDS12) && Schedule(key, 2) == Eight(A3_WORDS16, A3_WORDS20)
  {
    hide *;
    var key := Eight(A3_WORDS0, A3_WORDS4);
    RoundConstants();
    ScheduleStart(key);
    Expansion1();
    Expansion2();
    ExpandNext(key, 0, A3_WORDS0, A3_WORDS4, 0x01, A3_WORDS8, A3_WORDS12);
    ExpandNext(key, 1, A3_WORDS8, A3_WORDS12, 0x02, A3_WORDS16, A3_WORDS20);
  }

  // ---- appendix C.3 ----

  // The keys of the rounds, and the words that fill up the last eight.
  const KEY0 := State(Word(0x00, 0x01, 0x02, 0x03), Word(0x04, 0x05, 0x06, 0x07),
    Word(0x08, 0x09, 0x0a, 0x0b), Word(0x0c, 0x0d, 0x0e, 0x0f))
  const KEY1 := State(Word(0x10, 0x11, 0x12, 0x13), Word(0x14, 0x15, 0x16, 0x17),
    Word(0x18, 0x19, 0x1a, 0x1b), Word(0x1c, 0x1d, 0x1e, 0x1f))
  const KEY2 := State(Word(0xa5, 0x73, 0xc2, 0x9f), Word(0xa1, 0x76, 0xc4, 0x98),
    Word(0xa9, 0x7f, 0xce, 0x93), Word(0xa5, 0x72, 0xc0, 0x9c))
  const KEY3 := State(Word(0x16, 0x51, 0xa8, 0xcd), Word(0x02, 0x44, 0xbe, 0xda),
    Word(0x1a, 0x5d, 0xa4, 0xc1), Word(0x06, 0x40, 0xba, 0xde))
  const KEY4 := State(Word(0xae, 0x87, 0xdf, 0xf0), Word(0x0f, 0xf1, 0x1b, 0x68),
    Word(0xa6, 0x8e, 0xd5, 0xfb), Word(0x03, 0xfc, 0x15, 0x67))
  const KEY5 := State(Word(0x6d, 0xe1, 0xf1, 0x48), Word(0x6f, 0xa5, 0x4f, 0x92),
    Word(0x75, 0xf8, 0xeb, 0x53), Word(0x73, 0xb8, 0x51, 0x8d))
  const KEY6 := State(Word(0xc6, 0x56, 0x82, 0x7f), Word(0xc9, 0xa7, 0x99, 0x17),
    Word(0x6f, 0x29, 0x4c, 0xec), Word(0x6c, 0xd5, 0x59, 0x8b))
  const KEY7 := State(Word(0x3d, 0xe2, 0x3a, 0x75), Word(0x52, 0x47, 0x75, 0xe7),
    Word(0x27, 0xbf, 0x9e, 0xb4), Word(0x54, 0x07, 0xcf, 0x39))
  const KEY8 := State(Word(0x0b, 0xdc, 0x90, 0x5f), Word(0xc2, 0x7b, 0x09, 0x48),
    Word(0xad, 0x52, 0x45, 0xa4), Word(0xc1, 0x87, 0x1c, 0x2f))
  const KEY9 := State(Word(0x45, 0xf5, 0xa6, 0x60), Word(0x17, 0xb2, 0xd3, 0x87),
    Word(0x30, 0x0d, 0x4d, 0x33), Word(0x64, 0x0a, 0x82, 0x0a))
  const KEY10 := State(Word(0x7c, 0xcf, 0xf7, 0x1c), Word(0xbe, 0xb4, 0xfe, 0x54),
    Word(0x13, 0xe6, 0xbb, 0xf0), Word(0xd2, 0x61, 0xa7, 0xdf))
  const KEY11 := State(Word(0xf0, 0x1a, 0xfa, 0xfe), Word(0xe7, 0xa8, 0x29, 0x79),
    Word(0xd7, 0xa5, 0x64, 0x4a), Word(0xb3, 0xaf, 0xe6, 0x40))
  const KEY12 := State(Word(0x25, 0x41, 0xfe, 0x71), Word(0x9b, 0xf5, 0x00, 0x25),
    Word(0x88, 0x13, 0xbb, 0xd5), Word(0x5a, 0x72, 0x1c, 0x0a))
  const KEY13 := State(Word(0x4e, 0x5a, 0x66, 0x99), Word(0xa9, 0xf2, 0x4f, 0xe0),
    Word(0x7e, 0x57, 0x2b, 0xaa), Word(0xcd, 0xf8, 0xcd, 0xea))
  const KEY14 := State(Word(0x24, 0xfc, 0x79, 0xcc), Word(0xbf, 0x09, 0x79, 0xe9),
    Word(0x37, 0x1a, 0xc2, 0x3c), Word(0x6d, 0x68, 0xde, 0x36))
  const KEY15 := State(Word(0x72, 0x1f, 0x7b, 0x9c), Word(0xdb, 0xed, 0x34, 0x7c),
    Word(0xa5, 0xba, 0x1f, 0xd6), Word(0x68, 0x42, 0xd2, 0x3c))

  // The block, and the state before the key of each round is added; the result.
  const STATE0 := State(Word(0x00, 0x11, 0x22, 0x33), Word(0x44, 0x55, 0x66, 0x77),
    Word(0x88, 0x99, 0xaa, 0xbb), Word(0xcc, 0xdd, 0xee, 0xff))
  const STATE1 := State(Word(0x5f, 0x72, 0x64, 0x15), Word(0x57, 0xf5, 0xbc, 0x92),
    Word(0xf7, 0xbe, 0x3b, 0x29), Word(0x1d, 0xb9, 0xf9, 0x1a))
  const STATE2 := State(Word(0xbd, 0x2a, 0x39, 0x5d), Word(0x2b, 0x6a, 0xc4, 0x38),
    Word(0xd1, 0x92, 0x44, 0x3e), Word(0x61, 0x5d, 0xa1, 0x95))
  const STATE3 := State(Word(0x81, 0x0d, 0xce, 0x0c), Word(0xc9, 0xdb, 0x81, 0x72),
    Word(0xb3, 0x67, 0x8c, 0x1e), Word(0x88, 0xa1, 0xb5, 0xbd))
  const STATE4 := State(Word(0xb2, 0x82, 0x2d, 0x81), Word(0xab, 0xe6, 0xfb, 0x27),
    Word(0x5f, 0xaf, 0x10, 0x3a), Word(0x07, 0x8c, 0x00, 0x33))
  const STATE5 := State(Word(0xae, 0xb6, 0x5b, 0xa9), Word(0x74, 0xe0, 0xf8, 0x22),
    Word(0xd7, 0x3f, 0x56, 0x7b), Word(0xdb, 0x64, 0xc8, 0x77))
  const STATE6 := State(Word(0xb9, 0x51, 0xc3, 0x3c), Word(0x02, 0xe9, 0xbd, 0x29),
    Word(0xae, 0x25, 0xcd, 0xb1), Word(0xef, 0xa0, 0x8c, 0xc7))
  const STATE7 := State(Word(0xeb, 0xb1, 0x9e, 0x1c), Word(0x3e, 0xe7, 0xc9, 0xe8),
    Word(0x7d, 0x75, 0x35, 0xe9), Word(0xed, 0x6b, 0x91, 0x44))
  const STATE8 := State(Word(0x51, 0x74, 0xc8, 0x66), Word(0x9d, 0xa9, 0x84, 0x35),
    Word(0xa8, 0xb3, 0xe6, 0x2c), Word(0xa9, 0x74, 0xa5, 0xea))
  const STATE9 := State(Word(0x0f, 0x77, 0xee, 0x31), Word(0xd2, 0xcc, 0xad, 0xc0),
    Word(0x54, 0x30, 0xa8, 0x3f), Word(0x4e, 0xf9, 0x6a, 0xc3))
  const STATE10 := State(Word(0xbd, 0x86, 0xf0, 0xea), Word(0x74, 0x8f, 0xc4, 0xf4),
    Word(0x63, 0x0f, 0x11, 0xc1), Word(0xe9, 0x33, 0x12, 0x33))
  const STATE11 := State(Word(0xaf, 0x86, 0x90, 0x41), Word(0x5d, 0x6e, 0x1d, 0xd3),
    Word(0x87, 0xe5, 0xfb, 0xed), Word(0xd5, 0xc8, 0x90, 0x13))
  const STATE12 := State(Word(0x74, 0x27, 0xfa, 0xe4), Word(0xd8, 0xa6, 0x95, 0x26),
    Word(0x9c, 0xe8, 0x3d, 0x31), Word(0x5b, 0xe0, 0x39, 0x2b))
  const STATE13 := State(Word(0x2c, 0x21, 0xa8, 0x20), Word(0x30, 0x6f, 0x15, 0x4a),
    Word(0xb7, 0x12, 0xc7, 0x5e), Word(0xee, 0x0d, 0xa0, 0x4f))
  const STATE14 := State(Word(0xaa, 0x5e, 0xce, 0x06), Word(0xee, 0x6e, 0x3c, 0x56),
    Word(0xdd, 0xe6, 0x8b, 0xac), Word(0x26, 0x21, 0xbe, 0xbf))
  const RESULT := State(Word(0x8e, 0xa2, 0xb7, 0xca), Word(0x51, 0x67, 0x45, 0xbf),
    Word(0xea, 0xfc, 0x49, 0x90), Word(0x4b, 0x49, 0x60, 0x89))

  // The state once the key of the round before is added, and once bytes are substituted.
  const START1 := State(Word(0x00, 0x10, 0x20, 0x30), Word(0x40, 0x50, 0x60, 0x70),
    Word(0x80, 0x90, 0xa0, 0xb0), Word(0xc0, 0xd0, 0xe0, 0xf0))
  const BOX1 := State(Word(0x63, 0xca, 0xb7, 0x04), Word(0x09, 0x53, 0xd0, 0x51),
    Word(0xcd, 0x60, 0xe0, 0xe7), Word(0xba, 0x70, 0xe1, 0x8c))
  const START2 := State(Word(0x4f, 0x63, 0x76, 0x06), Word(0x43, 0xe0, 0xaa, 0x85),
    Word(0xef, 0xa7, 0x21, 0x32), Word(0x01, 0xa4, 0xe7, 0x05))
  const BOX2 := State(Word(0x84, 0xfb, 0x38, 0x6f), Word(0x1a, 0xe1, 0xac, 0x97),
    Word(0xdf, 0x5c, 0xfd, 0x23), Word(0x7c, 0x49, 0x94, 0x6b))
  const START3 := State(Word(0x18, 0x59, 0xfb, 0xc2), Word(0x8a, 0x1c, 0x00, 0xa0),
    Word(0x78, 0xed, 0x8a, 0xad), Word(0xc4, 0x2f, 0x61, 0x09))
  const BOX3 := State(Word(0xad, 0xcb, 0x0f, 0x25), Word(0x7e, 0x9c, 0x63, 0xe0),
    Word(0xbc, 0x55, 0x7e, 0x95), Word(0x1c, 0x15, 0xef, 0x01))
  const START4 := State(Word(0x97, 0x5c, 0x66, 0xc1), Word(0xcb, 0x9f, 0x3f, 0xa8),
    Word(0xa9, 0x3a, 0x28, 0xdf), Word(0x8e, 0xe1, 0x0f, 0x63))
  const BOX4 := State(Word(0x88, 0x4a, 0x33, 0x78), Word(0x1f, 0xdb, 0x75, 0xc2),
    Word(0xd3, 0x80, 0x34, 0x9e), Word(0x19, 0xf8, 0x76, 0xfb))
  const START5 := State(Word(0x1c, 0x05, 0xf2, 0x71), Word(0xa4, 0x17, 0xe0, 0x4f),
    Word(0xf9, 0x21, 0xc5, 0xc1), Word(0x04, 0x70, 0x15, 0x54))
  const BOX5 := State(Word(0x9c, 0x6b, 0x89, 0xa3), Word(0x49, 0xf0, 0xe1, 0x84),
    Word(0x99, 0xfd, 0xa6, 0x78), Word(0xf2, 0x51, 0x59, 0x20))
  const START6 := State(Word(0xc3, 0x57, 0xaa, 0xe1), Word(0x1b, 0x45, 0xb7, 0xb0),
    Word(0xa2, 0xc7, 0xbd, 0x28), Word(0xa8, 0xdc, 0x99, 0xfa))
  const BOX6 := State(Word(0x2e, 0x5b, 0xac, 0xf8), Word(0xaf, 0x6e, 0xa9, 0xe7),
    Word(0x3a, 0xc6, 0x7a, 0x34), Word(0xc2, 0x86, 0xee, 0x2d))
  const START7 := State(Word(0x7f, 0x07, 0x41, 0x43), Word(0xcb, 0x4e, 0x24, 0x3e),
    Word(0xc1, 0x0c, 0x81, 0x5d), Word(0x83, 0x75, 0xd5, 0x4c))
  const BOX7 := State(Word(0xd2, 0xc5, 0x83, 0x1a), Word(0x1f, 0x2f, 0x36, 0xb2),
    Word(0x78, 0xfe, 0x0c, 0x4c), Word(0xec, 0x9d, 0x03, 0x29))
  const START8 := State(Word(0xd6, 0x53, 0xa4, 0x69), Word(0x6c, 0xa0, 0xbc, 0x0f),
    Word(0x5a, 0xca, 0xab, 0x5d), Word(0xb9, 0x6c, 0x5e, 0x7d))
  const BOX8 := State(Word(0xf6, 0xed, 0x49, 0xf9), Word(0x50, 0xe0, 0x65, 0x76),
    Word(0xbe, 0x74, 0x62, 0x4c), Word(0x56, 0x50, 0x58, 0xff))
  const START9 := State(Word(0x5a, 0xa8, 0x58, 0x39), Word(0x5f, 0xd2, 0x8d, 0x7d),
    Word(0x05, 0xe1, 0xa3, 0x88), Word(0x68, 0xf3, 0xb9, 0xc5))
  const BOX9 := State(Word(0xbe, 0xc2, 0x6a, 0x12), Word(0xcf, 0xb5, 0x5d, 0xff),
    Word(0x6b, 0xf8, 0x0a, 0xc4), Word(0x45, 0x0d, 0x56, 0xa6))
  const START10 := State(Word(0x4a, 0x82, 0x48, 0x51), Word(0xc5, 0x7e, 0x7e, 0x47),
    Word(0x64, 0x3d, 0xe5, 0x0c), Word(0x2a, 0xf3, 0xe8, 0xc9))
  const BOX10 := State(Word(0xd6, 0x13, 0x52, 0xd1), Word(0xa6, 0xf3, 0xf3, 0xa0),
    Word(0x43, 0x27, 0xd9, 0xfe), Word(0xe5, 0x0d, 0x9b, 0xdd))
  const START11 := State(Word(0xc1, 0x49, 0x07, 0xf6), Word(0xca, 0x3b, 0x3a, 0xa0),
    Word(0x70, 0xe9, 0xaa, 0x31), Word(0x3b, 0x52, 0xb5, 0xec))
  const BOX11 := State(Word(0x78, 0x3b, 0xc5, 0x42), Word(0x74, 0xe2, 0x80, 0xe0),
    Word(0x51, 0x1e, 0xac, 0xc7), Word(0xe2, 0x00, 0xd5, 0xce))
  const START12 := State(Word(0x5f, 0x9c, 0x6a, 0xbf), Word(0xba, 0xc6, 0x34, 0xaa),
    Word(0x50, 0x40, 0x9f, 0xa7), Word(0x66, 0x67, 0x76, 0x53))
  const BOX12 := State(Word(0xcf, 0xde, 0x02, 0x08), Word(0xf4, 0xb4, 0x18, 0xac),
    Word(0x53, 0x09, 0xdb, 0x5c), Word(0x33, 0x85, 0x38, 0xed))
  const START13 := State(Word(0x51, 0x66, 0x04, 0x95), Word(0x43, 0x53, 0x95, 0x03),
    Word(0x14, 0xfb, 0x86, 0xe4), Word(0x01, 0x92, 0x25, 0x21))
  const BOX13 := State(Word(0xd1, 0x33, 0xf2, 0x2a), Word(0x1a, 0xed, 0x2a, 0x7b),
    Word(0xfa, 0x0f, 0x44, 0x69), Word(0x7c, 0x4f, 0x3f, 0xfd))
  const START14 := State(Word(0x62, 0x7b, 0xce, 0xb9), Word(0x99, 0x9d, 0x5a, 0xaa),
    Word(0xc9, 0x45, 0xec, 0xf4), Word(0x23, 0xf5, 0x6d, 0xa5))
  const BOX14 := State(Word(0xaa, 0x21, 0x8b, 0x56), Word(0xee, 0x5e, 0xbe, 0xac),
    Word(0xdd, 0x6e, 0xce, 0xbf), Word(0x26, 0xe6, 0x3c, 0x06))

  lemma Keys1()
    ensures IsExpansion(KEY0, KEY1, 0x01, KEY2, KEY3)
  {
  }

  lemma Keys2()
    ensures IsExpansion(KEY2, KEY3, 0x02, KEY4, KEY5)
  {
  }

  lemma Keys3()
    ensures IsExpansion(KEY4, KEY5, 0x04, KEY6, KEY7)
  {
  }

  lemma Keys4()
    ensures IsExpansion(KEY6, KEY7, 0x08, KEY8, KEY9)
  {
  }

  lemma Keys5()
    ensures IsExpansion(KEY8, KEY9, 0x10, KEY10, KEY11)
  {
  }

  lemma Keys6()
    ensures IsExpansion(KEY10, KEY11, 0x20, KEY12, KEY13)
  {
  }

  lemma Keys7()
    ensures IsExpansion(KEY12, KEY13, 0x40, KEY14, KEY15)
  {
  }

  lemma AllKeys()
    ensures var key := Eight(KEY0, KEY1);
      && Schedule(key, 0) == Eight(KEY0, KEY1) && Schedule(key, 1) == Eight(KEY2, KEY3)
      && Schedule(key, 2) == Eight(KEY4, KEY5) && Schedule(key, 3) == Eight(KEY6, KEY7)
      && Schedule(key, 4) == Eight(KEY8, KEY9) && Schedule(key, 5) == Eight(KEY10, KEY11)
      && Schedule(key, 6) == Eight(KEY12, KEY13) && Schedule(key, 7) == Eight(KEY14, KEY15)
  {
    hide *;
    var key := Eight(KEY0, KEY1);
    RoundConstants();
    ScheduleStart(key);
    Keys1();
    Keys2();
    Keys3();
    Keys4();
    Keys5();
    Keys6();
    Keys7();
    ExpandNext(key, 0, KEY0, KEY1, 0x01, KEY2, KEY3);
    ExpandNext(key, 1, KEY2, KEY3, 0x02, KEY4, KEY5);
    ExpandNext(key, 2, KEY4, KEY5, 0x04, KEY6, KEY7);
    ExpandNext(key, 3, KEY6, KEY7, 0x08, KEY8, KEY9);
    ExpandNext(key, 4, KEY8, KEY9, 0x10, KEY10, KEY11);
    ExpandNext(key, 5, KEY10, KEY11, 0x20, KEY12, KEY13);
    ExpandNext(key, 6, KEY12, KEY13, 0x40, KEY14, KEY15);
  }

  lemma KeyOf(key: seq<Word>, round: nat, a: State, b: State)
    requires |key| == 8 && Schedule(key, round / 2) == Eight(a, b)
    ensures RoundKey(key, round) == if round % 2 == 0 then a else b
  {
    RoundKeyHalf(key, round);
    hide Schedule, RoundKey;
  }

  lemma RoundNext(key: seq<Word>, x: State, round: nat, k: State, y: State)
    requires |key| == 8 && 0 < round <= 14 && RoundKey(key, round - 1) == k
    requires ShiftRows(SubBytes(AddRoundKey(Encrypting(key, x, round - 1), k))) == y
    ensures Encrypting(key, x, round) == if round < 14 then MixColumns(y) else y
  {
    hide ShiftRows, SubBytes, AddRoundKey, MixColumns, RoundKey;
  }

  lemma Box1()
    ensures SubBytes(START1) == BOX1
  {
  }

  lemma Round1()
    ensures AddRoundKey(STATE0, KEY0) == START1 && MixColumns(ShiftRows(BOX1)) == STATE1
  {
  }

  lemma Box2()
    ensures SubBytes(START2) == BOX2
  {
  }

  lemma Round2()
    ensures AddRoundKey(STATE1, KEY1) == START2 && MixColumns(ShiftRows(BOX2)) == STATE2
  {
  }

  lemma Box3()
    ensures SubBytes(START3) == BOX3
  {
  }

  lemma Round3()
    ensures AddRoundKey(STATE2, KEY2) == START3 && MixColumns(ShiftRows(BOX3)) == STATE3
  {
  }

  lemma Box4()
    ensures SubBytes(START4) == BOX4
  {
  }

  lemma Round4()
    ensures AddRoundKey(STATE3, KEY3) == START4 && MixColumns(ShiftRows(BOX4)) == STATE4
  {
  }

  lemma Box5()
    ensures SubBytes(START5) == BOX5
  {
  }

  lemma Round5()
    ensures AddRoundKey(STATE4, KEY4) == START5 && MixColumns(ShiftRows(BOX5)) == STATE5
  {
  }

  lemma Box6()
    ensures SubBytes(START6) == BOX6
  {
  }

  lemma Round6()
    ensures AddRoundKey(STATE5, KEY5) == START6 && MixColumns(ShiftRows(BOX6)) == STATE6
  {
  }

  lemma Box7()
    ensures SubBytes(START7) == BOX7
  {
  }

  lemma Round7()
    ensures AddRoundKey(STATE6, KEY6) == START7 && MixColumns(ShiftRows(BOX7)) == STATE7
  {
  }

  lemma Box8()
    ensures SubBytes(START8) == BOX8
  {
  }

  lemma Round8()
    ensures AddRoundKey(STATE7, KEY7) == START8 && MixColumns(ShiftRows(BOX8)) == STATE8
  {
  }

  lemma Box9()
    ensures SubBytes(START9) == BOX9
  {
  }

  lemma Round9()
    ensures AddRoundKey(STATE8, KEY8) == START9 && MixColumns(ShiftRows(BOX9)) == STATE9
  {
  }

  lemma Box10()
    ensures SubBytes(START10) == BOX10
  {
  }

  lemma Round10()
    ensures AddRoundKey(STATE9, KEY9) == START10 && MixColumns(ShiftRows(BOX10)) == STATE10
  {
  }

  lemma Box11()
    ensures SubBytes(START11) == BOX11
  {
  }

  lemma Round11()
    ensures AddRoundKey(STATE10, KEY10) == START11 && MixColumns(ShiftRows(BOX11)) == STATE11
  {
  }

  lemma Box12()
    ensures SubBytes(START12) == BOX12
  {
  }

  lemma Round12()
    ensures AddRoundKey(STATE11, KEY11) == START12 && MixColumns(ShiftRows(BOX12)) == STATE12
  {
  }

  lemma Box13()
    ensures SubBytes(START13) == BOX13
  {
  }

  lemma Round13()
    ensures AddRoundKey(STATE12, KEY12) == START13 && MixColumns(ShiftRows(BOX13)) == STATE13
  {
  }

  lemma Box14()
    ensures SubBytes(START14) == BOX14
  {
  }

  lemma Round14()
    ensures AddRoundKey(STATE13, KEY13) == START14 && ShiftRows(BOX14) == STATE14
  {
  }

  lemma AllRounds()
    ensures Encrypting(Eight(KEY0, KEY1), STATE0, 14) == STATE14
  {
    hide *;
    var key := Eight(KEY0, KEY1);
    AllKeys();
    EncryptingStart(key, STATE0);
    Box1();
    Round1();
    KeyOf(key, 0, KEY0, KEY1);
    RoundNext(key, STATE0, 1, KEY0, ShiftRows(BOX1));
    Box2();
    Round2();
    KeyOf(key, 1, KEY0, KEY1);
    RoundNext(key, STATE0, 2, KEY1, ShiftRows(BOX2));
    Box3();
    Round3();
    KeyOf(key, 2, KEY2, KEY3);
    RoundNext(key, STATE0, 3, KEY2, ShiftRows(BOX3));
    Box4();
    Round4();
    KeyOf(key, 3, KEY2, KEY3);
    RoundNext(key, STATE0, 4, KEY3, ShiftRows(BOX4));
    Box5();
    Round5();
    KeyOf(key, 4, KEY4, KEY5);
    RoundNext(key, STATE0, 5, KEY4, ShiftRows(BOX5));
    Box6();
    Round6();
    KeyOf(key, 5, KEY4, KEY5);
    RoundNext(key, STATE0, 6, KEY5, ShiftRows(BOX6));
    Box7();
    Round7();
    KeyOf(key, 6, KEY6, KEY7);
    RoundNext(key, STATE0, 7, KEY6, ShiftRows(BOX7));
    Box8();
    Round8();
    KeyOf(key, 7, KEY6, KEY7);
    RoundNext(key, STATE0, 8, KEY7, ShiftRows(BOX8));
    Box9();
    Round9();
    KeyOf(key, 8, KEY8, KEY9);
    RoundNext(key, STATE0, 9, KEY8, ShiftRows(BOX9));
    Box10();
    Round10();
    KeyOf(key, 9, KEY8, KEY9);
    RoundNext(key, STATE0, 10, KEY9, ShiftRows(BOX10));
    Box11();
    Round11();
    KeyOf(key, 10, KEY10, KEY11);
    RoundNext(key, STATE0, 11, KEY10, ShiftRows(BOX11));
    Box12();
    Round12();
    KeyOf(key, 11, KEY10, KEY11);
    RoundNext(key, STATE0, 12, KEY11, ShiftRows(BOX12));
    Box13();
    Round13();
    KeyOf(key, 12, KEY12, KEY13);
    RoundNext(key, STATE0, 13, KEY12, ShiftRows(BOX13));
    Box14();
    Round14();
    KeyOf(key, 13, KEY12, KEY13);
    RoundNext(key, STATE0, 14, KEY13, ShiftRows(BOX14));
  }

  lemma EncryptingStart(key: seq<Word>, x: State)
    requires |key| == 8
    ensures Encrypting(key, x, 0) == x
  {
  }

  lemma LastKey()
    ensures AddRoundKey(STATE14, KEY14) == RESULT
  {
  }

  lemma CipherIs(key: seq<Word>, x: State)
    requires |key| == 8
    ensures Cipher(key, x) == AddRoundKey(Encrypting(key, x, 14), RoundKey(key, 14))
  {
  }

  // The example vector of the cipher, and its decryption.
  lemma Example()
    ensures var key := Eight(KEY0, KEY1);
      Cipher(key, STATE0) == RESULT && InvCipher(key, RESULT) == STATE0
  {
    hide *;
    var key := Eight(KEY0, KEY1);
    AllKeys();
    AllRounds();
    LastKey();
    KeyOf(key, 14, KEY14, KEY15);
    CipherIs(key, STATE0);
    DecryptEncrypt(key, STATE0);
  }
}
