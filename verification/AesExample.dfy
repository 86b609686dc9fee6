/** The example of appendix C.3 of FIPS 197: every window of the key schedule, every round, and the block that results. */
module AesExample {
  import opened Aes
  import opened AesInPlace
  import opened SBoxes

  const PLAIN :=
    Block(Word(0x00, 0x11, 0x22, 0x33), Word(0x44, 0x55, 0x66, 0x77),
          Word(0x88, 0x99, 0xaa, 0xbb), Word(0xcc, 0xdd, 0xee, 0xff))

  // Round keys.

  const K0 :=
    Block(Word(0x00, 0x01, 0x02, 0x03), Word(0x04, 0x05, 0x06, 0x07),
          Word(0x08, 0x09, 0x0a, 0x0b), Word(0x0c, 0x0d, 0x0e, 0x0f))
  const K1 :=
    Block(Word(0x10, 0x11, 0x12, 0x13), Word(0x14, 0x15, 0x16, 0x17),
          Word(0x18, 0x19, 0x1a, 0x1b), Word(0x1c, 0x1d, 0x1e, 0x1f))
  const K2 :=
    Block(Word(0xa5, 0x73, 0xc2, 0x9f), Word(0xa1, 0x76, 0xc4, 0x98),
          Word(0xa9, 0x7f, 0xce, 0x93), Word(0xa5, 0x72, 0xc0, 0x9c))
  const K3 :=
    Block(Word(0x16, 0x51, 0xa8, 0xcd), Word(0x02, 0x44, 0xbe, 0xda),
          Word(0x1a, 0x5d, 0xa4, 0xc1), Word(0x06, 0x40, 0xba, 0xde))
  const K4 :=
    Block(Word(0xae, 0x87, 0xdf, 0xf0), Word(0x0f, 0xf1, 0x1b, 0x68),
          Word(0xa6, 0x8e, 0xd5, 0xfb), Word(0x03, 0xfc, 0x15, 0x67))
  const K5 :=
    Block(Word(0x6d, 0xe1, 0xf1, 0x48), Word(0x6f, 0xa5, 0x4f, 0x92),
          Word(0x75, 0xf8, 0xeb, 0x53), Word(0x73, 0xb8, 0x51, 0x8d))
  const K6 :=
    Block(Word(0xc6, 0x56, 0x82, 0x7f), Word(0xc9, 0xa7, 0x99, 0x17),
          Word(0x6f, 0x29, 0x4c, 0xec), Word(0x6c, 0xd5, 0x59, 0x8b))
  const K7 :=
    Block(Word(0x3d, 0xe2, 0x3a, 0x75), Word(0x52, 0x47, 0x75, 0xe7),
          Word(0x27, 0xbf, 0x9e, 0xb4), Word(0x54, 0x07, 0xcf, 0x39))
  const K8 :=
    Block(Word(0x0b, 0xdc, 0x90, 0x5f), Word(0xc2, 0x7b, 0x09, 0x48),
          Word(0xad, 0x52, 0x45, 0xa4), Word(0xc1, 0x87, 0x1c, 0x2f))
  const K9 :=
    Block(Word(0x45, 0xf5, 0xa6, 0x60), Word(0x17, 0xb2, 0xd3, 0x87),
          Word(0x30, 0x0d, 0x4d, 0x33), Word(0x64, 0x0a, 0x82, 0x0a))
  const K10 :=
    Block(Word(0x7c, 0xcf, 0xf7, 0x1c), Word(0xbe, 0xb4, 0xfe, 0x54),
          Word(0x13, 0xe6, 0xbb, 0xf0), Word(0xd2, 0x61, 0xa7, 0xdf))
  const K11 :=
    Block(Word(0xf0, 0x1a, 0xfa, 0xfe), Word(0xe7, 0xa8, 0x29, 0x79),
          Word(0xd7, 0xa5, 0x64, 0x4a), Word(0xb3, 0xaf, 0xe6, 0x40))
  const K12 :=
    Block(Word(0x25, 0x41, 0xfe, 0x71), Word(0x9b, 0xf5, 0x00, 0x25),
          Word(0x88, 0x13, 0xbb, 0xd5), Word(0x5a, 0x72, 0x1c, 0x0a))
  const K13 :=
    Block(Word(0x4e, 0x5a, 0x66, 0x99), Word(0xa9, 0xf2, 0x4f, 0xe0),
          Word(0x7e, 0x57, 0x2b, 0xaa), Word(0xcd, 0xf8, 0xcd, 0xea))
  const K14 :=
    Block(Word(0x24, 0xfc, 0x79, 0xcc), Word(0xbf, 0x09, 0x79, 0xe9),
          Word(0x37, 0x1a, 0xc2, 0x3c), Word(0x6d, 0x68, 0xde, 0x36))

  // States after each round.

  const S0 :=
    Block(Word(0x00, 0x10, 0x20, 0x30), Word(0x40, 0x50, 0x60, 0x70),
          Word(0x80, 0x90, 0xa0, 0xb0), Word(0xc0, 0xd0, 0xe0, 0xf0))
  const S1 :=
    Block(Word(0x4f, 0x63, 0x76, 0x06), Word(0x43, 0xe0, 0xaa, 0x85),
          Word(0xef, 0xa7, 0x21, 0x32), Word(0x01, 0xa4, 0xe7, 0x05))
  const S2 :=
    Block(Word(0x18, 0x59, 0xfb, 0xc2), Word(0x8a, 0x1c, 0x00, 0xa0),
          Word(0x78, 0xed, 0x8a, 0xad), Word(0xc4, 0x2f, 0x61, 0x09))
  const S3 :=
    Block(Word(0x97, 0x5c, 0x66, 0xc1), Word(0xcb, 0x9f, 0x3f, 0xa8),
          Word(0xa9, 0x3a, 0x28, 0xdf), Word(0x8e, 0xe1, 0x0f, 0x63))
  const S4 :=
    Block(Word(0x1c, 0x05, 0xf2, 0x71), Word(0xa4, 0x17, 0xe0, 0x4f),
          Word(0xf9, 0x21, 0xc5, 0xc1), Word(0x04, 0x70, 0x15, 0x54))
  const S5 :=
    Block(Word(0xc3, 0x57, 0xaa, 0xe1), Word(0x1b, 0x45, 0xb7, 0xb0),
          Word(0xa2, 0xc7, 0xbd, 0x28), Word(0xa8, 0xdc, 0x99, 0xfa))
  const S6 :=
    Block(Word(0x7f, 0x07, 0x41, 0x43), Word(0xcb, 0x4e, 0x24, 0x3e),
          Word(0xc1, 0x0c, 0x81, 0x5d), Word(0x83, 0x75, 0xd5, 0x4c))
  const S7 :=
    Block(Word(0xd6, 0x53, 0xa4, 0x69), Word(0x6c, 0xa0, 0xbc, 0x0f),
          Word(0x5a, 0xca, 0xab, 0x5d), Word(0xb9, 0x6c, 0x5e, 0x7d))
  const S8 :=
    Block(Word(0x5a, 0xa8, 0x58, 0x39), Word(0x5f, 0xd2, 0x8d, 0x7d),
          Word(0x05, 0xe1, 0xa3, 0x88), Word(0x68, 0xf3, 0xb9, 0xc5))
  const S9 :=
    Block(Word(0x4a, 0x82, 0x48, 0x51), Word(0xc5, 0x7e, 0x7e, 0x47),
          Word(0x64, 0x3d, 0xe5, 0x0c), Word(0x2a, 0xf3, 0xe8, 0xc9))
  const S10 :=
    Block(Word(0xc1, 0x49, 0x07, 0xf6), Word(0xca, 0x3b, 0x3a, 0xa0),
          Word(0x70, 0xe9, 0xaa, 0x31), Word(0x3b, 0x52, 0xb5, 0xec))
  const S11 :=
    Block(Word(0x5f, 0x9c, 0x6a, 0xbf), Word(0xba, 0xc6, 0x34, 0xaa),
          Word(0x50, 0x40, 0x9f, 0xa7), Word(0x66, 0x67, 0x76, 0x53))
  const S12 :=
    Block(Word(0x51, 0x66, 0x04, 0x95), Word(0x43, 0x53, 0x95, 0x03),
          Word(0x14, 0xfb, 0x86, 0xe4), Word(0x01, 0x92, 0x25, 0x21))
  const S13 :=
    Block(Word(0x62, 0x7b, 0xce, 0xb9), Word(0x99, 0x9d, 0x5a, 0xaa),
          Word(0xc9, 0x45, 0xec, 0xf4), Word(0x23, 0xf5, 0x6d, 0xa5))
  const S14 :=
    Block(Word(0x8e, 0xa2, 0xb7, 0xca), Word(0x51, 0x67, 0x45, 0xbf),
          Word(0xea, 0xfc, 0x49, 0x90), Word(0x4b, 0x49, 0x60, 0x89))

  // ---------- The key schedule ----------

  lemma SubstitutedKeysLow()
    ensures SubWord(RotWord(K1.w3)) == Word(0xa4, 0x72, 0xc0, 0x9c)
    ensures SubWord(K2.w3) == Word(0x06, 0x40, 0xba, 0xde)
    ensures SubWord(RotWord(K3.w3)) == Word(0x09, 0xf4, 0x1d, 0x6f)
    ensures SubWord(K4.w3) == Word(0x7b, 0xb0, 0x59, 0x85)
    ensures SubWord(RotWord(K5.w3)) == Word(0x6c, 0xd1, 0x5d, 0x8f)
    ensures SubWord(K6.w3) == Word(0x50, 0x03, 0xcb, 0x3d)
  {}

  lemma SubstitutedKeysHigh()
    ensures SubWord(RotWord(K7.w3)) == Word(0xc5, 0x8a, 0x12, 0x20)
    ensures SubWord(K8.w3) == Word(0x78, 0x17, 0x9c, 0x15)
    ensures SubWord(RotWord(K9.w3)) == Word(0x67, 0x13, 0x67, 0x43)
    ensures SubWord(K10.w3) == Word(0xb5, 0xef, 0x5c, 0x9e)
    ensures SubWord(RotWord(K11.w3)) == Word(0x79, 0x8e, 0x09, 0x6d)
    ensures SubWord(K12.w3) == Word(0xbe, 0x40, 0x9c, 0x67)
    ensures SubWord(RotWord(K13.w3)) == Word(0x41, 0xbd, 0x87, 0xbd)
  {}

  lemma RoundConstants()
    ensures Rcon(0) == 0x01 && Rcon(1) == 0x02 && Rcon(2) == 0x04 && Rcon(3) == 0x08
    ensures Rcon(4) == 0x10 && Rcon(5) == 0x20 && Rcon(6) == 0x40
  {
    assert Rcon(3) == 0x08;
  }

  lemma Windows()
    ensures Schedule(Window(K0, K1), 0) == Window(K0, K1)
    ensures Schedule(Window(K0, K1), 1) == Window(K2, K3)
    ensures Schedule(Window(K0, K1), 2) == Window(K4, K5)
    ensures Schedule(Window(K0, K1), 3) == Window(K6, K7)
    ensures Schedule(Window(K0, K1), 4) == Window(K8, K9)
    ensures Schedule(Window(K0, K1), 5) == Window(K10, K11)
    ensures Schedule(Window(K0, K1), 6) == Window(K12, K13)
    ensures Schedule(Window(K0, K1), 7).lo == K14
  {
    hide SubWord, RotWord;
    SubstitutedKeysLow();
    SubstitutedKeysHigh();
    RoundConstants();
    assert Schedule(Window(K0, K1), 0) == Window(K0, K1);
    assert Schedule(Window(K0, K1), 1) == Window(K2, K3);
    assert Schedule(Window(K0, K1), 2) == Window(K4, K5);
    assert Schedule(Window(K0, K1), 3) == Window(K6, K7);
    assert Schedule(Window(K0, K1), 4) == Window(K8, K9);
    assert Schedule(Window(K0, K1), 5) == Window(K10, K11);
    assert Schedule(Window(K0, K1), 6) == Window(K12, K13);
  }

  lemma RoundKeys()
    ensures RoundWords(Window(K0, K1), 0) == K0 && RoundWords(Window(K0, K1), 1) == K1
    ensures RoundWords(Window(K0, K1), 2) == K2 && RoundWords(Window(K0, K1), 3) == K3
    ensures RoundWords(Window(K0, K1), 4) == K4 && RoundWords(Window(K0, K1), 5) == K5
    ensures RoundWords(Window(K0, K1), 6) == K6 && RoundWords(Window(K0, K1), 7) == K7
    ensures RoundWords(Window(K0, K1), 8) == K8 && RoundWords(Window(K0, K1), 9) == K9
    ensures RoundWords(Window(K0, K1), 10) == K10 && RoundWords(Window(K0, K1), 11) == K11
    ensures RoundWords(Window(K0, K1), 12) == K12 && RoundWords(Window(K0, K1), 13) == K13
    ensures RoundWords(Window(K0, K1), 14) == K14
  {
    hide Schedule, RoundWords;
    Windows();
    for i := 0 to 15
      invariant forall k :: 0 <= k < i ==> RoundWords(Window(K0, K1), k) == RoundKey(Window(K0, K1), k)
    {
      RoundKeyIs(Window(K0, K1), i);
    }
  }

  // ---------- The rounds ----------

  lemma Round1()
    ensures SubWord(S0.w0) == Word(0x63, 0xca, 0xb7, 0x04)
    ensures SubWord(S0.w1) == Word(0x09, 0x53, 0xd0, 0x51)
    ensures SubWord(S0.w2) == Word(0xcd, 0x60, 0xe0, 0xe7)
    ensures SubWord(S0.w3) == Word(0xba, 0x70, 0xe1, 0x8c)
    ensures MixColumn(Word(0x63, 0x53, 0xe0, 0x8c)) == Word(0x5f, 0x72, 0x64, 0x15)
    ensures MixColumn(Word(0x09, 0x60, 0xe1, 0x04)) == Word(0x57, 0xf5, 0xbc, 0x92)
    ensures MixColumn(Word(0xcd, 0x70, 0xb7, 0x51)) == Word(0xf7, 0xbe, 0x3b, 0x29)
    ensures MixColumn(Word(0xba, 0xca, 0xd0, 0xe7)) == Word(0x1d, 0xb9, 0xf9, 0x1a)
    ensures AddRoundKey(Block(Word(0x5f, 0x72, 0x64, 0x15), Word(0x57, 0xf5, 0xbc, 0x92),
                              Word(0xf7, 0xbe, 0x3b, 0x29), Word(0x1d, 0xb9, 0xf9, 0x1a)), K1) == S1
  {}

  lemma Round2()
    ensures SubWord(S1.w0) == Word(0x84, 0xfb, 0x38, 0x6f)
    ensures SubWord(S1.w1) == Word(0x1a, 0xe1, 0xac, 0x97)
    ensures SubWord(S1.w2) == Word(0xdf, 0x5c, 0xfd, 0x23)
    ensures SubWord(S1.w3) == Word(0x7c, 0x49, 0x94, 0x6b)
    ensures MixColumn(Word(0x84, 0xe1, 0xfd, 0x6b)) == Word(0xbd, 0x2a, 0x39, 0x5d)
    ensures MixColumn(Word(0x1a, 0x5c, 0x94, 0x6f)) == Word(0x2b, 0x6a, 0xc4, 0x38)
    ensures MixColumn(Word(0xdf, 0x49, 0x38, 0x97)) == Word(0xd1, 0x92, 0x44, 0x3e)
    ensures MixColumn(Word(0x7c, 0xfb, 0xac, 0x23)) == Word(0x61, 0x5d, 0xa1, 0x95)
    ensures AddRoundKey(Block(Word(0xbd, 0x2a, 0x39, 0x5d), Word(0x2b, 0x6a, 0xc4, 0x38),
                              Word(0xd1, 0x92, 0x44, 0x3e), Word(0x61, 0x5d, 0xa1, 0x95)), K2) == S2
  {}

  lemma Round3()
    ensures SubWord(S2.w0) == Word(0xad, 0xcb, 0x0f, 0x25)
    ensures SubWord(S2.w1) == Word(0x7e, 0x9c, 0x63, 0xe0)
    ensures SubWord(S2.w2) == Word(0xbc, 0x55, 0x7e, 0x95)
    ensures SubWord(S2.w3) == Word(0x1c, 0x15, 0xef, 0x01)
    ensures MixColumn(Word(0xad, 0x9c, 0x7e, 0x01)) == Word(0x81, 0x0d, 0xce, 0x0c)
    ensures MixColumn(Word(0x7e, 0x55, 0xef, 0x25)) == Word(0xc9, 0xdb, 0x81, 0x72)
    ensures MixColumn(Word(0xbc, 0x15, 0x0f, 0xe0)) == Word(0xb3, 0x67, 0x8c, 0x1e)
    ensures MixColumn(Word(0x1c, 0xcb, 0x63, 0x95)) == Word(0x88, 0xa1, 0xb5, 0xbd)
    ensures AddRoundKey(Block(Word(0x81, 0x0d, 0xce, 0x0c), Word(0xc9, 0xdb, 0x81, 0x72),
                              Word(0xb3, 0x67, 0x8c, 0x1e), Word(0x88, 0xa1, 0xb5, 0xbd)), K3) == S3
  {}

  lemma Round4()
    ensures SubWord(S3.w0) == Word(0x88, 0x4a, 0x33, 0x78)
    ensures SubWord(S3.w1) == Word(0x1f, 0xdb, 0x75, 0xc2)
    ensures SubWord(S3.w2) == Word(0xd3, 0x80, 0x34, 0x9e)
    ensures SubWord(S3.w3) == Word(0x19, 0xf8, 0x76, 0xfb)
    ensures MixColumn(Word(0x88, 0xdb, 0x34, 0xfb)) == Word(0xb2, 0x82, 0x2d, 0x81)
    ensures MixColumn(Word(0x1f, 0x80, 0x76, 0x78)) == Word(0xab, 0xe6, 0xfb, 0x27)
    ensures MixColumn(Word(0xd3, 0xf8, 0x33, 0xc2)) == Word(0x5f, 0xaf, 0x10, 0x3a)
    ensures MixColumn(Word(0x19, 0x4a, 0x75, 0x9e)) == Word(0x07, 0x8c, 0x00, 0x33)
    ensures AddRoundKey(Block(Word(0xb2, 0x82, 0x2d, 0x81), Word(0xab, 0xe6, 0xfb, 0x27),
                              Word(0x5f, 0xaf, 0x10, 0x3a), Word(0x07, 0x8c, 0x00, 0x33)), K4) == S4
  {}

  lemma Round5()
    ensures SubWord(S4.w0) == Word(0x9c, 0x6b, 0x89, 0xa3)
    ensures SubWord(S4.w1) == Word(0x49, 0xf0, 0xe1, 0x84)
    ensures SubWord(S4.w2) == Word(0x99, 0xfd, 0xa6, 0x78)
    ensures SubWord(S4.w3) == Word(0xf2, 0x51, 0x59, 0x20)
    ensures MixColumn(Word(0x9c, 0xf0, 0xa6, 0x20)) == Word(0xae, 0xb6, 0x5b, 0xa9)
    ensures MixColumn(Word(0x49, 0xfd, 0x59, 0xa3)) == Word(0x74, 0xe0, 0xf8, 0x22)
    ensures MixColumn(Word(0x99, 0x51, 0x89, 0x84)) == Word(0xd7, 0x3f, 0x56, 0x7b)
    ensures MixColumn(Word(0xf2, 0x6b, 0xe1, 0x78)) == Word(0xdb, 0x64, 0xc8, 0x77)
    ensures AddRoundKey(Block(Word(0xae, 0xb6, 0x5b, 0xa9), Word(0x74, 0xe0, 0xf8, 0x22),
                              Word(0xd7, 0x3f, 0x56, 0x7b), Word(0xdb, 0x64, 0xc8, 0x77)), K5) == S5
  {}

  lemma Round6()
    ensures SubWord(S5.w0) == Word(0x2e, 0x5b, 0xac, 0xf8)
    ensures SubWord(S5.w1) == Word(0xaf, 0x6e, 0xa9, 0xe7)
    ensures SubWord(S5.w2) == Word(0x3a, 0xc6, 0x7a, 0x34)
    ensures SubWord(S5.w3) == Word(0xc2, 0x86, 0xee, 0x2d)
    ensures MixColumn(Word(0x2e, 0x6e, 0x7a, 0x2d)) == Word(0xb9, 0x51, 0xc3, 0x3c)
    ensures MixColumn(Word(0xaf, 0xc6, 0xee, 0xf8)) == Word(0x02, 0xe9, 0xbd, 0x29)
    ensures MixColumn(Word(0x3a, 0x86, 0xac, 0xe7)) == Word(0xae, 0x25, 0xcd, 0xb1)
    ensures MixColumn(Word(0xc2, 0x5b, 0xa9, 0x34)) == Word(0xef, 0xa0, 0x8c, 0xc7)
    ensures AddRoundKey(Block(Word(0xb9, 0x51, 0xc3, 0x3c), Word(0x02, 0xe9, 0xbd, 0x29),
                              Word(0xae, 0x25, 0xcd, 0xb1), Word(0xef, 0xa0, 0x8c, 0xc7)), K6) == S6
  {}

  lemma Round7()
    ensures SubWord(S6.w0) == Word(0xd2, 0xc5, 0x83, 0x1a)
    ensures SubWord(S6.w1) == Word(0x1f, 0x2f, 0x36, 0xb2)
    ensures SubWord(S6.w2) == Word(0x78, 0xfe, 0x0c, 0x4c)
    ensures SubWord(S6.w3) == Word(0xec, 0x9d, 0x03, 0x29)
    ensures MixColumn(Word(0xd2, 0x2f, 0x0c, 0x29)) == Word(0xeb, 0xb1, 0x9e, 0x1c)
    ensures MixColumn(Word(0x1f, 0xfe, 0x03, 0x1a)) == Word(0x3e, 0xe7, 0xc9, 0xe8)
    ensures MixColumn(Word(0x78, 0x9d, 0x83, 0xb2)) == Word(0x7d, 0x75, 0x35, 0xe9)
    ensures MixColumn(Word(0xec, 0xc5, 0x36, 0x4c)) == Word(0xed, 0x6b, 0x91, 0x44)
    ensures AddRoundKey(Block(Word(0xeb, 0xb1, 0x9e, 0x1c), Word(0x3e, 0xe7, 0xc9, 0xe8),
                              Word(0x7d, 0x75, 0x35, 0xe9), Word(0xed, 0x6b, 0x91, 0x44)), K7) == S7
  {}

  lemma Round8()
    ensures SubWord(S7.w0) == Word(0xf6, 0xed, 0x49, 0xf9)
    ensures SubWord(S7.w1) == Word(0x50, 0xe0, 0x65, 0x76)
    ensures SubWord(S7.w2) == Word(0xbe, 0x74, 0x62, 0x4c)
    ensures SubWord(S7.w3) == Word(0x56, 0x50, 0x58, 0xff)
    ensures MixColumn(Word(0xf6, 0xe0, 0x62, 0xff)) == Word(0x51, 0x74, 0xc8, 0x66)
    ensures MixColumn(Word(0x50, 0x74, 0x58, 0xf9)) == Word(0x9d, 0xa9, 0x84, 0x35)
    ensures MixColumn(Word(0xbe, 0x50, 0x49, 0x76)) == Word(0xa8, 0xb3, 0xe6, 0x2c)
    ensures MixColumn(Word(0x56, 0xed, 0x65, 0x4c)) == Word(0xa9, 0x74, 0xa5, 0xea)
    ensures AddRoundKey(Block(Word(0x51, 0x74, 0xc8, 0x66), Word(0x9d, 0xa9, 0x84, 0x35),
                              Word(0xa8, 0xb3, 0xe6, 0x2c), Word(0xa9, 0x74, 0xa5, 0xea)), K8) == S8
  {}

  lemma Round9()
    ensures SubWord(S8.w0) == Word(0xbe, 0xc2, 0x6a, 0x12)
    ensures SubWord(S8.w1) == Word(0xcf, 0xb5, 0x5d, 0xff)
    ensures SubWord(S8.w2) == Word(0x6b, 0xf8, 0x0a, 0xc4)
    ensures SubWord(S8.w3) == Word(0x45, 0x0d, 0x56, 0xa6)
    ensures MixColumn(Word(0xbe, 0xb5, 0x0a, 0xa6)) == Word(0x0f, 0x77, 0xee, 0x31)
    ensures MixColumn(Word(0xcf, 0xf8, 0x56, 0x12)) == Word(0xd2, 0xcc, 0xad, 0xc0)
    ensures MixColumn(Word(0x6b, 0x0d, 0x6a, 0xff)) == Word(0x54, 0x30, 0xa8, 0x3f)
    ensures MixColumn(Word(0x45, 0xc2, 0x5d, 0xc4)) == Word(0x4e, 0xf9, 0x6a, 0xc3)
    ensures AddRoundKey(Block(Word(0x0f, 0x77, 0xee, 0x31), Word(0xd2, 0xcc, 0xad, 0xc0),
                              Word(0x54, 0x30, 0xa8, 0x3f), Word(0x4e, 0xf9, 0x6a, 0xc3)), K9) == S9
  {}

  lemma Round10()
    ensures SubWord(S9.w0) == Word(0xd6, 0x13, 0x52, 0xd1)
    ensures SubWord(S9.w1) == Word(0xa6, 0xf3, 0xf3, 0xa0)
    ensures SubWord(S9.w2) == Word(0x43, 0x27, 0xd9, 0xfe)
    ensures SubWord(S9.w3) == Word(0xe5, 0x0d, 0x9b, 0xdd)
    ensures MixColumn(Word(0xd6, 0xf3, 0xd9, 0xdd)) == Word(0xbd, 0x86, 0xf0, 0xea)
    ensures MixColumn(Word(0xa6, 0x27, 0x9b, 0xd1)) == Word(0x74, 0x8f, 0xc4, 0xf4)
    ensures MixColumn(Word(0x43, 0x0d, 0x52, 0xa0)) == Word(0x63, 0x0f, 0x11, 0xc1)
    ensures MixColumn(Word(0xe5, 0x13, 0xf3, 0xfe)) == Word(0xe9, 0x33, 0x12, 0x33)
    ensures AddRoundKey(Block(Word(0xbd, 0x86, 0xf0, 0xea), Word(0x74, 0x8f, 0xc4, 0xf4),
                              Word(0x63, 0x0f, 0x11, 0xc1), Word(0xe9, 0x33, 0x12, 0x33)), K10) == S10
  {}

  lemma Round11()
    ensures SubWord(S10.w0) == Word(0x78, 0x3b, 0xc5, 0x42)
    ensures SubWord(S10.w1) == Word(0x74, 0xe2, 0x80, 0xe0)
    ensures SubWord(S10.w2) == Word(0x51, 0x1e, 0xac, 0xc7)
    ensures SubWord(S10.w3) == Word(0xe2, 0x00, 0xd5, 0xce)
    ensures MixColumn(Word(0x78, 0xe2, 0xac, 0xce)) == Word(0xaf, 0x86, 0x90, 0x41)
    ensures MixColumn(Word(0x74, 0x1e, 0xd5, 0x42)) == Word(0x5d, 0x6e, 0x1d, 0xd3)
    ensures MixColumn(Word(0x51, 0x00, 0xc5, 0xe0)) == Word(0x87, 0xe5, 0xfb, 0xed)
    ensures MixColumn(Word(0xe2, 0x3b, 0x80, 0xc7)) == Word(0xd5, 0xc8, 0x90, 0x13)
    ensures AddRoundKey(Block(Word(0xaf, 0x86, 0x90, 0x41), Word(0x5d, 0x6e, 0x1d, 0xd3),
                              Word(0x87, 0xe5, 0xfb, 0xed), Word(0xd5, 0xc8, 0x90, 0x13)), K11) == S11
  {}

  lemma Round12()
    ensures SubWord(S11.w0) == Word(0xcf, 0xde, 0x02, 0x08)
    ensures SubWord(S11.w1) == Word(0xf4, 0xb4, 0x18, 0xac)
    ensures SubWord(S11.w2) == Word(0x53, 0x09, 0xdb, 0x5c)
    ensures SubWord(S11.w3) == Word(0x33, 0x85, 0x38, 0xed)
    ensures MixColumn(Word(0xcf, 0xb4, 0xdb, 0xed)) == Word(0x74, 0x27, 0xfa, 0xe4)
    ensures MixColumn(Word(0xf4, 0x09, 0x38, 0x08)) == Word(0xd8, 0xa6, 0x95, 0x26)
    ensures MixColumn(Word(0x53, 0x85, 0x02, 0xac)) == Word(0x9c, 0xe8, 0x3d, 0x31)
    ensures MixColumn(Word(0x33, 0xde, 0x18, 0x5c)) == Word(0x5b, 0xe0, 0x39, 0x2b)
    ensures AddRoundKey(Block(Word(0x74, 0x27, 0xfa, 0xe4), Word(0xd8, 0xa6, 0x95, 0x26),
                              Word(0x9c, 0xe8, 0x3d, 0x31), Word(0x5b, 0xe0, 0x39, 0x2b)), K12) == S12
  {}

  lemma Round13()
    ensures SubWord(S12.w0) == Word(0xd1, 0x33, 0xf2, 0x2a)
    ensures SubWord(S12.w1) == Word(0x1a, 0xed, 0x2a, 0x7b)
    ensures SubWord(S12.w2) == Word(0xfa, 0x0f, 0x44, 0x69)
    ensures SubWord(S12.w3) == Word(0x7c, 0x4f, 0x3f, 0xfd)
    ensures MixColumn(Word(0xd1, 0xed, 0x44, 0xfd)) == Word(0x2c, 0x21, 0xa8, 0x20)
    ensures MixColumn(Word(0x1a, 0x0f, 0x3f, 0x2a)) == Word(0x30, 0x6f, 0x15, 0x4a)
    ensures MixColumn(Word(0xfa, 0x4f, 0xf2, 0x7b)) == Word(0xb7, 0x12, 0xc7, 0x5e)
    ensures MixColumn(Word(0x7c, 0x33, 0x2a, 0x69)) == Word(0xee, 0x0d, 0xa0, 0x4f)
    ensures AddRoundKey(Block(Word(0x2c, 0x21, 0xa8, 0x20), Word(0x30, 0x6f, 0x15, 0x4a),
                              Word(0xb7, 0x12, 0xc7, 0x5e), Word(0xee, 0x0d, 0xa0, 0x4f)), K13) == S13
  {}

  lemma Round14()
    ensures SubWord(S13.w0) == Word(0xaa, 0x21, 0x8b, 0x56)
    ensures SubWord(S13.w1) == Word(0xee, 0x5e, 0xbe, 0xac)
    ensures SubWord(S13.w2) == Word(0xdd, 0x6e, 0xce, 0xbf)
    ensures SubWord(S13.w3) == Word(0x26, 0xe6, 0x3c, 0x06)
    ensures AddRoundKey(Block(Word(0xaa, 0x5e, 0xce, 0x06), Word(0xee, 0x6e, 0x3c, 0x56),
                              Word(0xdd, 0xe6, 0x8b, 0xac), Word(0x26, 0x21, 0xbe, 0xbf)), K14) == S14
  {}

  lemma CipherExample()
    ensures Cipher(Window(K0, K1), PLAIN) == S14
  {
    hide AddRoundKey, SubWord, MixColumn, RoundWords;
    var key := Window(K0, K1);
    RoundKeys();
    FirstKey();
    Round1();
    assert CipherState(key, PLAIN, 1) == S1;
    Round2();
    assert CipherState(key, PLAIN, 2) == S2;
    Round3();
    assert CipherState(key, PLAIN, 3) == S3;
    Round4();
    assert CipherState(key, PLAIN, 4) == S4;
    Round5();
    assert CipherState(key, PLAIN, 5) == S5;
    Round6();
    assert CipherState(key, PLAIN, 6) == S6;
    Round7();
    assert CipherState(key, PLAIN, 7) == S7;
    Round8();
    assert CipherState(key, PLAIN, 8) == S8;
    Round9();
    assert CipherState(key, PLAIN, 9) == S9;
    Round10();
    assert CipherState(key, PLAIN, 10) == S10;
    Round11();
    assert CipherState(key, PLAIN, 11) == S11;
    Round12();
    assert CipherState(key, PLAIN, 12) == S12;
    Round13();
    assert CipherState(key, PLAIN, 13) == S13;
    Round14();
    assert CipherState(key, PLAIN, 14) == S14;
  }

  lemma FirstKey()
    ensures AddRoundKey(PLAIN, K0) == S0
  {}

  /** Encrypting the bytes 0x00, 0x11, ..., 0xff with the key bytes 0x00, 0x01, ..., 0x1f. */
  lemma Example()
    ensures EncryptedBytes(
              [0x00, 0x01, 0x02, 0x03, 0x04, 0x05, 0x06, 0x07, 0x08, 0x09, 0x0a, 0x0b, 0x0c, 0x0d, 0x0e, 0x0f,
               0x10, 0x11, 0x12, 0x13, 0x14, 0x15, 0x16, 0x17, 0x18, 0x19, 0x1a, 0x1b, 0x1c, 0x1d, 0x1e, 0x1f],
              [0x00, 0x11, 0x22, 0x33, 0x44, 0x55, 0x66, 0x77, 0x88, 0x99, 0xaa, 0xbb, 0xcc, 0xdd, 0xee, 0xff]) ==
            [0x8e, 0xa2, 0xb7, 0xca, 0x51, 0x67, 0x45, 0xbf, 0xea, 0xfc, 0x49, 0x90, 0x4b, 0x49, 0x60, 0x89]
  {
    hide Encrypted, Cipher;
    EncryptedIsCipher(Window(K0, K1), PLAIN);
    CipherExample();
  }
}
