/** A known answer: the SHA-1 digest of the message "abc", computed from the definition in rows of four
    rounds. */
module KnownSha1 {
  import opened Octets
  import opened BlockHash
  import opened Sha1
  import opened KnownBlock

  import opened BitLaws

  // ---------------------------------------------------------------- rows of four

  function NextWord(w3: bv32, w8: bv32, w14: bv32, w16: bv32): bv32 { Rotl(Xor4(w3, w8, w14, w16), 1) }

  /** The next four words of the schedule, from the sixteen before them. */
  function NextWords(a: seq<bv32>, b: seq<bv32>, c: seq<bv32>, d: seq<bv32>): seq<bv32>
    requires |a| == |b| == |c| == |d| == 4
  {
    var w0 := NextWord(d[1], c[0], a[2], a[0]);
    [w0, NextWord(d[2], c[1], a[3], a[1]), NextWord(d[3], c[2], b[0], a[2]), NextWord(w0, c[3], b[1], a[3])]
  }

  /** A round of the stage that twenty rounds form. */
  function StageRound(v: State, stage: nat, w: bv32): State
    requires stage < 4
  {
    var (f, k) :=
      match stage
      case 0 => (Ch(v.b, v.c, v.d), 0x5a827999)
      case 1 => (Parity(v.b, v.c, v.d), 0x6ed9eba1)
      case 2 => (Maj(v.b, v.c, v.d), 0x8f1bbcdc)
      case _ => (Parity(v.b, v.c, v.d), 0xca62c1d6);
    State(Add(Add(Add(Add(Rotl(v.a, 5), f), v.e), k), w), v.a, Rotl(v.b, 30), v.c, v.d)
  }

  lemma RoundOfStage(v: State, t: nat, w: bv32)
    requires t < 80
    ensures Round(v, t, w) == StageRound(v, t / 20, w)
  {
    hide Add, Rotl, Ch, Maj, Parity;
  }

  function FourRounds(v: State, stage: nat, ws: seq<bv32>): State
    requires stage < 4 && |ws| == 4
  {
    TwoRounds(TwoRounds(v, stage, ws[0], ws[1]), stage, ws[2], ws[3])
  }

  function TwoRounds(v: State, stage: nat, w0: bv32, w1: bv32): State
    requires stage < 4
  {
    StageRound(StageRound(v, stage, w0), stage, w1)
  }

  /** Words `t` to `t + 3` of the schedule. */
  ghost predicate Row(block: Bytes, t: nat, ws: seq<bv32>)
    requires |block| == 64
  {
    && |ws| == 4 && Schedule(block, t) == ws[0] && Schedule(block, t + 1) == ws[1]
    && Schedule(block, t + 2) == ws[2] && Schedule(block, t + 3) == ws[3]
  }

  lemma NextRow(block: Bytes, t: nat, a: seq<bv32>, b: seq<bv32>, c: seq<bv32>, d: seq<bv32>)
    requires |block| == 64 && Row(block, t, a) && Row(block, t + 4, b) && Row(block, t + 8, c) && Row(block, t + 12, d)
    ensures Row(block, t + 16, NextWords(a, b, c, d))
  {
    hide Schedule, Rotl, Xor4;
    ScheduleStep(block, t + 16);
    ScheduleStep(block, t + 17);
    ScheduleStep(block, t + 18);
    ScheduleStep(block, t + 19);
  }

  lemma NextRounds(block: Bytes, t: nat, s: State, ws: seq<bv32>)
    requires |block| == 64 && t < 80 && t % 20 <= 16 && Row(block, t, ws)
    ensures Rounds(block, t + 4, s) == FourRounds(Rounds(block, t, s), t / 20, ws)
  {
    hide Schedule, Rounds, Round, StageRound;
    OneRound(block, t, s);
    OneRound(block, t + 1, s);
    OneRound(block, t + 2, s);
    OneRound(block, t + 3, s);
    forall j, v | 0 <= j < 4 ensures Round(v, t + j, ws[j]) == StageRound(v, t / 20, ws[j]) {
      RoundOfStage(v, t + j, ws[j]);
      assert (t + j) / 20 == t / 20;
    }
  }

  // ---------------------------------------------------------------- the rows of "abc"

  const W0: seq<bv32> := [0x61626380, 0x00000000, 0x00000000, 0x00000000]
  const W1: seq<bv32> := [0x00000000, 0x00000000, 0x00000000, 0x00000000]
  const W2: seq<bv32> := [0x00000000, 0x00000000, 0x00000000, 0x00000000]
  const W3: seq<bv32> := [0x00000000, 0x00000000, 0x00000000, 0x00000018]
  const W4: seq<bv32> := [0xc2c4c700, 0x00000000, 0x00000030, 0x85898e01]
  const W5: seq<bv32> := [0x00000000, 0x00000060, 0x0b131c03, 0x00000030]
  const W6: seq<bv32> := [0x85898ec1, 0x16263806, 0x00000000, 0x00000180]
  const W7: seq<bv32> := [0x2c4c700c, 0x000000f0, 0x93afb507, 0x5898e048]
  const W8: seq<bv32> := [0x8e9a9202, 0x00000600, 0xb131c0f0, 0x16263bc6]
  const W9: seq<bv32> := [0x4ebed41e, 0x626380a1, 0x16263806, 0x000018c0]
  const W10: seq<bv32> := [0xd2e138c4, 0x00000f00, 0x3afb5079, 0x898e04e5]
  const W11: seq<bv32> := [0xe2ba3c2b, 0x000060c0, 0x053a37cd, 0x74458547]
  const W12: seq<bv32> := [0xda9415ed, 0x26380a16, 0x626383a1, 0x4ebf54de]
  const W13: seq<bv32> := [0x3835b44b, 0x0000f600, 0x1e84c7a3, 0x98e04d98]
  const W14: seq<bv32> := [0x651d16a0, 0x62658ca1, 0x458544d6, 0x44584cb7]
  const W15: seq<bv32> := [0x7ba06619, 0x6380aea2, 0x0ae55269, 0x627b49a1]
  const W16: seq<bv32> := [0x7cd45c9d, 0x000f0000, 0xfb50753a, 0xec6765e8]
  const W17: seq<bv32> := [0xba3c2be2, 0x0060c000, 0x3a37cd05, 0x458546f4]
  const W18: seq<bv32> := [0xb8599dd6, 0x380a1a26, 0x01e02203, 0xe7cc3456]
  const W19: seq<bv32> := [0xe6e60b69, 0x00f60a00, 0x5795ef4f, 0x822e0879]

  const S1: State := State(0xcdd8e11b, 0xa1390f08, 0x626414db, 0xc045bf0c, 0x59d148c0)
  const S2: State := State(0x9e8c07d4, 0x993e30c1, 0x0ff1f290, 0xb3f52677, 0xf3763846)
  const S3: State := State(0x63188fe4, 0xfbda9e89, 0x60d47e4a, 0x12dab8ca, 0x27a301f5)
  const S4: State := State(0x20bdd62f, 0x196bee77, 0x644a3da5, 0x1181ed99, 0x18c623f9)
  const S5: State := State(0xfd9e1d7d, 0xdc64901d, 0x20aa99ca, 0xd3a49608, 0xc82f758b)
  const S6: State := State(0xd541f12d, 0x21283486, 0x0ce88eff, 0x868dec32, 0x7f67875f)
  const S7: State := State(0x4aa84d97, 0xbe35fbd5, 0x12104ee9, 0xb1d59f71, 0x75507c4b)
  const S8: State := State(0x3b845d33, 0x1267b407, 0x717eebd7, 0xa0dc2d4b, 0xd2aa1365)
  const S9: State := State(0xdcbbb0cb, 0x21796ad4, 0x4b03af04, 0x811bea82, 0xcee1174c)
  const S10: State := State(0x32de1cba, 0x4c986405, 0xf718e5cf, 0x03d447f6, 0xf72eec32)
  const S11: State := State(0xee1b1aaf, 0x7f193dc5, 0x25c28357, 0xff21f7b7, 0x8cb7872e)
  const S12: State := State(0xbead02ca, 0xa01b846c, 0x8714787c, 0x503ca382, 0xfb86c6ab)
  const S13: State := State(0x3847ad66, 0x641db2ce, 0x4481cc71, 0xeebce4cd, 0xafab40b2)
  const S14: State := State(0x5e6456af, 0x7b71f76d, 0x09fa7c76, 0x792410db, 0x8e11eb59)
  const S15: State := State(0x3f52de5a, 0x09d785fd, 0x3498bfd4, 0xf211824f, 0xd79915ab)
  const S16: State := State(0x6b61c9e1, 0xb66c020b, 0x9523272c, 0xf5d5b051, 0x8fd4b796)
  const S17: State := State(0x78dd4d2b, 0x0c3df2b4, 0x4405957e, 0x0677e9eb, 0x5ad87278)
  const S18: State := State(0x39859de7, 0xc199f8c7, 0x8fc96230, 0x125c24f0, 0xde37534a)
  const S19: State := State(0x63f7dab7, 0x5ee76897, 0xc45e4fdb, 0x3b6d0b79, 0xce616779)
  const S20: State := State(0x42541b35, 0x5738d5e1, 0x21834873, 0x681e6df6, 0xd8fdf6ad)

  lemma Words4() ensures NextWords(W0, W1, W2, W3) == W4 {}
  lemma Words5() ensures NextWords(W1, W2, W3, W4) == W5 {}
  lemma Words6() ensures NextWords(W2, W3, W4, W5) == W6 {}
  lemma Words7() ensures NextWords(W3, W4, W5, W6) == W7 {}
  lemma Words8() ensures NextWords(W4, W5, W6, W7) == W8 {}
  lemma Words9() ensures NextWords(W5, W6, W7, W8) == W9 {}
  lemma Words10() ensures NextWords(W6, W7, W8, W9) == W10 {}
  lemma Words11() ensures NextWords(W7, W8, W9, W10) == W11 {}
  lemma Words12() ensures NextWords(W8, W9, W10, W11) == W12 {}
  lemma Words13() ensures NextWords(W9, W10, W11, W12) == W13 {}
  lemma Words14() ensures NextWords(W10, W11, W12, W13) == W14 {}
  lemma Words15() ensures NextWords(W11, W12, W13, W14) == W15 {}
  lemma Words16() ensures NextWords(W12, W13, W14, W15) == W16 {}
  lemma Words17() ensures NextWords(W13, W14, W15, W16) == W17 {}
  lemma Words18() ensures NextWords(W14, W15, W16, W17) == W18 {}
  lemma Words19() ensures NextWords(W15, W16, W17, W18) == W19 {}

  lemma Rounds1() ensures FourRounds(INITIAL, 0, W0) == S1 {
    var v := State(0x8990536d, 0x0116fc33, 0x59d148c0, 0x7bf36ae2, 0x98badcfe);
    assert TwoRounds(INITIAL, 0, 0x61626380, 0x00000000) == v;
    assert TwoRounds(v, 0, 0x00000000, 0x00000000) == S1;
  }
  lemma Rounds2() ensures FourRounds(S1, 0, W1) == S2 {
    var v := State(0x3fc7ca40, 0xcfd499de, 0xf3763846, 0x284e43c2, 0x626414db);
    assert TwoRounds(S1, 0, 0x00000000, 0x00000000) == v;
    assert TwoRounds(v, 0, 0x00000000, 0x00000000) == S2;
  }
  lemma Rounds3() ensures FourRounds(S2, 0, W2) == S3 {
    var v := State(0x8351f929, 0x4b6ae328, 0x27a301f5, 0x664f8c30, 0x0ff1f290);
    assert TwoRounds(S2, 0, 0x00000000, 0x00000000) == v;
    assert TwoRounds(v, 0, 0x00000000, 0x00000000) == S3;
  }
  lemma Rounds4() ensures FourRounds(S3, 0, W3) == S4 {
    var v := State(0x9128f695, 0x4607b664, 0x18c623f9, 0x7ef6a7a2, 0x60d47e4a);
    assert TwoRounds(S3, 0, 0x00000000, 0x00000000) == v;
    assert TwoRounds(v, 0, 0x00000000, 0x00000018) == S4;
  }
  lemma Rounds5() ensures FourRounds(S4, 0, W4) == S5 {
    var v := State(0x82aa6728, 0x4e925823, 0xc82f758b, 0xc65afb9d, 0x644a3da5);
    assert TwoRounds(S4, 0, 0xc2c4c700, 0x00000000) == v;
    assert TwoRounds(v, 0, 0x00000030, 0x85898e01) == S5;
  }
  lemma Rounds6() ensures FourRounds(S5, 1, W5) == S6 {
    var v := State(0x33a23bfc, 0x1a37b0ca, 0x7f67875f, 0x77192407, 0x20aa99ca);
    assert TwoRounds(S5, 1, 0x00000000, 0x00000060) == v;
    assert TwoRounds(v, 1, 0x0b131c03, 0x00000030) == S6;
  }
  lemma Rounds7() ensures FourRounds(S6, 1, W6) == S7 {
    var v := State(0x48413ba4, 0xc7567dc6, 0x75507c4b, 0x884a0d21, 0x0ce88eff);
    assert TwoRounds(S6, 1, 0x85898ec1, 0x16263806) == v;
    assert TwoRounds(v, 1, 0x00000000, 0x00000180) == S7;
  }
  lemma Rounds8() ensures FourRounds(S7, 1, W7) == S8 {
    var v := State(0xc5fbaf5d, 0x8370b52e, 0xd2aa1365, 0x6f8d7ef5, 0x12104ee9);
    assert TwoRounds(S7, 1, 0x2c4c700c, 0x000000f0) == v;
    assert TwoRounds(v, 1, 0x93afb507, 0x5898e048) == S8;
  }
  lemma Rounds9() ensures FourRounds(S8, 1, W8) == S9 {
    var v := State(0x2c0ebc11, 0x046faa0a, 0xcee1174c, 0xc499ed01, 0x717eebd7);
    assert TwoRounds(S8, 1, 0x8e9a9202, 0x00000600) == v;
    assert TwoRounds(v, 1, 0xb131c0f0, 0x16263bc6) == S9;
  }
  lemma Rounds10() ensures FourRounds(S9, 1, W9) == S10 {
    var v := State(0xdc63973f, 0x0f511fd8, 0xf72eec32, 0x085e5ab5, 0x4b03af04);
    assert TwoRounds(S9, 1, 0x4ebed41e, 0x626380a1) == v;
    assert TwoRounds(v, 1, 0x16263806, 0x000018c0) == S10;
  }
  lemma Rounds11() ensures FourRounds(S10, 2, W10) == S11 {
    var v := State(0x970a0d5c, 0xfc87dedf, 0x8cb7872e, 0x53261901, 0xf718e5cf);
    assert TwoRounds(S10, 2, 0xd2e138c4, 0x00000f00) == v;
    assert TwoRounds(v, 2, 0x3afb5079, 0x898e04e5) == S11;
  }
  lemma Rounds12() ensures FourRounds(S11, 2, W11) == S12 {
    var v := State(0x1c51e1f2, 0x40f28e09, 0xfb86c6ab, 0x5fc64f71, 0x25c28357);
    assert TwoRounds(S11, 2, 0xe2ba3c2b, 0x000060c0) == v;
    assert TwoRounds(v, 2, 0x053a37cd, 0x74458547) == S12;
  }
  lemma Rounds13() ensures FourRounds(S12, 2, W12) == S13 {
    var v := State(0x120731c5, 0xbaf39337, 0xafab40b2, 0x2806e11b, 0x8714787c);
    assert TwoRounds(S12, 2, 0xda9415ed, 0x26380a16) == v;
    assert TwoRounds(v, 2, 0x626383a1, 0x4ebf54de) == S13;
  }
  lemma Rounds14() ensures FourRounds(S13, 2, W13) == S14 {
    var v := State(0x27e9f1d8, 0xe490436d, 0x8e11eb59, 0x99076cb3, 0x4481cc71);
    assert TwoRounds(S13, 2, 0x3835b44b, 0x0000f600) == v;
    assert TwoRounds(v, 2, 0x1e84c7a3, 0x98e04d98) == S14;
  }
  lemma Rounds15() ensures FourRounds(S14, 2, W14) == S15 {
    var v := State(0xd262ff50, 0xc846093f, 0xd79915ab, 0x5edc7ddb, 0x09fa7c76);
    assert TwoRounds(S14, 2, 0x651d16a0, 0x62658ca1) == v;
    assert TwoRounds(v, 2, 0x458544d6, 0x44584cb7) == S15;
  }
  lemma Rounds16() ensures FourRounds(S15, 3, W15) == S16 {
    var v := State(0x548c9cb2, 0xd756c147, 0x8fd4b796, 0x4275e17f, 0x3498bfd4);
    assert TwoRounds(S15, 3, 0x7ba06619, 0x6380aea2) == v;
    assert TwoRounds(v, 3, 0x0ae55269, 0x627b49a1) == S16;
  }
  lemma Rounds17() ensures FourRounds(S16, 3, W16) == S17 {
    var v := State(0x101655f9, 0x19dfa7ac, 0x5ad87278, 0xed9b0082, 0x9523272c);
    assert TwoRounds(S16, 3, 0x7cd45c9d, 0x000f0000) == v;
    assert TwoRounds(v, 3, 0xfb50753a, 0xec6765e8) == S17;
  }
  lemma Rounds18() ensures FourRounds(S17, 3, W17) == S18 {
    var v := State(0x3f2588c2, 0x497093c0, 0xde37534a, 0x030f7cad, 0x4405957e);
    assert TwoRounds(S17, 3, 0xba3c2be2, 0x0060c000) == v;
    assert TwoRounds(v, 3, 0x3a37cd05, 0x458546f4) == S18;
  }
  lemma Rounds19() ensures FourRounds(S18, 3, W18) == S19 {
    var v := State(0x11793f6f, 0xedb42de4, 0xce616779, 0xf0667e31, 0x8fc96230);
    assert TwoRounds(S18, 3, 0xb8599dd6, 0x380a1a26) == v;
    assert TwoRounds(v, 3, 0x01e02203, 0xe7cc3456) == S19;
  }
  lemma Rounds20() ensures FourRounds(S19, 3, W19) == S20 {
    var v := State(0x860d21cc, 0xa079b7d9, 0xd8fdf6ad, 0xd7b9da25, 0xc45e4fdb);
    assert TwoRounds(S19, 3, 0xe6e60b69, 0x00f60a00) == v;
    assert TwoRounds(v, 3, 0x5795ef4f, 0x822e0879) == S20;
  }

  lemma FirstRows(block: Bytes)
    requires block == Padded("abc")
    ensures |block| == 64 && Row(block, 0, W0) && Row(block, 4, W1) && Row(block, 8, W2) && Row(block, 12, W3)
  {
    hide Schedule, Padded, WordAt;
    BlockOfAbc();
    forall t | 0 <= t < 16 ensures Schedule(block, t) == WordAt(block, t) { ScheduleStep(block, t); }
  }

  lemma AllRows(block: Bytes)
    requires block == Padded("abc")
    ensures |block| == 64
    ensures Row(block, 0, W0) && Row(block, 4, W1) && Row(block, 8, W2) && Row(block, 12, W3)
    ensures Row(block, 16, W4) && Row(block, 20, W5) && Row(block, 24, W6) && Row(block, 28, W7)
    ensures Row(block, 32, W8) && Row(block, 36, W9) && Row(block, 40, W10) && Row(block, 44, W11)
    ensures Row(block, 48, W12) && Row(block, 52, W13) && Row(block, 56, W14) && Row(block, 60, W15)
    ensures Row(block, 64, W16) && Row(block, 68, W17) && Row(block, 72, W18) && Row(block, 76, W19)
  {
    hide Row, NextWords, Padded;
    FirstRows(block);
    NextRow(block, 0, W0, W1, W2, W3);
    Words4();
    NextRow(block, 4, W1, W2, W3, W4);
    Words5();
    NextRow(block, 8, W2, W3, W4, W5);
    Words6();
    NextRow(block, 12, W3, W4, W5, W6);
    Words7();
    NextRow(block, 16, W4, W5, W6, W7);
    Words8();
    NextRow(block, 20, W5, W6, W7, W8);
    Words9();
    NextRow(block, 24, W6, W7, W8, W9);
    Words10();
    NextRow(block, 28, W7, W8, W9, W10);
    Words11();
    NextRow(block, 32, W8, W9, W10, W11);
    Words12();
    NextRow(block, 36, W9, W10, W11, W12);
    Words13();
    NextRow(block, 40, W10, W11, W12, W13);
    Words14();
    NextRow(block, 44, W11, W12, W13, W14);
    Words15();
    NextRow(block, 48, W12, W13, W14, W15);
    Words16();
    NextRow(block, 52, W13, W14, W15, W16);
    Words17();
    NextRow(block, 56, W14, W15, W16, W17);
    Words18();
    NextRow(block, 60, W15, W16, W17, W18);
    Words19();
  }

  lemma Quarter1(block: Bytes)
    requires block == Padded("abc")
    ensures |block| == 64 && Rounds(block, 20, INITIAL) == S5
  {
    hide Row, Rounds, FourRounds, Padded;
    AllRows(block);
    NoRounds(block, INITIAL);
    NextRounds(block, 0, INITIAL, W0);
    Rounds1();
    NextRounds(block, 4, INITIAL, W1);
    Rounds2();
    NextRounds(block, 8, INITIAL, W2);
    Rounds3();
    NextRounds(block, 12, INITIAL, W3);
    Rounds4();
    NextRounds(block, 16, INITIAL, W4);
    Rounds5();
  }

  lemma Quarter2(block: Bytes)
    requires block == Padded("abc")
    ensures |block| == 64 && Rounds(block, 40, INITIAL) == S10
  {
    hide Row, Rounds, FourRounds, Padded;
    AllRows(block);
    Quarter1(block);
    NextRounds(block, 20, INITIAL, W5);
    Rounds6();
    NextRounds(block, 24, INITIAL, W6);
    Rounds7();
    NextRounds(block, 28, INITIAL, W7);
    Rounds8();
    NextRounds(block, 32, INITIAL, W8);
    Rounds9();
    NextRounds(block, 36, INITIAL, W9);
    Rounds10();
  }

  lemma Quarter3(block: Bytes)
    requires block == Padded("abc")
    ensures |block| == 64 && Rounds(block, 60, INITIAL) == S15
  {
    hide Row, Rounds, FourRounds, Padded;
    AllRows(block);
    Quarter2(block);
    NextRounds(block, 40, INITIAL, W10);
    Rounds11();
    NextRounds(block, 44, INITIAL, W11);
    Rounds12();
    NextRounds(block, 48, INITIAL, W12);
    Rounds13();
    NextRounds(block, 52, INITIAL, W13);
    Rounds14();
    NextRounds(block, 56, INITIAL, W14);
    Rounds15();
  }

  lemma Quarter4(block: Bytes)
    requires block == Padded("abc")
    ensures |block| == 64 && Rounds(block, 80, INITIAL) == S20
  {
    hide Row, Rounds, FourRounds, Padded;
    AllRows(block);
    Quarter3(block);
    NextRounds(block, 60, INITIAL, W15);
    Rounds16();
    NextRounds(block, 64, INITIAL, W16);
    Rounds17();
    NextRounds(block, 68, INITIAL, W17);
    Rounds18();
    NextRounds(block, 72, INITIAL, W18);
    Rounds19();
    NextRounds(block, 76, INITIAL, W19);
    Rounds20();
  }

  lemma LastSum()
    ensures Sum(INITIAL, S20) == State(0xa9993e36, 0x4706816a, 0xba3e2571, 0x7850c26c, 0x9cd0d89d)
  {
  }

  lemma DigestWords()
    ensures WordsToOctets([0xa9993e36, 0x4706816a, 0xba3e2571, 0x7850c26c, 0x9cd0d89d]) ==
      [0xa9 as char, 0x99 as char, 0x3e as char, 0x36 as char, 0x47 as char, 0x06 as char, 0x81 as char, 0x6a as char] +
      [0xba as char, 0x3e as char, 0x25 as char, 0x71 as char, 0x78 as char, 0x50 as char, 0xc2 as char, 0x6c as char] +
      [0x9c as char, 0xd0 as char, 0xd8 as char, 0x9d as char]
  {
    hide WordsToOctets, OctetOf;
    NoWords();
    var none: seq<bv32> := [];
    Octets4();
    FrontWord(0x9cd0d89d, none, 0x9c as char, 0xd0 as char, 0xd8 as char, 0x9d as char);
    var r4: seq<bv32> := [0x9cd0d89d] + none;
    Octets2();
    Octets3();
    FrontWords(0xba3e2571, 0x7850c26c, r4,
               [0xba as char, 0x3e as char, 0x25 as char, 0x71 as char, 0x78 as char, 0x50 as char, 0xc2 as char, 0x6c as char]);
    var r2: seq<bv32> := [0xba3e2571, 0x7850c26c] + r4;
    Octets0();
    Octets1();
    FrontWords(0xa9993e36, 0x4706816a, r2,
               [0xa9 as char, 0x99 as char, 0x3e as char, 0x36 as char, 0x47 as char, 0x06 as char, 0x81 as char, 0x6a as char]);
    var r0: seq<bv32> := [0xa9993e36, 0x4706816a] + r2;
    assert r0 == [0xa9993e36, 0x4706816a, 0xba3e2571, 0x7850c26c, 0x9cd0d89d];
    Parts([0xa9 as char, 0x99 as char, 0x3e as char, 0x36 as char, 0x47 as char, 0x06 as char, 0x81 as char, 0x6a as char],
          [0xba as char, 0x3e as char, 0x25 as char, 0x71 as char, 0x78 as char, 0x50 as char, 0xc2 as char, 0x6c as char],
          [0x9c as char, 0xd0 as char, 0xd8 as char, 0x9d as char],
          []);
  }

  lemma Octets0()
    ensures OctetOf(0xa9993e36, 3) == 0xa9 as char && OctetOf(0xa9993e36, 2) == 0x99 as char
    ensures OctetOf(0xa9993e36, 1) == 0x3e as char && OctetOf(0xa9993e36, 0) == 0x36 as char
  {
  }

  lemma Octets1()
    ensures OctetOf(0x4706816a, 3) == 0x47 as char && OctetOf(0x4706816a, 2) == 0x06 as char
    ensures OctetOf(0x4706816a, 1) == 0x81 as char && OctetOf(0x4706816a, 0) == 0x6a as char
  {
  }

  lemma Octets2()
    ensures OctetOf(0xba3e2571, 3) == 0xba as char && OctetOf(0xba3e2571, 2) == 0x3e as char
    ensures OctetOf(0xba3e2571, 1) == 0x25 as char && OctetOf(0xba3e2571, 0) == 0x71 as char
  {
  }

  lemma Octets3()
    ensures OctetOf(0x7850c26c, 3) == 0x78 as char && OctetOf(0x7850c26c, 2) == 0x50 as char
    ensures OctetOf(0x7850c26c, 1) == 0xc2 as char && OctetOf(0x7850c26c, 0) == 0x6c as char
  {
  }

  lemma Octets4()
    ensures OctetOf(0x9cd0d89d, 3) == 0x9c as char && OctetOf(0x9cd0d89d, 2) == 0xd0 as char
    ensures OctetOf(0x9cd0d89d, 1) == 0xd8 as char && OctetOf(0x9cd0d89d, 0) == 0x9d as char
  {
  }

  /** The digest that FIPS 180-4 is published with. */
  lemma DigestOfAbc()
    ensures Hash("abc") ==
      [0xa9 as char, 0x99 as char, 0x3e as char, 0x36 as char, 0x47 as char, 0x06 as char, 0x81 as char, 0x6a as char] +
      [0xba as char, 0x3e as char, 0x25 as char, 0x71 as char, 0x78 as char, 0x50 as char, 0xc2 as char, 0x6c as char] +
      [0x9c as char, 0xd0 as char, 0xd8 as char, 0x9d as char]
  {
    hide Padded, Absorb, WordsToOctets, Rounds, Sum;
    var block := Padded("abc");
    Quarter4(block);
    OneBlock(Compress, INITIAL, block);
    CompressIsSum(block, INITIAL);
    LastSum();
    DigestWords();
  }
}
