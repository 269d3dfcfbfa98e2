/** A known answer: the SHA-256 digest of the message "abc", computed from the definition in rows of four
    rounds. */
module KnownSha256 {
  import opened Octets
  import opened BlockHash
  import opened Sha256
  import opened KnownBlock

  // ---------------------------------------------------------------- rows of four

  function NextWord(w2: bv32, w7: bv32, w15: bv32, w16: bv32): bv32 {
    Add(Add(SmallSigma1(w2), w7), Add(SmallSigma0(w15), w16))
  }

  /** The next four words of the schedule, from the sixteen before them. */
  function NextWords(a: seq<bv32>, b: seq<bv32>, c: seq<bv32>, d: seq<bv32>): seq<bv32>
    requires |a| == |b| == |c| == |d| == 4
  {
    var w0, w1 := NextWord(d[2], c[1], a[1], a[0]), NextWord(d[3], c[2], a[2], a[1]);
    [w0, w1, NextWord(w0, c[3], a[3], a[2]), NextWord(w1, d[0], b[0], a[3])]
  }

  /** With the constants from `i` on in a row. */
  function FourRounds(v: State, ks: seq<bv32>, i: nat, ws: seq<bv32>): State
    requires i + 4 <= |ks| && |ws| == 4
  {
    Round(Round(Round(Round(v, ks[i], ws[0]), ks[i + 1], ws[1]), ks[i + 2], ws[2]), ks[i + 3], ws[3])
  }

  /** Words `t` to `t + 3` of the schedule. */
  ghost predicate Row(block: Bytes, t: nat, ws: seq<bv32>)
    requires |block| == 64
  {
    && |ws| == 4 && Schedule(block, t) == ws[0] && Schedule(block, t + 1) == ws[1]
    && Schedule(block, t + 2) == ws[2] && Schedule(block, t + 3) == ws[3]
  }

  lemma NextRow(block: Bytes, t: nat, a: seq<bv32>, b: seq<bv32>, c: seq<bv32>, d: seq<bv32>)
    requires |block| == 64 && Row(block, t, a) && Row(block, t + 4, b) && Row(block, t + 8, c) && Row(block, t + 12, d)
    ensures Row(block, t + 16, NextWords(a, b, c, d))
  {
    hide Schedule, SmallSigma0, SmallSigma1, Add;
    ScheduleStep(block, t + 16);
    ScheduleStep(block, t + 17);
    ScheduleStep(block, t + 18);
    ScheduleStep(block, t + 19);
  }

  lemma ConstantAt(r: nat, j: nat)
    requires r < 8 && j < 8
    ensures RoundConstant(8 * r + j) == ConstantRow(r)[j]
  {
    hide ConstantRow;
    assert (8 * r + j) / 8 == r && (8 * r + j) % 8 == j;
  }

  lemma NextRounds(block: Bytes, r: nat, i: nat, s: State, ws: seq<bv32>)
    requires |block| == 64 && r < 8 && (i == 0 || i == 4) && Row(block, 8 * r + i, ws)
    ensures Rounds(block, 8 * r + i + 4, s) == FourRounds(Rounds(block, 8 * r + i, s), ConstantRow(r), i, ws)
  {
    hide Schedule, Rounds, Round, ConstantRow;
    var t := 8 * r + i;
    ConstantAt(r, i);
    ConstantAt(r, i + 1);
    ConstantAt(r, i + 2);
    ConstantAt(r, i + 3);
    hide RoundConstant;
    OneRound(block, t, s);
    OneRound(block, t + 1, s);
    OneRound(block, t + 2, s);
    OneRound(block, t + 3, s);
  }

  // ---------------------------------------------------------------- the rows of "abc"

  const W0: seq<bv32> := [0x61626380, 0x00000000, 0x00000000, 0x00000000]
  const W1: seq<bv32> := [0x00000000, 0x00000000, 0x00000000, 0x00000000]
  const W2: seq<bv32> := [0x00000000, 0x00000000, 0x00000000, 0x00000000]
  const W3: seq<bv32> := [0x00000000, 0x00000000, 0x00000000, 0x00000018]
  const W4: seq<bv32> := [0x61626380, 0x000f0000, 0x7da86405, 0x600003c6]
  const W5: seq<bv32> := [0x3e9d7b78, 0x0183fc00, 0x12dcbfdb, 0xe2e2c38e]
  const W6: seq<bv32> := [0xc8215c1a, 0xb73679a2, 0xe5bc3909, 0x32663c5b]
  const W7: seq<bv32> := [0x9d209d67, 0xec8726cb, 0x702138a4, 0xd3b7973b]
  const W8: seq<bv32> := [0x93f5997f, 0x3b68ba73, 0xaff4ffc1, 0xf10a5c62]
  const W9: seq<bv32> := [0x0a8b3996, 0x72af830a, 0x9409e33e, 0x24641522]
  const W10: seq<bv32> := [0x9f47bf94, 0xf0a64f5a, 0x3e246a79, 0x27333ba3]
  const W11: seq<bv32> := [0x0c4763f2, 0x840abf27, 0x7a290d5d, 0x065c43da]
  const W12: seq<bv32> := [0xfb3e89cb, 0xcc7617db, 0xb9e66c34, 0xa9993667]
  const W13: seq<bv32> := [0x84badedd, 0xc21462bc, 0x1487472c, 0xb20f7a99]
  const W14: seq<bv32> := [0xef57b9cd, 0xebe6b238, 0x9fe3095e, 0x78bc8d4b]
  const W15: seq<bv32> := [0xa43fcf15, 0x668b2ff8, 0xeeaba2cc, 0x12b1edeb]

  const S1: State := State(0xd550f666, 0xc8c347a7, 0x5a6ad9ad, 0x5d6aebcd, 0x24e00850, 0xf92939eb, 0x78ce7989, 0xfa2a4622)
  const S2: State := State(0x85a07b5f, 0xe5030380, 0x2b4209f5, 0x04409a6a, 0x0c657a79, 0x9b27a401, 0x714260ad, 0x43ada245)
  const S3: State := State(0xf71fc5a9, 0x4798a3f4, 0x8c87346b, 0x8e04ecb9, 0x816fd6e9, 0x436b23e8, 0x1cc92596, 0x32ca2d8c)
  const S4: State := State(0xb0fa238e, 0xc0645fde, 0xd932eb16, 0x87912990, 0x07590dcd, 0x0b92f20c, 0x745a48de, 0x1e578218)
  const S5: State := State(0xe1f20c33, 0xfe777bbf, 0xc2fbd9d1, 0x21da9a9b, 0xb0638179, 0xcc899961, 0x846ee454, 0x8034229c)
  const S6: State := State(0xc5d53d8d, 0xa7a3623f, 0xc2606d6d, 0x9dc68b63, 0xaa47c347, 0x49f5114a, 0xe1257970, 0x8ada8930)
  const S7: State := State(0x77d37528, 0xb62ec4bc, 0xcde8037d, 0x1c2c2838, 0xedffbff8, 0xc74c6516, 0x14383d8e, 0x2823ef91)
  const S8: State := State(0x73b33bf5, 0xea992a22, 0xa0060b30, 0x363482c9, 0xba591112, 0x0109ab3a, 0xade79437, 0x6112a3b7)
  const S9: State := State(0x65a0cfe4, 0xa9a7738c, 0xfe604df5, 0x98e12507, 0xf4b002d6, 0x085f3833, 0x59249dd3, 0x9cd9f5f6)
  const S10: State := State(0x79ea687a, 0x6dc57a8a, 0x34df1604, 0x41a65cb1, 0x1efbc0a0, 0xf0781bc8, 0xa507a53d, 0x0772a26b)
  const S11: State := State(0x9d4baf93, 0x17aa0dfe, 0xdf46652f, 0xd6670766, 0xfda24c2e, 0xdecd4715, 0x838b2711, 0x26352d63)
  const S12: State := State(0x4172328d, 0xa14c14b0, 0x72ab4b91, 0x26628815, 0xfecf0bc6, 0xd57b94a9, 0xb7755da1, 0xa80f11f0)
  const S13: State := State(0x886e7a22, 0x7a0508a1, 0xf11bfaa8, 0x05757ceb, 0x49231c1e, 0x52f1ccf7, 0x6e5c390c, 0xbd714038)
  const S14: State := State(0x38cc9913, 0x3ec45cdb, 0xf5702fdb, 0x101fd28f, 0x54cb266b, 0xe50e1b4f, 0x9f4787c3, 0x529e7d00)
  const S15: State := State(0xb6ae8fff, 0xffb70472, 0xc062d46f, 0xfcd1887b, 0xb21bad3d, 0x6d83bfc6, 0x7e44008e, 0x9b5e906c)
  const S16: State := State(0x506e3058, 0xd39a2165, 0x04d24d6c, 0xb85e2ce9, 0x5ef50f24, 0xfb121210, 0x948d25b6, 0x961f4894)

  lemma Words4() ensures NextWords(W0, W1, W2, W3) == W4 {}
  lemma Words5() ensures NextWords(W1, W2, W3, W4) == W5 {}
  lemma Words6() ensures NextWords(W2, W3, W4, W5) == W6 {}
  lemma Words7() ensures NextWords(W3, W4, W5, W6) == W7 {}
  lemma Words8() ensures NextWords(W4, W5, W6, W7) == W8 {}
  lemma Words9() ensures NextWords(W5, W6, W7, W8) == W9 {}
  lemma Words10() ensures NextWords(W6, W7, W8, W9) == W10 {}
  lemma Words11() ensures NextWords(W7, W8, W9, W10) == W11 {}
  lemma Words12() ensures NextWords(W8, W9, W10, W11) == W12 {}
  lemma Words13() ensures NextWords(W9, W10, W11, W12) == W13 {}
  lemma Words14() ensures NextWords(W10, W11, W12, W13) == W14 {}
  lemma Words15() ensures NextWords(W11, W12, W13, W14) == W15 {}

  lemma Rounds1() ensures FourRounds(INITIAL, ConstantRow(0), 0, W0) == S1 {}
  lemma Rounds2() ensures FourRounds(S1, ConstantRow(0), 4, W1) == S2 {}
  lemma Rounds3() ensures FourRounds(S2, ConstantRow(1), 0, W2) == S3 {}
  lemma Rounds4() ensures FourRounds(S3, ConstantRow(1), 4, W3) == S4 {}
  lemma Rounds5() ensures FourRounds(S4, ConstantRow(2), 0, W4) == S5 {}
  lemma Rounds6() ensures FourRounds(S5, ConstantRow(2), 4, W5) == S6 {}
  lemma Rounds7() ensures FourRounds(S6, ConstantRow(3), 0, W6) == S7 {}
  lemma Rounds8() ensures FourRounds(S7, ConstantRow(3), 4, W7) == S8 {}
  lemma Rounds9() ensures FourRounds(S8, ConstantRow(4), 0, W8) == S9 {}
  lemma Rounds10() ensures FourRounds(S9, ConstantRow(4), 4, W9) == S10 {}
  lemma Rounds11() ensures FourRounds(S10, ConstantRow(5), 0, W10) == S11 {}
  lemma Rounds12() ensures FourRounds(S11, ConstantRow(5), 4, W11) == S12 {}
  lemma Rounds13() ensures FourRounds(S12, ConstantRow(6), 0, W12) == S13 {}
  lemma Rounds14() ensures FourRounds(S13, ConstantRow(6), 4, W13) == S14 {}
  lemma Rounds15() ensures FourRounds(S14, ConstantRow(7), 0, W14) == S15 {}
  lemma Rounds16() ensures FourRounds(S15, ConstantRow(7), 4, W15) == S16 {}

  lemma FirstRows(block: Bytes)
    requires block == Padded("abc")
    ensures |block| == 64 && Row(block, 0, W0) && Row(block, 4, W1) && Row(block, 8, W2) && Row(block, 12, W3)
  {
    hide Schedule, Padded, WordAt;
    BlockOfAbc();
    forall t | 0 <= t < 16 ensures Schedule(block, t) == WordAt(block, t) { ScheduleStep(block, t); }
  }

  lemma AllRows(block: Bytes)
    requires block == Padded("abc")
    ensures |block| == 64
    ensures Row(block, 0, W0) && Row(block, 4, W1) && Row(block, 8, W2) && Row(block, 12, W3)
    ensures Row(block, 16, W4) && Row(block, 20, W5) && Row(block, 24, W6) && Row(block, 28, W7)
    ensures Row(block, 32, W8) && Row(block, 36, W9) && Row(block, 40, W10) && Row(block, 44, W11)
    ensures Row(block, 48, W12) && Row(block, 52, W13) && Row(block, 56, W14) && Row(block, 60, W15)
  {
    hide Row, NextWords, Padded;
    FirstRows(block);
    NextRow(block, 0, W0, W1, W2, W3);
    Words4();
    NextRow(block, 4, W1, W2, W3, W4);
    Words5();
    NextRow(block, 8, W2, W3, W4, W5);
    Words6();
    NextRow(block, 12, W3, W4, W5, W6);
    Words7();
    NextRow(block, 16, W4, W5, W6, W7);
    Words8();
    NextRow(block, 20, W5, W6, W7, W8);
    Words9();
    NextRow(block, 24, W6, W7, W8, W9);
    Words10();
    NextRow(block, 28, W7, W8, W9, W10);
    Words11();
    NextRow(block, 32, W8, W9, W10, W11);
    Words12();
    NextRow(block, 36, W9, W10, W11, W12);
    Words13();
    NextRow(block, 40, W10, W11, W12, W13);
    Words14();
    NextRow(block, 44, W11, W12, W13, W14);
    Words15();
  }

  lemma Quarter1(block: Bytes)
    requires block == Padded("abc")
    ensures |block| == 64 && Rounds(block, 16, INITIAL) == S4
  {
    hide Row, Rounds, FourRounds, Padded;
    AllRows(block);
    NoRounds(block, INITIAL);
    NextRounds(block, 0, 0, INITIAL, W0);
    Rounds1();
    NextRounds(block, 0, 4, INITIAL, W1);
    Rounds2();
    NextRounds(block, 1, 0, INITIAL, W2);
    Rounds3();
    NextRounds(block, 1, 4, INITIAL, W3);
    Rounds4();
  }

  lemma Quarter2(block: Bytes)
    requires block == Padded("abc")
    ensures |block| == 64 && Rounds(block, 32, INITIAL) == S8
  {
    hide Row, Rounds, FourRounds, Padded;
    AllRows(block);
    Quarter1(block);
    NextRounds(block, 2, 0, INITIAL, W4);
    Rounds5();
    NextRounds(block, 2, 4, INITIAL, W5);
    Rounds6();
    NextRounds(block, 3, 0, INITIAL, W6);
    Rounds7();
    NextRounds(block, 3, 4, INITIAL, W7);
    Rounds8();
  }

  lemma Quarter3(block: Bytes)
    requires block == Padded("abc")
    ensures |block| == 64 && Rounds(block, 48, INITIAL) == S12
  {
    hide Row, Rounds, FourRounds, Padded;
    AllRows(block);
    Quarter2(block);
    NextRounds(block, 4, 0, INITIAL, W8);
    Rounds9();
    NextRounds(block, 4, 4, INITIAL, W9);
    Rounds10();
    NextRounds(block, 5, 0, INITIAL, W10);
    Rounds11();
    NextRounds(block, 5, 4, INITIAL, W11);
    Rounds12();
  }

  lemma Quarter4(block: Bytes)
    requires block == Padded("abc")
    ensures |block| == 64 && Rounds(block, 64, INITIAL) == S16
  {
    hide Row, Rounds, FourRounds, Padded;
    AllRows(block);
    Quarter3(block);
    NextRounds(block, 6, 0, INITIAL, W12);
    Rounds13();
    NextRounds(block, 6, 4, INITIAL, W13);
    Rounds14();
    NextRounds(block, 7, 0, INITIAL, W14);
    Rounds15();
    NextRounds(block, 7, 4, INITIAL, W15);
    Rounds16();
  }

  lemma LastSum()
    ensures Sum(INITIAL, S16) == State(0xba7816bf, 0x8f01cfea, 0x414140de, 0x5dae2223, 0xb00361a3, 0x96177a9c, 0xb410ff61, 0xf20015ad)
  {
  }

  lemma DigestWords()
    ensures WordsToOctets([0xba7816bf, 0x8f01cfea, 0x414140de, 0x5dae2223, 0xb00361a3, 0x96177a9c, 0xb410ff61, 0xf20015ad]) ==
      [0xba as char, 0x78 as char, 0x16 as char, 0xbf as char, 0x8f as char, 0x01 as char, 0xcf as char, 0xea as char] +
      [0x41 as char, 0x41 as char, 0x40 as char, 0xde as char, 0x5d as char, 0xae as char, 0x22 as char, 0x23 as char] +
      [0xb0 as char, 0x03 as char, 0x61 as char, 0xa3 as char, 0x96 as char, 0x17 as char, 0x7a as char, 0x9c as char] +
      [0xb4 as char, 0x10 as char, 0xff as char, 0x61 as char, 0xf2 as char, 0x00 as char, 0x15 as char, 0xad as char]
  {
    hide WordsToOctets, OctetOf;
    NoWords();
    var none: seq<bv32> := [];
    Octets6();
    Octets7();
    FrontWords(0xb410ff61, 0xf20015ad, none,
               [0xb4 as char, 0x10 as char, 0xff as char, 0x61 as char, 0xf2 as char, 0x00 as char, 0x15 as char, 0xad as char]);
    var r6: seq<bv32> := [0xb410ff61, 0xf20015ad] + none;
    Octets4();
    Octets5();
    FrontWords(0xb00361a3, 0x96177a9c, r6,
               [0xb0 as char, 0x03 as char, 0x61 as char, 0xa3 as char, 0x96 as char, 0x17 as char, 0x7a as char, 0x9c as char]);
    var r4: seq<bv32> := [0xb00361a3, 0x96177a9c] + r6;
    Octets2();
    Octets3();
    FrontWords(0x414140de, 0x5dae2223, r4,
               [0x41 as char, 0x41 as char, 0x40 as char, 0xde as char, 0x5d as char, 0xae as char, 0x22 as char, 0x23 as char]);
    var r2: seq<bv32> := [0x414140de, 0x5dae2223] + r4;
    Octets0();
    Octets1();
    FrontWords(0xba7816bf, 0x8f01cfea, r2,
               [0xba as char, 0x78 as char, 0x16 as char, 0xbf as char, 0x8f as char, 0x01 as char, 0xcf as char, 0xea as char]);
    var r0: seq<bv32> := [0xba7816bf, 0x8f01cfea] + r2;
    assert r0 == [0xba7816bf, 0x8f01cfea, 0x414140de, 0x5dae2223, 0xb00361a3, 0x96177a9c, 0xb410ff61, 0xf20015ad];
    Parts([0xba as char, 0x78 as char, 0x16 as char, 0xbf as char, 0x8f as char, 0x01 as char, 0xcf as char, 0xea as char],
          [0x41 as char, 0x41 as char, 0x40 as char, 0xde as char, 0x5d as char, 0xae as char, 0x22 as char, 0x23 as char],
          [0xb0 as char, 0x03 as char, 0x61 as char, 0xa3 as char, 0x96 as char, 0x17 as char, 0x7a as char, 0x9c as char],
          [0xb4 as char, 0x10 as char, 0xff as char, 0x61 as char, 0xf2 as char, 0x00 as char, 0x15 as char, 0xad as char]);
  }

  lemma Octets0()
    ensures OctetOf(0xba7816bf, 3) == 0xba as char && OctetOf(0xba7816bf, 2) == 0x78 as char
    ensures OctetOf(0xba7816bf, 1) == 0x16 as char && OctetOf(0xba7816bf, 0) == 0xbf as char
  {
  }

  lemma Octets1()
    ensures OctetOf(0x8f01cfea, 3) == 0x8f as char && OctetOf(0x8f01cfea, 2) == 0x01 as char
    ensures OctetOf(0x8f01cfea, 1) == 0xcf as char && OctetOf(0x8f01cfea, 0) == 0xea as char
  {
  }

  lemma Octets2()
    ensures OctetOf(0x414140de, 3) == 0x41 as char && OctetOf(0x414140de, 2) == 0x41 as char
    ensures OctetOf(0x414140de, 1) == 0x40 as char && OctetOf(0x414140de, 0) == 0xde as char
  {
  }

  lemma Octets3()
    ensures OctetOf(0x5dae2223, 3) == 0x5d as char && OctetOf(0x5dae2223, 2) == 0xae as char
    ensures OctetOf(0x5dae2223, 1) == 0x22 as char && OctetOf(0x5dae2223, 0) == 0x23 as char
  {
  }

  lemma Octets4()
    ensures OctetOf(0xb00361a3, 3) == 0xb0 as char && OctetOf(0xb00361a3, 2) == 0x03 as char
    ensures OctetOf(0xb00361a3, 1) == 0x61 as char && OctetOf(0xb00361a3, 0) == 0xa3 as char
  {
  }

  lemma Octets5()
    ensures OctetOf(0x96177a9c, 3) == 0x96 as char && OctetOf(0x96177a9c, 2) == 0x17 as char
    ensures OctetOf(0x96177a9c, 1) == 0x7a as char && OctetOf(0x96177a9c, 0) == 0x9c as char
  {
  }

  lemma Octets6()
    ensures OctetOf(0xb410ff61, 3) == 0xb4 as char && OctetOf(0xb410ff61, 2) == 0x10 as char
    ensures OctetOf(0xb410ff61, 1) == 0xff as char && OctetOf(0xb410ff61, 0) == 0x61 as char
  {
  }

  lemma Octets7()
    ensures OctetOf(0xf20015ad, 3) == 0xf2 as char && OctetOf(0xf20015ad, 2) == 0x00 as char
    ensures OctetOf(0xf20015ad, 1) == 0x15 as char && OctetOf(0xf20015ad, 0) == 0xad as char
  {
  }

  /** The digest that FIPS 180-4 is published with. */
  lemma DigestOfAbc()
    ensures Hash("abc") ==
      [0xba as char, 0x78 as char, 0x16 as char, 0xbf as char, 0x8f as char, 0x01 as char, 0xcf as char, 0xea as char] +
      [0x41 as char, 0x41 as char, 0x40 as char, 0xde as char, 0x5d as char, 0xae as char, 0x22 as char, 0x23 as char] +
      [0xb0 as char, 0x03 as char, 0x61 as char, 0xa3 as char, 0x96 as char, 0x17 as char, 0x7a as char, 0x9c as char] +
      [0xb4 as char, 0x10 as char, 0xff as char, 0x61 as char, 0xf2 as char, 0x00 as char, 0x15 as char, 0xad as char]
  {
    hide Padded, Absorb, WordsToOctets, Rounds, Sum;
    var block := Padded("abc");
    Quarter4(block);
    OneBlock(Compress, INITIAL, block);
    CompressIsSum(block, INITIAL);
    LastSum();
    DigestWords();
  }
}
