/** The known answer of appendix C.3 of FIPS 197: one key, one block, and every round key and state in between. */
module AesKnownAnswers {
  import opened AesColumns
  import opened AesSoftware
  import opened GcmField
  import opened GfMul

  // ---- for every key and block ----

  lemma FirstRoundKeys(key: seq<bv32>)
    requires |key| == 8
    ensures RoundKey(Expanded(key), 0) == State(key[0], key[1], key[2], key[3])
    ensures RoundKey(Expanded(key), 1) == State(key[4], key[5], key[6], key[7])
  {
    hide Add32, SubWord, RotWord;
  }

  /** Before the first round, each word of the block has been added to the word of the key with the same index. */
  lemma FirstKeyAddition(key: seq<bv32>, b: Block)
    requires |key| == 8
    ensures CipherRounds(Expanded(key), StateOf(b), 0) == State(
      Add32(High(b.hi), key[0]), Add32(Low32(b.hi), key[1]), Add32(High(b.lo), key[2]), Add32(Low32(b.lo), key[3]))
  {
    hide Expanded, RoundKey, High, Low32, Add32;
    FirstRoundKeys(key);
  }

  /** Four words: each is the word of p at its place, added to t or to the word before. */
  function Chained(p: State, t: bv32): State {
    var a := Add32(p.s0, t);
    var b := Add32(p.s1, a);
    var c := Add32(p.s2, b);
    State(a, b, c, Add32(p.s3, c))
  }

  /** Round key r from the two before it. */
  function NextKey(r: nat, p: State, q: State): State
    requires 2 <= r <= 14
  {
    Chained(p, if r % 2 == 0 then Add32(SubWord(RotWord(q.s3)), RCON[r / 2 - 1]) else SubWord(q.s3))
  }

  lemma FirstOfFour(key: seq<bv32>, r: nat)
    requires |key| == 8 && 2 <= r <= 14
    ensures var t := ExpandedWord(key, 4 * r - 1);
      ExpandedWord(key, 4 * r) == Add32(ExpandedWord(key, 4 * r - 8),
        if r % 2 == 0 then Add32(SubWord(RotWord(t)), RCON[r / 2 - 1]) else SubWord(t))
  {
    hide *;
    var i := r / 2 - 1;
    FirstWord(key, i);
    assert if r % 2 == 0 then 4 * r == 8 * i + 8 else 4 * r == 8 * i + 12;
  }

  lemma WordsOfRound(key: seq<bv32>, r: nat)
    requires |key| == 8 && r <= 14
    ensures RoundKey(Expanded(key), r) == State(ExpandedWord(key, 4 * r), ExpandedWord(key, 4 * r + 1),
      ExpandedWord(key, 4 * r + 2), ExpandedWord(key, 4 * r + 3))
  {
    hide ExpandedWord;
  }

  lemma NextRoundKey(key: seq<bv32>, r: nat)
    requires |key| == 8 && 2 <= r <= 14
    ensures RoundKey(Expanded(key), r) == NextKey(r, RoundKey(Expanded(key), r - 2), RoundKey(Expanded(key), r - 1))
  {
    hide Add32, SubWord, RotWord, ExpandedWord, RCON, RoundKey, Expanded;
    WordsOfRound(key, r - 2); WordsOfRound(key, r - 1); WordsOfRound(key, r);
    FirstOfFour(key, r);
    NextWord(key, 4 * r + 1); NextWord(key, 4 * r + 2); NextWord(key, 4 * r + 3);
  }

  // ---- for the key 00, 01, .. 1f and the block 00, 11, .. ff ----

  const KEY: seq<bv32> :=
    [0x0001_0203, 0x0405_0607, 0x0809_0A0B, 0x0C0D_0E0F,
     0x1011_1213, 0x1415_1617, 0x1819_1A1B, 0x1C1D_1E1F]

  const PLAIN := State(0x0011_2233, 0x4455_6677, 0x8899_AABB, 0xCCDD_EEFF)

  // The round keys, and the states after each key addition.
  const K0 := State(0x0001_0203, 0x0405_0607, 0x0809_0A0B, 0x0C0D_0E0F)
  const K1 := State(0x1011_1213, 0x1415_1617, 0x1819_1A1B, 0x1C1D_1E1F)
  const K2 := State(0xA573_C29F, 0xA176_C498, 0xA97F_CE93, 0xA572_C09C)
  const K3 := State(0x1651_A8CD, 0x0244_BEDA, 0x1A5D_A4C1, 0x0640_BADE)
  const K4 := State(0xAE87_DFF0, 0x0FF1_1B68, 0xA68E_D5FB, 0x03FC_1567)
  const K5 := State(0x6DE1_F148, 0x6FA5_4F92, 0x75F8_EB53, 0x73B8_518D)
  const K6 := State(0xC656_827F, 0xC9A7_9917, 0x6F29_4CEC, 0x6CD5_598B)
  const K7 := State(0x3DE2_3A75, 0x5247_75E7, 0x27BF_9EB4, 0x5407_CF39)
  const K8 := State(0x0BDC_905F, 0xC27B_0948, 0xAD52_45A4, 0xC187_1C2F)
  const K9 := State(0x45F5_A660, 0x17B2_D387, 0x300D_4D33, 0x640A_820A)
  const K10 := State(0x7CCF_F71C, 0xBEB4_FE54, 0x13E6_BBF0, 0xD261_A7DF)
  const K11 := State(0xF01A_FAFE, 0xE7A8_2979, 0xD7A5_644A, 0xB3AF_E640)
  const K12 := State(0x2541_FE71, 0x9BF5_0025, 0x8813_BBD5, 0x5A72_1C0A)
  const K13 := State(0x4E5A_6699, 0xA9F2_4FE0, 0x7E57_2BAA, 0xCDF8_CDEA)
  const K14 := State(0x24FC_79CC, 0xBF09_79E9, 0x371A_C23C, 0x6D68_DE36)

  const S0 := State(0x0010_2030, 0x4050_6070, 0x8090_A0B0, 0xC0D0_E0F0)
  const S1 := State(0x4F63_7606, 0x43E0_AA85, 0xEFA7_2132, 0x01A4_E705)
  const S2 := State(0x1859_FBC2, 0x8A1C_00A0, 0x78ED_8AAD, 0xC42F_6109)
  const S3 := State(0x975C_66C1, 0xCB9F_3FA8, 0xA93A_28DF, 0x8EE1_0F63)
  const S4 := State(0x1C05_F271, 0xA417_E04F, 0xF921_C5C1, 0x0470_1554)
  const S5 := State(0xC357_AAE1, 0x1B45_B7B0, 0xA2C7_BD28, 0xA8DC_99FA)
  const S6 := State(0x7F07_4143, 0xCB4E_243E, 0xC10C_815D, 0x8375_D54C)
  const S7 := State(0xD653_A469, 0x6CA0_BC0F, 0x5ACA_AB5D, 0xB96C_5E7D)
  const S8 := State(0x5AA8_5839, 0x5FD2_8D7D, 0x05E1_A388, 0x68F3_B9C5)
  const S9 := State(0x4A82_4851, 0xC57E_7E47, 0x643D_E50C, 0x2AF3_E8C9)
  const S10 := State(0xC149_07F6, 0xCA3B_3AA0, 0x70E9_AA31, 0x3B52_B5EC)
  const S11 := State(0x5F9C_6ABF, 0xBAC6_34AA, 0x5040_9FA7, 0x6667_7653)
  const S12 := State(0x5166_0495, 0x4353_9503, 0x14FB_86E4, 0x0192_2521)
  const S13 := State(0x627B_CEB9, 0x999D_5AAA, 0xC945_ECF4, 0x23F5_6DA5)

  /** Round key r and the one before it, and the state after round r. */
  ghost predicate Reached(r: nat, q: State, k: State, s: State)
    requires 1 <= r <= 13
  {
    && RoundKey(Expanded(KEY), r - 1) == q && RoundKey(Expanded(KEY), r) == k
    && EncryptRounds(Expanded(KEY), PLAIN, r) == s
  }

  /** One round further, given what its steps come to. */
  lemma NextReached(r: nat, p: State, q: State, k: State, s: State, t: State)
    requires 2 <= r <= 13 && Reached(r - 1, p, q, s) && NextKey(r, p, q) == k && TeRound(s, k) == t
    ensures Reached(r, q, k, t)
  {
    NextRoundKey(KEY, r);
    hide Expanded, RoundKey, NextKey, TeRound, KEY, PLAIN;
  }

  lemma Key2() ensures NextKey(2, K0, K1) == K2 {}
  lemma Key3() ensures NextKey(3, K1, K2) == K3 {}
  lemma Key4() ensures NextKey(4, K2, K3) == K4 {}
  lemma Key5() ensures NextKey(5, K3, K4) == K5 {}
  lemma Key6() ensures NextKey(6, K4, K5) == K6 {}
  lemma Key7() ensures NextKey(7, K5, K6) == K7 {}
  lemma Key8() ensures NextKey(8, K6, K7) == K8 {}
  lemma Key9() ensures NextKey(9, K7, K8) == K9 {}
  lemma Key10() ensures NextKey(10, K8, K9) == K10 {}
  lemma Key11() ensures NextKey(11, K9, K10) == K11 {}
  lemma Key12() ensures NextKey(12, K10, K11) == K12 {}
  lemma Key13() ensures NextKey(13, K11, K12) == K13 {}
  lemma Key14() ensures NextKey(14, K12, K13) == K14 {}

  lemma Round1() ensures TeRound(S0, K1) == S1 {}
  lemma Round2() ensures TeRound(S1, K2) == S2 {}
  lemma Round3() ensures TeRound(S2, K3) == S3 {}
  lemma Round4() ensures TeRound(S3, K4) == S4 {}
  lemma Round5() ensures TeRound(S4, K5) == S5 {}
  lemma Round6() ensures TeRound(S5, K6) == S6 {}
  lemma Round7() ensures TeRound(S6, K7) == S7 {}
  lemma Round8() ensures TeRound(S7, K8) == S8 {}
  lemma Round9() ensures TeRound(S8, K9) == S9 {}
  lemma Round10() ensures TeRound(S9, K10) == S10 {}
  lemma Round11() ensures TeRound(S10, K11) == S11 {}
  lemma Round12() ensures TeRound(S11, K12) == S12 {}
  lemma Round13() ensures TeRound(S12, K13) == S13 {}

  lemma Zero()
    ensures |KEY| == 8 && K0 == State(KEY[0], KEY[1], KEY[2], KEY[3]) && K1 == State(KEY[4], KEY[5], KEY[6], KEY[7])
    ensures AddRoundKey(PLAIN, K0) == S0
  {}

  lemma Reach1()
    ensures Reached(1, K0, K1, S1)
  {
    hide KEY, PLAIN, K0, K1, S0, S1, Expanded, RoundKey, TeRound, AddRoundKey;
    Zero();
    FirstRoundKeys(KEY);
    Round1();
    assert EncryptRounds(Expanded(KEY), PLAIN, 0) == S0;
  }

  lemma Reach2()
    ensures Reached(2, K1, K2, S2)
  {
    hide *;
    Reach1(); Key2(); Round2();
    NextReached(2, K0, K1, K2, S1, S2);
  }

  lemma Reach3()
    ensures Reached(3, K2, K3, S3)
  {
    hide *;
    Reach2(); Key3(); Round3();
    NextReached(3, K1, K2, K3, S2, S3);
  }

  lemma Reach4()
    ensures Reached(4, K3, K4, S4)
  {
    hide *;
    Reach3(); Key4(); Round4();
    NextReached(4, K2, K3, K4, S3, S4);
  }

  lemma Reach5()
    ensures Reached(5, K4, K5, S5)
  {
    hide *;
    Reach4(); Key5(); Round5();
    NextReached(5, K3, K4, K5, S4, S5);
  }

  lemma Reach6()
    ensures Reached(6, K5, K6, S6)
  {
    hide *;
    Reach5(); Key6(); Round6();
    NextReached(6, K4, K5, K6, S5, S6);
  }

  lemma Reach7()
    ensures Reached(7, K6, K7, S7)
  {
    hide *;
    Reach6(); Key7(); Round7();
    NextReached(7, K5, K6, K7, S6, S7);
  }

  lemma Reach8()
    ensures Reached(8, K7, K8, S8)
  {
    hide *;
    Reach7(); Key8(); Round8();
    NextReached(8, K6, K7, K8, S7, S8);
  }

  lemma Reach9()
    ensures Reached(9, K8, K9, S9)
  {
    hide *;
    Reach8(); Key9(); Round9();
    NextReached(9, K7, K8, K9, S8, S9);
  }

  lemma Reach10()
    ensures Reached(10, K9, K10, S10)
  {
    hide *;
    Reach9(); Key10(); Round10();
    NextReached(10, K8, K9, K10, S9, S10);
  }

  lemma Reach11()
    ensures Reached(11, K10, K11, S11)
  {
    hide *;
    Reach10(); Key11(); Round11();
    NextReached(11, K9, K10, K11, S10, S11);
  }

  lemma Reach12()
    ensures Reached(12, K11, K12, S12)
  {
    hide *;
    Reach11(); Key12(); Round12();
    NextReached(12, K10, K11, K12, S11, S12);
  }

  lemma Reach13()
    ensures Reached(13, K12, K13, S13)
  {
    hide *;
    Reach12(); Key13(); Round13();
    NextReached(13, K11, K12, K13, S12, S13);
  }

  lemma LastRound()
    ensures TeLast(S13, K14) == State(0x8EA2_B7CA, 0x5167_45BF, 0xEAFC_4990, 0x4B49_6089)
  {}

  lemma Reach14()
    ensures EncryptSoftware(Expanded(KEY), PLAIN) == State(0x8EA2_B7CA, 0x5167_45BF, 0xEAFC_4990, 0x4B49_6089)
  {
    hide TeLast, EncryptRounds, Expanded, RoundKey, NextKey, KEY, PLAIN, S13, K12, K13, K14;
    Zero(); Reach13(); Key14(); LastRound();
    NextRoundKey(KEY, 14);
  }

  /** The answer of appendix C.3. */
  lemma KnownAnswer()
    ensures BlockFrom(Cipher(Expanded(KEY), StateOf(Block(0x0011_2233_4455_6677, 0x8899_AABB_CCDD_EEFF))))
      == Block(0x8EA2_B7CA_5167_45BF, 0xEAFC_4990_4B49_6089)
  {
    hide Cipher, EncryptSoftware, Expanded, KEY;
    Zero(); Reach14();
    EncryptSoftwareIsCipher(Expanded(KEY), PLAIN);
  }
}
