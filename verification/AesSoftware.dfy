/** The software AES-256: table rounds on four words and the equivalent inverse cipher, against the cipher and the
    inverse cipher of sections 5.1 and 5.3 of FIPS 197, and the key expansion of section 5.2. */
module AesSoftware {
  import opened AesTables
  import opened AesColumns
  import opened GcmField
  import opened GfMul
  import opened MachineWords
  import opened BlockCiphers

  /** Four columns, each a word with row 0 in its top byte. */
  datatype State = State(s0: bv32, s1: bv32, s2: bv32, s3: bv32)

  // ---- the steps of FIPS 197 ----

  function SubWord(w: bv32): bv32 {
    FromBytes(Sub(Byte0(w)), Sub(Byte1(w)), Sub(Byte2(w)), Sub(Byte3(w)))
  }

  function InvSubWord(w: bv32): bv32 {
    FromBytes(InvSub(Byte0(w)), InvSub(Byte1(w)), InvSub(Byte2(w)), InvSub(Byte3(w)))
  }

  function SubBytes(s: State): State { State(SubWord(s.s0), SubWord(s.s1), SubWord(s.s2), SubWord(s.s3)) }
  function InvSubBytes(s: State): State {
    State(InvSubWord(s.s0), InvSubWord(s.s1), InvSubWord(s.s2), InvSubWord(s.s3))
  }

  /** The column that takes its rows from four columns in turn. */
  function Diagonal(a: bv32, b: bv32, c: bv32, d: bv32): bv32 {
    FromBytes(Byte0(a), Byte1(b), Byte2(c), Byte3(d))
  }

  function ShiftRows(s: State): State {
    State(Diagonal(s.s0, s.s1, s.s2, s.s3), Diagonal(s.s1, s.s2, s.s3, s.s0), Diagonal(s.s2, s.s3, s.s0, s.s1),
      Diagonal(s.s3, s.s0, s.s1, s.s2))
  }

  function InvShiftRows(s: State): State {
    State(Diagonal(s.s0, s.s3, s.s2, s.s1), Diagonal(s.s1, s.s0, s.s3, s.s2), Diagonal(s.s2, s.s1, s.s0, s.s3),
      Diagonal(s.s3, s.s2, s.s1, s.s0))
  }

  function MixColumns(s: State): State { State(MixColumn(s.s0), MixColumn(s.s1), MixColumn(s.s2), MixColumn(s.s3)) }
  function InvMixColumns(s: State): State {
    State(InvMixColumn(s.s0), InvMixColumn(s.s1), InvMixColumn(s.s2), InvMixColumn(s.s3))
  }

  function AddRoundKey(s: State, k: State): State {
    State(Add32(s.s0, k.s0), Add32(s.s1, k.s1), Add32(s.s2, k.s2), Add32(s.s3, k.s3))
  }

  /** A key schedule: fifteen round keys of four words. */
  type Schedule = w: seq<bv32> | |w| == 60 witness seq(60, _ => 0)

  function RoundKey(w: Schedule, r: nat): State
    requires r <= 14
  {
    State(w[4 * r], w[4 * r + 1], w[4 * r + 2], w[4 * r + 3])
  }

  /** The state after round r of the cipher. */
  function CipherRounds(w: Schedule, s: State, r: nat): State
    requires r <= 13
  {
    if r == 0 then AddRoundKey(s, RoundKey(w, 0))
    else AddRoundKey(MixColumns(ShiftRows(SubBytes(CipherRounds(w, s, r - 1)))), RoundKey(w, r))
  }

  /** Section 5.1. */
  function Cipher(w: Schedule, s: State): State {
    AddRoundKey(ShiftRows(SubBytes(CipherRounds(w, s, 13))), RoundKey(w, 14))
  }

  function InvCipherRounds(w: Schedule, s: State, r: nat): State
    requires r <= 13
  {
    if r == 0 then AddRoundKey(s, RoundKey(w, 14))
    else InvMixColumns(AddRoundKey(InvSubBytes(InvShiftRows(InvCipherRounds(w, s, r - 1))), RoundKey(w, 14 - r)))
  }

  /** Section 5.3. */
  function InvCipher(w: Schedule, s: State): State {
    AddRoundKey(InvSubBytes(InvShiftRows(InvCipherRounds(w, s, 13))), RoundKey(w, 0))
  }

  // ---- each step is undone ----

  lemma SubWordInverse(w: bv32)
    ensures InvSubWord(SubWord(w)) == w && SubWord(InvSubWord(w)) == w
  {
    hide Byte0, Byte1, Byte2, Byte3, FromBytes, Sub, InvSub;
    var a, b, c, d := Byte0(w), Byte1(w), Byte2(w), Byte3(w);
    BytesOfWord(w);
    WordOfBytes(Sub(a), Sub(b), Sub(c), Sub(d)); WordOfBytes(InvSub(a), InvSub(b), InvSub(c), InvSub(d));
    InvSubOfSub(a); InvSubOfSub(b); InvSubOfSub(c); InvSubOfSub(d);
    SubOfInvSub(a); SubOfInvSub(b); SubOfInvSub(c); SubOfInvSub(d);
  }

  lemma DiagonalBytes(a: bv32, b: bv32, c: bv32, d: bv32)
    ensures var w := Diagonal(a, b, c, d);
      Byte0(w) == Byte0(a) && Byte1(w) == Byte1(b) && Byte2(w) == Byte2(c) && Byte3(w) == Byte3(d)
  {
    hide Byte0, Byte1, Byte2, Byte3, FromBytes;
    WordOfBytes(Byte0(a), Byte1(b), Byte2(c), Byte3(d));
  }

  lemma ShiftRowsInverse(s: State)
    ensures InvShiftRows(ShiftRows(s)) == s && ShiftRows(InvShiftRows(s)) == s
  {
    hide Byte0, Byte1, Byte2, Byte3, FromBytes;
    var t, u := ShiftRows(s), InvShiftRows(s);
    DiagonalBytes(s.s0, s.s1, s.s2, s.s3); DiagonalBytes(s.s1, s.s2, s.s3, s.s0);
    DiagonalBytes(s.s2, s.s3, s.s0, s.s1); DiagonalBytes(s.s3, s.s0, s.s1, s.s2);
    DiagonalBytes(s.s0, s.s3, s.s2, s.s1); DiagonalBytes(s.s1, s.s0, s.s3, s.s2);
    DiagonalBytes(s.s2, s.s1, s.s0, s.s3); DiagonalBytes(s.s3, s.s2, s.s1, s.s0);
    BytesOfWord(s.s0); BytesOfWord(s.s1); BytesOfWord(s.s2); BytesOfWord(s.s3);
  }

  lemma SubShiftInverse(s: State)
    ensures InvSubBytes(InvShiftRows(ShiftRows(SubBytes(s)))) == s
    ensures ShiftRows(SubBytes(InvSubBytes(InvShiftRows(s)))) == s
  {
    hide ShiftRows, InvShiftRows, SubWord, InvSubWord;
    ShiftRowsInverse(SubBytes(s)); ShiftRowsInverse(s);
    SubWordInverse(s.s0); SubWordInverse(s.s1); SubWordInverse(s.s2); SubWordInverse(s.s3);
    var u := InvShiftRows(s);
    SubWordInverse(u.s0); SubWordInverse(u.s1); SubWordInverse(u.s2); SubWordInverse(u.s3);
  }

  lemma MixColumnsInverse(s: State)
    ensures InvMixColumns(MixColumns(s)) == s && MixColumns(InvMixColumns(s)) == s
  {
    hide MixColumn, InvMixColumn;
    MixColumnInverse(s.s0); MixColumnInverse(s.s1); MixColumnInverse(s.s2); MixColumnInverse(s.s3);
  }

  lemma Add32Cancels(a: bv32, k: bv32)
    ensures Add32(Add32(a, k), k) == a
  {}

  lemma AddRoundKeyCancels(s: State, k: State)
    ensures AddRoundKey(AddRoundKey(s, k), k) == s
  {
    hide Add32;
    Add32Cancels(s.s0, k.s0); Add32Cancels(s.s1, k.s1); Add32Cancels(s.s2, k.s2); Add32Cancels(s.s3, k.s3);
  }

  /** Round by round, the inverse cipher passes back through the states of the cipher. */
  lemma {:induction false} InverseRounds(w: Schedule, s: State, r: nat)
    requires r <= 13
    ensures InvCipherRounds(w, Cipher(w, s), r) == ShiftRows(SubBytes(CipherRounds(w, s, 13 - r)))
  {
    hide SubBytes, InvSubBytes, ShiftRows, InvShiftRows, MixColumns, InvMixColumns, AddRoundKey, RoundKey;
    if r == 0 {
      AddRoundKeyCancels(ShiftRows(SubBytes(CipherRounds(w, s, 13))), RoundKey(w, 14));
    } else {
      InverseRounds(w, s, r - 1);
      var t := CipherRounds(w, s, 13 - r);
      var u := MixColumns(ShiftRows(SubBytes(t)));
      SubShiftInverse(CipherRounds(w, s, 14 - r));
      AddRoundKeyCancels(u, RoundKey(w, 14 - r));
      MixColumnsInverse(ShiftRows(SubBytes(t)));
    }
  }

  lemma {:induction false} ForwardRounds(w: Schedule, s: State, r: nat)
    requires r <= 13
    ensures CipherRounds(w, InvCipher(w, s), r) == InvSubBytes(InvShiftRows(InvCipherRounds(w, s, 13 - r)))
  {
    hide SubBytes, InvSubBytes, ShiftRows, InvShiftRows, MixColumns, InvMixColumns, AddRoundKey, RoundKey;
    if r == 0 {
      AddRoundKeyCancels(InvSubBytes(InvShiftRows(InvCipherRounds(w, s, 13))), RoundKey(w, 0));
    } else {
      ForwardRounds(w, s, r - 1);
      var t := InvCipherRounds(w, s, 13 - r);
      var u := InvSubBytes(InvShiftRows(t));
      SubShiftInverse(InvCipherRounds(w, s, 14 - r));
      MixColumnsInverse(AddRoundKey(u, RoundKey(w, r)));
      AddRoundKeyCancels(u, RoundKey(w, r));
    }
  }

  /** Cipher and inverse cipher undo each other, for every schedule and block. */
  lemma CipherInverse(w: Schedule, s: State)
    ensures InvCipher(w, Cipher(w, s)) == s && Cipher(w, InvCipher(w, s)) == s
  {
    InverseRounds(w, s, 13); ForwardRounds(w, s, 13);
    assert CipherRounds(w, s, 0) == AddRoundKey(s, RoundKey(w, 0))
      && InvCipherRounds(w, s, 0) == AddRoundKey(s, RoundKey(w, 14));
    hide CipherRounds, InvCipherRounds, SubBytes, InvSubBytes, ShiftRows, InvShiftRows, AddRoundKey, RoundKey;
    SubShiftInverse(CipherRounds(w, s, 0)); AddRoundKeyCancels(s, RoundKey(w, 0));
    SubShiftInverse(InvCipherRounds(w, s, 0)); AddRoundKeyCancels(s, RoundKey(w, 14));
  }

  // ---- the tables: p_encryptSW and p_decryptSW ----

  function Ror(w: bv32, k: bv32): bv32
    requires k <= 32
  {
    (w >> k) | (w << (32 - k))
  }

  function Sum5(a: bv32, b: bv32, c: bv32, d: bv32, k: bv32): bv32 {
    Add32(Add32(Add32(Add32(a, b), c), d), k)
  }

  /** One word of a round of p_encryptSW. */
  function TeWord(a: bv32, b: bv32, c: bv32, d: bv32, k: bv32): bv32 {
    Sum5(Te0(Byte0(a)), Ror(Te0(Byte1(b)), 8), Ror(Te0(Byte2(c)), 16), Ror(Te0(Byte3(d)), 24), k)
  }

  function TeRound(s: State, k: State): State {
    State(TeWord(s.s0, s.s1, s.s2, s.s3, k.s0), TeWord(s.s1, s.s2, s.s3, s.s0, k.s1),
          TeWord(s.s2, s.s3, s.s0, s.s1, k.s2), TeWord(s.s3, s.s0, s.s1, s.s2, k.s3))
  }

  /** One word of the last round, with the S-box read out of rotations of Te0. */
  function TeLastWord(a: bv32, b: bv32, c: bv32, d: bv32, k: bv32): bv32 {
    Sum5(Ror(Te0(Byte0(a)), 16) & 0xFF00_0000, Ror(Te0(Byte1(b)), 24) & 0x00FF_0000, Te0(Byte2(c)) & 0x0000_FF00,
      Ror(Te0(Byte3(d)), 8) & 0x0000_00FF, k)
  }

  function TeLast(s: State, k: State): State {
    State(TeLastWord(s.s0, s.s1, s.s2, s.s3, k.s0), TeLastWord(s.s1, s.s2, s.s3, s.s0, k.s1),
          TeLastWord(s.s2, s.s3, s.s0, s.s1, k.s2), TeLastWord(s.s3, s.s0, s.s1, s.s2, k.s3))
  }

  function TdWord(a: bv32, b: bv32, c: bv32, d: bv32, k: bv32): bv32 {
    Sum5(Td0(Byte0(a)), Ror(Td0(Byte1(b)), 8), Ror(Td0(Byte2(c)), 16), Ror(Td0(Byte3(d)), 24), k)
  }

  function TdRound(s: State, k: State): State {
    State(TdWord(s.s0, s.s3, s.s2, s.s1, k.s0), TdWord(s.s1, s.s0, s.s3, s.s2, k.s1),
          TdWord(s.s2, s.s1, s.s0, s.s3, k.s2), TdWord(s.s3, s.s2, s.s1, s.s0, k.s3))
  }

  function TdLastWord(a: bv32, b: bv32, c: bv32, d: bv32, k: bv32): bv32 {
    Sum5((Td4(Byte0(a)) as bv32) << 24, (Td4(Byte1(b)) as bv32) << 16, (Td4(Byte2(c)) as bv32) << 8,
      Td4(Byte3(d)) as bv32, k)
  }

  function TdLast(s: State, k: State): State {
    State(TdLastWord(s.s0, s.s3, s.s2, s.s1, k.s0), TdLastWord(s.s1, s.s0, s.s3, s.s2, k.s1),
          TdLastWord(s.s2, s.s1, s.s0, s.s3, k.s2), TdLastWord(s.s3, s.s2, s.s1, s.s0, k.s3))
  }

  /** The unrolled rounds of p_encryptSW, up to round r. */
  function EncryptRounds(ek: Schedule, s: State, r: nat): State
    requires r <= 13
  {
    if r == 0 then AddRoundKey(s, RoundKey(ek, 0)) else TeRound(EncryptRounds(ek, s, r - 1), RoundKey(ek, r))
  }

  /** p_encryptSW on four big-endian words. */
  function EncryptSoftware(ek: Schedule, s: State): State {
    TeLast(EncryptRounds(ek, s, 13), RoundKey(ek, 14))
  }

  function DecryptRounds(dk: Schedule, s: State, r: nat): State
    requires r <= 13
  {
    if r == 0 then AddRoundKey(s, RoundKey(dk, 0)) else TdRound(DecryptRounds(dk, s, r - 1), RoundKey(dk, r))
  }

  /** p_decryptSW. */
  function DecryptSoftware(dk: Schedule, s: State): State {
    TdLast(DecryptRounds(dk, s, 13), RoundKey(dk, 14))
  }

  // ---- a table round is a round ----

  lemma RorEight(a: bv8, b: bv8, c: bv8, d: bv8)
    ensures Ror(FromBytes(a, b, c, d), 8) == FromBytes(d, a, b, c)
  {}
  lemma RorSixteen(a: bv8, b: bv8, c: bv8, d: bv8)
    ensures Ror(FromBytes(a, b, c, d), 16) == FromBytes(c, d, a, b)
  {}
  lemma RorTwentyFour(a: bv8, b: bv8, c: bv8, d: bv8)
    ensures Ror(FromBytes(a, b, c, d), 24) == FromBytes(b, c, d, a)
  {}

  lemma RorBytes(a: bv8, b: bv8, c: bv8, d: bv8)
    ensures Ror(FromBytes(a, b, c, d), 8) == FromBytes(d, a, b, c)
    ensures Ror(FromBytes(a, b, c, d), 16) == FromBytes(c, d, a, b)
    ensures Ror(FromBytes(a, b, c, d), 24) == FromBytes(b, c, d, a)
  {
    hide *;
    RorEight(a, b, c, d); RorSixteen(a, b, c, d); RorTwentyFour(a, b, c, d);
  }

  lemma MaskBytes(a: bv8, b: bv8, c: bv8, d: bv8)
    ensures FromBytes(a, b, c, d) & 0xFF00_0000 == FromBytes(a, 0, 0, 0)
      && FromBytes(a, b, c, d) & 0x00FF_0000 == FromBytes(0, b, 0, 0)
    ensures FromBytes(a, b, c, d) & 0x0000_FF00 == FromBytes(0, 0, c, 0)
      && FromBytes(a, b, c, d) & 0x0000_00FF == FromBytes(0, 0, 0, d)
  {}

  lemma PlacedBytes(b: bv8)
    ensures (b as bv32) << 24 == FromBytes(b, 0, 0, 0) && (b as bv32) << 16 == FromBytes(0, b, 0, 0)
    ensures (b as bv32) << 8 == FromBytes(0, 0, b, 0) && b as bv32 == FromBytes(0, 0, 0, b)
  {}

  function Chain8(a: bv8, b: bv8, c: bv8, d: bv8): bv8 { Add8(Add8(Add8(a, b), c), d) }

  lemma ChainIsSum(a: bv8, b: bv8, c: bv8, d: bv8)
    ensures Chain8(a, b, c, d) == Sum8(a, b, c, d)
  {
    hide Add8;
    Add8Laws(Add8(a, b), c, d);
  }

  /** Four words added up, byte by byte. */
  lemma ChainBytes(a0: bv8, a1: bv8, a2: bv8, a3: bv8, b0: bv8, b1: bv8, b2: bv8, b3: bv8,
                   c0: bv8, c1: bv8, c2: bv8, c3: bv8, d0: bv8, d1: bv8, d2: bv8, d3: bv8)
    ensures Add32(Add32(Add32(FromBytes(a0, a1, a2, a3), FromBytes(b0, b1, b2, b3)), FromBytes(c0, c1, c2, c3)),
      FromBytes(d0, d1, d2, d3))
      == FromBytes(Sum8(a0, b0, c0, d0), Sum8(a1, b1, c1, d1), Sum8(a2, b2, c2, d2), Sum8(a3, b3, c3, d3))
  {
    hide Add8, Sum8, Add32, FromBytes;
    FromBytesAdd(a0, a1, a2, a3, b0, b1, b2, b3);
    FromBytesAdd(Add8(a0, b0), Add8(a1, b1), Add8(a2, b2), Add8(a3, b3), c0, c1, c2, c3);
    FromBytesAdd(Add8(Add8(a0, b0), c0), Add8(Add8(a1, b1), c1), Add8(Add8(a2, b2), c2), Add8(Add8(a3, b3), c3),
      d0, d1, d2, d3);
    ChainIsSum(a0, b0, c0, d0); ChainIsSum(a1, b1, c1, d1); ChainIsSum(a2, b2, c2, d2); ChainIsSum(a3, b3, c3, d3);
  }

  lemma MixBytesAdd(a: bv8, b: bv8, c: bv8, d: bv8)
    ensures Add32(Add32(Add32(MixByte(a), Ror(MixByte(b), 8)), Ror(MixByte(c), 16)), Ror(MixByte(d), 24))
      == MixColumn(FromBytes(a, b, c, d))
  {
    hide Add32, FromBytes, GMul, Ror, Sum8, Byte0, Byte1, Byte2, Byte3;
    RorBytes(GMul(b, 2), b, b, GMul(b, 3)); RorBytes(GMul(c, 2), c, c, GMul(c, 3));
    RorBytes(GMul(d, 2), d, d, GMul(d, 3));
    ChainBytes(GMul(a, 2), a, a, GMul(a, 3), GMul(b, 3), GMul(b, 2), b, b, c, GMul(c, 3), GMul(c, 2), c, d, d,
      GMul(d, 3), GMul(d, 2));
    WordOfBytes(a, b, c, d);
    Sum8Rotate(a, GMul(b, 2), GMul(c, 3), d); Sum8Rotate(a, b, GMul(c, 2), GMul(d, 3));
    Sum8Rotate(GMul(a, 3), b, c, GMul(d, 2));
  }

  lemma InvMixBytesAdd(a: bv8, b: bv8, c: bv8, d: bv8)
    ensures Add32(Add32(Add32(InvMixByte(a), Ror(InvMixByte(b), 8)), Ror(InvMixByte(c), 16)), Ror(InvMixByte(d), 24))
      == InvMixColumn(FromBytes(a, b, c, d))
  {
    hide Add32, FromBytes, GMul, Ror, Sum8, Byte0, Byte1, Byte2, Byte3;
    RorBytes(GMul(b, 14), GMul(b, 9), GMul(b, 13), GMul(b, 11));
    RorBytes(GMul(c, 14), GMul(c, 9), GMul(c, 13), GMul(c, 11));
    RorBytes(GMul(d, 14), GMul(d, 9), GMul(d, 13), GMul(d, 11));
    ChainBytes(GMul(a, 14), GMul(a, 9), GMul(a, 13), GMul(a, 11), GMul(b, 11), GMul(b, 14), GMul(b, 9), GMul(b, 13),
               GMul(c, 13), GMul(c, 11), GMul(c, 14), GMul(c, 9), GMul(d, 9), GMul(d, 13), GMul(d, 11), GMul(d, 14));
    WordOfBytes(a, b, c, d);
    Sum8Rotate(GMul(a, 9), GMul(b, 14), GMul(c, 11), GMul(d, 13));
    Sum8Rotate(GMul(a, 13), GMul(b, 9), GMul(c, 14), GMul(d, 11));
    Sum8Rotate(GMul(a, 11), GMul(b, 13), GMul(c, 9), GMul(d, 14));
  }

  lemma TeWordIs(a: bv32, b: bv32, c: bv32, d: bv32, k: bv32)
    ensures TeWord(a, b, c, d, k) == Add32(MixColumn(Diagonal(SubWord(a), SubWord(b), SubWord(c), SubWord(d))), k)
  {
    hide Add32, FromBytes, Te0, Sub, MixByte, MixColumn, Ror, Byte0, Byte1, Byte2, Byte3;
    Te0IsMixSub(Byte0(a)); Te0IsMixSub(Byte1(b)); Te0IsMixSub(Byte2(c)); Te0IsMixSub(Byte3(d));
    MixBytesAdd(Sub(Byte0(a)), Sub(Byte1(b)), Sub(Byte2(c)), Sub(Byte3(d)));
    SubWordBytes(a); SubWordBytes(b); SubWordBytes(c); SubWordBytes(d);
  }

  lemma SubWordBytes(w: bv32)
    ensures Byte0(SubWord(w)) == Sub(Byte0(w)) && Byte1(SubWord(w)) == Sub(Byte1(w))
      && Byte2(SubWord(w)) == Sub(Byte2(w)) && Byte3(SubWord(w)) == Sub(Byte3(w))
    ensures Byte0(InvSubWord(w)) == InvSub(Byte0(w)) && Byte1(InvSubWord(w)) == InvSub(Byte1(w))
    ensures Byte2(InvSubWord(w)) == InvSub(Byte2(w)) && Byte3(InvSubWord(w)) == InvSub(Byte3(w))
  {
    hide FromBytes, Sub, InvSub, Byte0, Byte1, Byte2, Byte3;
    WordOfBytes(Sub(Byte0(w)), Sub(Byte1(w)), Sub(Byte2(w)), Sub(Byte3(w)));
    WordOfBytes(InvSub(Byte0(w)), InvSub(Byte1(w)), InvSub(Byte2(w)), InvSub(Byte3(w)));
  }

  lemma TdWordIs(a: bv32, b: bv32, c: bv32, d: bv32, k: bv32)
    ensures TdWord(a, b, c, d, k) == Add32(InvMixColumn(InvSubWord(Diagonal(a, b, c, d))), k)
  {
    hide Add32, FromBytes, Td0, InvSub, InvMixByte, InvMixColumn, Diagonal, Ror, Byte0, Byte1, Byte2, Byte3;
    Td0IsInvMixInvSub(Byte0(a)); Td0IsInvMixInvSub(Byte1(b)); Td0IsInvMixInvSub(Byte2(c)); Td0IsInvMixInvSub(Byte3(d));
    InvMixBytesAdd(InvSub(Byte0(a)), InvSub(Byte1(b)), InvSub(Byte2(c)), InvSub(Byte3(d)));
    DiagonalBytes(a, b, c, d);
  }

  lemma Sum8OfZeros(a: bv8)
    ensures Sum8(a, 0, 0, 0) == a && Sum8(0, a, 0, 0) == a && Sum8(0, 0, a, 0) == a && Sum8(0, 0, 0, a) == a
  {
    hide Add8;
    Add8Laws(a, 0, 0); Add8Laws(0, 0, 0);
  }

  lemma PlacedSum(a: bv8, b: bv8, c: bv8, d: bv8)
    ensures Add32(Add32(Add32(FromBytes(a, 0, 0, 0), FromBytes(0, b, 0, 0)), FromBytes(0, 0, c, 0)),
      FromBytes(0, 0, 0, d)) == FromBytes(a, b, c, d)
  {
    hide Add32, FromBytes, Sum8;
    ChainBytes(a, 0, 0, 0, 0, b, 0, 0, 0, 0, c, 0, 0, 0, 0, d);
    Sum8OfZeros(a); Sum8OfZeros(b); Sum8OfZeros(c); Sum8OfZeros(d);
  }

  /** The S-box entries in the rotations of Te0. */
  lemma SubInTe0(b: bv8)
    ensures Ror(Te0(b), 16) & 0xFF00_0000 == FromBytes(Sub(b), 0, 0, 0)
      && Ror(Te0(b), 24) & 0x00FF_0000 == FromBytes(0, Sub(b), 0, 0)
    ensures Te0(b) & 0x0000_FF00 == FromBytes(0, 0, Sub(b), 0)
      && Ror(Te0(b), 8) & 0x0000_00FF == FromBytes(0, 0, 0, Sub(b))
  {
    hide FromBytes, Te0, Sub, GMul, Ror;
    var v := Sub(b);
    Te0IsMixSub(b);
    RorBytes(GMul(v, 2), v, v, GMul(v, 3));
    MaskBytes(v, GMul(v, 3), GMul(v, 2), v); MaskBytes(v, v, GMul(v, 3), GMul(v, 2));
    MaskBytes(GMul(v, 2), v, v, GMul(v, 3)); MaskBytes(GMul(v, 3), GMul(v, 2), v, v);
  }

  lemma TeLastWordIs(a: bv32, b: bv32, c: bv32, d: bv32, k: bv32)
    ensures TeLastWord(a, b, c, d, k) == Add32(Diagonal(SubWord(a), SubWord(b), SubWord(c), SubWord(d)), k)
  {
    SubInTe0(Byte0(a)); SubInTe0(Byte1(b)); SubInTe0(Byte2(c)); SubInTe0(Byte3(d));
    hide Add32, FromBytes, Te0, Sub, Ror, Byte0, Byte1, Byte2, Byte3;
    PlacedSum(Sub(Byte0(a)), Sub(Byte1(b)), Sub(Byte2(c)), Sub(Byte3(d)));
    SubWordBytes(a); SubWordBytes(b); SubWordBytes(c); SubWordBytes(d);
  }

  lemma TdLastWordIs(a: bv32, b: bv32, c: bv32, d: bv32, k: bv32)
    ensures TdLastWord(a, b, c, d, k) == Add32(InvSubWord(Diagonal(a, b, c, d)), k)
  {
    hide Add32, FromBytes, Td4, Diagonal, Byte0, Byte1, Byte2, Byte3;
    PlacedBytes(Td4(Byte0(a))); PlacedBytes(Td4(Byte1(b))); PlacedBytes(Td4(Byte2(c))); PlacedBytes(Td4(Byte3(d)));
    PlacedSum(Td4(Byte0(a)), Td4(Byte1(b)), Td4(Byte2(c)), Td4(Byte3(d)));
    DiagonalBytes(a, b, c, d);
  }

  lemma TeRoundIs(s: State, k: State)
    ensures TeRound(s, k) == AddRoundKey(MixColumns(ShiftRows(SubBytes(s))), k)
    ensures TeLast(s, k) == AddRoundKey(ShiftRows(SubBytes(s)), k)
  {
    hide TeWord, TeLastWord, Add32, MixColumn, Diagonal, SubWord;
    TeWordIs(s.s0, s.s1, s.s2, s.s3, k.s0); TeWordIs(s.s1, s.s2, s.s3, s.s0, k.s1);
    TeWordIs(s.s2, s.s3, s.s0, s.s1, k.s2); TeWordIs(s.s3, s.s0, s.s1, s.s2, k.s3);
    TeLastWordIs(s.s0, s.s1, s.s2, s.s3, k.s0); TeLastWordIs(s.s1, s.s2, s.s3, s.s0, k.s1);
    TeLastWordIs(s.s2, s.s3, s.s0, s.s1, k.s2); TeLastWordIs(s.s3, s.s0, s.s1, s.s2, k.s3);
  }

  lemma TdRoundIs(s: State, k: State)
    ensures TdRound(s, k) == AddRoundKey(InvMixColumns(InvSubBytes(InvShiftRows(s))), k)
    ensures TdLast(s, k) == AddRoundKey(InvSubBytes(InvShiftRows(s)), k)
  {
    hide TdWord, TdLastWord, Add32, InvMixColumn, Diagonal, InvSubWord;
    TdWordIs(s.s0, s.s3, s.s2, s.s1, k.s0); TdWordIs(s.s1, s.s0, s.s3, s.s2, k.s1);
    TdWordIs(s.s2, s.s1, s.s0, s.s3, k.s2); TdWordIs(s.s3, s.s2, s.s1, s.s0, k.s3);
    TdLastWordIs(s.s0, s.s3, s.s2, s.s1, k.s0); TdLastWordIs(s.s1, s.s0, s.s3, s.s2, k.s1);
    TdLastWordIs(s.s2, s.s1, s.s0, s.s3, k.s2); TdLastWordIs(s.s3, s.s2, s.s1, s.s0, k.s3);
  }

  lemma {:induction false} EncryptRoundsAre(ek: Schedule, s: State, r: nat)
    requires r <= 13
    ensures EncryptRounds(ek, s, r) == CipherRounds(ek, s, r)
  {
    if r > 0 {
      hide TeRound, SubBytes, ShiftRows, MixColumns, AddRoundKey, RoundKey;
      EncryptRoundsAre(ek, s, r - 1);
      TeRoundIs(CipherRounds(ek, s, r - 1), RoundKey(ek, r));
    }
  }

  /** p_encryptSW is the cipher of FIPS 197. */
  lemma EncryptSoftwareIsCipher(ek: Schedule, s: State)
    ensures EncryptSoftware(ek, s) == Cipher(ek, s)
  {
    EncryptRoundsAre(ek, s, 13);
    hide CipherRounds, EncryptRounds, TeLast, SubBytes, ShiftRows, AddRoundKey, RoundKey;
    TeRoundIs(CipherRounds(ek, s, 13), RoundKey(ek, 14));
  }

  /** The schedule of the equivalent inverse cipher (section 5.3.5): the round keys in reverse, and all but the first
      and last of them through InvMixColumns. */
  ghost predicate InverseSchedule(ek: Schedule, dk: Schedule) {
    && RoundKey(dk, 0) == RoundKey(ek, 14) && RoundKey(dk, 14) == RoundKey(ek, 0)
    && forall r | 1 <= r <= 13 :: RoundKey(dk, r) == InvMixColumns(RoundKey(ek, 14 - r))
  }

  lemma InvMixColumnsLinear(s: State, k: State)
    ensures InvMixColumns(AddRoundKey(s, k)) == AddRoundKey(InvMixColumns(s), InvMixColumns(k))
  {
    hide InvMixColumn, Add32;
    InvMixColumnLinear(s.s0, k.s0); InvMixColumnLinear(s.s1, k.s1); InvMixColumnLinear(s.s2, k.s2);
    InvMixColumnLinear(s.s3, k.s3);
  }

  lemma {:induction false} DecryptRoundsAre(ek: Schedule, dk: Schedule, s: State, r: nat)
    requires InverseSchedule(ek, dk) && r <= 13
    ensures DecryptRounds(dk, s, r) == InvCipherRounds(ek, s, r)
  {
    if r > 0 {
      hide TdRound, InvSubBytes, InvShiftRows, InvMixColumns, AddRoundKey, RoundKey;
      DecryptRoundsAre(ek, dk, s, r - 1);
      var t := InvCipherRounds(ek, s, r - 1);
      TdRoundIs(t, RoundKey(dk, r));
      InvMixColumnsLinear(InvSubBytes(InvShiftRows(t)), RoundKey(ek, 14 - r));
    }
  }

  /** p_decryptSW with the inverse schedule is the inverse cipher of FIPS 197. */
  lemma DecryptSoftwareIsInvCipher(ek: Schedule, dk: Schedule, s: State)
    requires InverseSchedule(ek, dk)
    ensures DecryptSoftware(dk, s) == InvCipher(ek, s)
  {
    DecryptRoundsAre(ek, dk, s, 13);
    hide InvCipherRounds, DecryptRounds, TdLast, InvSubBytes, InvShiftRows, InvMixColumns, AddRoundKey, RoundKey;
    TdRoundIs(InvCipherRounds(ek, s, 13), RoundKey(dk, 14));
  }

  /** p_decryptSW and p_encryptSW undo each other. */
  lemma DecryptInvertsEncrypt(ek: Schedule, dk: Schedule, s: State)
    requires InverseSchedule(ek, dk)
    ensures DecryptSoftware(dk, EncryptSoftware(ek, s)) == s && EncryptSoftware(ek, DecryptSoftware(dk, s)) == s
  {
    hide *;
    EncryptSoftwareIsCipher(ek, s); EncryptSoftwareIsCipher(ek, InvCipher(ek, s));
    DecryptSoftwareIsInvCipher(ek, dk, s); DecryptSoftwareIsInvCipher(ek, dk, Cipher(ek, s));
    CipherInverse(ek, s);
  }

  // ---- key expansion: p_initSW ----

  const RCON: seq<bv32> :=
    [0x0100_0000, 0x0200_0000, 0x0400_0000, 0x0800_0000, 0x1000_0000, 0x2000_0000, 0x4000_0000, 0x8000_0000,
     0x1B00_0000, 0x3600_0000, 0x6C00_0000, 0xD800_0000, 0xAB00_0000, 0x4D00_0000, 0x9A00_0000]

  lemma RconArePowers(i: nat)
    requires i < 15
    ensures RCON[0] == FromBytes(1, 0, 0, 0)
    ensures i > 0 ==> RCON[i] == FromBytes(XTime(Byte0(RCON[i - 1])), 0, 0, 0)
  {}

  function RotWord(w: bv32): bv32 { FromBytes(Byte1(w), Byte2(w), Byte3(w), Byte0(w)) }

  /** Word i of the expanded 256-bit key (section 5.2). */
  function ExpandedWord(key: seq<bv32>, i: nat): bv32
    requires |key| == 8 && i < 60
  {
    if i < 8 then key[i]
    else
      var before, temp := ExpandedWord(key, i - 8), ExpandedWord(key, i - 1);
      if i % 8 == 0 then Add32(before, Add32(SubWord(RotWord(temp)), RCON[i / 8 - 1]))
      else if i % 8 == 4 then Add32(before, SubWord(temp))
      else Add32(before, temp)
  }

  function Expanded(key: seq<bv32>): Schedule
    requires |key| == 8
  {
    seq(60, i requires 0 <= i < 60 => ExpandedWord(key, i))
  }

  function TePick(a: bv8, b: bv8, c: bv8, d: bv8): bv32 {
    Add32(Add32(Add32(Ror(Te0(a), 16) & 0xFF00_0000, Ror(Te0(b), 24) & 0x00FF_0000), Te0(c) & 0x0000_FF00),
      Ror(Te0(d), 8) & 0x0000_00FF)
  }

  lemma TePickIs(a: bv8, b: bv8, c: bv8, d: bv8)
    ensures TePick(a, b, c, d) == FromBytes(Sub(a), Sub(b), Sub(c), Sub(d))
  {
    SubInTe0(a); SubInTe0(b); SubInTe0(c); SubInTe0(d);
    hide Add32, FromBytes, Te0, Sub, Ror;
    PlacedSum(Sub(a), Sub(b), Sub(c), Sub(d));
  }

  /** Te4, then Td0: only InvMixColumns is left of the decryption table. */
  function TdOfTe4(w: bv32): bv32 {
    var a, b, c, d := Td0(Te4Last(Byte0(w))), Td0(Te4Last(Byte1(w))), Td0(Te4Last(Byte2(w))), Td0(Te4Last(Byte3(w)));
    Add32(Add32(Add32(a, Ror(b, 8)), Ror(c, 16)), Ror(d, 24))
  }

  lemma TdOfTe4Is(w: bv32)
    ensures TdOfTe4(w) == InvMixColumn(w)
  {
    hide Add32, FromBytes, Td0, Sub, InvSub, InvMixByte, InvMixColumn, Ror, Byte0, Byte1, Byte2, Byte3, Te4Last;
    var a, b, c, d := Byte0(w), Byte1(w), Byte2(w), Byte3(w);
    Te4LastIs(a); Te4LastIs(b); Te4LastIs(c); Te4LastIs(d);
    Td0IsInvMixInvSub(Sub(a)); Td0IsInvMixInvSub(Sub(b)); Td0IsInvMixInvSub(Sub(c)); Td0IsInvMixInvSub(Sub(d));
    InvSubOfSub(a); InvSubOfSub(b); InvSubOfSub(c); InvSubOfSub(d);
    InvMixBytesAdd(a, b, c, d);
    BytesOfWord(w);
  }

  ghost predicate Filled(key: seq<bv32>, ek: seq<bv32>, n: nat)
    requires |key| == 8
  {
    n <= |ek| == 60 && forall k | 0 <= k < n :: ek[k] == ExpandedWord(key, k)
  }

  /** Four words: the first from t, the others each from the one before. */
  method FillFour(ghost key: seq<bv32>, ek: array<bv32>, at: nat, t: bv32)
    requires |key| == 8 && ek.Length == 60 && 8 <= at <= 56 && at % 4 == 0
    requires Filled(key, ek[..], at) && Add32(ek[at - 8], t) == ExpandedWord(key, at)
    modifies ek
    ensures Filled(key, ek[..], at + 4)
  {
    hide SubWord, RotWord, Add32, ExpandedWord;
    NextWord(key, at + 1); NextWord(key, at + 2); NextWord(key, at + 3);
    ek[at] := Add32(ek[at - 8], t);
    ek[at + 1] := Add32(ek[at - 7], ek[at]);
    ek[at + 2] := Add32(ek[at - 6], ek[at + 1]);
    ek[at + 3] := Add32(ek[at - 5], ek[at + 2]);
  }

  lemma NextWord(key: seq<bv32>, i: nat)
    requires |key| == 8 && 8 <= i < 60 && i % 4 != 0
    ensures ExpandedWord(key, i) == Add32(ExpandedWord(key, i - 8), ExpandedWord(key, i - 1))
  {
    hide SubWord, RotWord, Add32;
    assert i % 8 != 0 && i % 8 != 4;
  }

  lemma FirstWord(key: seq<bv32>, i: nat)
    requires |key| == 8 && i < 7
    ensures ExpandedWord(key, 8 * i + 8)
      == Add32(ExpandedWord(key, 8 * i), Add32(SubWord(RotWord(ExpandedWord(key, 8 * i + 7))), RCON[i]))
    ensures i < 6 ==>
      ExpandedWord(key, 8 * i + 12) == Add32(ExpandedWord(key, 8 * i + 4), SubWord(ExpandedWord(key, 8 * i + 11)))
  {
    hide SubWord, RotWord, Add32;
    assert (8 * i + 8) % 8 == 0 && (8 * i + 8) / 8 - 1 == i;
    assert (8 * i + 12) % 8 == 4;
  }

  method CopyKey(key: seq<bv32>, ek: array<bv32>)
    requires |key| == 8 && ek.Length == 60
    modifies ek
    ensures Filled(key, ek[..], 8)
  {
    for j := 0 to 8
      invariant Filled(key, ek[..], j)
    {
      ek[j] := key[j];
    }
  }

  lemma FilledAt(key: seq<bv32>, ek: seq<bv32>, n: nat, k: nat)
    requires |key| == 8 && Filled(key, ek, n) && k < n
    ensures ek[k] == ExpandedWord(key, k)
  {}

  lemma FilledAll(key: seq<bv32>, ek: seq<bv32>)
    requires |key| == 8 && Filled(key, ek, 60)
    ensures ek == Expanded(key)
  {}

  /** The four words after each eighth, from the last word rotated. */
  method RotatedHalf(ghost key: seq<bv32>, ek: array<bv32>, i: nat, rk: nat)
    requires |key| == 8 && ek.Length == 60 && i < 7 && rk == 8 * i && Filled(key, ek[..], rk + 8)
    modifies ek
    ensures Filled(key, ek[..], rk + 12)
  {
    hide Filled, ExpandedWord, TePick, SubWord, RotWord, Byte0, Byte1, Byte2, Byte3, Add32;
    var temp := ek[rk + 7];
    FilledAt(key, ek[..], rk + 8, rk); FilledAt(key, ek[..], rk + 8, rk + 7);
    FirstWord(key, i); RotatedPick(temp);
    FillFour(key, ek, rk + 8, Add32(TePick(Byte1(temp), Byte2(temp), Byte3(temp), Byte0(temp)), RCON[i]));
  }

  /** The four words after those. */
  method PlainHalf(ghost key: seq<bv32>, ek: array<bv32>, ghost i: nat, rk: nat)
    requires |key| == 8 && ek.Length == 60 && i < 6 && rk == 8 * i && Filled(key, ek[..], rk + 12)
    modifies ek
    ensures Filled(key, ek[..], rk + 16)
  {
    hide *;
    var temp := ek[rk + 11];
    FilledAt(key, ek[..], rk + 12, rk + 4); FilledAt(key, ek[..], rk + 12, rk + 11);
    FirstWord(key, i); PlainPick(temp);
    FillFour(key, ek, rk + 12, TePick(Byte0(temp), Byte1(temp), Byte2(temp), Byte3(temp)));
  }

  /** The encryption schedule: eight words in one pass, seven passes, the last one cut in half. */
  method ExpandKey(key: seq<bv32>, ek: array<bv32>)
    requires |key| == 8 && ek.Length == 60
    modifies ek
    ensures ek[..] == Expanded(key)
  {
    hide Filled, ExpandedWord;
    CopyKey(key, ek);
    var i, rk := 0, 0;
    while true
      invariant 0 <= i < 7 && rk == 8 * i
      invariant Filled(key, ek[..], rk + 8)
      decreases 7 - i
    {
      RotatedHalf(key, ek, i, rk);
      i := i + 1;
      if i == 7 {
        FilledAll(key, ek[..]);
        return;
      }
      PlainHalf(key, ek, i - 1, rk);
      rk := rk + 8;
    }
  }

  lemma RotatedPick(w: bv32)
    ensures TePick(Byte1(w), Byte2(w), Byte3(w), Byte0(w)) == SubWord(RotWord(w))
  {
    hide Add32, FromBytes, TePick, Sub, Byte0, Byte1, Byte2, Byte3;
    TePickIs(Byte1(w), Byte2(w), Byte3(w), Byte0(w));
    WordOfBytes(Byte1(w), Byte2(w), Byte3(w), Byte0(w));
  }

  lemma PlainPick(w: bv32)
    ensures TePick(Byte0(w), Byte1(w), Byte2(w), Byte3(w)) == SubWord(w)
  {
    hide TePick, Sub, Byte0, Byte1, Byte2, Byte3, FromBytes;
    TePickIs(Byte0(w), Byte1(w), Byte2(w), Byte3(w));
  }

  /** Exchange two round keys. */
  method SwapRound(rk: array<bv32>, a: nat, b: nat)
    requires rk.Length == 60 && a < b <= 14
    modifies rk
    ensures RoundKey(rk[..], a) == RoundKey(old(rk[..]), b) && RoundKey(rk[..], b) == RoundKey(old(rk[..]), a)
    ensures forall r | 0 <= r <= 14 && r != a && r != b :: RoundKey(rk[..], r) == RoundKey(old(rk[..]), r)
  {
    ghost var was: Schedule := rk[..];
    var i, j := 4 * a, 4 * b;
    SwapWord(rk, i, j);
    SwapWord(rk, i + 1, j + 1);
    SwapWord(rk, i + 2, j + 2);
    SwapWord(rk, i + 3, j + 3);
    assert rk[..] == SwapSeq(SwapSeq(SwapSeq(SwapSeq(was, i, j), i + 1, j + 1), i + 2, j + 2), i + 3, j + 3);
    hide SwapSeq;
    SwappedRounds(was, a, b);
  }

  function SwapSeq(w: Schedule, i: nat, j: nat): Schedule
    requires i < j < 60
  {
    w[i := w[j]][j := w[i]]
  }

  method SwapWord(rk: array<bv32>, i: nat, j: nat)
    requires rk.Length == 60 && i < j < 60
    modifies rk
    ensures rk[..] == SwapSeq(old(rk[..]), i, j)
  {
    rk[i], rk[j] := rk[j], rk[i];
  }

  lemma SwappedRounds(w: Schedule, a: nat, b: nat)
    requires a < b <= 14
    ensures var (i, j) := (4 * a, 4 * b);
      var v := SwapSeq(SwapSeq(SwapSeq(SwapSeq(w, i, j), i + 1, j + 1), i + 2, j + 2), i + 3, j + 3);
      && RoundKey(v, a) == RoundKey(w, b) && RoundKey(v, b) == RoundKey(w, a)
      && forall r | 0 <= r <= 14 && r != a && r != b :: RoundKey(v, r) == RoundKey(w, r)
  {
    var (i, j) := (4 * a, 4 * b);
    var v := SwapSeq(SwapSeq(SwapSeq(SwapSeq(w, i, j), i + 1, j + 1), i + 2, j + 2), i + 3, j + 3);
    forall r | 0 <= r <= 14 && r != a && r != b
      ensures RoundKey(v, r) == RoundKey(w, r)
    {
      assert 4 * r + 3 < i || i + 3 < 4 * r;
      assert 4 * r + 3 < j || j + 3 < 4 * r;
    }
  }

  /** The round keys end for end. */
  method ReverseRounds(rk: array<bv32>)
    requires rk.Length == 60
    modifies rk
    ensures forall r | 0 <= r <= 14 :: RoundKey(rk[..], r) == RoundKey(old(rk[..]), 14 - r)
  {
    hide RoundKey;
    var a, b := 0, 14;
    while a < b
      invariant a + b == 14 && 0 <= a <= 7
      invariant forall r | 0 <= r < a :: RoundKey(rk[..], r) == RoundKey(old(rk[..]), 14 - r)
      invariant forall r | a <= r <= b :: RoundKey(rk[..], r) == RoundKey(old(rk[..]), r)
      invariant forall r | b < r <= 14 :: RoundKey(rk[..], r) == RoundKey(old(rk[..]), 14 - r)
    {
      SwapRound(rk, a, b);
      a, b := a + 1, b - 1;
    }
  }

  /** One inner round key through Te4 and Td0. */
  method TransformRound(rk: array<bv32>, r: nat)
    requires rk.Length == 60 && r <= 14
    modifies rk
    ensures RoundKey(rk[..], r) == InvMixColumns(RoundKey(old(rk[..]), r))
    ensures forall q | 0 <= q <= 14 && q != r :: RoundKey(rk[..], q) == RoundKey(old(rk[..]), q)
  {
    hide TdOfTe4, InvMixColumn;
    var i := 4 * r;
    TdOfTe4Is(rk[i]); TdOfTe4Is(rk[i + 1]); TdOfTe4Is(rk[i + 2]); TdOfTe4Is(rk[i + 3]);
    rk[i] := TdOfTe4(rk[i]);
    rk[i + 1] := TdOfTe4(rk[i + 1]);
    rk[i + 2] := TdOfTe4(rk[i + 2]);
    rk[i + 3] := TdOfTe4(rk[i + 3]);
  }

  /** The decryption schedule: copy, reverse, transform the inner round keys. */
  method InvertSchedule(ek: array<bv32>, dk: array<bv32>)
    requires ek.Length == 60 && dk.Length == 60 && ek != dk
    modifies dk
    ensures InverseSchedule(ek[..], dk[..])
  {
    hide RoundKey, InvMixColumns;
    for i := 0 to 60
      invariant dk[..i] == ek[..i]
    {
      dk[i] := ek[i];
    }
    assert dk[..] == ek[..];
    ReverseRounds(dk);
    for r := 1 to 14
      invariant forall q | 1 <= q < r :: RoundKey(dk[..], q) == InvMixColumns(RoundKey(ek[..], 14 - q))
      invariant forall q | 0 <= q <= 14 && !(1 <= q < r) :: RoundKey(dk[..], q) == RoundKey(ek[..], 14 - q)
    {
      TransformRound(dk, r);
    }
  }

  // ---- AES as a block cipher ----

  /** A block as four big-endian words, and back. */
  function StateOf(b: Block): State { State(High(b.hi), Low32(b.hi), High(b.lo), Low32(b.lo)) }
  function BlockFrom(s: State): Block { Block(Join(s.s0, s.s1), Join(s.s2, s.s3)) }

  lemma JoinHalves(w: bv64, h: bv32, l: bv32)
    ensures Join(High(w), Low32(w)) == w && High(Join(h, l)) == h && Low32(Join(h, l)) == l
  {}

  /** AES with the two schedules p_initSW prepares. */
  function Aes(ek: Schedule, dk: Schedule): BlockCipher {
    BlockCipher(b => BlockFrom(EncryptSoftware(ek, StateOf(b))), b => BlockFrom(DecryptSoftware(dk, StateOf(b))))
  }

  /** The software AES is a permutation of blocks and its inverse, for every key. */
  lemma AesIsBlockCipher(ek: Schedule, dk: Schedule)
    requires InverseSchedule(ek, dk)
    ensures Aes(ek, dk).Valid()
  {
    hide EncryptSoftware, DecryptSoftware, High, Low32, Join, InverseSchedule;
    forall b: Block
      ensures Aes(ek, dk).decrypt(Aes(ek, dk).encrypt(b)) == b && Aes(ek, dk).encrypt(Aes(ek, dk).decrypt(b)) == b
    {
      var s := StateOf(b);
      DecryptInvertsEncrypt(ek, dk, s);
      JoinHalves(b.hi, EncryptSoftware(ek, s).s0, EncryptSoftware(ek, s).s1);
      JoinHalves(b.lo, EncryptSoftware(ek, s).s2, EncryptSoftware(ek, s).s3);
      JoinHalves(b.hi, DecryptSoftware(dk, s).s0, DecryptSoftware(dk, s).s1);
      JoinHalves(b.lo, DecryptSoftware(dk, s).s2, DecryptSoftware(dk, s).s3);
    }
  }

  /** p_initSW: both schedules of a 256-bit key, given as eight big-endian words. */
  method InitSoftware(key: seq<bv32>) returns (cipher: BlockCipher, ghost ek: Schedule)
    requires |key| == 8
    ensures ek == Expanded(key) && cipher.Valid()
    ensures forall b :: cipher.encrypt(b) == BlockFrom(Cipher(ek, StateOf(b)))
    ensures forall b :: cipher.decrypt(b) == BlockFrom(InvCipher(ek, StateOf(b)))
  {
    hide *;
    var e, d := new bv32[60], new bv32[60];
    ExpandKey(key, e);
    InvertSchedule(e, d);
    ek := e[..];
    cipher := Aes(e[..], d[..]);
    AesIsBlockCipher(e[..], d[..]);
    forall b: Block
      ensures cipher.encrypt(b) == BlockFrom(Cipher(ek, StateOf(b)))
        && cipher.decrypt(b) == BlockFrom(InvCipher(ek, StateOf(b)))
    {
      AesIs(e[..], d[..], b);
      EncryptSoftwareIsCipher(ek, StateOf(b));
      DecryptSoftwareIsInvCipher(ek, d[..], StateOf(b));
    }
  }

  lemma AesIs(ek: Schedule, dk: Schedule, b: Block)
    ensures Aes(ek, dk).encrypt(b) == BlockFrom(EncryptSoftware(ek, StateOf(b)))
      && Aes(ek, dk).decrypt(b) == BlockFrom(DecryptSoftware(dk, StateOf(b)))
  {}
}
