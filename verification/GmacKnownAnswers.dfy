/** A known answer of GMAC with AES-256, from the validation vectors that accompany NIST SP 800-38D: 96 bits of IV,
    128 bits of authenticated data, nothing to encrypt. The two products in it are worked out the way s_gfmul does. */
module GmacKnownAnswers {
  import opened BlockCiphers
  import opened CarrylessProduct
  import opened GcmField
  import opened GfMul
  import opened GhashSpec
  import opened HoleyMul
  import opened MachineWords

  /** The encryption of the zero block, the data, and what is multiplied second: their product and the length block. */
  const KEY := Block(0xC438_0597_39BF_18B8, 0x0D83_B8A1_226B_C45D)
  const DATA := Block(0xB96B_AA8C_1C75_A671, 0xBFB2_D08D_06BE_5F36)
  const SUM := Block(0xC97A_8A97_69FF_1046, 0xD682_583D_173A_B51E)

  lemma FirstA1()
    ensures Bmul32(0xB96B_AA8C, 0xC438_0597) == 0x7013_E3D5_555D_0764
  {}

  lemma FirstA2()
    ensures Bmul32(0x1C75_A671, 0x39BF_18B8) == 0x02BA_F2CC_7FAB_3A38
  {}

  lemma FirstA3()
    ensures Bmul32(0xA51E_0CFD, 0xFD87_1D2F) == 0x6272_CB4F_8F8F_EFBB
  {}

  lemma FirstA()
    ensures Karatsuba64(0xB96B_AA8C_1C75_A671, 0xC438_0597_39BF_18B8)
      == Block(0x7013_E3D5_4586_DD32, 0xA7C3_202B_7FAB_3A38)
  {
    hide Bmul32;
    FirstA1(); FirstA2(); FirstA3();
  }

  lemma FirstB1()
    ensures Bmul32(0xBFB2_D08D, 0x0D83_B8A1) == 0x07E2_B0C8_FF4C_1FAD
  {}

  lemma FirstB2()
    ensures Bmul32(0x06BE_5F36, 0x226B_C45D) == 0x00DB_F3DF_3347_BCBE
  {}

  lemma FirstB3()
    ensures Bmul32(0xB90C_8FBB, 0x2FE8_7CFC) == 0x11A6_CB02_5432_58A4
  {}

  lemma FirstB()
    ensures Karatsuba64(0xBFB2_D08D_06BE_5F36, 0x0D83_B8A1_226B_C45D)
      == Block(0x07E2_B0C8_E9D3_97B8, 0x98E2_0868_3347_BCBE)
  {
    hide Bmul32;
    FirstB1(); FirstB2(); FirstB3();
  }

  lemma FirstC1()
    ensures Bmul32(0x06D9_7A01, 0xC9BB_BD36) == 0x02E9_157E_A576_4136
  {}

  lemma FirstC2()
    ensures Bmul32(0x1ACB_F947, 0x1BD4_DCE5) == 0x015F_A609_30FC_D2FB
  {}

  lemma FirstC3()
    ensures Bmul32(0x1C12_8346, 0xD26F_61D3) == 0x08F0_DACB_4D66_C52A
  {}

  lemma FirstC()
    ensures Karatsuba64(0x06D9_7A01_1ACB_F947, 0xC9BB_BD36_1BD4_DCE5)
      == Block(0x02E9_157E_AE30_288A, 0xD9B3_F0EE_30FC_D2FB)
  {
    hide Bmul32;
    FirstC1(); FirstC2(); FirstC3();
  }

  lemma FirstWhole()
    ensures Product128(DATA, KEY)
      == Wide(Block(0x7013_E3D5_4586_DD32, 0xD2DB_6648_7DCE_5838), Block(0xE170_6865_95C3_C3C5, 0x98E2_0868_3347_BCBE))
  {
    hide Karatsuba64;
    FirstA(); FirstB(); FirstC();
  }

  lemma FirstReduced()
    ensures ReduceWords(WLeft(Wide(Block(0x7013_E3D5_4586_DD32, 0xD2DB_6648_7DCE_5838),
                                   Block(0xE170_6865_95C3_C3C5, 0x98E2_0868_3347_BCBE))))
      == Block(0xC97A_8A97_69FF_10C6, 0xD682_583D_173A_B51E)
  {}

  lemma First()
    ensures Mul(DATA, KEY)
      == Block(0xC97A_8A97_69FF_10C6, 0xD682_583D_173A_B51E)
  {
    hide *;
    FirstWhole(); FirstReduced();
    GfMulIsMul(DATA, KEY);
  }

  lemma SecondA1()
    ensures Bmul32(0xC97A_8A97, 0xC438_0597) == 0x55D5_FD6F_7700_9C15
  {}

  lemma SecondA2()
    ensures Bmul32(0x69FF_1046, 0x39BF_18B8) == 0x08BB_1CEC_13A7_FD90
  {}

  lemma SecondA3()
    ensures Bmul32(0xA085_9AD1, 0xFD87_1D2F) == 0x610E_D265_D03A_459F
  {}

  lemma SecondA()
    ensures Karatsuba64(0xC97A_8A97_69FF_1046, 0xC438_0597_39BF_18B8)
      == Block(0x55D5_FD6F_4B60_AFF3, 0xBC26_38F6_13A7_FD90)
  {
    hide Bmul32;
    SecondA1(); SecondA2(); SecondA3();
  }

  lemma SecondB1()
    ensures Bmul32(0xD682_583D, 0x0D83_B8A1) == 0x0552_D96F_C079_591D
  {}

  lemma SecondB2()
    ensures Bmul32(0x173A_B51E, 0x226B_C45D) == 0x02CE_84A3_3D8D_27F6
  {}

  lemma SecondB3()
    ensures Bmul32(0xC1B8_ED23, 0x2FE8_7CFC) == 0x1C30_59D1_9C21_7684
  {}

  lemma SecondB()
    ensures Karatsuba64(0xD682_583D_173A_B51E, 0x0D83_B8A1_226B_C45D)
      == Block(0x0552_D96F_DBD5_5D00, 0x631B_8CCC_3D8D_27F6)
  {
    hide Bmul32;
    SecondB1(); SecondB2(); SecondB3();
  }

  lemma SecondC1()
    ensures Bmul32(0x1FF8_D2AA, 0xC9BB_BD36) == 0x08EF_4DE8_D1EC_221C
  {}

  lemma SecondC2()
    ensures Bmul32(0x7EC5_A558, 0x1BD4_DCE5) == 0x04BF_D87B_C62C_4138
  {}

  lemma SecondC3()
    ensures Bmul32(0x613D_77F2, 0xD26F_61D3) == 0x2E16_1918_118D_D0B6
  {}

  lemma SecondC()
    ensures Karatsuba64(0x1FF8_D2AA_7EC5_A558, 0xC9BB_BD36_1BD4_DCE5)
      == Block(0x08EF_4DE8_F3AA_AE97, 0x02F2_6BE9_C62C_4138)
  {
    hide Bmul32;
    SecondC1(); SecondC2(); SecondC3();
  }

  lemma SecondWhole()
    ensures Product128(SUM, KEY)
      == Wide(Block(0x55D5_FD6F_4B60_AFF3, 0xE44E_511E_70B8_A1F4), Block(0xD89D_06BC_33D3_C65E, 0x631B_8CCC_3D8D_27F6))
  {
    hide Karatsuba64;
    SecondA(); SecondB(); SecondC();
  }

  lemma SecondReduced()
    ensures ReduceWords(WLeft(Wide(Block(0x55D5_FD6F_4B60_AFF3, 0xE44E_511E_70B8_A1F4),
                                   Block(0xD89D_06BC_33D3_C65E, 0x631B_8CCC_3D8D_27F6))))
      == Block(0xEC90_065E_2B93_B933, 0x25B1_9F3D_89D6_8C97)
  {}

  lemma Second()
    ensures Mul(SUM, KEY)
      == Block(0xEC90_065E_2B93_B933, 0x25B1_9F3D_89D6_8C97)
  {
    hide *;
    SecondWhole(); SecondReduced();
    GfMulIsMul(SUM, KEY);
  }

  lemma LengthWord()
    ensures ToWord(8 * 16) == 128
  {
    assert ToWord(1) == 1;
    hide Xor, Twice;
    assert ToWord(128) == Xor(Twice(ToWord(64)), 0) && ToWord(64) == Xor(Twice(ToWord(32)), 0);
  }

  /** Key 78dc4e0aaf52d935c3c01eea57428f00ca1fd475f5da86a49c8dd73d68c8e223: what it makes of the zero block and of the
      IV d79cf22d504cc793c3fb6c8a followed by the counter 1 is given; the tag of the data
      b96baa8c1c75a671bfb2d08d06be5f36 is then 3e5d486aa2e30b22e040b85723a06e76. */
  lemma KnownTag(c: BlockCipher)
    requires c.encrypt(ZERO) == KEY
    requires c.encrypt(Block(0xD79C_F22D_504C_C793, 0xC3FB_6C8A_0000_0001))
      == Block(0xD2CD_4E34_8970_B211, 0xC5F1_276A_AA76_E2E1)
    ensures GmacTag(c, Block(0xD79C_F22D_504C_C793, 0xC3FB_6C8A_0000_0001),
                    BytesOf(DATA))
      == Block(0x3E5D_486A_A2E3_0B22, 0xE040_B857_23A0_6E76)
  {
    hide Mul, BytesOf, BlockOf, ToWord;
    WholeData(DATA);
    First(); Second();
    LengthWord();
  }

  /** Sixteen bytes need no padding and are one block. */
  lemma WholeData(b: Block)
    ensures |BytesOf(b)| == 16 && Padded(BytesOf(b)) == BytesOf(b) && BlockOf(BytesOf(b)) == b
    ensures forall h: Block :: Ghash(h, ZERO, BytesOf(b)) == Absorb(h, ZERO, b)
  {
    hide BytesOf, BlockOf, Absorb;
    BlockBytes(b);
    assert PadLength(16) == 0 && Padded(BytesOf(b)) == BytesOf(b);
    forall h: Block
      ensures Ghash(h, ZERO, BytesOf(b)) == Absorb(h, ZERO, b)
    {
      GhashOne(h, ZERO, BytesOf(b));
    }
  }
}
