/** What the building blocks of CityHash64 are, bit by bit and byte by byte, and known answers: the
hash of the bytes 0, 1, 2, ... for one length of each class. */
module CityKnown {
  import opened City

  // ---------------------------------------------------------------- rotation

  function Bit(v: Word, i: Word): Word
    requires i < 64
  {
    (v >> i) & 1
  }

  lemma UpLow(v: Word, s: Word, i: Word)
    requires 0 < s < 32 && i < 32
    ensures Bit((v >> s) | (v << (64 - s)), i) == Bit(v, i + s)
  {
  }

  lemma UpFar(v: Word, s: Word, i: Word)
    requires 32 <= s < 64 && i < 64 - s
    ensures Bit((v >> s) | (v << (64 - s)), i) == Bit(v, i + s)
  {
  }

  lemma UpHigh(v: Word, s: Word, i: Word)
    requires 0 < s && 32 <= i < 64 && s < 64 - i
    ensures Bit((v >> s) | (v << (64 - s)), i) == Bit(v, i + s)
  {
  }

  lemma AroundNear(v: Word, s: Word, i: Word)
    requires 0 < s < 32 && 64 - s <= i < 64
    ensures Bit((v >> s) | (v << (64 - s)), i) == Bit(v, i + s - 64)
  {
  }

  lemma AroundLow(v: Word, s: Word, i: Word)
    requires 32 <= s < 64 && 64 - s <= i < 32
    ensures Bit((v >> s) | (v << (64 - s)), i) == Bit(v, i + s - 64)
  {
  }

  lemma AroundHigh(v: Word, s: Word, i: Word)
    requires 32 <= s < 64 && 32 <= i < 64
    ensures Bit((v >> s) | (v << (64 - s)), i) == Bit(v, i + s - 64)
  {
  }

  /** `Rotate` moves every bit down by `s` places, around the end. */
  lemma RotateBits(v: Word, s: Word, i: Word)
    requires s < 64 && i < 64
    ensures Bit(Rotate(v, s), i) == Bit(v, (i + s) % 64)
  {
    hide Bit;
    assert (i + s) % 64 == if i + s < 64 then i + s else i + s - 64;
    if s == 0 {
    } else if i + s < 64 {
      if s < 32 && i < 32 { UpLow(v, s, i); } else if s >= 32 { UpFar(v, s, i); } else { UpHigh(v, s, i); }
    } else {
      if s < 32 { AroundNear(v, s, i); } else if i < 32 { AroundLow(v, s, i); } else { AroundHigh(v, s, i); }
    }
  }

  // ---------------------------------------------------------------- loads

  /** A load puts the bytes together lowest first. */
  lemma LoadBytes(s: seq<bv8>, at: nat)
    requires at + 8 <= |s|
    ensures Load64(s, at) & 0xff == s[at] as Word
    ensures (Load64(s, at) >> 8) & 0xff == s[at + 1] as Word
    ensures (Load64(s, at) >> 16) & 0xff == s[at + 2] as Word
    ensures (Load64(s, at) >> 24) & 0xff == s[at + 3] as Word
    ensures (Load64(s, at) >> 32) & 0xff == s[at + 4] as Word
    ensures (Load64(s, at) >> 40) & 0xff == s[at + 5] as Word
    ensures (Load64(s, at) >> 48) & 0xff == s[at + 6] as Word
    ensures Load64(s, at) >> 56 == s[at + 7] as Word
  {
  }

  lemma Load32Bytes(s: seq<bv8>, at: nat)
    requires at + 4 <= |s|
    ensures var w := Load32(s, at);
            && w & 0xff == s[at] as Word && (w >> 8) & 0xff == s[at + 1] as Word
            && (w >> 16) & 0xff == s[at + 2] as Word && w >> 24 == s[at + 3] as Word
  {
  }

  // ---------------------------------------------------------------- known answers, on words

  lemma Known3()
    ensures MixBytes(0, 1, 2, 3) == 0x34e8_03dc_175e_241f
  {
  }

  lemma Known5()
    ensures MixHalves(0x0000_0000_0302_0100, 0x0000_0000_0403_0201, 5) == 0xb85d_8257_a350_641c
  {
  }

  lemma Known12Parts()
    ensures Rotate(0x0b0a_0908_0706_0510, 12) == 0x5100_b0a0_9080_7060
    ensures HashLen16(0x0706_0504_0302_0100, 0x5100_b0a0_9080_7060) == 0x0bdd_2121_eeec_82ec
  {
  }

  lemma Known12()
    ensures MixEnds(0x0706_0504_0302_0100, 0x0b0a_0908_0706_0504, 12) == 0x00d7_2829_e9ea_87e8
  {
    hide Rotate, HashLen16;
    Known12Parts();
  }

  lemma Known20Parts()
    ensures Rotate(0x0a95_b387_cbce_69f8, 43) == 0x70f9_79cd_3f01_52b6
    ensures Rotate(0xebd3_4dc8_b359_06b4, 30) == 0xcd64_1ad3_af4d_3722
    ensures Rotate(0xc647_dacb_5b94_6c5f, 20) == 0x46c5_fc64_7dac_b5b9
    ensures HashLen16(0x3fca_8a5d_7d5b_1174, 0x7496_6f2f_a12c_2219) == 0x813f_fac3_6b97_bd63
  {
  }

  lemma Known20()
    ensures MixFour(0x0706_0504_0302_0100, 0x0f0e_0d0c_0b0a_0908, 0x1312_1110_0f0e_0d0c, 0x0b0a_0908_0706_0504, 20) == 0x813f_fac3_6b97_bd63
  {
    hide Rotate, HashLen16;
    Known20Parts();
  }

  lemma Known40Sums()
    ensures FirstSum(0x0706_0504_0302_0100, 0x1f1e_1d1c_1b1a_1918, 40) == 0x58cf_cb12_e891_19c0
    ensures SecondSum(0x1716_1514_1312_1110, 0x0f0e_0d0c_0b0a_0908) == 0x2624_2220_1e1c_1a18
  {
  }

  lemma Known40Turns()
    ensures Rotate(0x77ed_e82f_03ab_32d8, 52) == 0xde82_f03a_b32d_877e
    ensures Rotate(0x7ef3_ed33_06ad_33d8, 31) == 0x0d5a_67b0_fde7_da66
    ensures Rotate(0x58cf_cb12_e891_19c0, 37) == 0x9744_88ce_02c6_7e58
    ensures Rotate(0x67dd_d81e_f39b_22c8, 7) == 0x90cf_bbb0_3de7_3645
    ensures Rotate(0x4d4a_4744_413e_3b38, 52) == 0xa474_4413_e3b3_84d4
    ensures Rotate(0x5c58_5450_4c48_4440, 31) == 0x9890_8880_b8b0_a8a0
    ensures Rotate(0x2624_2220_1e1c_1a18, 37) == 0x00f0_e0d0_c131_2111
    ensures Rotate(0x3d3a_3734_312e_2b28, 7) == 0x507a_746e_6862_5c56
  {
  }

  lemma Known40Halves()
    ensures MixHalf(0x58cf_cb12_e891_19c0, 0x1f1e_1d1c_1b1a_1918, 0x0f0e_0d0c_0b0a_0908, 0x1716_1514_1312_1110) == Pair(0x9e12_0a4f_21c7_4cf0, 0x13f1_9c69_f1c3_1681)
    ensures MixHalf(0x2624_2220_1e1c_1a18, 0x2726_2524_2322_2120, 0x1716_1514_1312_1110, 0x1f1e_1d1c_1b1a_1918) == Pair(0x837e_7974_6f6a_6560, 0x8e70_21d3_c5f7_aadb)
  {
    hide Rotate;
    Known40Turns();
  }

  lemma Known40()
    ensures MixBoth(Pair(0x9e12_0a4f_21c7_4cf0, 0x13f1_9c69_f1c3_1681), Pair(0x837e_7974_6f6a_6560, 0x8e70_21d3_c5f7_aadb)) == 0x68af_4f0d_a1e7_c590
  {
  }

  const FIRST_WORDS: seq<Word> :=
    [0x0706_0504_0302_0100, 0x0f0e_0d0c_0b0a_0908, 0x1716_1514_1312_1110, 0x1f1e_1d1c_1b1a_1918,
     0x2726_2524_2322_2120, 0x2f2e_2d2c_2b2a_2928, 0x3736_3534_3332_3130, 0x3f3e_3d3c_3b3a_3938]
  const SECOND_WORDS: seq<Word> :=
    [0x4746_4544_4342_4140, 0x4f4e_4d4c_4b4a_4948, 0x5756_5554_5352_5150, 0x5f5e_5d5c_5b5a_5958,
     0x6766_6564_6362_6160, 0x6f6e_6d6c_6b6a_6968, 0x7776_7574_7372_7170, 0x7f7e_7d7c_7b7a_7978]
  const STARTED := State(0x0033_84a2_8cb8_3b48, 0xf2c5_cb63_31d1_1c57, 0x95e8_c703_4536_2377, Pair(0x4d49_4541_3d39_35b0, 0xfe85_3e86_53ff_03d2), Pair(0x1724_fda1_0a32_ef30, 0xbd36_886a_3a7d_fb61))
  const MIXED := State(0x2782_6623_c166_1d51, 0x1892_ed32_9b86_04cd, 0xe6ab_aa7b_0f63_dcb7, Pair(0xf765_6e4d_2a13_6f86, 0x363e_cd1e_e76d_09f7), Pair(0xb181_b34e_b89c_cd62, 0xa0c5_a4f8_e39e_65b7))

  lemma Known128StartTurns()
    ensures Rotate(0x6a89_65bc_6c87_1e1b, 21) == 0x38f0_db54_4b2d_e364
    ensures Rotate(0xedea_e7e4_e1de_dc58, 44) == 0x7e4e_1ded_c58e_deae
    ensures Rotate(0xf3e5_e31c_c321_457f, 21) == 0x0a2b_ff9f_2f18_e619
    ensures Rotate(0x97a6_8024_8eb8_75b8, 44) == 0x0248_eb87_5b89_7a68
  {
  }

  lemma Known128StartPairs()
    ensures WeakHash(0x4746_4544_4342_4140, 0x4f4e_4d4c_4b4a_4948, 0x5756_5554_5352_5150, 0x5f5e_5d5c_5b5a_5958, 0x0000_0000_0000_0080, 0xc3e4_c31b_cdea_8303) == Pair(0x4d49_4541_3d39_35b0, 0xfe85_3e86_53ff_03d2)
    ensures WeakHash(0x6766_6564_6362_6160, 0x6f6e_6d6c_6b6a_6968, 0x7776_7574_7372_7170, 0x7f7e_7d7c_7b7a_7978, 0x495b_37df_4c79_3980, 0xc3a5_c85c_97cb_3127) == Pair(0x1724_fda1_0a32_ef30, 0xbd36_886a_3a7d_fb61)
  {
    hide Rotate;
    Known128StartTurns();
  }

  lemma Known128StartMore()
    ensures ShiftMix(0xfe85_3e86_53ff_03d2) == 0xfe85_3e86_53fe_fed8
    ensures Rotate(0x9cee_cc07_4838_2477, 39) == 0x0e90_7048_ef39_dd98
    ensures Rotate(0xc3e4_c31b_cdea_8303, 33) == 0xe6f5_4181_e1f2_618d
  {
  }

  lemma Known128Start()
    ensures StartWords(128, 0x0706_0504_0302_0100, SECOND_WORDS) == STARTED
  {
    hide WeakHash, Rotate, ShiftMix;
    Known128StartPairs();
    Known128StartMore();
  }

  lemma Known128MixTurns()
    ensures Rotate(0x5758_aa5b_0ed4_9e5f, 37) == 0xd876_a4f2_faba_c552
    ensures Rotate(0x2881_3f1d_b902_5159, 42) == 0xc76e_4094_564a_204f
    ensures Rotate(0x82cc_3aa2_4f04_cc47, 33) == 0x2782_6623_c166_1d51
    ensures Rotate(0xcf11_f449_258e_2155, 21) == 0x710a_ae78_8fa2_492c
    ensures Rotate(0xd847_5131_0ef9_566e, 44) == 0x1310_ef95_66ed_8475
    ensures Rotate(0x63b0_3e20_f5c6_77d7, 21) == 0x33be_bb1d_81f1_07ae
    ensures Rotate(0x7243_7612_7d62_942a, 44) == 0x6127_d629_42a7_2437
  {
  }

  lemma Known128MixPairs()
    ensures WeakHash(0x0706_0504_0302_0100, 0x0f0e_0d0c_0b0a_0908, 0x1716_1514_1312_1110, 0x1f1e_1d1c_1b1a_1918, 0xab1d_2a0c_eddb_3b56, 0xfdd0_a81c_1996_cbe7) == Pair(0xf765_6e4d_2a13_6f86, 0x363e_cd1e_e76d_09f7)
    ensures WeakHash(0x2726_2524_2322_2120, 0x2f2e_2d2c_2b2a_2928, 0x3736_3534_3332_3130, 0x3f3e_3d3c_3b3a_3938, 0xe4b8_ee8d_fbe4_18b2, 0x1892_ed32_9b86_04cd) == Pair(0xb181_b34e_b89c_cd62, 0xa0c5_a4f8_e39e_65b7)
  {
    hide Rotate;
    Known128MixTurns();
  }

  lemma Known128Mix()
    ensures MixWords(STARTED, FIRST_WORDS) == MIXED
  {
    hide WeakHash, Rotate;
    Known128MixTurns();
    Known128MixPairs();
  }

  lemma Known128FinishParts()
    ensures HashLen16(0xf765_6e4d_2a13_6f86, 0xb181_b34e_b89c_cd62) == 0x1ccc_d6a2_3372_058b
    ensures HashLen16(0x363e_cd1e_e76d_09f7, 0xa0c5_a4f8_e39e_65b7) == 0x06db_05d7_35fc_a56a
    ensures HashLen16(0x0f01_2928_30d5_697a, 0x2e5d_6bfa_f762_c2bb) == 0x4fe2_34a5_4241_a89f
    ensures ShiftMix(0x1892_ed32_9b86_04cd) == 0x1892_ed32_9b86_35e8
  {
  }

  lemma Known128Finish()
    ensures Finish(MIXED) == 0x4fe2_34a5_4241_a89f
  {
    hide HashLen16, ShiftMix;
    Known128FinishParts();
  }

  const THIRD_WORDS: seq<Word> :=
    [0x8786_8584_8382_8180, 0x8f8e_8d8c_8b8a_8988, 0x9796_9594_9392_9190, 0x9f9e_9d9c_9b9a_9998,
     0xa7a6_a5a4_a3a2_a1a0, 0xafae_adac_abaa_a9a8, 0xb7b6_b5b4_b3b2_b1b0, 0xbfbe_bdbc_bbba_b9b8]
  const LONG_STARTED := State(0x56e9_8678_be04_3273, 0xa3ec_04ab_4520_e777, 0xe4d9_fbcd_aae2_1374, Pair(0x4e4a_4642_3e3a_36f0, 0x4cdd_88d0_a245_4e5c), Pair(0x3cd3_9a91_b170_8cf0, 0xd614_d199_69dc_b07b))
  const LONG_ONCE := State(0x0dc9_4fc2_6c05_30ae, 0x7881_b486_9b14_ee20, 0xf6eb_67e7_a87b_5992, Pair(0x55ac_1e91_740d_5f84, 0x111e_e1a3_d991_eab2), Pair(0xb0a6_e61c_929a_95d9, 0x3256_ca9b_e4dd_2f4d))
  const LONG_TWICE := State(0x9d70_e625_a326_c0fd, 0x5106_102c_e6cd_e5a2, 0x9d7a_31b0_fe0f_f6fe, Pair(0xd8dc_4f89_5f51_e726, 0xf474_bb08_0868_3d9f), Pair(0x9d91_7683_45bd_a5fa, 0x3d20_da96_48a6_ad46))

  lemma Known192StartTurns()
    ensures Rotate(0x2a49_26fc_2c47_5f9b, 21) == 0x3afc_d952_4937_e162
    ensures Rotate(0xaeab_a8a5_a29f_9d58, 44) == 0x8a5a_29f9_d58a_eaba
    ensures Rotate(0x9913_ff8c_e9de_62bf, 21) == 0xf315_fcc8_9ffc_674e
    ensures Rotate(0x7d14_dcd4_f5b5_d338, 44) == 0xcd4f_5b5d_3387_d14d
  {
  }

  lemma Known192StartPairs()
    ensures WeakHash(0x8786_8584_8382_8180, 0x8f8e_8d8c_8b8a_8988, 0x9796_9594_9392_9190, 0x9f9e_9d9c_9b9a_9998, 0x0000_0000_0000_00c0, 0x0324_03db_0d2a_43c3) == Pair(0x4e4a_4642_3e3a_36f0, 0x4cdd_88d0_a245_4e5c)
    ensures WeakHash(0xa7a6_a5a4_a3a2_a1a0, 0xafae_adac_abaa_a9a8, 0xb7b6_b5b4_b3b2_b1b0, 0xbfbe_bdbc_bbba_b9b8, 0x6e08_d3ce_f2b5_d640, 0xc3a5_c85c_97cb_3127) == Pair(0x3cd3_9a91_b170_8cf0, 0xd614_d199_69dc_b07b)
  {
    hide Rotate;
    Known192StartTurns();
  }

  lemma Known192StartMore()
    ensures ShiftMix(0x4cdd_88d0_a245_4e5c) == 0x4cdd_88d0_a245_d7e7
    ensures Rotate(0xebe0_00d1_ade4_1474, 39) == 0xa35b_c828_e9d7_c001
    ensures Rotate(0x0324_03db_0d2a_43c3, 33) == 0x8695_21e1_8192_01ed
  {
  }

  lemma Known192Start()
    ensures StartWords(192, 0x0706_0504_0302_0100, THIRD_WORDS) == LONG_STARTED
  {
    hide WeakHash, Rotate, ShiftMix;
    Known192StartPairs();
    Known192StartMore();
  }

  lemma Known192FirstTurns()
    ensures Rotate(0x6035_e67a_5471_61ea, 37) == 0xd2a3_8b0f_5301_af33
    ensures Rotate(0x27ff_c2b0_1a98_6703, 42) == 0xac06_a619_c0c9_fff0
    ensures Rotate(0xd80a_615c_1b92_9f84, 33) == 0x0dc9_4fc2_6c05_30ae
    ensures Rotate(0x6346_feea_afdd_2bee, 21) == 0xe95f_731a_37f7_557e
    ensures Rotate(0x368e_0175_58f3_466c, 44) == 0x1755_8f34_66c3_68e0
    ensures Rotate(0xc2c4_3842_cf53_29a1, 21) == 0x994d_0e16_21c2_167a
    ensures Rotate(0x7168_a8e0_5760_5ca1, 44) == 0x8e05_7605_ca17_168a
  {
  }

  lemma Known192FirstPairs()
    ensures WeakHash(0x0706_0504_0302_0100, 0x0f0e_0d0c_0b0a_0908, 0x1716_1514_1312_1110, 0x1f1e_1d1c_1b1a_1918, 0x0963_da51_37d5_2b54, 0x33bf_0279_59eb_e682) == Pair(0x55ac_1e91_740d_5f84, 0x111e_e1a3_d991_eab2)
    ensures WeakHash(0x2726_2524_2322_2120, 0x2f2e_2d2c_2b2a_2928, 0x3736_3534_3332_3130, 0x3f3e_3d3c_3b3a_3938, 0xe3de_215b_d5e1_e129, 0x7881_b486_9b14_ee20) == Pair(0xb0a6_e61c_929a_95d9, 0x3256_ca9b_e4dd_2f4d)
  {
    hide Rotate;
    Known192FirstTurns();
  }

  lemma Known192First()
    ensures MixWords(LONG_STARTED, FIRST_WORDS) == LONG_ONCE
  {
    hide WeakHash, Rotate;
    Known192FirstTurns();
    Known192FirstPairs();
  }

  lemma Known192SecondTurns()
    ensures Rotate(0x334d_782e_ce79_cfa2, 37) == 0x7673_ce7d_119a_6bc1
    ensures Rotate(0x0117_0b9e_e819_4a42, 42) == 0xe7ba_0652_9080_45c2
    ensures Rotate(0x464d_81fb_3ae1_cc4b, 33) == 0x9d70_e625_a326_c0fd
    ensures Rotate(0x8058_c4b6_515f_d965, 21) == 0xfecb_2c02_c625_b28a
    ensures Rotate(0x797d_f22d_03f7_8dce, 44) == 0x22d0_3f78_dce7_97df
    ensures Rotate(0x07b2_a3cf_4dae_b0c4, 21) == 0x7586_203d_951e_7a6d
    ensures Rotate(0x1e12_f906_ca43_2c82, 44) == 0x906c_a432_c821_e12f
  {
  }

  lemma Known192SecondPairs()
    ensures WeakHash(0x4746_4544_4342_4140, 0x4f4e_4d4c_4b4a_4948, 0x5756_5554_5352_5150, 0x5f5e_5d5c_5b5a_5958, 0x8b93_0a48_2218_b1f6, 0x4e21_17cd_90aa_8cd7) == Pair(0xd8dc_4f89_5f51_e726, 0xf474_bb08_0868_3d9f)
    ensures WeakHash(0x6766_6564_6362_6160, 0x6f6e_6d6c_6b6a_6968, 0x7776_7574_7372_7170, 0x7f7e_7d7c_7b7a_7978, 0xcfc7_b0c1_8803_f04a, 0x5106_102c_e6cd_e5a2) == Pair(0x9d91_7683_45bd_a5fa, 0x3d20_da96_48a6_ad46)
  {
    hide Rotate;
    Known192SecondTurns();
  }

  lemma Known192Second()
    ensures MixWords(LONG_ONCE, SECOND_WORDS) == LONG_TWICE
  {
    hide WeakHash, Rotate;
    Known192SecondTurns();
    Known192SecondPairs();
  }

  lemma Known192FinishParts()
    ensures HashLen16(0xd8dc_4f89_5f51_e726, 0x9d91_7683_45bd_a5fa) == 0x0348_9fe0_1b32_166d
    ensures HashLen16(0xf474_bb08_0868_3d9f, 0x3d20_da96_48a6_ad46) == 0x35d5_c206_18c3_cbc0
    ensures HashLen16(0xecef_b572_888b_bc95, 0xd346_a82b_bbea_8cbd) == 0x72fb_f518_6249_7cb8
    ensures ShiftMix(0x5106_102c_e6cd_e5a2) == 0x5106_102c_e6cd_47ae
  {
  }

  lemma Known192Finish()
    ensures Finish(LONG_TWICE) == 0x72fb_f518_6249_7cb8
  {
    hide HashLen16, ShiftMix;
    Known192FinishParts();
  }

  // ---------------------------------------------------------------- known answers, on buffers

  lemma KnownEmpty()
    ensures HashLen0to16([]) == 0x9ae1_6a3b_2f90_404f
  {
  }

  lemma KnownUpTo3(s: seq<bv8>)
    requires s == [0, 1, 2]
    ensures HashLen0to16(s) == 0x34e8_03dc_175e_241f
  {
    hide MixBytes;
    Known3();
  }

  lemma KnownUpTo8(s: seq<bv8>)
    requires |s| == 5 && Load32(s, 0) == 0x0000_0000_0302_0100 && Load32(s, 1) == 0x0000_0000_0403_0201
    ensures HashLen0to16(s) == 0xb85d_8257_a350_641c
  {
    hide MixHalves, Load32;
    Known5();
  }

  lemma KnownUpTo16(s: seq<bv8>)
    requires |s| == 12 && Load64(s, 0) == 0x0706_0504_0302_0100 && Load64(s, 4) == 0x0b0a_0908_0706_0504
    ensures HashLen0to16(s) == 0x00d7_2829_e9ea_87e8
  {
    hide MixEnds, Load64;
    Known12();
  }

  lemma KnownUpTo32(s: seq<bv8>)
    requires |s| == 20
    requires Load64(s, 0) == 0x0706_0504_0302_0100 && Load64(s, 8) == 0x0f0e_0d0c_0b0a_0908
    requires Load64(s, 4) == 0x0b0a_0908_0706_0504 && Load64(s, 12) == 0x1312_1110_0f0e_0d0c
    ensures HashLen17to32(s) == 0x813f_fac3_6b97_bd63
  {
    hide MixFour, Load64;
    Known20();
  }

  lemma KnownUpTo64(s: seq<bv8>)
    requires |s| == 40
    requires Load64(s, 0) == 0x0706_0504_0302_0100 && Load64(s, 8) == 0x0f0e_0d0c_0b0a_0908
    requires Load64(s, 16) == 0x1716_1514_1312_1110 && Load64(s, 24) == 0x1f1e_1d1c_1b1a_1918
    requires Load64(s, 32) == 0x2726_2524_2322_2120
    ensures HashLen33to64(s) == 0x68af_4f0d_a1e7_c590
  {
    hide FirstSum, SecondSum, MixHalf, MixBoth, Load64;
    Known40Sums();
    Known40Halves();
    Known40();
  }

  /** The words of a block are its loads in order. */
  lemma WordsInOrder(s: seq<bv8>, at: nat, k: nat)
    requires at + 64 <= |s| && k < 8
    ensures Words(s, at)[k] == Load64(s, at + 8 * k)
  {
    hide Load64;
  }

  /** Two whole blocks, of which only the first is mixed in */
  lemma KnownLong(s: seq<bv8>)
    requires |s| == 128 && Words(s, 0) == FIRST_WORDS && Words(s, 64) == SECOND_WORDS
    ensures LongHash(s) == 0x4fe2_34a5_4241_a89f
  {
    hide StartWords, MixWords, Finish, Load64, Words;
    assert Load64(s, 0) == FIRST_WORDS[0] by { WordsInOrder(s, 0, 0); }
    Known128Start();
    Known128Mix();
    Known128Finish();
    assert Blocks(STARTED, s, 1) == Mix(Blocks(STARTED, s, 0), s, 0);
  }

  /** Three whole blocks, of which the first two are mixed in, in order */
  lemma KnownLonger(s: seq<bv8>)
    requires |s| == 192 && Words(s, 0) == FIRST_WORDS && Words(s, 64) == SECOND_WORDS && Words(s, 128) == THIRD_WORDS
    ensures LongHash(s) == 0x72fb_f518_6249_7cb8
  {
    hide StartWords, MixWords, Finish, Load64, Words;
    assert Load64(s, 0) == FIRST_WORDS[0] by { WordsInOrder(s, 0, 0); }
    Known192Start();
    Known192First();
    Known192Second();
    Known192Finish();
    assert Blocks(LONG_STARTED, s, 1) == Mix(Blocks(LONG_STARTED, s, 0), s, 0);
    assert Blocks(LONG_STARTED, s, 2) == Mix(Blocks(LONG_STARTED, s, 1), s, 64);
  }
}
