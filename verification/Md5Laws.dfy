/** What the functions of section 3.4 of RFC 1321 compute, bit by bit, and the first test vector
    of its appendix A.5. */
module Md5Laws {
  import opened Bytes
  import opened Md5Spec

  // ---------------------------------------------------------------------------------------
  // Bits

  predicate Bit(w: UINT4, k: bv6)
    requires k < 32
  {
    (w.v >> k) & 1 == 1
  }

  /** F chooses by x: y's bit where x's is set, else z's. */
  lemma BitsOfF(x: UINT4, y: UINT4, z: UINT4, k: bv6)
    requires k < 32
    ensures Bit(F(x, y, z), k) == if Bit(x, k) then Bit(y, k) else Bit(z, k)
  {
  }

  /** G chooses by z: x's bit where z's is set, else y's. */
  lemma BitsOfG(x: UINT4, y: UINT4, z: UINT4, k: bv6)
    requires k < 32
    ensures Bit(G(x, y, z), k) == if Bit(z, k) then Bit(x, k) else Bit(y, k)
  {
  }

  /** H is the parity. */
  lemma BitsOfH(x: UINT4, y: UINT4, z: UINT4, k: bv6)
    requires k < 32
    ensures Bit(H(x, y, z), k) == ((Bit(x, k) != Bit(y, k)) != Bit(z, k))
  {
    hide Bit, H, Xor;
    XorTwice(x, y, z);
    XorBit(x, y, k);
    XorBit(Xor(x, y), z, k);
  }

  function Xor(x: UINT4, y: UINT4): UINT4 {
    W(x.v ^ y.v)
  }

  lemma XorTwice(x: UINT4, y: UINT4, z: UINT4)
    ensures H(x, y, z) == Xor(Xor(x, y), z)
  {
  }

  lemma XorBit(x: UINT4, y: UINT4, k: bv6)
    requires k < 32
    ensures Bit(Xor(x, y), k) == (Bit(x, k) != Bit(y, k))
  {
  }

  /** I is y xor (x or not z). */
  lemma BitsOfI(x: UINT4, y: UINT4, z: UINT4, k: bv6)
    requires k < 32
    ensures Bit(I(x, y, z), k) == (Bit(y, k) != (Bit(x, k) || !Bit(z, k)))
  {
  }

  /** Rotating by n moves bit k to (k + n) modulo 32. */
  lemma RotateBits(x: UINT4, n: bv6, k: bv6)
    requires n < 32 && k < 32
    ensures Bit(RotateLeft(x, n), (k + n) & 31) == Bit(x, k)
  {
  }

  lemma RotateBack(x: UINT4, n: bv6)
    requires n < 32
    ensures RotateLeft(RotateLeft(x, n), 32 - n) == x
  {
  }

  predicate OctetBit(b: Octet, j: bv6)
    requires j < 8
  {
    (b >> j) & 1 == 1
  }

  /** Byte i of an encoded word holds its bits 8 * i to 8 * i + 7. */
  lemma EncodeBits(w: UINT4, j: bv6)
    requires j < 8
    ensures var e := Encode(w);
            && OctetBit(e[0], j) == Bit(w, j)
            && OctetBit(e[1], j) == Bit(w, j + 8)
            && OctetBit(e[2], j) == Bit(w, j + 16)
            && OctetBit(e[3], j) == Bit(w, j + 24)
  {
  }

  // ---------------------------------------------------------------------------------------
  // MD5 of the empty message

  /** The words of the only block of the padded empty message. */
  predicate EmptyBlock(x: seq<UINT4>) {
    |x| == 16 && x[0] == W(0x80) && forall i :: 1 <= i < 16 ==> x[i] == W(0)
  }

  /** The registers after n operations on that block. */
  ghost predicate At(x: seq<UINT4>, n: nat, r: Words) {
    EmptyBlock(x) && n <= 64 && Operations(n, INITIAL, x) == r
  }

  /** One more operation, which computes b. */
  lemma Go(x: seq<UINT4>, n: nat, r: Words, b: UINT4)
    requires At(x, n, r) && n < 64 && |x| == 16
    requires b == Mix(r.a, r.b, Auxiliary(n, r.b, r.c, r.d), x[Word(n)], Shift(n), Sine(n))
    ensures At(x, n + 1, Words(r.d, b, r.b, r.c))
  {
    hide Mix, Auxiliary;
  }

  lemma Empty1(x: seq<UINT4>)
    requires EmptyBlock(x)
    requires At(x, 0, Words(W(0x6745_2301), W(0xefcd_ab89), W(0x98ba_dcfe), W(0x1032_5476)))
    ensures At(x, 4, Words(W(0xa520_2774), W(0x1b16_3203), W(0xe7f0_6b23), W(0xf595_92dd)))
  {
    hide At;
    Go(x, 0, Words(W(0x6745_2301), W(0xefcd_ab89), W(0x98ba_dcfe), W(0x1032_5476)), W(0xa520_2774));
    Go(x, 1, Words(W(0x1032_5476), W(0xa520_2774), W(0xefcd_ab89), W(0x98ba_dcfe)), W(0xf595_92dd));
    Go(x, 2, Words(W(0x98ba_dcfe), W(0xf595_92dd), W(0xa520_2774), W(0xefcd_ab89)), W(0xe7f0_6b23));
    Go(x, 3, Words(W(0xefcd_ab89), W(0xe7f0_6b23), W(0xf595_92dd), W(0xa520_2774)), W(0x1b16_3203));
  }

  lemma Empty5(x: seq<UINT4>)
    requires EmptyBlock(x)
    requires At(x, 4, Words(W(0xa520_2774), W(0x1b16_3203), W(0xe7f0_6b23), W(0xf595_92dd)))
    ensures At(x, 8, Words(W(0x3203_3344), W(0x9bc1_3ce9), W(0xf5b1_58db), W(0x2f35_d494)))
  {
    hide At;
    Go(x, 4, Words(W(0xa520_2774), W(0x1b16_3203), W(0xe7f0_6b23), W(0xf595_92dd)), W(0x3203_3344));
    Go(x, 5, Words(W(0xf595_92dd), W(0x3203_3344), W(0x1b16_3203), W(0xe7f0_6b23)), W(0x2f35_d494));
    Go(x, 6, Words(W(0xe7f0_6b23), W(0x2f35_d494), W(0x3203_3344), W(0x1b16_3203)), W(0xf5b1_58db));
    Go(x, 7, Words(W(0x1b16_3203), W(0xf5b1_58db), W(0x2f35_d494), W(0x3203_3344)), W(0x9bc1_3ce9));
  }

  lemma Empty9(x: seq<UINT4>)
    requires EmptyBlock(x)
    requires At(x, 8, Words(W(0x3203_3344), W(0x9bc1_3ce9), W(0xf5b1_58db), W(0x2f35_d494)))
    ensures At(x, 12, Words(W(0x3893_b991), W(0x7076_8a29), W(0xe1ef_0576), W(0xfce4_a312)))
  {
    hide At;
    Go(x, 8, Words(W(0x3203_3344), W(0x9bc1_3ce9), W(0xf5b1_58db), W(0x2f35_d494)), W(0x3893_b991));
    Go(x, 9, Words(W(0x2f35_d494), W(0x3893_b991), W(0x9bc1_3ce9), W(0xf5b1_58db)), W(0xfce4_a312));
    Go(x, 10, Words(W(0xf5b1_58db), W(0xfce4_a312), W(0x3893_b991), W(0x9bc1_3ce9)), W(0xe1ef_0576));
    Go(x, 11, Words(W(0x9bc1_3ce9), W(0xe1ef_0576), W(0xfce4_a312), W(0x3893_b991)), W(0x7076_8a29));
  }

  lemma Empty13(x: seq<UINT4>)
    requires EmptyBlock(x)
    requires At(x, 12, Words(W(0x3893_b991), W(0x7076_8a29), W(0xe1ef_0576), W(0xfce4_a312)))
    ensures At(x, 16, Words(W(0xf56c_7cf1), W(0xd681_9c6a), W(0x5aa5_3f75), W(0x3749_43a7)))
  {
    hide At;
    Go(x, 12, Words(W(0x3893_b991), W(0x7076_8a29), W(0xe1ef_0576), W(0xfce4_a312)), W(0xf56c_7cf1));
    Go(x, 13, Words(W(0xfce4_a312), W(0xf56c_7cf1), W(0x7076_8a29), W(0xe1ef_0576)), W(0x3749_43a7));
    Go(x, 14, Words(W(0xe1ef_0576), W(0x3749_43a7), W(0xf56c_7cf1), W(0x7076_8a29)), W(0x5aa5_3f75));
    Go(x, 15, Words(W(0x7076_8a29), W(0x5aa5_3f75), W(0x3749_43a7), W(0xf56c_7cf1)), W(0xd681_9c6a));
  }

  lemma Empty17(x: seq<UINT4>)
    requires EmptyBlock(x)
    requires At(x, 16, Words(W(0xf56c_7cf1), W(0xd681_9c6a), W(0x5aa5_3f75), W(0x3749_43a7)))
    ensures At(x, 20, Words(W(0x1c7d_7513), W(0xbd78_2e17), W(0xc095_f13a), W(0x7bd5_7a3a)))
  {
    hide At;
    Go(x, 16, Words(W(0xf56c_7cf1), W(0xd681_9c6a), W(0x5aa5_3f75), W(0x3749_43a7)), W(0x1c7d_7513));
    Go(x, 17, Words(W(0x3749_43a7), W(0x1c7d_7513), W(0xd681_9c6a), W(0x5aa5_3f75)), W(0x7bd5_7a3a));
    Go(x, 18, Words(W(0x5aa5_3f75), W(0x7bd5_7a3a), W(0x1c7d_7513), W(0xd681_9c6a)), W(0xc095_f13a));
    Go(x, 19, Words(W(0xd681_9c6a), W(0xc095_f13a), W(0x7bd5_7a3a), W(0x1c7d_7513)), W(0xbd78_2e17));
  }

  lemma Empty21(x: seq<UINT4>)
    requires EmptyBlock(x)
    requires At(x, 20, Words(W(0x1c7d_7513), W(0xbd78_2e17), W(0xc095_f13a), W(0x7bd5_7a3a)))
    ensures At(x, 24, Words(W(0x3d1e_3e6c), W(0xe422_531a), W(0xeb41_643e), W(0x68b7_b3e3)))
  {
    hide At;
    Go(x, 20, Words(W(0x1c7d_7513), W(0xbd78_2e17), W(0xc095_f13a), W(0x7bd5_7a3a)), W(0x3d1e_3e6c));
    Go(x, 21, Words(W(0x7bd5_7a3a), W(0x3d1e_3e6c), W(0xbd78_2e17), W(0xc095_f13a)), W(0x68b7_b3e3));
    Go(x, 22, Words(W(0xc095_f13a), W(0x68b7_b3e3), W(0x3d1e_3e6c), W(0xbd78_2e17)), W(0xeb41_643e));
    Go(x, 23, Words(W(0xbd78_2e17), W(0xeb41_643e), W(0x68b7_b3e3), W(0x3d1e_3e6c)), W(0xe422_531a));
  }

  lemma Empty25(x: seq<UINT4>)
    requires EmptyBlock(x)
    requires At(x, 24, Words(W(0x3d1e_3e6c), W(0xe422_531a), W(0xeb41_643e), W(0x68b7_b3e3)))
    ensures At(x, 28, Words(W(0x306e_c122), W(0xa057_2807), W(0xa3c6_63da), W(0xd28c_77c2)))
  {
    hide At;
    Go(x, 24, Words(W(0x3d1e_3e6c), W(0xe422_531a), W(0xeb41_643e), W(0x68b7_b3e3)), W(0x306e_c122));
    Go(x, 25, Words(W(0x68b7_b3e3), W(0x306e_c122), W(0xe422_531a), W(0xeb41_643e)), W(0xd28c_77c2));
    Go(x, 26, Words(W(0xeb41_643e), W(0xd28c_77c2), W(0x306e_c122), W(0xe422_531a)), W(0xa3c6_63da));
    Go(x, 27, Words(W(0xe422_531a), W(0xa3c6_63da), W(0xd28c_77c2), W(0x306e_c122)), W(0xa057_2807));
  }

  lemma Empty29(x: seq<UINT4>)
    requires EmptyBlock(x)
    requires At(x, 28, Words(W(0x306e_c122), W(0xa057_2807), W(0xa3c6_63da), W(0xd28c_77c2)))
    ensures At(x, 32, Words(W(0x1370_7036), W(0xa220_5f1f), W(0x1c31_c384), W(0xae78_13db)))
  {
    hide At;
    Go(x, 28, Words(W(0x306e_c122), W(0xa057_2807), W(0xa3c6_63da), W(0xd28c_77c2)), W(0x1370_7036));
    Go(x, 29, Words(W(0xd28c_77c2), W(0x1370_7036), W(0xa057_2807), W(0xa3c6_63da)), W(0xae78_13db));
    Go(x, 30, Words(W(0xa3c6_63da), W(0xae78_13db), W(0x1370_7036), W(0xa057_2807)), W(0x1c31_c384));
    Go(x, 31, Words(W(0xa057_2807), W(0x1c31_c384), W(0xae78_13db), W(0x1370_7036)), W(0xa220_5f1f));
  }

  lemma Empty33(x: seq<UINT4>)
    requires EmptyBlock(x)
    requires At(x, 32, Words(W(0x1370_7036), W(0xa220_5f1f), W(0x1c31_c384), W(0xae78_13db)))
    ensures At(x, 36, Words(W(0xdf63_eaa1), W(0x004b_6669), W(0x12f3_e755), W(0xc368_9f5b)))
  {
    hide At;
    Go(x, 32, Words(W(0x1370_7036), W(0xa220_5f1f), W(0x1c31_c384), W(0xae78_13db)), W(0xdf63_eaa1));
    Go(x, 33, Words(W(0xae78_13db), W(0xdf63_eaa1), W(0xa220_5f1f), W(0x1c31_c384)), W(0xc368_9f5b));
    Go(x, 34, Words(W(0x1c31_c384), W(0xc368_9f5b), W(0xdf63_eaa1), W(0xa220_5f1f)), W(0x12f3_e755));
    Go(x, 35, Words(W(0xa220_5f1f), W(0x12f3_e755), W(0xc368_9f5b), W(0xdf63_eaa1)), W(0x004b_6669));
  }

  lemma Empty37(x: seq<UINT4>)
    requires EmptyBlock(x)
    requires At(x, 36, Words(W(0xdf63_eaa1), W(0x004b_6669), W(0x12f3_e755), W(0xc368_9f5b)))
    ensures At(x, 40, Words(W(0x5f7a_9b2e), W(0xc5dc_8c15), W(0x91ca_4cb7), W(0xabc3_4e16)))
  {
    hide At;
    Go(x, 36, Words(W(0xdf63_eaa1), W(0x004b_6669), W(0x12f3_e755), W(0xc368_9f5b)), W(0x5f7a_9b2e));
    Go(x, 37, Words(W(0xc368_9f5b), W(0x5f7a_9b2e), W(0x004b_6669), W(0x12f3_e755)), W(0xabc3_4e16));
    Go(x, 38, Words(W(0x12f3_e755), W(0xabc3_4e16), W(0x5f7a_9b2e), W(0x004b_6669)), W(0x91ca_4cb7));
    Go(x, 39, Words(W(0x004b_6669), W(0x91ca_4cb7), W(0xabc3_4e16), W(0x5f7a_9b2e)), W(0xc5dc_8c15));
  }

  lemma Empty41(x: seq<UINT4>)
    requires EmptyBlock(x)
    requires At(x, 40, Words(W(0x5f7a_9b2e), W(0xc5dc_8c15), W(0x91ca_4cb7), W(0xabc3_4e16)))
    ensures At(x, 44, Words(W(0x4497_169d), W(0x0fe3_2453), W(0xfd95_f243), W(0x76fd_93d4)))
  {
    hide At;
    Go(x, 40, Words(W(0x5f7a_9b2e), W(0xc5dc_8c15), W(0x91ca_4cb7), W(0xabc3_4e16)), W(0x4497_169d));
    Go(x, 41, Words(W(0xabc3_4e16), W(0x4497_169d), W(0xc5dc_8c15), W(0x91ca_4cb7)), W(0x76fd_93d4));
    Go(x, 42, Words(W(0x91ca_4cb7), W(0x76fd_93d4), W(0x4497_169d), W(0xc5dc_8c15)), W(0xfd95_f243));
    Go(x, 43, Words(W(0xc5dc_8c15), W(0xfd95_f243), W(0x76fd_93d4), W(0x4497_169d)), W(0x0fe3_2453));
  }

  lemma Empty45(x: seq<UINT4>)
    requires EmptyBlock(x)
    requires At(x, 44, Words(W(0x4497_169d), W(0x0fe3_2453), W(0xfd95_f243), W(0x76fd_93d4)))
    ensures At(x, 48, Words(W(0x3f55_edfd), W(0xca7d_2dbd), W(0x68d8_4ea2), W(0x22a3_1f54)))
  {
    hide At;
    Go(x, 44, Words(W(0x4497_169d), W(0x0fe3_2453), W(0xfd95_f243), W(0x76fd_93d4)), W(0x3f55_edfd));
    Go(x, 45, Words(W(0x76fd_93d4), W(0x3f55_edfd), W(0x0fe3_2453), W(0xfd95_f243)), W(0x22a3_1f54));
    Go(x, 46, Words(W(0xfd95_f243), W(0x22a3_1f54), W(0x3f55_edfd), W(0x0fe3_2453)), W(0x68d8_4ea2));
    Go(x, 47, Words(W(0x0fe3_2453), W(0x68d8_4ea2), W(0x22a3_1f54), W(0x3f55_edfd)), W(0xca7d_2dbd));
  }

  lemma Empty49(x: seq<UINT4>)
    requires EmptyBlock(x)
    requires At(x, 48, Words(W(0x3f55_edfd), W(0xca7d_2dbd), W(0x68d8_4ea2), W(0x22a3_1f54)))
    ensures At(x, 52, Words(W(0x93aa_2577), W(0x561e_0689), W(0xcd85_b8cb), W(0x1688_dc85)))
  {
    hide At;
    Go(x, 48, Words(W(0x3f55_edfd), W(0xca7d_2dbd), W(0x68d8_4ea2), W(0x22a3_1f54)), W(0x93aa_2577));
    Go(x, 49, Words(W(0x22a3_1f54), W(0x93aa_2577), W(0xca7d_2dbd), W(0x68d8_4ea2)), W(0x1688_dc85));
    Go(x, 50, Words(W(0x68d8_4ea2), W(0x1688_dc85), W(0x93aa_2577), W(0xca7d_2dbd)), W(0xcd85_b8cb));
    Go(x, 51, Words(W(0xca7d_2dbd), W(0xcd85_b8cb), W(0x1688_dc85), W(0x93aa_2577)), W(0x561e_0689));
  }

  lemma Empty53(x: seq<UINT4>)
    requires EmptyBlock(x)
    requires At(x, 52, Words(W(0x93aa_2577), W(0x561e_0689), W(0xcd85_b8cb), W(0x1688_dc85)))
    ensures At(x, 56, Words(W(0x5625_a114), W(0x1e77_fa61), W(0x392a_d0d0), W(0x3450_f42b)))
  {
    hide At;
    Go(x, 52, Words(W(0x93aa_2577), W(0x561e_0689), W(0xcd85_b8cb), W(0x1688_dc85)), W(0x5625_a114));
    Go(x, 53, Words(W(0x1688_dc85), W(0x5625_a114), W(0x561e_0689), W(0xcd85_b8cb)), W(0x3450_f42b));
    Go(x, 54, Words(W(0xcd85_b8cb), W(0x3450_f42b), W(0x5625_a114), W(0x561e_0689)), W(0x392a_d0d0));
    Go(x, 55, Words(W(0x561e_0689), W(0x392a_d0d0), W(0x3450_f42b), W(0x5625_a114)), W(0x1e77_fa61));
  }

  lemma Empty57(x: seq<UINT4>)
    requires EmptyBlock(x)
    requires At(x, 56, Words(W(0x5625_a114), W(0x1e77_fa61), W(0x392a_d0d0), W(0x3450_f42b)))
    ensures At(x, 60, Words(W(0x474a_9c8c), W(0x3013_0182), W(0x3659_4b14), W(0xdfce_00bc)))
  {
    hide At;
    Go(x, 56, Words(W(0x5625_a114), W(0x1e77_fa61), W(0x392a_d0d0), W(0x3450_f42b)), W(0x474a_9c8c));
    Go(x, 57, Words(W(0x3450_f42b), W(0x474a_9c8c), W(0x1e77_fa61), W(0x392a_d0d0)), W(0xdfce_00bc));
    Go(x, 58, Words(W(0x392a_d0d0), W(0xdfce_00bc), W(0x474a_9c8c), W(0x1e77_fa61)), W(0x3659_4b14));
    Go(x, 59, Words(W(0x1e77_fa61), W(0x3659_4b14), W(0xdfce_00bc), W(0x474a_9c8c)), W(0x3013_0182));
  }

  lemma Empty61(x: seq<UINT4>)
    requires EmptyBlock(x)
    requires At(x, 60, Words(W(0x474a_9c8c), W(0x3013_0182), W(0x3659_4b14), W(0xdfce_00bc)))
    ensures At(x, 64, Words(W(0x7246_fad3), W(0x14e4_5506), W(0xff4e_a3eb), W(0x6e10_a476)))
  {
    hide At;
    Go(x, 60, Words(W(0x474a_9c8c), W(0x3013_0182), W(0x3659_4b14), W(0xdfce_00bc)), W(0x7246_fad3));
    Go(x, 61, Words(W(0xdfce_00bc), W(0x7246_fad3), W(0x3013_0182), W(0x3659_4b14)), W(0x6e10_a476));
    Go(x, 62, Words(W(0x3659_4b14), W(0x6e10_a476), W(0x7246_fad3), W(0x3013_0182)), W(0xff4e_a3eb));
    Go(x, 63, Words(W(0x3013_0182), W(0xff4e_a3eb), W(0x6e10_a476), W(0x7246_fad3)), W(0x14e4_5506));
  }

  lemma {:induction false} LittleEndianZero(w: nat)
    ensures forall i :: 0 <= i < w ==> LittleEndian(0, w)[i] == 0
  {
    if w > 0 {
      LittleEndianZero(w - 1);
      assert LittleEndian(0, w) == [0] + LittleEndian(0, w - 1);
    }
  }

  /** The padded empty message: one byte 0x80 and 63 bytes 0. */
  lemma EmptyPadded(m: seq<Octet>)
    requires m == []
    ensures |Padded(m)| == 64 && Padded(m)[0] == 0x80 && forall i :: 1 <= i < 64 ==> Padded(m)[i] == 0
  {
    hide LittleEndian;
    LittleEndianZero(8);
    assert 0 as bv8 == 0;
    assert PadZeros(|m|) == 55;
  }

  lemma EmptyWords(p: seq<Octet>)
    requires |p| == 64 && p[0] == 0x80 && forall i :: 1 <= i < 64 ==> p[i] == 0
    ensures EmptyBlock(WordsOf(p))
  {
    var x := WordsOf(p);
    assert x[0] == WordAt(p[0..4]);
    forall i | 1 <= i < 16 ensures x[i] == W(0) {
      assert x[i] == WordAt(p[4 * i..4 * i + 4]);
    }
  }

  lemma EmptyOperations(x: seq<UINT4>, n: nat)
    requires EmptyBlock(x) && |x| == 16 && n == 64
    ensures Operations(n, INITIAL, x) ==
            Words(W(0x7246_fad3), W(0x14e4_5506), W(0xff4e_a3eb), W(0x6e10_a476))
  {
    hide EmptyBlock, Operations;
    NoOperationYet(x);
    Empty1(x);
    Empty5(x);
    Empty9(x);
    Empty13(x);
    Empty17(x);
    Empty21(x);
    Empty25(x);
    Empty29(x);
    Empty33(x);
    Empty37(x);
    Empty41(x);
    Empty45(x);
    Empty49(x);
    Empty53(x);
    Empty57(x);
    Empty61(x);
    Reached(x, n, Words(W(0x7246_fad3), W(0x14e4_5506), W(0xff4e_a3eb), W(0x6e10_a476)));
  }

  lemma NoOperationYet(x: seq<UINT4>)
    requires EmptyBlock(x)
    ensures At(x, 0, Words(W(0x6745_2301), W(0xefcd_ab89), W(0x98ba_dcfe), W(0x1032_5476)))
  {
  }

  lemma Reached(x: seq<UINT4>, n: nat, r: Words)
    requires At(x, n, r) && |x| == 16
    ensures n <= 64 && Operations(n, INITIAL, x) == r
  {
  }

  /** The first test vector of appendix A.5: the empty message has the digest
      d41d8cd98f00b204e9800998ecf8427e. */
  lemma EmptyDigest(m: seq<Octet>)
    requires m == []
    ensures Md5(m) == [0xd4, 0x1d, 0x8c, 0xd9, 0x8f, 0x00, 0xb2, 0x04, 0xe9, 0x80, 0x09, 0x98, 0xec, 0xf8, 0x42, 0x7e]
  {
    hide Padded, Operations, WordsOf, Absorb;
    var p := Padded(m);
    EmptyPadded(m);
    EmptyWords(p);
    EmptyOperations(WordsOf(p), 64);
    OneBlock(p, 1);
    assert Compress(INITIAL, p) == Words(W(0xd98c_1dd4), W(0x04b2_008f), W(0x9809_80e9), W(0x7e42_f8ec));
    EncodeEmpty();
  }

  lemma OneBlock(p: seq<Octet>, k: nat)
    requires |p| == 64 && k == 1
    ensures |p| / 64 == k && Absorb(p, k) == Compress(INITIAL, p)
  {
    hide Compress;
    assert Absorb(p, 0) == INITIAL;
    assert p[0..64] == p;
  }

  lemma EncodeEmpty()
    ensures Digest(Words(W(0xd98c_1dd4), W(0x04b2_008f), W(0x9809_80e9), W(0x7e42_f8ec)))
         == [0xd4, 0x1d, 0x8c, 0xd9, 0x8f, 0x00, 0xb2, 0x04, 0xe9, 0x80, 0x09, 0x98, 0xec, 0xf8, 0x42, 0x7e]
  {
  }
}
