/** MD5Transform, Encode and Decode of source/applications/shelltools/md5sum/md5.c: the 64
    operations written out one by one, on registers that change their roles. */
module Md5Transform {
  import opened Bytes
  import opened Md5Spec

  // The macros of the four rounds.
  function FF(a: UINT4, b: UINT4, c: UINT4, d: UINT4, x: UINT4, s: bv6, ac: UINT4): UINT4
    requires s <= 32
  {
    Mix(a, b, F(b, c, d), x, s, ac)
  }

  function GG(a: UINT4, b: UINT4, c: UINT4, d: UINT4, x: UINT4, s: bv6, ac: UINT4): UINT4
    requires s <= 32
  {
    Mix(a, b, G(b, c, d), x, s, ac)
  }

  function HH(a: UINT4, b: UINT4, c: UINT4, d: UINT4, x: UINT4, s: bv6, ac: UINT4): UINT4
    requires s <= 32
  {
    Mix(a, b, H(b, c, d), x, s, ac)
  }

  function II(a: UINT4, b: UINT4, c: UINT4, d: UINT4, x: UINT4, s: bv6, ac: UINT4): UINT4
    requires s <= 32
  {
    Mix(a, b, I(b, c, d), x, s, ac)
  }

  method Round1Start(ghost start: Words, r: Words, x: seq<UINT4>) returns (r': Words)
    requires |x| == 16 && r == Operations(0, start, x)
    ensures r' == Operations(8, start, x)
  {
    hide Mix, F, G, H, I;
    var a, b, c, d := r.a, r.b, r.c, r.d;
    a := FF(a, b, c, d, x[0], 7, W(0xd76a_a478));
    assert Words(d, a, b, c) == Operations(1, start, x);
    d := FF(d, a, b, c, x[1], 12, W(0xe8c7_b756));
    assert Words(c, d, a, b) == Operations(2, start, x);
    c := FF(c, d, a, b, x[2], 17, W(0x2420_70db));
    assert Words(b, c, d, a) == Operations(3, start, x);
    b := FF(b, c, d, a, x[3], 22, W(0xc1bd_ceee));
    assert Words(a, b, c, d) == Operations(4, start, x);
    a := FF(a, b, c, d, x[4], 7, W(0xf57c_0faf));
    assert Words(d, a, b, c) == Operations(5, start, x);
    d := FF(d, a, b, c, x[5], 12, W(0x4787_c62a));
    assert Words(c, d, a, b) == Operations(6, start, x);
    c := FF(c, d, a, b, x[6], 17, W(0xa830_4613));
    assert Words(b, c, d, a) == Operations(7, start, x);
    b := FF(b, c, d, a, x[7], 22, W(0xfd46_9501));
    assert Words(a, b, c, d) == Operations(8, start, x);
    r' := Words(a, b, c, d);
  }

  method Round1Rest(ghost start: Words, r: Words, x: seq<UINT4>) returns (r': Words)
    requires |x| == 16 && r == Operations(8, start, x)
    ensures r' == Operations(16, start, x)
  {
    hide Mix, F, G, H, I;
    var a, b, c, d := r.a, r.b, r.c, r.d;
    a := FF(a, b, c, d, x[8], 7, W(0x6980_98d8));
    assert Words(d, a, b, c) == Operations(9, start, x);
    d := FF(d, a, b, c, x[9], 12, W(0x8b44_f7af));
    assert Words(c, d, a, b) == Operations(10, start, x);
    c := FF(c, d, a, b, x[10], 17, W(0xffff_5bb1));
    assert Words(b, c, d, a) == Operations(11, start, x);
    b := FF(b, c, d, a, x[11], 22, W(0x895c_d7be));
    assert Words(a, b, c, d) == Operations(12, start, x);
    a := FF(a, b, c, d, x[12], 7, W(0x6b90_1122));
    assert Words(d, a, b, c) == Operations(13, start, x);
    d := FF(d, a, b, c, x[13], 12, W(0xfd98_7193));
    assert Words(c, d, a, b) == Operations(14, start, x);
    c := FF(c, d, a, b, x[14], 17, W(0xa679_438e));
    assert Words(b, c, d, a) == Operations(15, start, x);
    b := FF(b, c, d, a, x[15], 22, W(0x49b4_0821));
    assert Words(a, b, c, d) == Operations(16, start, x);
    r' := Words(a, b, c, d);
  }

  method Round2Start(ghost start: Words, r: Words, x: seq<UINT4>) returns (r': Words)
    requires |x| == 16 && r == Operations(16, start, x)
    ensures r' == Operations(20, start, x)
  {
    hide Mix, F, G, H, I;
    var a, b, c, d := r.a, r.b, r.c, r.d;
    a := GG(a, b, c, d, x[1], 5, W(0xf61e_2562));
    assert Words(d, a, b, c) == Operations(17, start, x);
    d := GG(d, a, b, c, x[6], 9, W(0xc040_b340));
    assert Words(c, d, a, b) == Operations(18, start, x);
    c := GG(c, d, a, b, x[11], 14, W(0x265e_5a51));
    assert Words(b, c, d, a) == Operations(19, start, x);
    b := GG(b, c, d, a, x[0], 20, W(0xe9b6_c7aa));
    assert Words(a, b, c, d) == Operations(20, start, x);
    r' := Words(a, b, c, d);
  }

  method Round2Rest(ghost start: Words, r: Words, x: seq<UINT4>) returns (r': Words)
    requires |x| == 16 && r == Operations(20, start, x)
    ensures r' == Operations(32, start, x)
  {
    hide Mix, F, G, H, I;
    var a, b, c, d := r.a, r.b, r.c, r.d;
    a := GG(a, b, c, d, x[5], 5, W(0xd62f_105d));
    assert Words(d, a, b, c) == Operations(21, start, x);
    d := GG(d, a, b, c, x[10], 9, W(0x0244_1453));
    assert Words(c, d, a, b) == Operations(22, start, x);
    c := GG(c, d, a, b, x[15], 14, W(0xd8a1_e681));
    assert Words(b, c, d, a) == Operations(23, start, x);
    b := GG(b, c, d, a, x[4], 20, W(0xe7d3_fbc8));
    assert Words(a, b, c, d) == Operations(24, start, x);
    a := GG(a, b, c, d, x[9], 5, W(0x21e1_cde6));
    assert Words(d, a, b, c) == Operations(25, start, x);
    d := GG(d, a, b, c, x[14], 9, W(0xc337_07d6));
    assert Words(c, d, a, b) == Operations(26, start, x);
    c := GG(c, d, a, b, x[3], 14, W(0xf4d5_0d87));
    assert Words(b, c, d, a) == Operations(27, start, x);
    b := GG(b, c, d, a, x[8], 20, W(0x455a_14ed));
    assert Words(a, b, c, d) == Operations(28, start, x);
    a := GG(a, b, c, d, x[13], 5, W(0xa9e3_e905));
    assert Words(d, a, b, c) == Operations(29, start, x);
    d := GG(d, a, b, c, x[2], 9, W(0xfcef_a3f8));
    assert Words(c, d, a, b) == Operations(30, start, x);
    c := GG(c, d, a, b, x[7], 14, W(0x676f_02d9));
    assert Words(b, c, d, a) == Operations(31, start, x);
    b := GG(b, c, d, a, x[12], 20, W(0x8d2a_4c8a));
    assert Words(a, b, c, d) == Operations(32, start, x);
    r' := Words(a, b, c, d);
  }

  method Round3Start(ghost start: Words, r: Words, x: seq<UINT4>) returns (r': Words)
    requires |x| == 16 && r == Operations(32, start, x)
    ensures r' == Operations(40, start, x)
  {
    hide Mix, F, G, H, I;
    var a, b, c, d := r.a, r.b, r.c, r.d;
    a := HH(a, b, c, d, x[5], 4, W(0xfffa_3942));
    assert Words(d, a, b, c) == Operations(33, start, x);
    d := HH(d, a, b, c, x[8], 11, W(0x8771_f681));
    assert Words(c, d, a, b) == Operations(34, start, x);
    c := HH(c, d, a, b, x[11], 16, W(0x6d9d_6122));
    assert Words(b, c, d, a) == Operations(35, start, x);
    b := HH(b, c, d, a, x[14], 23, W(0xfde5_380c));
    assert Words(a, b, c, d) == Operations(36, start, x);
    a := HH(a, b, c, d, x[1], 4, W(0xa4be_ea44));
    assert Words(d, a, b, c) == Operations(37, start, x);
    d := HH(d, a, b, c, x[4], 11, W(0x4bde_cfa9));
    assert Words(c, d, a, b) == Operations(38, start, x);
    c := HH(c, d, a, b, x[7], 16, W(0xf6bb_4b60));
    assert Words(b, c, d, a) == Operations(39, start, x);
    b := HH(b, c, d, a, x[10], 23, W(0xbebf_bc70));
    assert Words(a, b, c, d) == Operations(40, start, x);
    r' := Words(a, b, c, d);
  }

  method Round3Rest(ghost start: Words, r: Words, x: seq<UINT4>) returns (r': Words)
    requires |x| == 16 && r == Operations(40, start, x)
    ensures r' == Operations(48, start, x)
  {
    hide Mix, F, G, H, I;
    var a, b, c, d := r.a, r.b, r.c, r.d;
    a := HH(a, b, c, d, x[13], 4, W(0x289b_7ec6));
    assert Words(d, a, b, c) == Operations(41, start, x);
    d := HH(d, a, b, c, x[0], 11, W(0xeaa1_27fa));
    assert Words(c, d, a, b) == Operations(42, start, x);
    c := HH(c, d, a, b, x[3], 16, W(0xd4ef_3085));
    assert Words(b, c, d, a) == Operations(43, start, x);
    b := HH(b, c, d, a, x[6], 23, W(0x0488_1d05));
    assert Words(a, b, c, d) == Operations(44, start, x);
    a := HH(a, b, c, d, x[9], 4, W(0xd9d4_d039));
    assert Words(d, a, b, c) == Operations(45, start, x);
    d := HH(d, a, b, c, x[12], 11, W(0xe6db_99e5));
    assert Words(c, d, a, b) == Operations(46, start, x);
    c := HH(c, d, a, b, x[15], 16, W(0x1fa2_7cf8));
    assert Words(b, c, d, a) == Operations(47, start, x);
    b := HH(b, c, d, a, x[2], 23, W(0xc4ac_5665));
    assert Words(a, b, c, d) == Operations(48, start, x);
    r' := Words(a, b, c, d);
  }

  method Round4Start(ghost start: Words, r: Words, x: seq<UINT4>) returns (r': Words)
    requires |x| == 16 && r == Operations(48, start, x)
    ensures r' == Operations(56, start, x)
  {
    hide Mix, F, G, H, I;
    var a, b, c, d := r.a, r.b, r.c, r.d;
    a := II(a, b, c, d, x[0], 6, W(0xf429_2244));
    assert Words(d, a, b, c) == Operations(49, start, x);
    d := II(d, a, b, c, x[7], 10, W(0x432a_ff97));
    assert Words(c, d, a, b) == Operations(50, start, x);
    c := II(c, d, a, b, x[14], 15, W(0xab94_23a7));
    assert Words(b, c, d, a) == Operations(51, start, x);
    b := II(b, c, d, a, x[5], 21, W(0xfc93_a039));
    assert Words(a, b, c, d) == Operations(52, start, x);
    a := II(a, b, c, d, x[12], 6, W(0x655b_59c3));
    assert Words(d, a, b, c) == Operations(53, start, x);
    d := II(d, a, b, c, x[3], 10, W(0x8f0c_cc92));
    assert Words(c, d, a, b) == Operations(54, start, x);
    c := II(c, d, a, b, x[10], 15, W(0xffef_f47d));
    assert Words(b, c, d, a) == Operations(55, start, x);
    b := II(b, c, d, a, x[1], 21, W(0x8584_5dd1));
    assert Words(a, b, c, d) == Operations(56, start, x);
    r' := Words(a, b, c, d);
  }

  method Round4Rest(ghost start: Words, r: Words, x: seq<UINT4>) returns (r': Words)
    requires |x| == 16 && r == Operations(56, start, x)
    ensures r' == Operations(64, start, x)
  {
    hide Mix, F, G, H, I;
    var a, b, c, d := r.a, r.b, r.c, r.d;
    a := II(a, b, c, d, x[8], 6, W(0x6fa8_7e4f));
    assert Words(d, a, b, c) == Operations(57, start, x);
    d := II(d, a, b, c, x[15], 10, W(0xfe2c_e6e0));
    assert Words(c, d, a, b) == Operations(58, start, x);
    c := II(c, d, a, b, x[6], 15, W(0xa301_4314));
    assert Words(b, c, d, a) == Operations(59, start, x);
    b := II(b, c, d, a, x[13], 21, W(0x4e08_11a1));
    assert Words(a, b, c, d) == Operations(60, start, x);
    a := II(a, b, c, d, x[4], 6, W(0xf753_7e82));
    assert Words(d, a, b, c) == Operations(61, start, x);
    d := II(d, a, b, c, x[11], 10, W(0xbd3a_f235));
    assert Words(c, d, a, b) == Operations(62, start, x);
    c := II(c, d, a, b, x[2], 15, W(0x2ad7_d2bb));
    assert Words(b, c, d, a) == Operations(63, start, x);
    b := II(b, c, d, a, x[9], 21, W(0xeb86_d391));
    assert Words(a, b, c, d) == Operations(64, start, x);
    r' := Words(a, b, c, d);
  }

  /** Decode on one block: little-endian words. */
  method DecodeBlock(block: seq<Octet>) returns (x: seq<UINT4>)
    requires |block| == 64
    ensures x == WordsOf(block)
  {
    x := [];
    var i, j := 0, 0;
    while j < 64
      invariant j == 4 * i && 0 <= j <= 64
      invariant x == WordsOf(block)[..i]
    {
      var w := W((block[j] as bv32) | ((block[j + 1] as bv32) << 8) | ((block[j + 2] as bv32) << 16)
                 | ((block[j + 3] as bv32) << 24));
      assert w == WordAt(block[4 * i..4 * i + 4]) == WordsOf(block)[i];
      x := x + [w];
      i, j := i + 1, j + 4;
    }
  }

  /** The body of the loop in Encode. */
  method EncodeOne(x: UINT4) returns (output: seq<Octet>)
    ensures output == Encode(x)
  {
    var w := x.v;
    output := [(w & 0xff) as bv8, ((w >> 8) & 0xff) as bv8, ((w >> 16) & 0xff) as bv8, ((w >> 24) & 0xff) as bv8];
  }

  /** Encode: words to bytes, least significant first. */
  method EncodeWords(x: seq<UINT4>) returns (output: seq<Octet>)
    ensures output == Encoded(x, |x|)
  {
    hide Encode;
    output := [];
    var i, j := 0, 0;
    while j < 4 * |x|
      invariant j == 4 * i && 0 <= i <= |x|
      invariant output == Encoded(x, i)
    {
      var one := EncodeOne(x[i]);
      output := output + one;
      i, j := i + 1, j + 4;
    }
  }

  /** MD5Transform. */
  method Transform(state: Words, block: seq<Octet>) returns (state': Words)
    requires |block| == 64
    ensures state' == Compress(state, block)
  {
    hide Operations, Plus;
    var x := DecodeBlock(block);
    NoOperations(state, x);
    var r := Round1Start(state, state, x);
    r := Round1Rest(state, r, x);
    r := Round2Start(state, r, x);
    r := Round2Rest(state, r, x);
    r := Round3Start(state, r, x);
    r := Round3Rest(state, r, x);
    r := Round4Start(state, r, x);
    r := Round4Rest(state, r, x);
    state' := Words(Plus(state.a, r.a), Plus(state.b, r.b), Plus(state.c, r.c), Plus(state.d, r.d));
  }

  lemma NoOperations(r: Words, x: seq<UINT4>)
    requires |x| == 16
    ensures Operations(0, r, x) == r
  {
  }
}
