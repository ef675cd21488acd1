/** MD5 as RFC 1321 defines it, sections 3.1 to 3.5: pad the message, cut it into blocks of 16
    words, and run 64 table-driven operations per block. */
module Md5Spec {
  import opened Bytes

  /** A word of section 2; addition wraps around. */
  datatype UINT4 = W(v: bv32)

  type Octet = bv8

  /** The four registers, or the four words of the chaining state. */
  datatype Words = Words(a: UINT4, b: UINT4, c: UINT4, d: UINT4)

  const INITIAL := Words(W(0x6745_2301), W(0xefcd_ab89), W(0x98ba_dcfe), W(0x1032_5476))

  function F(x: UINT4, y: UINT4, z: UINT4): UINT4 {
    W((x.v & y.v) | (!x.v & z.v))
  }

  function G(x: UINT4, y: UINT4, z: UINT4): UINT4 {
    W((x.v & z.v) | (y.v & !z.v))
  }

  function H(x: UINT4, y: UINT4, z: UINT4): UINT4 {
    W(x.v ^ y.v ^ z.v)
  }

  function I(x: UINT4, y: UINT4, z: UINT4): UINT4 {
    W(y.v ^ (x.v | !z.v))
  }

  function RotateLeft(x: UINT4, n: bv6): UINT4
    requires n <= 32
  {
    W((x.v << n) | (x.v >> (32 - n)))
  }

  function Plus(x: UINT4, y: UINT4): UINT4 {
    W(x.v + y.v)
  }

  /** b + ((a + f + x + t) <<< s) */
  function Mix(a: UINT4, b: UINT4, f: UINT4, x: UINT4, s: bv6, t: UINT4): UINT4
    requires s <= 32
  {
    Plus(RotateLeft(W(a.v + f.v + x.v + t.v), s), b)
  }

  // ---------------------------------------------------------------------------------------
  // Section 3.4: one block

  function Sines1(j: nat): UINT4
    requires j < 16
  {
    match j
    case 0 => W(0xd76a_a478)
    case 1 => W(0xe8c7_b756)
    case 2 => W(0x2420_70db)
    case 3 => W(0xc1bd_ceee)
    case 4 => W(0xf57c_0faf)
    case 5 => W(0x4787_c62a)
    case 6 => W(0xa830_4613)
    case 7 => W(0xfd46_9501)
    case 8 => W(0x6980_98d8)
    case 9 => W(0x8b44_f7af)
    case 10 => W(0xffff_5bb1)
    case 11 => W(0x895c_d7be)
    case 12 => W(0x6b90_1122)
    case 13 => W(0xfd98_7193)
    case 14 => W(0xa679_438e)
    case _ => W(0x49b4_0821)
  }

  function Sines2(j: nat): UINT4
    requires j < 16
  {
    match j
    case 0 => W(0xf61e_2562)
    case 1 => W(0xc040_b340)
    case 2 => W(0x265e_5a51)
    case 3 => W(0xe9b6_c7aa)
    case 4 => W(0xd62f_105d)
    case 5 => W(0x0244_1453)
    case 6 => W(0xd8a1_e681)
    case 7 => W(0xe7d3_fbc8)
    case 8 => W(0x21e1_cde6)
    case 9 => W(0xc337_07d6)
    case 10 => W(0xf4d5_0d87)
    case 11 => W(0x455a_14ed)
    case 12 => W(0xa9e3_e905)
    case 13 => W(0xfcef_a3f8)
    case 14 => W(0x676f_02d9)
    case _ => W(0x8d2a_4c8a)
  }

  function Sines3(j: nat): UINT4
    requires j < 16
  {
    match j
    case 0 => W(0xfffa_3942)
    case 1 => W(0x8771_f681)
    case 2 => W(0x6d9d_6122)
    case 3 => W(0xfde5_380c)
    case 4 => W(0xa4be_ea44)
    case 5 => W(0x4bde_cfa9)
    case 6 => W(0xf6bb_4b60)
    case 7 => W(0xbebf_bc70)
    case 8 => W(0x289b_7ec6)
    case 9 => W(0xeaa1_27fa)
    case 10 => W(0xd4ef_3085)
    case 11 => W(0x0488_1d05)
    case 12 => W(0xd9d4_d039)
    case 13 => W(0xe6db_99e5)
    case 14 => W(0x1fa2_7cf8)
    case _ => W(0xc4ac_5665)
  }

  function Sines4(j: nat): UINT4
    requires j < 16
  {
    match j
    case 0 => W(0xf429_2244)
    case 1 => W(0x432a_ff97)
    case 2 => W(0xab94_23a7)
    case 3 => W(0xfc93_a039)
    case 4 => W(0x655b_59c3)
    case 5 => W(0x8f0c_cc92)
    case 6 => W(0xffef_f47d)
    case 7 => W(0x8584_5dd1)
    case 8 => W(0x6fa8_7e4f)
    case 9 => W(0xfe2c_e6e0)
    case 10 => W(0xa301_4314)
    case 11 => W(0x4e08_11a1)
    case 12 => W(0xf753_7e82)
    case 13 => W(0xbd3a_f235)
    case 14 => W(0x2ad7_d2bb)
    case _ => W(0xeb86_d391)
  }

  /** The integer part of 2^32 * abs( sin( i + 1 ) ). */
  function Sine(i: nat): UINT4
    requires i < 64
  {
    if i < 16 then Sines1(i)
    else if i < 32 then Sines2(i - 16)
    else if i < 48 then Sines3(i - 32)
    else Sines4(i - 48)
  }

  function Shift(i: nat): (s: bv6)
    requires i < 64
    ensures s <= 32
  {
    var j := i % 4;
    if i < 16 then (if j == 0 then 7 else if j == 1 then 12 else if j == 2 then 17 else 22)
    else if i < 32 then (if j == 0 then 5 else if j == 1 then 9 else if j == 2 then 14 else 20)
    else if i < 48 then (if j == 0 then 4 else if j == 1 then 11 else if j == 2 then 16 else 23)
    else (if j == 0 then 6 else if j == 1 then 10 else if j == 2 then 15 else 21)
  }

  /** Which word of the block operation i uses. */
  function Word(i: nat): (k: nat)
    requires i < 64
    ensures k < 16
  {
    if i < 16 then i
    else if i < 32 then (5 * i + 1) % 16
    else if i < 48 then (3 * i + 5) % 16
    else (7 * i) % 16
  }

  function Auxiliary(i: nat, x: UINT4, y: UINT4, z: UINT4): UINT4 {
    if i < 16 then F(x, y, z)
    else if i < 32 then G(x, y, z)
    else if i < 48 then H(x, y, z)
    else I(x, y, z)
  }

  /** Operation i, then the registers move one place: the one just computed becomes b. */
  function Operation(i: nat, r: Words, x: seq<UINT4>): Words
    requires i < 64 && |x| == 16
  {
    Words(r.d, Mix(r.a, r.b, Auxiliary(i, r.b, r.c, r.d), x[Word(i)], Shift(i), Sine(i)), r.b, r.c)
  }

  function Operations(n: nat, r: Words, x: seq<UINT4>): Words
    requires n <= 64 && |x| == 16
  {
    if n == 0 then r else Operation(n - 1, Operations(n - 1, r, x), x)
  }

  function WordAt(s: seq<Octet>): UINT4
    requires |s| == 4
  {
    W((s[0] as bv32) | ((s[1] as bv32) << 8) | ((s[2] as bv32) << 16) | ((s[3] as bv32) << 24))
  }

  function WordsOf(block: seq<Octet>): (x: seq<UINT4>)
    requires |block| == 64
    ensures |x| == 16
  {
    seq(16, i requires 0 <= i < 16 => WordAt(block[4 * i..4 * i + 4]))
  }

  function Compress(state: Words, block: seq<Octet>): Words
    requires |block| == 64
  {
    var r := Operations(64, state, WordsOf(block));
    Words(Plus(state.a, r.a), Plus(state.b, r.b), Plus(state.c, r.c), Plus(state.d, r.d))
  }

  // ---------------------------------------------------------------------------------------
  // The whole message

  /** The state after the first k blocks of m. */
  function Absorb(m: seq<Octet>, k: nat): Words
    requires 64 * k <= |m|
  {
    if k == 0 then INITIAL else Compress(Absorb(m, k - 1), m[64 * (k - 1)..64 * k])
  }

  function Zeros(n: nat): (s: seq<Octet>)
    ensures |s| == n
  {
    seq(n, _ => 0)
  }

  /** How many zero bytes follow the first padding byte: up to 56 modulo 64. */
  function PadZeros(n: nat): nat {
    (55 - n) % 64
  }

  lemma PadFills(n: nat)
    ensures (n + 1 + PadZeros(n) + 8) % 64 == 0
  {
    var q, r := (55 - n) / 64, (55 - n) % 64;
    assert 55 - n == 64 * q + r;
    assert n + 1 + r + 8 == 64 * (1 - q);
  }

  /** Numbers below 256 as bytes. */
  function Octets(s: seq<byte>): (r: seq<Octet>)
    ensures |r| == |s|
  {
    seq(|s|, i requires 0 <= i < |s| => s[i] as bv8)
  }

  /** The low-order 64 bits of the length in bits. */
  function LengthField(n: nat): (s: seq<Octet>)
    ensures |s| == 8
  {
    Octets(LittleEndian(8 * n % TWO_64, 8))
  }

  /** Sections 3.1 and 3.2. */
  function Padded(m: seq<Octet>): (p: seq<Octet>)
    ensures |p| % 64 == 0
  {
    PadFills(|m|);
    m + ([0x80] + Zeros(PadZeros(|m|))) + LengthField(|m|)
  }

  function Encode(w: UINT4): (s: seq<Octet>)
    ensures |s| == 4
  {
    [(w.v & 0xff) as bv8, ((w.v >> 8) & 0xff) as bv8, ((w.v >> 16) & 0xff) as bv8, ((w.v >> 24) & 0xff) as bv8]
  }

  function Digest(state: Words): (s: seq<Octet>)
    ensures |s| == 16
  {
    Encode(state.a) + Encode(state.b) + Encode(state.c) + Encode(state.d)
  }

  function Md5(m: seq<Octet>): (digest: seq<Octet>)
    ensures |digest| == 16
  {
    var p := Padded(m);
    Digest(Absorb(p, |p| / 64))
  }

  /** Later bytes do not change what earlier blocks contributed. */
  lemma {:induction false} AbsorbPrefix(m: seq<Octet>, more: seq<Octet>, k: nat)
    requires 64 * k <= |m|
    ensures Absorb(m + more, k) == Absorb(m, k)
    decreases k
  {
    hide Compress;
    if k > 0 {
      AbsorbPrefix(m, more, k - 1);
      assert (m + more)[64 * (k - 1)..64 * k] == m[64 * (k - 1)..64 * k];
    }
  }

  lemma WordRoundTrip(w: UINT4)
    ensures WordAt(Encode(w)) == w
  {
  }

  /** The first i words of x, encoded one after the other. */
  function Encoded(x: seq<UINT4>, i: nat): (s: seq<Octet>)
    requires i <= |x|
    ensures |s| == 4 * i
  {
    if i == 0 then [] else Encoded(x, i - 1) + Encode(x[i - 1])
  }

  lemma {:induction false} EncodedAt(x: seq<UINT4>, n: nat, i: nat)
    requires i < n <= |x|
    ensures Encoded(x, n)[4 * i..4 * i + 4] == Encode(x[i])
    decreases n
  {
    if i < n - 1 {
      EncodedAt(x, n - 1, i);
      assert Encoded(x, n)[4 * i..4 * i + 4] == Encoded(x, n - 1)[4 * i..4 * i + 4];
    }
  }

  /** Decode undoes Encode, on any sixteen words. */
  lemma DecodeUndoesEncode(x: seq<UINT4>)
    requires |x| == 16
    ensures WordsOf(Encoded(x, 16)) == x
  {
    hide Encode, WordAt;
    var n := |x|;
    var block := Encoded(x, n);
    forall i | 0 <= i < 16 ensures WordsOf(block)[i] == x[i] {
      hide Encoded;
      EncodedAt(x, n, i);
      WordRoundTrip(x[i]);
    }
  }
}
