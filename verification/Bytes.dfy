/** Bytes, and integers stored as bytes, least significant first. */
module Bytes {

  type byte = b: int | 0 <= b < 256

  const TWO_32 := 0x1_0000_0000
  const TWO_64 := 0x1_0000_0000_0000_0000

  const WIDTH_32: nat := 4
  const WIDTH_64: nat := 8

  function Pow256(w: nat): (p: nat)
    ensures p > 0
  {
    if w == 0 then 1 else 256 * Pow256(w - 1)
  }

  function LittleEndian(n: nat, w: nat): (s: seq<byte>)
    ensures |s| == w
  {
    if w == 0 then [] else [n % 256] + LittleEndian(n / 256, w - 1)
  }

  function FromLittleEndian(s: seq<byte>): nat {
    if s == [] then 0 else s[0] + 256 * FromLittleEndian(s[1..])
  }

  lemma {:induction false} LittleEndianRoundTrip(n: nat, w: nat)
    requires n < Pow256(w)
    ensures FromLittleEndian(LittleEndian(n, w)) == n
  {
    if w > 0 {
      LittleEndianRoundTrip(n / 256, w - 1);
      assert LittleEndian(n, w)[1..] == LittleEndian(n / 256, w - 1);
    }
  }

  lemma ByteStep(low: nat, m: nat)
    ensures (low + 256 * m) % 256 == low % 256 && (low + 256 * m) / 256 == low / 256 + m
  {
  }

  lemma PowStep(w: nat, high: nat)
    requires w > 0
    ensures Pow256(w) * high == 256 * (Pow256(w - 1) * high)
  {
  }

  lemma LittleEndianStep(n: nat, w: nat)
    requires w > 0
    ensures LittleEndian(n, w) == [n % 256] + LittleEndian(n / 256, w - 1)
  {
  }

  /** A wide integer is its low part followed by its high part. */
  lemma {:induction false} LittleEndianSplit(low: nat, high: nat, w: nat, v: nat)
    requires low < Pow256(w)
    ensures LittleEndian(low + Pow256(w) * high, w + v) == LittleEndian(low, w) + LittleEndian(high, v)
  {
    if w > 0 {
      var m := Pow256(w - 1) * high;
      LittleEndianSplit(low / 256, high, w - 1, v);
      hide Pow256, LittleEndian;
      PowStep(w, high);
      ByteStep(low, m);
      LittleEndianStep(low + 256 * m, w + v);
      LittleEndianStep(low, w);
    }
  }

  /** A 32-bit field, as struct.pack( "I", n ) writes it. */
  function Int32(n: nat): (s: seq<byte>)
    ensures |s| == 4
  {
    LittleEndian(n, WIDTH_32)
  }

  /** A 64-bit field, as struct.pack( "Q", n ) writes it. */
  function Int64(n: nat): (s: seq<byte>)
    ensures |s| == 8
  {
    LittleEndian(n, WIDTH_64)
  }

  lemma FieldWidths()
    ensures Pow256(4) == TWO_32 && Pow256(8) == TWO_64
  {
    assert Pow256(1) == 256;
    assert Pow256(2) == 0x1_0000;
    assert Pow256(3) == 0x100_0000;
    assert Pow256(5) == 0x100_0000_0000;
    assert Pow256(6) == 0x1_0000_0000_0000;
    assert Pow256(7) == 0x100_0000_0000_0000;
  }

  /** s is what the bytes of a file or of memory hold at q. */
  predicate Holds(file: seq<byte>, q: nat, s: seq<byte>) {
    q + |s| <= |file| && file[q..q + |s|] == s
  }

  lemma HoldsSplit(file: seq<byte>, q: nat, s: seq<byte>, t: seq<byte>)
    ensures Holds(file, q, s + t) <==> Holds(file, q, s) && Holds(file, q + |s|, t)
  {
    if q + |s| + |t| <= |file| {
      assert file[q..q + |s + t|] == file[q..q + |s|] + file[q + |s|..q + |s| + |t|];
      if file[q..q + |s + t|] == s + t {
        assert file[q..q + |s|] == file[q..q + |s + t|][..|s|];
        assert file[q + |s|..q + |s| + |t|] == file[q..q + |s + t|][|s|..];
      }
    }
  }
}
