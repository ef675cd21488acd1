/** MD5Init, MD5Update and MD5Final of source/applications/shelltools/md5sum/md5.c: hashing in
    pieces, with a buffer for the bytes that do not yet fill a block. */
module Md5Stream {
  import opened Bytes
  import opened Md5Spec
  import opened Md5Transform

  // ---------------------------------------------------------------------------------------
  // The two-word bit counter

  /** A word of the counter, as a number. */
  type Count = n: int | 0 <= n < 0x1_0000_0000

  function Add(x: int, y: int): Count {
    (x + y) % TWO_32
  }

  function LowWord(n: nat): Count {
    8 * n % TWO_32
  }

  function HighWord(n: nat): Count {
    8 * n / TWO_32 % TWO_32
  }

  /** The byte offset in the buffer can be read off the low word alone. */
  lemma IndexFromCount(n: nat)
    ensures LowWord(n) / 8 % 64 == n % 64
  {
    var q := 8 * n / TWO_32;
    assert 8 * n == TWO_32 * q + LowWord(n);
    assert LowWord(n) / 8 == n - 0x2000_0000 * q;
    assert n - 0x2000_0000 * q == n - 64 * (0x80_0000 * q);
  }

  /** Adding len bytes: the carry is exactly the unsigned overflow of the low word. */
  lemma CounterStep(n: nat, len: nat)
    requires len < TWO_32
    ensures var bits := 8 * len % TWO_32;
            var low := Add(LowWord(n), bits);
            && low == LowWord(n + len)
            && Add(Add(HighWord(n), if low < bits then 1 else 0), len / 0x2000_0000) == HighWord(n + len)
  {
    hide LowWord, HighWord, Add;
    var a, b, bits := 8 * n / TWO_32, len / 0x2000_0000, 8 * len % TWO_32;
    SplitBits(n);
    SplitBits(n + len);
    assert 8 * len == TWO_32 * b + bits;
    var low := Add(LowWord(n), bits);
    AddCarries(LowWord(n), bits);
    var carry := if low < bits then 1 else 0;
    assert 8 * (n + len) == TWO_32 * (a + b + carry) + low;
    UniqueSplit(8 * (n + len), a + b + carry, low);
    AddTwice(a, carry, b);
  }

  lemma AddCarries(x: Count, y: Count)
    ensures x + y == Add(x, y) + if Add(x, y) < y then TWO_32 else 0
  {
  }

  lemma AddTwice(a: nat, b: nat, c: nat)
    ensures Add(Add(a % TWO_32, b), c) == (a + c + b) % TWO_32
  {
  }

  lemma UniqueSplit(x: nat, q: nat, r: nat)
    requires x == TWO_32 * q + r && r < TWO_32
    ensures x / TWO_32 == q && x % TWO_32 == r
  {
  }

  lemma SplitBits(n: nat)
    ensures 8 * n == TWO_32 * (8 * n / TWO_32) + LowWord(n)
    ensures LowWord(n) == 8 * n % TWO_32 && HighWord(n) == 8 * n / TWO_32 % TWO_32
  {
  }

  lemma TwoWords(x: nat, b: nat, low: Count, high: Count)
    requires x == TWO_64 * b + (low + TWO_32 * high)
    ensures x % TWO_64 == low + TWO_32 * high
  {
  }

  lemma LengthFromWords(n: nat)
    ensures 8 * n % TWO_64 == LowWord(n) + TWO_32 * HighWord(n)
  {
    var a := 8 * n / TWO_32;
    var b := a / TWO_32;
    SplitBits(n);
    hide LowWord, HighWord;
    assert a == TWO_32 * b + HighWord(n);
    TwoWords(8 * n, b, LowWord(n), HighWord(n));
  }

  lemma WordWidth()
    ensures Pow256(4) == TWO_32
  {
  }

  /** The two words, encoded one after the other, are the 64-bit length of section 3.2. */
  lemma CountIsLength(n: nat)
    ensures Octets(LittleEndian(LowWord(n), 4)) + Octets(LittleEndian(HighWord(n), 4)) == LengthField(n)
  {
    hide LowWord, HighWord, LittleEndian, Pow256;
    LengthFromWords(n);
    WordWidth();
    LittleEndianSplit(LowWord(n), HighWord(n), 4, 4);
  }

  /** Encode on a word of the counter. */
  method EncodeCount(c: Count) returns (output: seq<Octet>)
    ensures output == Octets(LittleEndian(c, 4))
  {
    var c1 := c / 0x100;
    var c2 := c1 / 0x100;
    var c3 := c2 / 0x100;
    assert LittleEndian(c3, 1) == [c3 % 256];
    assert LittleEndian(c2, 2) == [c2 % 256] + LittleEndian(c3, 1);
    assert LittleEndian(c1, 3) == [c1 % 256] + LittleEndian(c2, 2);
    output := Octets([c % 256, c1 % 256, c2 % 256, c3 % 256]);
  }

  // ---------------------------------------------------------------------------------------
  // The context

  class Context {
    var state: Words
    var count0: Count
    var count1: Count
    const buffer: array<Octet>
    /** All the bytes hashed so far. */
    ghost var message: seq<Octet>

    /** The state covers the complete blocks, the buffer holds the rest, and the two count
        words are the length in bits modulo 2^64. */
    ghost predicate Valid()
      reads this, buffer
    {
      && Filled()
      && count0 == LowWord(|message|)
      && count1 == HighWord(|message|)
    }

    /** The part of Valid that MD5Update relies on while it counts. */
    ghost predicate Filled()
      reads this, buffer
    {
      && buffer.Length == 64
      && state == Absorb(message, |message| / 64)
      && buffer[..|message| % 64] == message[64 * (|message| / 64)..]
    }

    /** MD5Init */
    constructor ()
      ensures Valid() && fresh(buffer) && message == []
    {
      state := INITIAL;
      count0, count1 := 0, 0;
      buffer := new Octet[64](_ => 0);
      message := [];
    }

    /** memcpy into the buffer. */
    method CopyIn(at: nat, src: seq<Octet>)
      requires buffer.Length == 64 && at + |src| <= 64
      modifies buffer
      ensures buffer[..at] == old(buffer[..at])
      ensures buffer[at..at + |src|] == src
    {
      for i := 0 to |src|
        invariant buffer[..at] == old(buffer[..at])
        invariant buffer[at..at + i] == src[..i]
      {
        buffer[at + i] := src[i];
        assert buffer[at..at + i + 1] == buffer[at..at + i] + [src[i]];
      }
    }

    /** The counter part of MD5Update. */
    method CountBits(len: nat)
      requires len < TWO_32 && count0 == LowWord(|message|) && count1 == HighWord(|message|)
      modifies this`count0, this`count1
      ensures count0 == LowWord(|message| + len) && count1 == HighWord(|message| + len)
    {
      hide LowWord, HighWord;
      CounterStep(|message|, len);
      var bits := 8 * len % TWO_32;
      count0 := Add(count0, bits);
      if count0 < bits {
        count1 := Add(count1, 1);
      }
      count1 := Add(count1, len / 0x2000_0000);
    }

    /** The loop of MD5Update over the complete blocks of the input, from start on; k counts
        the blocks done. */
    method TransformBlocks(input: seq<Octet>, start: nat, ghost k: nat) returns (i: nat, ghost k': nat)
      requires start <= |input| < TWO_32 && |message| + start == 64 * k && !Overruns(|message| % 64, |input|)
      requires state == Absorb(message + input, k)
      modifies this`state
      ensures start <= i <= |input| < i + 64 && |message| + i == 64 * k'
      ensures state == Absorb(message + input, k')
    {
      hide Absorb, Compress, Overruns;
      i, k' := start, k;
      while (i + 63) % TWO_32 < |input|
        invariant |message| + i == 64 * k' && start <= i <= |input|
        invariant state == Absorb(message + input, k')
        decreases |input| - i
      {
        NoWrap(|message|, i, |input|, k');
        InputBlock(message, input, i, k');
        state := Transform(state, input[i..i + 64]);
        AbsorbStep(message + input, k');
        i, k' := i + 64, k' + 1;
      }
      NoWrap(|message|, i, |input|, k');
    }

    /** The part of MD5Update that completes the block in the buffer. */
    method FillBlock(index: nat, input: seq<Octet>, ghost k: nat)
      requires Filled() && |message| == 64 * k + index && 64 - index <= |input| && index < 64
      modifies this`state, buffer
      ensures state == Absorb(message + input, k + 1)
    {
      hide Absorb, Compress;
      ghost var whole := message + input;
      var partLen := 64 - index;
      assert buffer[..index] == message[64 * k..] by { BlocksIn(|message|, index, k); }
      CopyIn(index, input[..partLen]);
      assert buffer[..] == buffer[..index] + buffer[index..index + partLen];
      FirstBlock(message, input, partLen, k);
      AbsorbPrefix(message, input, k);
      AbsorbStep(whole, k);
      state := Transform(state, buffer[..]);
    }

    /** The middle of MD5Update: transform as many blocks as possible. What is left are the
        bytes of the input from i on, to go to position index' of the buffer. */
    method TransformAll(index: nat, input: seq<Octet>, ghost k: nat) returns (i: nat, index': nat, ghost k': nat)
      requires Filled() && |message| == 64 * k + index && index < 64
      requires |input| < TWO_32 && !Overruns(|message| % 64, |input|)
      modifies this`state, buffer
      ensures i <= |input| && index' <= |message| && (i == 0 || index' == 0)
      ensures |message| - index' + i == 64 * k' && index' + |input| - i < 64
      ensures state == Absorb(message + input, k')
      ensures buffer[..index'] == message[|message| - index'..]
    {
      hide Absorb, Overruns;
      var partLen := 64 - index;
      if |input| >= partLen {
        FillBlock(index, input, k);
        i, k' := TransformBlocks(input, partLen, k + 1);
        index' := 0;
      } else {
        AbsorbPrefix(message, input, k);
        i, index', k' := 0, index, k;
      }
    }

    /** MD5Update. The length is an unsigned int; LoopOverruns says why the second condition
        is needed and that it is exact. */
    method Update(input: seq<Octet>)
      requires Valid()
      requires |input| < TWO_32 && !Overruns(|message| % 64, |input|)
      modifies this, buffer
      ensures Valid() && message == old(message) + input
    {
      hide LowWord, HighWord, Absorb, Overruns;
      IndexFromCount(|message|);
      var index := count0 / 8 % 64;
      CountBits(|input|);
      ghost var k := |message| / 64;
      var i;
      i, index, k := TransformAll(index, input, k);
      StoreRest(index, input, i, k);
      message := message + input;
    }

    /** The end of MD5Update: buffer the remaining input. */
    method StoreRest(index: nat, input: seq<Octet>, i: nat, ghost k: nat)
      requires i <= |input| && index <= |message| && (i == 0 || index == 0) && buffer.Length == 64
      requires |message| - index + i == 64 * k && index + |input| - i < 64
      requires buffer[..index] == message[|message| - index..]
      modifies buffer
      ensures var whole := message + input;
              |whole| / 64 == k && buffer[..|whole| % 64] == whole[64 * k..]
    {
      CopyIn(index, input[i..]);
      assert buffer[..index + |input| - i] == buffer[..index] + buffer[index..index + |input| - i];
      Tail(message, input, i, index, k);
    }

    /** MD5Final. The context is wiped; the digest is that of all the bytes hashed. */
    method Final() returns (digest: seq<Octet>)
      requires Valid()
      modifies this, buffer
      ensures digest == Md5(old(message))
      ensures state == Words(W(0), W(0), W(0), W(0)) && count0 == count1 == 0
      ensures forall i :: 0 <= i < 64 ==> buffer[i] == 0
    {
      hide LowWord, HighWord, Absorb, Encode, Encoded, PadZeros, LengthField, LittleEndian, Octets, Zeros,
           Overruns;
      ghost var m := message;
      IndexFromCount(|m|);
      var low := EncodeCount(count0);
      var high := EncodeCount(count1);
      var bits := low + high;
      var index := count0 / 8 % 64;
      var padLen := if index < 56 then 56 - index else 120 - index;
      PaddingLength(|m|);
      ShortIsSafe(|m| % 64, padLen);
      Update([0x80] + Zeros(padLen - 1));
      ShortIsSafe(|message| % 64, 8);
      Update(bits);
      CountIsLength(|m|);
      assert message == Padded(m);
      EncodedFour(state);
      digest := EncodeWords([state.a, state.b, state.c, state.d]);
      state := Words(W(0), W(0), W(0), W(0));
      count0, count1 := 0, 0;
      forall i | 0 <= i < 64 { buffer[i] := 0; }
    }
  }

  lemma EncodedFour(r: Words)
    ensures Encoded([r.a, r.b, r.c, r.d], 4) == Digest(r)
  {
    hide Encode;
    var x := [r.a, r.b, r.c, r.d];
    assert Encoded(x, 0) == [] && Encoded(x, 1) == Encode(r.a);
    assert Encoded(x, 2) == Encode(r.a) + Encode(r.b);
    assert Encoded(x, 3) == Encode(r.a) + Encode(r.b) + Encode(r.c);
  }

  /** What is left over once k blocks are done is what the buffer has to hold. */
  lemma Tail(m: seq<Octet>, input: seq<Octet>, i: nat, index: nat, k: nat)
    requires i <= |input| && index <= |m| && index + |input| - i < 64 && |m| - index + i == 64 * k
    requires i == 0 || index == 0
    ensures var n := |m| + |input|;
            && n % 64 == index + |input| - i
            && n / 64 == k
            && (m + input)[64 * k..] == m[|m| - index..] + input[i..]
  {
  }

  /** Block k, when it lies in the input. */
  lemma InputBlock(m: seq<Octet>, input: seq<Octet>, i: nat, k: nat)
    requires |m| + i == 64 * k && i + 64 <= |input|
    ensures (m + input)[64 * k..64 * (k + 1)] == input[i..i + 64]
  {
    var q := 64 * k;
    var a, b := (m + input)[q..q + 64], input[i..i + 64];
    assert forall j :: 0 <= j < 64 ==> a[j] == b[j];
  }

  /** Block k, when it begins in the message and ends in the input. */
  lemma FirstBlock(m: seq<Octet>, input: seq<Octet>, part: nat, k: nat)
    requires 64 * k <= |m| && |m| + part == 64 * k + 64 && part <= |input|
    ensures (m + input)[64 * k..64 * (k + 1)] == m[64 * k..] + input[..part]
  {
  }

  lemma BlocksIn(n: nat, index: nat, k: nat)
    requires n == 64 * k + index && index < 64
    ensures n / 64 == k && n % 64 == index
  {
  }

  lemma AbsorbStep(m: seq<Octet>, k: nat)
    requires 64 * (k + 1) <= |m|
    ensures Absorb(m, k + 1) == Compress(Absorb(m, k), m[64 * k..64 * (k + 1)])
  {
    hide Compress;
  }

  /** The source's padding length is the one that section 3.1 asks for. */
  lemma PaddingLength(n: nat)
    ensures (if n % 64 < 56 then 56 - n % 64 else 120 - n % 64) == 1 + PadZeros(n)
  {
    assert n == 64 * (n / 64) + n % 64;
  }

  // ---------------------------------------------------------------------------------------
  // When the loop of MD5Update stays inside its input

  /** With index bytes in the buffer, a length that makes i + 63 wrap around. */
  predicate Overruns(index: nat, len: nat) {
    0 < index && TWO_32 <= index + len
  }

  lemma ShortIsSafe(index: nat, len: nat)
    requires index < 64 && len <= TWO_32 - 64
    ensures !Overruns(index, len)
  {
  }

  lemma NoWrap(n: nat, i: nat, len: nat, k: nat)
    requires n + i == 64 * k && i <= len < TWO_32 && !Overruns(n % 64, len)
    ensures (i + 63) % TWO_32 == i + 63
  {
    var index := n % 64;
    assert index + i == 64 * (k - n / 64);
    if index == 0 {
      assert i <= TWO_32 - 64;
    } else {
      assert index + i <= TWO_32 - 64;
    }
  }

  /** The k-th value of the loop variable i. */
  function LoopIndex(index: nat, k: nat): nat
    requires index < 64
  {
    64 - index + 64 * k
  }

  predicate Guard(index: nat, len: nat, k: nat)
    requires index < 64
  {
    (LoopIndex(index, k) + 63) % TWO_32 < len
  }

  /** The loop gets to a block that ends beyond the input. */
  ghost predicate RunsPast(index: nat, len: nat)
    requires index < 64
  {
    exists k: nat :: (forall j: nat :: j <= k ==> Guard(index, len, j)) && len < LoopIndex(index, k) + 64
  }

  /** It does so exactly when Overruns holds. */
  lemma LoopOverruns(index: nat, len: nat)
    requires index < 64 && 64 - index <= len < TWO_32
    ensures Overruns(index, len) <==> RunsPast(index, len)
  {
    if Overruns(index, len) {
      var k := 0x3ff_ffff;
      forall j: nat | j <= k ensures Guard(index, len, j) {
        if j == k {
          assert LoopIndex(index, k) + 63 == TWO_32 + (63 - index);
        }
      }
      assert len < LoopIndex(index, k) + 64;
    } else {
      forall k: nat | forall j: nat :: j <= k ==> Guard(index, len, j)
        ensures LoopIndex(index, k) + 64 <= len
      {
        StaysInside(index, len, k);
      }
    }
  }

  /** One byte in the buffer and 2^32 - 1 more: the loop goes on past the input. */
  lemma OverrunHappens()
    ensures RunsPast(1, TWO_32 - 1)
  {
    LoopOverruns(1, TWO_32 - 1);
  }

  lemma {:induction false} StaysInside(index: nat, len: nat, k: nat)
    requires index < 64 && 64 - index <= len < TWO_32 && !Overruns(index, len)
    requires forall j: nat :: j <= k ==> Guard(index, len, j)
    ensures LoopIndex(index, k) + 64 <= len
    decreases k
  {
    if k > 0 {
      StaysInside(index, len, k - 1);
    }
    assert Guard(index, len, k);
    NoWrap(index, LoopIndex(index, k), len, k + 1);
  }

  // ---------------------------------------------------------------------------------------
  // Any way of cutting a message

  function Flatten(pieces: seq<seq<Octet>>, i: nat): seq<Octet>
    requires i <= |pieces|
  {
    if i == 0 then [] else Flatten(pieces, i - 1) + pieces[i - 1]
  }

  /** However a message is cut into pieces that MD5Update can take, the digest is the one-shot
      digest. Pieces of up to 2^32 - 64 bytes always are (ShortIsSafe). */
  method HashPieces(pieces: seq<seq<Octet>>) returns (digest: seq<Octet>)
    requires forall i :: 0 <= i < |pieces| ==>
               |pieces[i]| < TWO_32 && !Overruns(|Flatten(pieces, i)| % 64, |pieces[i]|)
    ensures digest == Md5(Flatten(pieces, |pieces|))
  {
    hide Context.Valid, Md5, Overruns;
    var context := new Context();
    for i := 0 to |pieces|
      invariant context.Valid() && fresh(context) && fresh(context.buffer)
      invariant context.message == Flatten(pieces, i)
    {
      context.Update(pieces[i]);
    }
    digest := context.Final();
  }

  /** do_md5sum: the file is read 32768 bytes at a time until a read comes up short. */
  method Md5sum(file: seq<Octet>) returns (digest: seq<Octet>)
    ensures digest == Md5(file)
  {
    hide Context.Valid, Md5, Overruns;
    var context := new Context();
    var offset := 0;
    while true
      invariant 0 <= offset <= |file|
      invariant context.Valid() && fresh(context) && fresh(context.buffer)
      invariant context.message == file[..offset]
      decreases |file| - offset
    {
      var ret := if |file| - offset < 32768 then |file| - offset else 32768;
      if ret <= 0 {
        break;
      }
      assert file[..offset] + file[offset..offset + ret] == file[..offset + ret];
      ShortIsSafe(|context.message| % 64, ret);
      context.Update(file[offset..offset + ret]);
      offset := offset + ret;
      if ret != 32768 {
        break;
      }
    }
    assert offset == |file| && file[..offset] == file;
    digest := context.Final();
  }
}
