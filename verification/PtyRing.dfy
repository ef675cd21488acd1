/** The byte buffer of one pseudo-terminal node: source/drivers/char/terminal/pty.h, pty.c. */
module PtyRing {
  import opened Bytes

  /** x % n, for the only x that occur: two positions added. */
  function Wrap(x: nat, n: nat): nat {
    if x < n then x else x - n
  }

  lemma WrapIsModulo(x: nat, n: nat)
    requires x < 2 * n
    ensures x % n == Wrap(x, n)
  {
    if x >= n {
      var q, r := x / n, x % n;
      assert x == q * n + r;
      assert q >= 2 ==> q * n >= 2 * n;
    }
  }

  /** The fields buffer, size, read_position and write_position; buffer_size is |buffer|. */
  datatype Ring = Ring(buffer: seq<byte>, size: nat, readPosition: nat, writePosition: nat) {

    predicate Valid() {
      && size <= |buffer|
      && readPosition < |buffer|
      && writePosition == Wrap(readPosition + size, |buffer|)
    }

    /** The bytes waiting to be read, oldest first. */
    ghost function Contents(): (s: seq<byte>)
      requires Valid()
    {
      seq(size, i requires 0 <= i < size => buffer[Wrap(readPosition + i, |buffer|)])
    }

    predicate Full() {
      size == |buffer|
    }

    /** The inner loop body of pty_do_write. */
    function Put(b: byte): (r: Ring)
      requires Valid() && !Full()
      ensures r.Valid() && |r.buffer| == |buffer| && r.size == size + 1
    {
      WrapIsModulo(writePosition + 1, |buffer|);
      Ring(buffer[writePosition := b], size + 1, readPosition, (writePosition + 1) % |buffer|)
    }

    function First(): byte
      requires Valid() && size > 0
    {
      buffer[readPosition]
    }

    /** The loop body of pty_read that moves First() to the caller. */
    function Take(): (r: Ring)
      requires Valid() && size > 0
      ensures r.Valid() && |r.buffer| == |buffer| && r.size == size - 1
    {
      WrapIsModulo(readPosition + 1, |buffer|);
      Ring(buffer, size - 1, (readPosition + 1) % |buffer|, writePosition)
    }

    lemma ModuloPositions()
      requires Valid()
      ensures writePosition == (readPosition + size) % |buffer|
    {
      WrapIsModulo(readPosition + size, |buffer|);
    }

    lemma ContentsAt(i: nat)
      requires Valid() && i < size
      ensures Contents()[i] == buffer[Wrap(readPosition + i, |buffer|)]
    {
    }

    /** Put appends: it overwrites no byte that still waits. */
    lemma PutAppends(b: byte)
      requires Valid() && !Full()
      ensures Put(b).Contents() == Contents() + [b]
    {
      var r := Put(b);
      r.ContentsAt(size);
      forall i | 0 <= i < size ensures r.Contents()[i] == Contents()[i] {
        r.ContentsAt(i);
        ContentsAt(i);
      }
    }

    /** Take removes the oldest byte and nothing else. */
    lemma TakeRemoves()
      requires Valid() && size > 0
      ensures Contents() == [First()] + Take().Contents()
    {
      WrapIsModulo(readPosition + 1, |buffer|);
      var r := Take();
      ContentsAt(0);
      forall i | 0 <= i < r.size ensures r.Contents()[i] == Contents()[i + 1] {
        r.ContentsAt(i);
        ContentsAt(i + 1);
      }
    }
  }

  /** A node's buffer in the driver's own form. */
  class PtyNode {
    const buffer: array<byte>
    var size: nat
    var readPosition: nat
    var writePosition: nat

    ghost function Value(): Ring
      reads this, buffer
    {
      Ring(buffer[..], size, readPosition, writePosition)
    }

    constructor (bufferSize: nat)
      requires bufferSize > 0
      ensures Value().Valid() && Value().Contents() == [] && buffer.Length == bufferSize && fresh(buffer)
    {
      buffer := new byte[bufferSize](_ => 0);
      size, readPosition, writePosition := 0, 0, 0;
    }

    /** The loop of pty_read: the oldest bytes, as many as there are and as were asked for. */
    method Drain(want: nat) returns (data: seq<byte>)
      requires Value().Valid()
      modifies this
      ensures Value().Valid() && old(Value()).Contents() == data + Value().Contents()
      ensures |data| == if want < old(size) then want else old(size)
    {
      hide Ring.Contents;
      data := [];
      while |data| < want && size > 0
        invariant Value().Valid() && |data| <= want && |data| + size == old(size)
        invariant old(Value()).Contents() == data + Value().Contents()
        decreases size
      {
        ghost var before := Value();
        before.TakeRemoves();
        data := data + [buffer[readPosition]];
        size := size - 1;
        readPosition := (readPosition + 1) % buffer.Length;
        assert Value() == before.Take();
      }
    }

    /** The inner loop of pty_do_write: as many bytes as there is room for, behind the rest. */
    method Store(data: seq<byte>) returns (written: nat)
      requires Value().Valid()
      modifies this, buffer
      ensures Value().Valid() && written <= |data| && Value().Contents() == old(Value()).Contents() + data[..written]
      ensures written == |data| || size == buffer.Length
    {
      hide Ring.Contents;
      written := 0;
      while size < buffer.Length && written < |data|
        invariant Value().Valid() && written <= |data|
        invariant Value().Contents() == old(Value()).Contents() + data[..written]
        decreases |data| - written
      {
        ghost var before := Value();
        before.PutAppends(data[written]);
        buffer[writePosition] := data[written];
        written := written + 1;
        size := size + 1;
        writePosition := (writePosition + 1) % buffer.Length;
        assert buffer[..] == before.buffer[before.writePosition := data[written - 1]];
        assert Value() == before.Put(data[written - 1]);
        assert data[..written] == data[..written - 1] + [data[written - 1]];
      }
    }
  }
}
