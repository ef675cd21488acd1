/** What the line discipline of a pseudo terminal does to whole buffers, flag by flag: sections
    11.2.2, 11.2.3 and 11.2.5 of the Base Definitions of POSIX.1-2008 as far as pty.c implements
    them. */
module PtyLaws {
  import opened Bytes
  import opened PtyProtocol
  import opened PtyLine

  /** Every `from` becomes `to`, position by position. */
  function Replace(data: seq<byte>, from: byte, to: byte): (r: seq<byte>)
    ensures |r| == |data| && forall i :: 0 <= i < |data| ==> r[i] == if data[i] == from then to else data[i]
  {
    seq(|data|, i requires 0 <= i < |data| => if data[i] == from then to else data[i])
  }

  /** Every c goes. */
  function Without(data: seq<byte>, c: byte, i: nat): seq<byte>
    requires i <= |data|
  {
    if i == 0 then []
    else if data[i - 1] == c then Without(data, c, i - 1)
    else Without(data, c, i - 1) + [data[i - 1]]
  }

  // ---------------------------------------------------------------------------------------
  // Input

  /** What the slave receives when data is written to the master. */
  function Received(tio: Termios, data: seq<byte>): seq<byte> {
    Text(WriteCall(Master, tio, data), |data|, Slave)
  }

  lemma OneReceived(tio: Termios, data: seq<byte>)
    requires |data| == 1
    ensures Received(tio, data) == SlaveBytes(tio, data[0])
  {
    hide SlaveBytes;
    assert Text(WriteCall(Master, tio, data), 0, Slave) == [];
  }

  lemma {:induction false} ReplacedUpTo(tio: Termios, data: seq<byte>, i: nat, from: byte, to: byte)
    requires i <= |data| && forall c :: SlaveBytes(tio, c) == [if c == from then to else c]
    ensures Text(WriteCall(Master, tio, data), i, Slave) == Replace(data, from, to)[..i]
    decreases i
  {
    hide SlaveBytes;
    if i > 0 {
      ReplacedUpTo(tio, data, i - 1, from, to);
    }
  }

  ghost predicate InputReplaces(tio: Termios, from: byte, to: byte) {
    forall data :: Received(tio, data) == Replace(data, from, to)
  }

  lemma InputByByte(tio: Termios, from: byte, to: byte)
    ensures InputReplaces(tio, from, to) <==> forall c :: SlaveBytes(tio, c) == [if c == from then to else c]
  {
    hide SlaveBytes;
    if forall c :: SlaveBytes(tio, c) == [if c == from then to else c] {
      forall data ensures Received(tio, data) == Replace(data, from, to) {
        ReplacedUpTo(tio, data, |data|, from, to);
      }
    }
    if InputReplaces(tio, from, to) {
      forall c ensures SlaveBytes(tio, c) == [if c == from then to else c] {
        OneReceived(tio, [c]);
        assert Received(tio, [c]) == Replace([c], from, to);
      }
    }
  }

  /** Input is stored unchanged if and only if none of the four flags is set. */
  lemma InputUnchanged(tio: Termios)
    ensures InputReplaces(tio, NEWLINE, NEWLINE) <==> !tio.inlcr && !tio.igncr && !tio.icrnl && !tio.iuclc
    ensures forall data :: Replace(data, NEWLINE, NEWLINE) == data
  {
    hide Received;
    InputByByte(tio, NEWLINE, NEWLINE);
    CriticalBytes(tio);
  }

  /** Every return is stored as a newline, and nothing else changes, if and only if ICRNL is the only
      flag set. The default flags are such: the Enter key gives a newline. */
  lemma EnterIsNewline(tio: Termios)
    ensures InputReplaces(tio, RETURN, NEWLINE) <==> tio.icrnl && !tio.inlcr && !tio.igncr && !tio.iuclc
    ensures InputReplaces(DEFAULT_TERMIOS, RETURN, NEWLINE)
  {
    hide Received;
    InputByByte(tio, RETURN, NEWLINE);
    InputByByte(DEFAULT_TERMIOS, RETURN, NEWLINE);
    CriticalBytes(tio);
  }

  /** Every newline is stored as a return, and nothing else changes, if and only if INLCR is the only
      flag set. */
  lemma NewlineIsReturn(tio: Termios)
    ensures InputReplaces(tio, NEWLINE, RETURN) <==> tio.inlcr && !tio.icrnl && !tio.igncr && !tio.iuclc
  {
    hide Received;
    InputByByte(tio, NEWLINE, RETURN);
    CriticalBytes(tio);
  }

  /** What becomes of the three bytes that tell the flags apart. */
  lemma CriticalBytes(tio: Termios)
    ensures SlaveBytes(tio, NEWLINE) == [if tio.inlcr then RETURN else NEWLINE]
    ensures SlaveBytes(tio, RETURN) == if tio.igncr then [] else [if tio.icrnl then NEWLINE else RETURN]
    ensures SlaveBytes(tio, 65) == [if tio.iuclc then 97 else 65]
  {
  }

  /** With IGNCR the slave never sees a return that was written; without INLCR and IUCLC it sees
      exactly the rest. */
  lemma {:induction false} ReturnsIgnored(tio: Termios, data: seq<byte>, i: nat)
    requires i <= |data| && tio.igncr && !tio.inlcr && !tio.iuclc
    ensures Text(WriteCall(Master, tio, data), i, Slave) == Without(data, RETURN, i)
    decreases i
  {
    if i > 0 {
      ReturnsIgnored(tio, data, i - 1);
    }
  }

  /** The letters A to Z become a to z, position by position. */
  function Lowered(data: seq<byte>): (r: seq<byte>)
    ensures |r| == |data|
    ensures forall i :: 0 <= i < |data| ==>
              r[i] == if 'A' as int <= data[i] <= 'Z' as int then data[i] + 32 else data[i]
  {
    seq(|data|, i requires 0 <= i < |data| => if 'A' as int <= data[i] <= 'Z' as int then data[i] + 32 else data[i])
  }

  /** IUCLC is lower-casing before everything else. */
  lemma {:induction false} LoweredFirst(tio: Termios, data: seq<byte>, i: nat)
    requires i <= |data| && tio.iuclc
    ensures Text(WriteCall(Master, tio, data), i, Slave)
         == Text(WriteCall(Master, tio.(iuclc := false), Lowered(data)), i, Slave)
    decreases i
  {
    if i > 0 {
      LoweredFirst(tio, data, i - 1);
    }
  }

  // ---------------------------------------------------------------------------------------
  // Echo

  /** What one byte written to the master sends back to it. */
  function Echoed(tio: Termios, c: byte): seq<byte> {
    ByteText(WriteCall(Master, tio, [c]), c, Master)
  }

  /** Under the default flags: printable bytes and tabs as themselves, returns and newlines as both,
      other control codes as ^ and a letter, DELETE as ^?. */
  lemma EchoDefault(c: byte)
    requires c < 128
    ensures Echoed(DEFAULT_TERMIOS, c) ==
            if c == RETURN || c == NEWLINE then [RETURN, NEWLINE]
            else if c == TAB || 32 <= c < 127 then [c]
            else if c == 127 then ['^' as int, '?' as int]
            else ['^' as int, '@' as int + c]
  {
    var tio := DEFAULT_TERMIOS;
    var s := EchoOf(tio, c);
    EchoText(tio, s, true);
  }

  lemma EchoText(tio: Termios, s: seq<byte>, echo: bool)
    ensures |s| == 1 ==> MasterText(tio, s, 1, echo) == MasterBytes(tio, s[0], echo)
    ensures |s| == 2 ==> MasterText(tio, s, 2, echo) == MasterBytes(tio, s[0], echo) + MasterBytes(tio, s[1], echo)
  {
    hide MasterBytes;
    assert MasterText(tio, s, 0, echo) == [];
    if |s| == 1 || |s| == 2 {
      assert MasterText(tio, s, 1, echo) == [] + MasterBytes(tio, s[0], echo);
    }
  }

  lemma OutputPrefix(todo: seq<Instr>, p: nat, n: Side)
    requires p <= |todo|
    ensures Output(todo[..p], n) <= Output(todo, n)
  {
    OutputConcat(todo[..p], todo[p..], n);
    assert todo[..p] + todo[p..] == todo;
  }

  /** A byte is stored in the slave before it is echoed, and echoed before the next is stored: after
      any part of the loop of pty_do_write_slave, some first k bytes have been stored, and all of
      them have been echoed but perhaps, in whole or in part, the last. */
  lemma {:induction false} EchoFollowsStore(call: Call, i: nat, p: nat) returns (k: nat)
    requires call.WriteCall? && call.n == Master && i <= |call.data| && p <= |SlaveLoop(call.tio, call.data, i)|
    ensures k <= i
    ensures Output(SlaveLoop(call.tio, call.data, i)[..p], Slave) == Text(call, k, Slave)
    ensures Output(SlaveLoop(call.tio, call.data, i)[..p], Master) <= Text(call, k, Master)
    ensures k > 0 ==> Text(call, k - 1, Master) <= Output(SlaveLoop(call.tio, call.data, i)[..p], Master)
    decreases i
  {
    hide Output, SlaveByte, Text, ByteText;
    if i == 0 {
      k := 0;
      NothingDone(call);
    } else {
      var front := SlaveLoop(call.tio, call.data, i - 1);
      var turn := SlaveByte(call.tio, call.data[i - 1]);
      if p <= |front| {
        k := EchoFollowsStore(call, i - 1, p);
        assert (front + turn)[..p] == front[..p];
      } else {
        var q := p - |front|;
        assert (front + turn)[..p] == front + turn[..q];
        SlaveLoopOutput(call, i - 1, Slave);
        SlaveLoopOutput(call, i - 1, Master);
        OutputConcat(front, turn[..q], Slave);
        OutputConcat(front, turn[..q], Master);
        TurnOrder(call, call.data[i - 1], q);
        TextStep(call, i);
        k := i;
      }
    }
  }

  lemma NothingDone(call: Call)
    requires call.WriteCall? && call.n == Master
    ensures Output([], Slave) == [] && Output([], Master) == []
    ensures Text(call, 0, Slave) == [] && Text(call, 0, Master) == []
  {
  }

  lemma TextStep(call: Call, i: nat)
    requires call.WriteCall? && 0 < i <= |call.data|
    ensures Text(call, i, Slave) == Text(call, i - 1, Slave) + ByteText(call, call.data[i - 1], Slave)
    ensures Text(call, i, Master) == Text(call, i - 1, Master) + ByteText(call, call.data[i - 1], Master)
  {
    hide ByteText;
  }

  /** Whatever has been done of one turn, its store comes first. */
  lemma TurnOrder(call: Call, c: byte, q: nat)
    requires call.WriteCall? && call.n == Master && 0 < q <= |SlaveByte(call.tio, c)|
    ensures Output(SlaveByte(call.tio, c)[..q], Slave) == ByteText(call, c, Slave)
    ensures Output(SlaveByte(call.tio, c)[..q], Master) <= ByteText(call, c, Master)
  {
    hide Output, ByteText, SlavePuts, EchoPuts;
    var turn := SlaveByte(call.tio, c);
    SlaveByteOutput(call, c, Slave);
    SlaveByteOutput(call, c, Master);
    OutputPrefix(turn, q, Master);
    StoreFirst(call.tio, c, q);
  }

  lemma StoreFirst(tio: Termios, c: byte, q: nat)
    requires 0 < q <= |SlaveByte(tio, c)|
    ensures Output(SlaveByte(tio, c)[..q], Slave) == Output(SlaveByte(tio, c), Slave)
  {
    hide Output, SlaveBytes, EchoPuts;
    var puts, echo := SlavePuts(tio, c), EchoPuts(tio, c);
    var r := q - |puts|;
    assert SlaveByte(tio, c)[..q] == puts + echo[..r];
    OutputConcat(puts, echo[..r], Slave);
    OutputConcat(puts, echo, Slave);
    EchoStoresElsewhere(tio, c);
    OutputPrefix(echo, r, Slave);
  }

  lemma EchoStoresElsewhere(tio: Termios, c: byte)
    ensures Output(EchoPuts(tio, c), Slave) == []
  {
    hide Output, MasterLoop;
    NothingAtAll();
    var s := EchoOf(tio, c);
    MasterLoopOutput(tio, s, |s|, true, Slave);
    LockedOutput(Master, MasterLoop(tio, s, |s|, true), Slave);
  }

  lemma NothingAtAll()
    ensures Output([], Slave) == []
  {
  }

  /** A backspace rubs out the character before it when ECHO and ICANON are set and ECHOCTL is not. */
  lemma EchoRubsOut(tio: Termios)
    requires tio.echo && tio.icanon && !tio.echoctl
    ensures Echoed(tio, BACKSPACE) == [BACKSPACE, SPACE, BACKSPACE]
  {
    EchoText(tio, [BACKSPACE], true);
  }

  /** Nothing is ever echoed if and only if ECHO and ECHONL are both off; with ECHONL alone, only
      newlines are. */
  lemma EchoOff(tio: Termios)
    ensures (forall c :: Echoed(tio, c) == []) <==> !tio.echo && !tio.echonl
    ensures !tio.echo ==> forall c :: Echoed(tio, c) != [] ==> c == NEWLINE
  {
    hide MasterText;
    EchoText(tio, [NEWLINE], true);
    assert Echoed(tio, NEWLINE) == if tio.echo || tio.echonl then MasterBytes(tio, NEWLINE, true) else [];
  }

  // ---------------------------------------------------------------------------------------
  // Output

  /** What the master receives when data is written to the slave. */
  function Shown(tio: Termios, data: seq<byte>): seq<byte> {
    Text(WriteCall(Slave, tio, data), |data|, Master)
  }

  lemma OneShown(tio: Termios, data: seq<byte>)
    requires |data| == 1
    ensures Shown(tio, data) == MasterBytes(tio, data[0], false)
  {
    hide MasterBytes;
    assert Text(WriteCall(Slave, tio, data), 0, Master) == [];
  }

  lemma {:induction false} ShownUpTo(tio: Termios, data: seq<byte>, i: nat, from: byte, to: byte)
    requires i <= |data| && forall c :: MasterBytes(tio, c, false) == [if c == from then to else c]
    ensures Text(WriteCall(Slave, tio, data), i, Master) == Replace(data, from, to)[..i]
    decreases i
  {
    hide MasterBytes;
    if i > 0 {
      ShownUpTo(tio, data, i - 1, from, to);
    }
  }

  ghost predicate OutputReplaces(tio: Termios, from: byte, to: byte) {
    forall data :: Shown(tio, data) == Replace(data, from, to)
  }

  lemma OutputByByte(tio: Termios, from: byte, to: byte)
    ensures OutputReplaces(tio, from, to) <==> forall c :: MasterBytes(tio, c, false) == [if c == from then to else c]
  {
    hide MasterBytes;
    if forall c :: MasterBytes(tio, c, false) == [if c == from then to else c] {
      forall data ensures Shown(tio, data) == Replace(data, from, to) {
        ShownUpTo(tio, data, |data|, from, to);
      }
    }
    if OutputReplaces(tio, from, to) {
      forall c ensures MasterBytes(tio, c, false) == [if c == from then to else c] {
        OneShown(tio, [c]);
        assert Shown(tio, [c]) == Replace([c], from, to);
      }
    }
  }

  /** Output is shown unchanged if and only if ONLRET is off and OPOST comes with neither ONLCR nor
      OCRNL. */
  lemma OutputUnchanged(tio: Termios)
    ensures OutputReplaces(tio, NEWLINE, NEWLINE) <==> !tio.onlret && !(tio.opost && (tio.onlcr || tio.ocrnl))
  {
    hide Shown;
    OutputByByte(tio, NEWLINE, NEWLINE);
    var cr, nl := MasterBytes(tio, RETURN, false), MasterBytes(tio, NEWLINE, false);
    assert cr == if tio.onlret then [] else [if tio.opost && tio.ocrnl then NEWLINE else RETURN];
  }

  /** Every return is shown as a newline, and nothing else changes, if and only if OPOST and OCRNL are
      set and ONLCR and ONLRET are not. */
  lemma ReturnIsNewline(tio: Termios)
    ensures OutputReplaces(tio, RETURN, NEWLINE) <==> tio.opost && tio.ocrnl && !tio.onlcr && !tio.onlret
  {
    hide Shown;
    OutputByByte(tio, RETURN, NEWLINE);
    var cr, nl := MasterBytes(tio, RETURN, false), MasterBytes(tio, NEWLINE, false);
    assert cr == if tio.onlret then [] else [if tio.opost && tio.ocrnl then NEWLINE else RETURN];
  }
}
