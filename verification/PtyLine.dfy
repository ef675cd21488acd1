/** The line discipline of a pseudo terminal: pty_do_write_master, pty_echo_one_character and
    pty_do_write_slave in source/drivers/char/terminal/pty.c. It turns the bytes of one
    write() into a list of pty_do_write calls on the two nodes, under the two locks. */
module PtyLine {
  import opened Bytes
  import opened PtyProtocol

  const BACKSPACE: byte := 8
  const TAB: byte := 9
  const NEWLINE: byte := 10
  const RETURN: byte := 13
  const SPACE: byte := 32
  const DELETE: byte := 127

  /** The termios flags the driver looks at. */
  datatype Termios = Termios(
    opost: bool, onlcr: bool, ocrnl: bool, onlret: bool,
    icanon: bool, echo: bool, echonl: bool, echoctl: bool,
    inlcr: bool, igncr: bool, icrnl: bool, iuclc: bool)

  /** The flags pty_create sets. */
  const DEFAULT_TERMIOS := Termios(
    true, true, false, false,
    true, true, false, true,
    false, false, true, false)

  // ---------------------------------------------------------------------------------------
  // One byte

  /** What pty_do_write_master stores for one byte: at most one pty_do_write. */
  function MasterBytes(tio: Termios, c: byte, echo: bool): (s: seq<byte>)
    ensures |s| <= 3
  {
    if c == NEWLINE then
      if tio.opost && tio.onlcr then [RETURN, NEWLINE] else [NEWLINE]
    else if c == RETURN then
      if (!tio.opost && !tio.onlret) || (tio.opost && !tio.onlret) then
        if tio.opost && tio.ocrnl then [NEWLINE] else [RETURN]
      else []
    else if c == BACKSPACE then
      if echo && tio.icanon then [BACKSPACE, SPACE, BACKSPACE] else [BACKSPACE]
    else [c]
  }

  function MasterPuts(tio: Termios, c: byte, echo: bool): seq<Instr> {
    var s := MasterBytes(tio, c, echo);
    if s == [] then [] else [Put(Master, s)]
  }

  /** The loop of pty_do_write_master over the first i bytes. */
  function MasterLoop(tio: Termios, data: seq<byte>, i: nat, echo: bool): seq<Instr>
    requires i <= |data|
  {
    if i == 0 then [] else MasterLoop(tio, data, i - 1, echo) + MasterPuts(tio, data[i - 1], echo)
  }

  function WriteMaster(tio: Termios, data: seq<byte>, echo: bool): seq<Instr> {
    [Acquire(Master)] + (MasterLoop(tio, data, |data|, echo) + [Release(Master)])
  }

  /** char is signed: bytes from 128 on compare less than a space. */
  predicate IsControl(c: byte) {
    c < SPACE || c >= 128 || c == DELETE
  }

  /** What pty_echo_one_character hands to pty_do_write_master. */
  function EchoBytes(tio: Termios, c: byte): seq<byte> {
    var c' := if c == RETURN && tio.icrnl then NEWLINE else c;
    if tio.echoctl && IsControl(c') && c' != NEWLINE && c' != TAB then
      [94, if c' == DELETE then 63 else (c' + 64) % 256]
    else [c']
  }

  function ToLower(c: byte): byte {
    if 65 <= c <= 90 then c + 32 else c
  }

  function Typed(tio: Termios, raw: byte): byte {
    if tio.iuclc then ToLower(raw) else raw
  }

  /** What pty_do_write_slave stores in the slave for one byte. */
  function SlaveBytes(tio: Termios, raw: byte): (s: seq<byte>)
    ensures |s| <= 1
  {
    var c := Typed(tio, raw);
    if c == NEWLINE then [if tio.inlcr then RETURN else NEWLINE]
    else if c == RETURN then if tio.igncr then [] else [if tio.icrnl then NEWLINE else RETURN]
    else [c]
  }

  predicate Echoes(tio: Termios, raw: byte) {
    if Typed(tio, raw) == NEWLINE then tio.echo || tio.echonl else tio.echo
  }

  /** What it sends back to the master for one byte, if anything. */
  function EchoOf(tio: Termios, raw: byte): seq<byte> {
    var c := Typed(tio, raw);
    if c == NEWLINE then [NEWLINE] else EchoBytes(tio, c)
  }

  function SlavePuts(tio: Termios, raw: byte): seq<Instr> {
    var s := SlaveBytes(tio, raw);
    if s == [] then [] else [Put(Slave, s)]
  }

  function EchoPuts(tio: Termios, raw: byte): seq<Instr> {
    if Echoes(tio, raw) then WriteMaster(tio, EchoOf(tio, raw), true) else []
  }

  /** One turn of the loop of pty_do_write_slave. */
  function SlaveByte(tio: Termios, raw: byte): seq<Instr> {
    SlavePuts(tio, raw) + EchoPuts(tio, raw)
  }

  function SlaveLoop(tio: Termios, data: seq<byte>, i: nat): seq<Instr>
    requires i <= |data|
  {
    if i == 0 then [] else SlaveLoop(tio, data, i - 1) + SlaveByte(tio, data[i - 1])
  }

  function WriteSlave(tio: Termios, data: seq<byte>): seq<Instr> {
    [Acquire(Slave)] + (SlaveLoop(tio, data, |data|) + [Release(Slave)])
  }

  /** The body of the loop in pty_do_write_master. */
  method MasterTurn(tio: Termios, c: byte, echo: bool) returns (turn: seq<Instr>)
    ensures turn == MasterPuts(tio, c, echo)
  {
    turn := [];
    if c == NEWLINE {
      if tio.opost && tio.onlcr {
        turn := [Put(Master, [RETURN, NEWLINE])];
      } else {
        turn := [Put(Master, [NEWLINE])];
      }
    } else if c == RETURN {
      var hascr := (!tio.opost && !tio.onlret) || (tio.opost && !tio.onlret);
      if hascr {
        if tio.opost && tio.ocrnl {
          turn := [Put(Master, [NEWLINE])];
        } else {
          turn := [Put(Master, [RETURN])];
        }
      }
    } else if c == BACKSPACE {
      if echo && tio.icanon {
        turn := [Put(Master, [BACKSPACE, SPACE, BACKSPACE])];
      } else {
        turn := [Put(Master, [BACKSPACE])];
      }
    } else {
      turn := [Put(Master, [c])];
    }
  }

  /** pty_do_write_master as the loop it is. */
  method DoWriteMaster(tio: Termios, buffer: seq<byte>, echo: bool) returns (todo: seq<Instr>)
    ensures todo == WriteMaster(tio, buffer, echo)
  {
    hide MasterPuts;
    ghost var lock := [Acquire(Master)];
    todo := [Acquire(Master)];
    for i := 0 to |buffer|
      invariant todo == lock + MasterLoop(tio, buffer, i, echo)
    {
      var turn := MasterTurn(tio, buffer[i], echo);
      todo := todo + turn;
      assert todo == lock + (MasterLoop(tio, buffer, i, echo) + MasterPuts(tio, buffer[i], echo));
    }
    todo := todo + [Release(Master)];
  }

  /** The body of the loop in pty_do_write_slave. */
  method SlaveTurn(tio: Termios, raw: byte) returns (turn: seq<Instr>)
    ensures turn == SlaveByte(tio, raw)
  {
    hide WriteMaster, EchoBytes;
    var c := raw;
    if tio.iuclc { c := ToLower(c); }
    turn := [];
    var echoed := [];
    if c == NEWLINE {
      turn := [Put(Slave, [if tio.inlcr then RETURN else NEWLINE])];
      if tio.echo || tio.echonl {
        echoed := DoWriteMaster(tio, [NEWLINE], true);
      }
    } else {
      if c == RETURN {
        if !tio.igncr {
          turn := [Put(Slave, [if tio.icrnl then NEWLINE else RETURN])];
        }
      } else {
        turn := [Put(Slave, [c])];
      }
      if tio.echo {
        echoed := DoWriteMaster(tio, EchoBytes(tio, c), true);
      }
    }
    turn := turn + echoed;
  }

  /** pty_do_write_slave as the loop it is. */
  method DoWriteSlave(tio: Termios, buffer: seq<byte>) returns (todo: seq<Instr>)
    ensures todo == WriteSlave(tio, buffer)
  {
    hide SlaveByte;
    ghost var lock := [Acquire(Slave)];
    todo := [Acquire(Slave)];
    for i := 0 to |buffer|
      invariant todo == lock + SlaveLoop(tio, buffer, i)
    {
      var turn := SlaveTurn(tio, buffer[i]);
      todo := todo + turn;
      assert todo == lock + (SlaveLoop(tio, buffer, i) + SlaveByte(tio, buffer[i]));
    }
    todo := todo + [Release(Slave)];
  }

  // ---------------------------------------------------------------------------------------
  // Calls respect the protocol

  lemma {:induction false} MasterLoopOk(tio: Termios, data: seq<byte>, i: nat, echo: bool, held: set<Side>,
                                        rest: seq<Instr>)
    requires i <= |data| && Master in held && WellFormed(rest, held)
    ensures WellFormed(MasterLoop(tio, data, i, echo) + rest, held)
    decreases i
  {
    hide MasterBytes;
    if i == 0 {
      assert MasterLoop(tio, data, 0, echo) + rest == rest;
    } else {
      var puts := MasterPuts(tio, data[i - 1], echo);
      if puts == [] {
        assert puts + rest == rest;
      } else {
        assert (puts + rest)[1..] == rest;
      }
      MasterLoopOk(tio, data, i - 1, echo, held, puts + rest);
      assert MasterLoop(tio, data, i - 1, echo) + (puts + rest) == MasterLoop(tio, data, i, echo) + rest;
    }
  }

  lemma WriteMasterOk(tio: Termios, data: seq<byte>, echo: bool, held: set<Side>, rest: seq<Instr>)
    requires Master !in held && WellFormed(rest, held)
    ensures WellFormed(WriteMaster(tio, data, echo) + rest, held)
  {
    hide MasterLoop;
    var body, tail := MasterLoop(tio, data, |data|, echo), [Release(Master)] + rest;
    assert tail[1..] == rest && held + {Master} - {Master} == held;
    MasterLoopOk(tio, data, |data|, echo, held + {Master}, tail);
    assert (WriteMaster(tio, data, echo) + rest)[1..] == body + tail;
  }

  lemma SlaveByteOk(tio: Termios, c: byte, rest: seq<Instr>)
    requires WellFormed(rest, {Slave})
    ensures WellFormed(SlaveByte(tio, c) + rest, {Slave})
  {
    hide WriteMaster, EchoOf, Echoes, SlaveBytes;
    var puts, echo := SlavePuts(tio, c), EchoPuts(tio, c);
    if echo == [] {
      assert echo + rest == rest;
    } else {
      WriteMasterOk(tio, EchoOf(tio, c), true, {Slave}, rest);
    }
    assert SlaveByte(tio, c) + rest == puts + (echo + rest);
    if puts == [] {
      assert puts + (echo + rest) == echo + rest;
    } else {
      assert (puts + (echo + rest))[1..] == echo + rest;
    }
  }

  lemma {:induction false} SlaveLoopOk(tio: Termios, data: seq<byte>, i: nat, rest: seq<Instr>)
    requires i <= |data| && WellFormed(rest, {Slave})
    ensures WellFormed(SlaveLoop(tio, data, i) + rest, {Slave})
    decreases i
  {
    hide SlaveByte;
    if i == 0 {
      assert SlaveLoop(tio, data, 0) + rest == rest;
    } else {
      SlaveByteOk(tio, data[i - 1], rest);
      SlaveLoopOk(tio, data, i - 1, SlaveByte(tio, data[i - 1]) + rest);
      assert SlaveLoop(tio, data, i - 1) + (SlaveByte(tio, data[i - 1]) + rest) == SlaveLoop(tio, data, i) + rest;
    }
  }

  /** read() on a node, or write() on a node, which stores into its partner. */
  datatype Call = ReadCall(n: Side, want: nat) | WriteCall(n: Side, tio: Termios, data: seq<byte>)

  function Program(call: Call): seq<Instr> {
    match call
    case ReadCall(n, want) => ReadProgram(n, want)
    case WriteCall(Master, tio, data) => WriteSlave(tio, data)
    case WriteCall(Slave, tio, data) => WriteMaster(tio, data, false)
  }

  /** Every call of the driver respects the locking protocol. */
  lemma ProgramOk(call: Call)
    ensures WellFormed(Program(call), {})
  {
    match call {
      case ReadCall(n, want) =>
        ReadWellFormed(n, want);
      case WriteCall(Master, tio, data) =>
        var tail := [Release(Slave)];
        assert tail[1..] == [] && {Slave} - {Slave} == {} && {} + {Slave} == {Slave};
        SlaveLoopOk(tio, data, |data|, tail);
        assert WriteSlave(tio, data)[1..] == SlaveLoop(tio, data, |data|) + tail;
      case WriteCall(Slave, tio, data) =>
        WriteMasterOk(tio, data, false, {}, []);
        assert WriteMaster(tio, data, false) + [] == WriteMaster(tio, data, false);
    }
  }

  // ---------------------------------------------------------------------------------------
  // What a call stores

  /** All the bytes that a list of instructions stores in node n. */
  function Output(todo: seq<Instr>, n: Side): seq<byte> {
    if todo == [] then [] else StoredBy(todo[0], n) + Output(todo[1..], n)
  }

  function StoredBy(i: Instr, n: Side): seq<byte> {
    if i.Put? && i.n == n then i.data else []
  }

  lemma {:induction false} OutputConcat(a: seq<Instr>, b: seq<Instr>, n: Side)
    ensures Output(a + b, n) == Output(a, n) + Output(b, n)
    decreases |a|
  {
    hide StoredBy;
    if a == [] {
      assert a + b == b;
    } else {
      OutputConcat(a[1..], b, n);
      assert (a + b)[1..] == a[1..] + b;
      assert Output(a + b, n) == StoredBy(a[0], n) + (Output(a[1..], n) + Output(b, n));
    }
  }

  /** The translation of a whole buffer on its way to the master. */
  function MasterText(tio: Termios, data: seq<byte>, i: nat, echo: bool): seq<byte>
    requires i <= |data|
  {
    if i == 0 then [] else MasterText(tio, data, i - 1, echo) + MasterBytes(tio, data[i - 1], echo)
  }

  /** What one write() stores in each node: its own translation and, for input, the echo. */
  function Text(call: Call, i: nat, n: Side): seq<byte>
    requires call.WriteCall? && i <= |call.data|
  {
    if i == 0 then [] else Text(call, i - 1, n) + ByteText(call, call.data[i - 1], n)
  }

  function ByteText(call: Call, c: byte, n: Side): seq<byte>
    requires call.WriteCall?
  {
    var tio := call.tio;
    if call.n == Slave then if n == Master then MasterBytes(tio, c, false) else []
    else if n == Slave then SlaveBytes(tio, c)
    else if Echoes(tio, c) then MasterText(tio, EchoOf(tio, c), |EchoOf(tio, c)|, true)
    else []
  }

  lemma OutputOne(i: Instr, n: Side)
    ensures Output([i], n) == if i.Put? && i.n == n then i.data else []
  {
    assert [i][1..] == [];
  }

  lemma {:induction false} MasterLoopOutput(tio: Termios, data: seq<byte>, i: nat, echo: bool, n: Side)
    requires i <= |data|
    ensures Output(MasterLoop(tio, data, i, echo), n) == if n == Master then MasterText(tio, data, i, echo) else []
    decreases i
  {
    hide MasterBytes, MasterPuts, Output;
    if i == 0 {
      NoOutput(n);
    } else {
      MasterLoopOutput(tio, data, i - 1, echo, n);
      var c := data[i - 1];
      OutputConcat(MasterLoop(tio, data, i - 1, echo), MasterPuts(tio, c, echo), n);
      MasterPutsOutput(tio, c, echo, n);
    }
  }

  lemma NoOutput(n: Side)
    ensures Output([], n) == []
  {
  }

  lemma MasterPutsOutput(tio: Termios, c: byte, echo: bool, n: Side)
    ensures Output(MasterPuts(tio, c, echo), n) == if n == Master then MasterBytes(tio, c, echo) else []
  {
    hide MasterBytes;
    OutputOne(Put(Master, MasterBytes(tio, c, echo)), n);
  }

  lemma LockedOutput(n: Side, body: seq<Instr>, k: Side)
    ensures Output([Acquire(n)] + (body + [Release(n)]), k) == Output(body, k)
  {
    OutputConcat([Acquire(n)], body + [Release(n)], k);
    OutputConcat(body, [Release(n)], k);
    OutputOne(Acquire(n), k);
    OutputOne(Release(n), k);
  }

  lemma SlaveByteOutput(call: Call, c: byte, n: Side)
    requires call.WriteCall? && call.n == Master
    ensures Output(SlaveByte(call.tio, c), n) == ByteText(call, c, n)
  {
    hide SlaveBytes, EchoOf, Echoes, MasterLoop, MasterText;
    var tio := call.tio;
    OutputConcat(SlavePuts(tio, c), EchoPuts(tio, c), n);
    OutputOne(Put(Slave, SlaveBytes(tio, c)), n);
    var e := EchoOf(tio, c);
    LockedOutput(Master, MasterLoop(tio, e, |e|, true), n);
    MasterLoopOutput(tio, e, |e|, true, n);
  }

  lemma {:induction false} SlaveLoopOutput(call: Call, i: nat, n: Side)
    requires call.WriteCall? && call.n == Master && i <= |call.data|
    ensures Output(SlaveLoop(call.tio, call.data, i), n) == Text(call, i, n)
    decreases i
  {
    hide SlaveByte, ByteText;
    if i > 0 {
      SlaveLoopOutput(call, i - 1, n);
      SlaveByteOutput(call, call.data[i - 1], n);
      OutputConcat(SlaveLoop(call.tio, call.data, i - 1), SlaveByte(call.tio, call.data[i - 1]), n);
    }
  }

  lemma {:induction false} MasterCallText(call: Call, i: nat, n: Side)
    requires call.WriteCall? && call.n == Slave && i <= |call.data|
    ensures Text(call, i, n) == if n == Master then MasterText(call.tio, call.data, i, false) else []
    decreases i
  {
    hide MasterBytes;
    if i > 0 {
      MasterCallText(call, i - 1, n);
    }
  }

  /** The instructions of a write() store exactly the byte-by-byte translation of its data. */
  lemma ProgramOutput(call: Call, n: Side)
    ensures Output(Program(call), n) == if call.WriteCall? then Text(call, |call.data|, n) else []
  {
    hide SlaveLoop, MasterLoop, Text, MasterText;
    match call {
      case ReadCall(k, want) =>
        ReadStoresNothing(k, want, n);
      case WriteCall(Master, tio, data) =>
        LockedOutput(Slave, SlaveLoop(tio, data, |data|), n);
        SlaveLoopOutput(call, |data|, n);
      case WriteCall(Slave, tio, data) =>
        LockedOutput(Master, MasterLoop(tio, data, |data|, false), n);
        MasterLoopOutput(tio, data, |data|, false, n);
        MasterCallText(call, |data|, n);
    }
  }

  lemma ReadStoresNothing(k: Side, want: nat, n: Side)
    ensures Output(ReadProgram(k, want), n) == []
  {
    var p := ReadProgram(k, want);
    assert p == [Acquire(k)] + ([Await(k)] + ([Drain(k, want)] + ([Release(k)] + [WakeWriters(k)])));
    OutputConcat([Acquire(k)], [Await(k)] + ([Drain(k, want)] + ([Release(k)] + [WakeWriters(k)])), n);
    OutputConcat([Await(k)], [Drain(k, want)] + ([Release(k)] + [WakeWriters(k)]), n);
    OutputConcat([Drain(k, want)], [Release(k)] + [WakeWriters(k)], n);
    OutputConcat([Release(k)], [WakeWriters(k)], n);
    OutputOne(Acquire(k), n);
    OutputOne(Await(k), n);
    OutputOne(Drain(k, want), n);
    OutputOne(Release(k), n);
    OutputOne(WakeWriters(k), n);
  }

  /** Writing a and then b stores what writing a ++ b stores. */
  lemma {:induction false} WritesCompose(call: Call, more: seq<byte>, i: nat, n: Side)
    requires call.WriteCall? && i <= |more|
    ensures var whole := call.(data := call.data + more);
            Text(whole, |call.data| + i, n) == Text(call, |call.data|, n) + Text(call.(data := more), i, n)
    decreases i
  {
    hide ByteText;
    var whole := call.(data := call.data + more);
    if i == 0 {
      TextOfPrefix(call, more, |call.data|, n);
    } else {
      WritesCompose(call, more, i - 1, n);
      assert whole.data[|call.data| + i - 1] == more[i - 1];
      assert ByteText(whole, more[i - 1], n) == ByteText(call.(data := more), more[i - 1], n) by {
        SameByteText(whole, call.(data := more), more[i - 1], n);
      }
    }
  }

  lemma SameByteText(a: Call, b: Call, c: byte, n: Side)
    requires a.WriteCall? && b.WriteCall? && a.n == b.n && a.tio == b.tio
    ensures ByteText(a, c, n) == ByteText(b, c, n)
  {
  }

  lemma {:induction false} TextOfPrefix(call: Call, more: seq<byte>, i: nat, n: Side)
    requires call.WriteCall? && i <= |call.data|
    ensures Text(call.(data := call.data + more), i, n) == Text(call, i, n)
    decreases i
  {
    hide ByteText;
    if i > 0 {
      TextOfPrefix(call, more, i - 1, n);
      SameByteText(call.(data := call.data + more), call, call.data[i - 1], n);
    }
  }

  // ---------------------------------------------------------------------------------------
  // Undoing ONLCR

  /** Delete the carriage return in front of each newline. */
  function StripReturns(s: seq<byte>): seq<byte> {
    if s == [] then []
    else if |s| >= 2 && s[0] == RETURN && s[1] == NEWLINE then [NEWLINE] + StripReturns(s[2..])
    else [s[0]] + StripReturns(s[1..])
  }

  /** With output processing, newline mapping and no other mapping (the default flags are
      such), what a program writes can be recovered from what the terminal receives. */
  lemma {:induction false} OnlcrUndone(tio: Termios, data: seq<byte>)
    requires OnlyOnlcr(tio)
    ensures StripReturns(MasterText(tio, data, |data|, false)) == data
  {
    OnlcrUndoneBefore(tio, data, |data|, []);
    assert data[..|data|] == data;
    assert MasterText(tio, data, |data|, false) + [] == MasterText(tio, data, |data|, false);
    assert data + [] == data;
  }

  /** The flags under which OnlcrUndone recovers the data. */
  predicate OnlyOnlcr(tio: Termios) {
    tio.opost && tio.onlcr && !tio.ocrnl && !tio.onlret
  }

  /** Under any other flags there is data that cannot be recovered so: a return that is dropped,
      becomes a newline, or stands in front of a newline that was not mapped. */
  lemma OnlcrNeeded(tio: Termios)
    ensures OnlyOnlcr(tio) <==> forall data :: StripReturns(MasterText(tio, data, |data|, false)) == data
    ensures OnlyOnlcr(DEFAULT_TERMIOS)
  {
    if OnlyOnlcr(tio) {
      forall data ensures StripReturns(MasterText(tio, data, |data|, false)) == data {
        OnlcrUndone(tio, data);
      }
    } else {
      var one, two := [RETURN], [RETURN, NEWLINE];
      TwoBytes(tio, one, two);
      var data := if StripReturns(MasterText(tio, one, |one|, false)) != one then one else two;
      assert StripReturns(MasterText(tio, data, |data|, false)) != data;
    }
  }

  lemma TwoBytes(tio: Termios, one: seq<byte>, two: seq<byte>)
    requires one == [RETURN] && two == [RETURN, NEWLINE] && !OnlyOnlcr(tio)
    ensures StripReturns(MasterText(tio, one, |one|, false)) != one
         || StripReturns(MasterText(tio, two, |two|, false)) != two
  {
    var a, b := MasterBytes(tio, RETURN, false), MasterBytes(tio, NEWLINE, false);
    assert MasterText(tio, one, 0, false) == [] && MasterText(tio, two, 0, false) == [];
    assert MasterText(tio, one, 1, false) == a && MasterText(tio, two, 1, false) == a;
    assert MasterText(tio, two, 2, false) == a + b;
    if a == [] {
      assert StripReturns(a) == [];
    } else if a == [RETURN] {
      assert b == [NEWLINE] && (a + b)[1..] == [NEWLINE] && [NEWLINE][1..] == [];
    } else {
      assert a == [NEWLINE] && a[1..] == [] && StripReturns(a) == [NEWLINE];
    }
  }

  lemma {:induction false} OnlcrUndoneBefore(tio: Termios, data: seq<byte>, i: nat, rest: seq<byte>)
    requires OnlyOnlcr(tio) && i <= |data|
    requires rest == [] || rest[0] != NEWLINE
    ensures StripReturns(MasterText(tio, data, i, false) + rest) == data[..i] + StripReturns(rest)
    decreases i
  {
    hide MasterBytes, StripReturns;
    if i == 0 {
      assert MasterText(tio, data, 0, false) + rest == rest;
      assert data[..0] + StripReturns(rest) == StripReturns(rest);
    } else {
      var c := data[i - 1];
      var out := MasterBytes(tio, c, false);
      OnlcrOneByte(tio, c, rest);
      OnlcrUndoneBefore(tio, data, i - 1, out + rest);
      assert MasterText(tio, data, i, false) + rest == MasterText(tio, data, i - 1, false) + (out + rest);
      assert data[..i] + StripReturns(rest) == data[..i - 1] + ([c] + StripReturns(rest));
    }
  }

  lemma OnlcrOneByte(tio: Termios, c: byte, rest: seq<byte>)
    requires OnlyOnlcr(tio)
    requires rest == [] || rest[0] != NEWLINE
    ensures var out := MasterBytes(tio, c, false) + rest;
            out != [] && out[0] != NEWLINE && StripReturns(out) == [c] + StripReturns(rest)
  {
    var out := MasterBytes(tio, c, false) + rest;
    if c == NEWLINE {
      assert out[2..] == rest;
    } else {
      assert out[1..] == rest;
    }
  }
}
