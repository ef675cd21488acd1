/** Whole runs of the pseudo-terminal driver: any number of threads, any interleaving. */
module PtyRuns {
  import opened Bytes
  import opened PtyRing
  import opened PtyProtocol
  import opened PtyLine

  datatype Action =
    | Enter(t: Tid, call: Call)
    | Move(t: Tid)
    | Leave(t: Tid)

  predicate Enabled(s: State, a: Action) {
    match a
    case Enter(t, call) => t !in s.threads
    case Move(t) => CanStep(s, t) && RingsValid(s)
    case Leave(t) => t in s.threads && s.threads[t].place.Running? && s.threads[t].todo == []
  }

  function Apply(s: State, a: Action): State
    requires Enabled(s, a)
  {
    match a
    case Enter(t, call) => Begin(s, t, Program(call))
    case Move(t) => Step(s, t)
    case Leave(t) => Finish(s, t)
  }

  ghost predicate Run(states: seq<State>, actions: seq<Action>) {
    && |states| == |actions| + 1
    && Init(states[0])
    && forall i :: 0 <= i < |actions| ==>
         Enabled(states[i], actions[i]) && states[i + 1] == Apply(states[i], actions[i])
  }

  lemma ApplyKeepsInv(s: State, a: Action)
    requires Inv(s) && Enabled(s, a)
    ensures Inv(Apply(s, a))
  {
    hide Inv, Step, Begin, Finish, Program;
    match a {
      case Enter(t, call) =>
        ProgramOk(call);
        BeginKeepsInv(s, t, Program(call));
      case Move(t) =>
        StepKeepsInv(s, t);
      case Leave(t) =>
        FinishKeepsInv(s, t);
    }
  }

  lemma {:induction false} RunKeepsInv(states: seq<State>, actions: seq<Action>, i: nat)
    requires Run(states, actions) && i < |states|
    ensures Inv(states[i])
    decreases i
  {
    hide Inv, Init, Apply;
    if i == 0 {
      InitInv(states[0]);
    } else {
      RunKeepsInv(states, actions, i - 1);
      ApplyKeepsInv(states[i - 1], actions[i - 1]);
    }
  }

  /** In every state of every run, on both nodes: no byte is lost, duplicated or reordered
      between writers and readers; a reader sleeps on a non-empty buffer only while a writer
      that holds the lock and cannot block is about to wake it; a writer sleeps on a buffer
      with room only while a reader past its wait is about to wake it. */
  lemma RunIsSafe(states: seq<State>, actions: seq<Action>, i: nat, n: Side)
    requires Run(states, actions) && i < |states|
    ensures var s := states[i];
            var ring := s.rings.Of(n);
            && ring.Valid()
            && ring.writePosition == (ring.readPosition + ring.size) % |ring.buffer|
            && s.delivered.Of(n) + ring.Contents() == s.written.Of(n)
            && NoLostReader(s, n)
            && NoLostWriter(s, n)
  {
    RunKeepsInv(states, actions, i);
    assert RingOk(states[i], n);
    states[i].rings.Of(n).ModuloPositions();
  }

  /** A run that cannot go on has left every thread with a good excuse. */
  lemma RunEndsExcused(states: seq<State>, actions: seq<Action>, i: nat, t: Tid)
    requires Run(states, actions) && i < |states| && t in states[i].threads
    requires forall u :: !CanStep(states[i], u)
    ensures Excused(states[i], t)
  {
    hide Inv, Excused;
    RunKeepsInv(states, actions, i);
    StuckOnlyWithReason(states[i], t);
  }

  // ---------------------------------------------------------------------------------------
  // One writer at a time

  predicate Silent(todo: seq<Instr>) {
    Output(todo, Master) == [] && Output(todo, Slave) == []
  }

  /** write() is only entered while no other call has bytes left to store. */
  ghost predicate OneWriter(states: seq<State>, actions: seq<Action>)
    requires |states| == |actions| + 1
  {
    forall i :: 0 <= i < |actions| && actions[i].Enter? && actions[i].call.WriteCall? ==> AllSilent(states[i])
  }

  ghost predicate AllSilent(s: State) {
    forall t :: t in s.threads ==> Silent(s.threads[t].todo)
  }

  /** The translated data of all the write() calls among the first i actions. */
  function Requested(actions: seq<Action>, i: nat, n: Side): seq<byte>
    requires i <= |actions|
  {
    if i == 0 then []
    else
      Requested(actions, i - 1, n)
      + if actions[i - 1].Enter? && actions[i - 1].call.WriteCall?
        then Text(actions[i - 1].call, |actions[i - 1].call.data|, n) else []
  }

  function Asked(actions: seq<Action>, i: nat): Pair<seq<byte>>
    requires i <= |actions|
  {
    Pair(Requested(actions, i, Master), Requested(actions, i, Slave))
  }

  function Pending(s: State, w: Tid, n: Side): seq<byte> {
    if w in s.threads then Output(s.threads[w].todo, n) else []
  }

  /** Only w has bytes left to store, and what is stored plus those bytes is what was asked. */
  ghost predicate Accounted(s: State, w: Tid, asked: Pair<seq<byte>>) {
    && (forall t :: t in s.threads && t != w ==> Silent(s.threads[t].todo))
    && (forall n: Side :: s.written.Of(n) + Pending(s, w, n) == asked.Of(n))
  }

  lemma AwakenOutput(th: Thread, place: Place, n: Side)
    requires !place.Running?
    ensures Output(Awaken(th, place).todo, n) == Output(th.todo, n)
  {
    assert ([Acquire(place.n)] + th.todo)[1..] == th.todo;
  }

  /** What is stored in n so far and what a list of instructions is still going to store. */
  function Total(s: State, todo: seq<Instr>, n: Side): seq<byte> {
    s.written.Of(n) + Output(todo, n)
  }

  lemma OutputRest(i: Instr, rest: seq<Instr>, n: Side)
    ensures Output([i] + rest, n) == StoredBy(i, n) + Output(rest, n)
  {
    assert ([i] + rest)[1..] == rest;
  }

  lemma PutOutput(s: State, t: Tid, n: Side)
    requires CanStep(s, t) && RingsValid(s) && Now(s, t).Put?
    ensures var s' := StepPut(s, t);
            && t in s'.threads
            && Total(s', s'.threads[t].todo, n) == Total(s, s.threads[t].todo, n)
            && s.written.Of(n) <= s'.written.Of(n)
  {
    hide Output, RingsValid;
    var Put(k, data) := Now(s, t);
    OutputHead(s.threads[t].todo, n);
    if data != [] {
      OutputRest(Put(k, data[1..]), Later(s, t), n);
      OneByteOver(s.written.Of(n), data, Output(Later(s, t), n));
    }
  }

  lemma OneByteOver(stored: seq<byte>, data: seq<byte>, rest: seq<byte>)
    requires data != []
    ensures (stored + [data[0]]) + (data[1..] + rest) == stored + (data + rest)
  {
    assert data == [data[0]] + data[1..];
  }

  lemma DrainOutput(s: State, t: Tid, n: Side)
    requires CanStep(s, t) && RingsValid(s) && Now(s, t).Drain?
    ensures var s' := StepDrain(s, t);
            t in s'.threads && s'.written == s.written
            && Output(s'.threads[t].todo, n) == Output(s.threads[t].todo, n)
  {
    hide Output, RingsValid;
    var Drain(k, want) := Now(s, t);
    OutputHead(s.threads[t].todo, n);
    if want > 0 {
      OutputRest(Drain(k, want - 1), Later(s, t), n);
    }
  }

  /** A step moves at most one byte from what its thread has left to what is stored. */
  lemma StepOutput(s: State, t: Tid, n: Side)
    requires CanStep(s, t) && RingsValid(s)
    ensures var s' := Step(s, t);
            && t in s'.threads
            && s'.written.Of(n) + Output(s'.threads[t].todo, n) == s.written.Of(n) + Output(s.threads[t].todo, n)
            && s.written.Of(n) <= s'.written.Of(n)
  {
    hide Output, StepPut, StepDrain, RingsValid;
    match Now(s, t)
    case Put(_, _) => PutOutput(s, t, n);
    case Drain(_, _) => DrainOutput(s, t, n);
    case _ => OutputHead(s.threads[t].todo, n);
  }

  lemma OutputHead(todo: seq<Instr>, n: Side)
    requires todo != []
    ensures Output(todo, n) == StoredBy(todo[0], n) + Output(todo[1..], n)
  {
  }

  lemma StepSilent(s: State, t: Tid)
    requires CanStep(s, t) && RingsValid(s) && Silent(s.threads[t].todo)
    ensures t in Step(s, t).threads && Silent(Step(s, t).threads[t].todo) && Step(s, t).written == s.written
  {
    hide Step, Output;
    var s' := Step(s, t);
    forall n: Side
      ensures t in s'.threads && Output(s'.threads[t].todo, n) == [] && s'.written.Of(n) == s.written.Of(n)
    {
      StepOutput(s, t, n);
      assert n == Master || n == Slave;
      assert |s'.written.Of(n)| + |Output(s'.threads[t].todo, n)| == |s.written.Of(n)|;
    }
    assert s'.written.Of(Master) == s.written.Of(Master) && s'.written.Of(Slave) == s.written.Of(Slave);
  }

  lemma MoveKeepsAccount(s: State, t: Tid, w: Tid, asked: Pair<seq<byte>>)
    requires CanStep(s, t) && RingsValid(s) && Accounted(s, w, asked)
    ensures Accounted(Step(s, t), w, asked)
  {
    hide Output;
    var s' := Step(s, t);
    assert s'.threads.Keys == s.threads.Keys;
    forall u, n: Side | u in s'.threads && u != t
      ensures Output(s'.threads[u].todo, n) == Output(s.threads[u].todo, n)
    {
      BystanderOutput(s, t, u, n);
    }
    if t != w {
      StepSilent(s, t);
    }
    forall n: Side ensures s'.written.Of(n) + Pending(s', w, n) == asked.Of(n) {
      StepOutput(s, t, n);
    }
  }

  lemma BystanderOutput(s: State, t: Tid, u: Tid, n: Side)
    requires CanStep(s, t) && RingsValid(s) && u != t && u in s.threads
    ensures u in Step(s, t).threads
    ensures Output(Step(s, t).threads[u].todo, n) == Output(s.threads[u].todo, n)
  {
    hide Output;
    var i := Now(s, t);
    AwakenOutput(s.threads[u], if i.WakeWriters? then Writing(i.n) else Reading(i.n), n);
  }

  function CallText(call: Call, n: Side): seq<byte> {
    if call.WriteCall? then Text(call, |call.data|, n) else []
  }

  lemma EnterKeepsAccount(s: State, t: Tid, call: Call, w: Tid, asked: Pair<seq<byte>>) returns (w': Tid)
    requires t !in s.threads && Accounted(s, w, asked)
    requires call.WriteCall? ==> AllSilent(s)
    ensures Accounted(Begin(s, t, Program(call)), w',
                      Pair(asked.master + CallText(call, Master), asked.slave + CallText(call, Slave)))
  {
    hide Output, Text, Program;
    ProgramOutput(call, Master);
    ProgramOutput(call, Slave);
    w' := if call.WriteCall? then t else w;
    var s' := Begin(s, t, Program(call));
    forall n: Side ensures s'.written.Of(n) + Pending(s', w', n) == asked.Of(n) + CallText(call, n) {
      assert s.written.Of(n) + Pending(s, w, n) == asked.Of(n);
      assert n == Master || n == Slave;
      assert call.WriteCall? ==> Pending(s, w, n) == [];
      assert asked.Of(n) + [] == asked.Of(n);
    }
  }

  lemma LeaveKeepsAccount(s: State, t: Tid, w: Tid, asked: Pair<seq<byte>>)
    requires t in s.threads && s.threads[t].todo == [] && Accounted(s, w, asked)
    ensures Accounted(Finish(s, t), w, asked)
  {
  }

  lemma AskedStep(actions: seq<Action>, i: nat)
    requires i < |actions|
    ensures var asked, a := Asked(actions, i), actions[i];
            Asked(actions, i + 1) ==
              if a.Enter? then
                Pair(asked.master + CallText(a.call, Master), asked.slave + CallText(a.call, Slave))
              else asked
  {
    hide Text;
    assert Requested(actions, i, Master) + [] == Requested(actions, i, Master);
    assert Requested(actions, i, Slave) + [] == Requested(actions, i, Slave);
  }

  lemma {:induction false} RunAccount(states: seq<State>, actions: seq<Action>, i: nat) returns (w: Tid)
    requires Run(states, actions) && OneWriter(states, actions) && i < |states|
    ensures Accounted(states[i], w, Asked(actions, i))
    decreases i
  {
    hide Accounted, Step, Begin, Finish, Asked;
    if i == 0 {
      w := 0;
      InitAccount(states[0], actions);
    } else {
      w := RunAccount(states, actions, i - 1);
      AskedStep(actions, i - 1);
      var s, asked := states[i - 1], Asked(actions, i - 1);
      match actions[i - 1] {
        case Enter(t, call) =>
          w := EnterKeepsAccount(s, t, call, w, asked);
        case Move(t) =>
          MoveKeepsAccount(s, t, w, asked);
        case Leave(t) =>
          LeaveKeepsAccount(s, t, w, asked);
      }
    }
  }

  lemma InitAccount(s: State, actions: seq<Action>)
    requires Init(s)
    ensures Accounted(s, 0, Asked(actions, 0))
  {
  }

  /** With one writer at a time, once its calls are done, the bytes delivered to readers
      followed by those still buffered are the translations of all the data written so far,
      call by call and byte by byte. */
  lemma OneWriterDelivery(states: seq<State>, actions: seq<Action>, i: nat, n: Side)
    requires Run(states, actions) && OneWriter(states, actions) && i < |states| && AllSilent(states[i])
    ensures states[i].rings.Of(n).Valid()
    ensures states[i].delivered.Of(n) + states[i].rings.Of(n).Contents() == Requested(actions, i, n)
  {
    hide Output, NoLostReader, NoLostWriter;
    RunIsSafe(states, actions, i, n);
    var w := RunAccount(states, actions, i);
    var s := states[i];
    assert n == Master || n == Slave;
    assert Pending(s, w, n) == [];
    assert s.written.Of(n) + Pending(s, w, n) == Requested(actions, i, n);
  }
}
