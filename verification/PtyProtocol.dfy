/** Blocking readers and writers on the two nodes of a pseudo terminal:
    source/drivers/char/terminal/pty.c.

    A call in progress is a thread with the list of instructions it still has to execute.
    condition_wait releases the node's lock and sleeps in one step, and a woken thread has
    to take the lock again before it goes on; condition_broadcast wakes every sleeper. The
    steps of all threads interleave freely, one byte at a time. */
module PtyProtocol {
  import opened Options
  import opened Bytes
  import opened PtyRing

  datatype Side = Master | Slave

  datatype Pair<T> = Pair(master: T, slave: T) {
    function Of(n: Side): T {
      if n.Master? then master else slave
    }

    function With(n: Side, v: T): Pair<T> {
      if n.Master? then this.(master := v) else this.(slave := v)
    }
  }

  type Tid = nat

  datatype Instr =
    | Acquire(n: Side)
    | Release(n: Side)
    /** pty_do_write: store the bytes, waiting while the buffer is full, then broadcast. */
    | Put(n: Side, data: seq<byte>)
    /** pty_read: wait while the buffer is empty. */
    | Await(n: Side)
    /** pty_read: move up to `want` bytes. */
    | Drain(n: Side, want: nat)
    | WakeWriters(n: Side)

  /** Where a thread is: running, or asleep on a node's read_queue or write_queue. */
  datatype Place = Running | Reading(n: Side) | Writing(n: Side)

  datatype Thread = Thread(place: Place, todo: seq<Instr>, got: seq<byte>)

  datatype State = State(
    rings: Pair<Ring>,
    locks: Pair<Option<Tid>>,
    threads: map<Tid, Thread>,
    written: Pair<seq<byte>>,
    delivered: Pair<seq<byte>>)

  // ---------------------------------------------------------------------------------------
  // Steps

  predicate RingsValid(s: State) {
    s.rings.master.Valid() && s.rings.slave.Valid()
  }

  /** A thread can take its next step unless it sleeps or waits for a lock. */
  predicate CanStep(s: State, t: Tid) {
    && t in s.threads
    && s.threads[t].place.Running?
    && s.threads[t].todo != []
    && (s.threads[t].todo[0].Acquire? ==> s.locks.Of(s.threads[t].todo[0].n).None?)
  }

  function Now(s: State, t: Tid): Instr
    requires CanStep(s, t)
  {
    s.threads[t].todo[0]
  }

  function Later(s: State, t: Tid): seq<Instr>
    requires CanStep(s, t)
  {
    s.threads[t].todo[1..]
  }

  function SetTodo(s: State, t: Tid, todo: seq<Instr>): State
    requires t in s.threads
  {
    s.(threads := s.threads[t := s.threads[t].(todo := todo)])
  }

  /** condition_wait, as far as it runs before sleeping. */
  function Sleep(s: State, t: Tid, place: Place): State
    requires t in s.threads && !place.Running?
  {
    s.(threads := s.threads[t := s.threads[t].(place := place)], locks := s.locks.With(place.n, None))
  }

  /** condition_broadcast: whoever slept there now wants the lock. */
  function Awaken(th: Thread, place: Place): Thread
    requires !place.Running?
  {
    if th.place == place then Thread(Running, [Acquire(place.n)] + th.todo, th.got) else th
  }

  function Broadcast(s: State, place: Place): State
    requires !place.Running?
  {
    s.(threads := map t | t in s.threads :: Awaken(s.threads[t], place))
  }

  function StepPut(s: State, t: Tid): State
    requires CanStep(s, t) && Now(s, t).Put? && RingsValid(s)
  {
    var Put(n, data) := Now(s, t);
    var ring := s.rings.Of(n);
    if data == [] then
      Broadcast(SetTodo(s, t, Later(s, t)), Reading(n))
    else if ring.Full() then
      Sleep(s, t, Writing(n))
    else
      SetTodo(s, t, [Put(n, data[1..])] + Later(s, t))
      .(rings := s.rings.With(n, ring.Put(data[0])),
        written := s.written.With(n, s.written.Of(n) + [data[0]]))
  }

  function StepDrain(s: State, t: Tid): State
    requires CanStep(s, t) && Now(s, t).Drain? && RingsValid(s)
  {
    var Drain(n, want) := Now(s, t);
    var ring := s.rings.Of(n);
    if want == 0 || ring.size == 0 then
      SetTodo(s, t, Later(s, t))
    else
      var b := ring.First();
      var th := s.threads[t];
      s.(threads := s.threads[t := Thread(th.place, [Drain(n, want - 1)] + Later(s, t), th.got + [b])],
         rings := s.rings.With(n, ring.Take()),
         delivered := s.delivered.With(n, s.delivered.Of(n) + [b]))
  }

  function Step(s: State, t: Tid): State
    requires CanStep(s, t) && RingsValid(s)
  {
    match Now(s, t)
    case Acquire(n) => SetTodo(s, t, Later(s, t)).(locks := s.locks.With(n, Some(t)))
    case Release(n) => SetTodo(s, t, Later(s, t)).(locks := s.locks.With(n, None))
    case Put(n, data) => StepPut(s, t)
    case Await(n) => if s.rings.Of(n).size == 0 then Sleep(s, t, Reading(n)) else SetTodo(s, t, Later(s, t))
    case Drain(n, want) => StepDrain(s, t)
    case WakeWriters(n) => Broadcast(SetTodo(s, t, Later(s, t)), Writing(n))
  }

  /** A thread enters the driver with a call's instructions, or leaves it. */
  function Begin(s: State, t: Tid, todo: seq<Instr>): State {
    s.(threads := s.threads[t := Thread(Running, todo, [])])
  }

  function Finish(s: State, t: Tid): State {
    s.(threads := s.threads - {t})
  }

  // ---------------------------------------------------------------------------------------
  // Calls

  /** What the instructions of a call may be, given the locks held before them. The slave's
      lock is never taken while another is held; a node is only waited on while holding at
      most the slave's lock besides its own; and one pty_do_write stores at most 3 bytes. */
  predicate WellFormed(todo: seq<Instr>, held: set<Side>) {
    if todo == [] then held == {}
    else
      var rest := todo[1..];
      match todo[0]
      case Acquire(n) => n !in held && (n.Slave? ==> held == {}) && WellFormed(rest, held + {n})
      case Release(n) => n in held && WellFormed(rest, held - {n})
      case Put(n, data) => n in held && (n.Slave? ==> held == {n}) && |data| <= 3 && WellFormed(rest, held)
      case Await(n) => held == {n} && WellFormed(rest, held)
      case Drain(n, _) => held == {n} && rest == [Release(n), WakeWriters(n)]
      case WakeWriters(_) => WellFormed(rest, held)
  }

  /** pty_read */
  function ReadProgram(n: Side, want: nat): seq<Instr> {
    [Acquire(n), Await(n), Drain(n, want), Release(n), WakeWriters(n)]
  }

  lemma ReadWellFormed(n: Side, want: nat)
    ensures WellFormed(ReadProgram(n, want), {})
  {
    var p := ReadProgram(n, want);
    assert p[1..] == [Await(n), Drain(n, want), Release(n), WakeWriters(n)];
    assert p[1..][1..] == [Drain(n, want), Release(n), WakeWriters(n)];
    assert p[1..][1..][1..] == [Release(n), WakeWriters(n)];
    assert {} + {n} == {n};
  }

  // ---------------------------------------------------------------------------------------
  // The invariant

  ghost function Held(s: State, t: Tid): set<Side> {
    set n: Side | s.locks.Of(n) == Some(t)
  }

  /** What the thread will execute once it has been woken. */
  function Resume(th: Thread): seq<Instr> {
    if th.place.Running? then th.todo else [Acquire(th.place.n)] + th.todo
  }

  ghost predicate ThreadOk(s: State, t: Tid)
    requires t in s.threads
  {
    var th := s.threads[t];
    && WellFormed(Resume(th), Held(s, t))
    && (th.place.Reading? ==> th.todo != [] && th.todo[0] == Await(th.place.n))
    && (th.place.Writing? ==> th.todo != [] && th.todo[0].Put? && th.todo[0].n == th.place.n)
  }

  ghost predicate RingOk(s: State, n: Side) {
    var ring := s.rings.Of(n);
    && ring.Valid()
    && |ring.buffer| >= 3
    && s.delivered.Of(n) + ring.Contents() == s.written.Of(n)
  }

  ghost predicate Asleep(s: State, place: Place) {
    exists t :: t in s.threads && s.threads[t].place == place
  }

  /** Thread t holds n's lock inside pty_do_write, will broadcast when it is through, and has
      room for all it still wants to store: it cannot block before that. */
  ghost predicate WillWakeReaders(s: State, n: Side, t: Tid) {
    && t in s.threads
    && s.locks.Of(n) == Some(t)
    && s.threads[t].place.Running?
    && s.threads[t].todo != []
    && s.threads[t].todo[0].Put?
    && s.threads[t].todo[0].n == n
    && s.rings.Of(n).size + |s.threads[t].todo[0].data| <= 3
  }

  /** What is left of pty_read once it no longer waits. */
  predicate TailOfRead(todo: seq<Instr>, n: Side) {
    || todo == [WakeWriters(n)]
    || todo == [Release(n), WakeWriters(n)]
    || (todo != [] && todo[0].Drain? && todo == [Drain(n, todo[0].want), Release(n), WakeWriters(n)])
  }

  ghost predicate WillWakeWriters(s: State, n: Side, t: Tid) {
    t in s.threads && s.threads[t].place.Running? && TailOfRead(s.threads[t].todo, n)
  }

  ghost predicate NoLostReader(s: State, n: Side) {
    Asleep(s, Reading(n)) && s.rings.Of(n).size > 0 ==> exists t :: WillWakeReaders(s, n, t)
  }

  ghost predicate NoLostWriter(s: State, n: Side) {
    Asleep(s, Writing(n)) && !s.rings.Of(n).Full() ==> exists t :: WillWakeWriters(s, n, t)
  }

  ghost predicate Inv(s: State) {
    && (forall n: Side :: RingOk(s, n))
    && (forall n: Side :: s.locks.Of(n).Some? ==> s.locks.Of(n).value in s.threads)
    && (forall t :: t in s.threads ==> ThreadOk(s, t))
    && (forall n: Side :: NoLostReader(s, n))
    && (forall n: Side :: NoLostWriter(s, n))
  }

  ghost predicate Init(s: State) {
    && s.threads == map[]
    && s.locks == Pair(None, None)
    && (forall n: Side ::
          && s.rings.Of(n).Valid()
          && |s.rings.Of(n).buffer| >= 3
          && s.rings.Of(n).size == 0
          && s.written.Of(n) == []
          && s.delivered.Of(n) == [])
  }

  lemma InitInv(s: State)
    requires Init(s)
    ensures Inv(s)
  {
    forall n: Side ensures RingOk(s, n) {
      assert s.rings.Of(n).Contents() == [];
    }
  }

  // ---------------------------------------------------------------------------------------
  // Every step keeps the invariant

  lemma StepKeepsRings(s: State, t: Tid, n: Side)
    requires Inv(s) && CanStep(s, t) && RingsValid(s)
    ensures RingOk(Step(s, t), n)
  {
    hide WellFormed, ThreadOk, NoLostReader, NoLostWriter;
    assert RingOk(s, n);
    var i, ring := Now(s, t), s.rings.Of(n);
    if i == Put(n, if i.Put? then i.data else []) && i.data != [] && !ring.Full() {
      ring.PutAppends(i.data[0]);
    } else if i.Drain? && i.n == n && i.want > 0 && ring.size > 0 {
      ring.TakeRemoves();
    }
  }

  lemma AwakenKeepsResume(th: Thread, place: Place)
    requires !place.Running?
    ensures Resume(Awaken(th, place)) == Resume(th)
  {
  }

  /** A thread that did not move is as well formed as before. */
  lemma BystanderOk(s: State, s': State, u: Tid, place: Place)
    requires u in s.threads && ThreadOk(s, u) && u in s'.threads && !place.Running?
    requires Held(s', u) == Held(s, u)
    requires s'.threads[u] == s.threads[u] || s'.threads[u] == Awaken(s.threads[u], place)
    ensures ThreadOk(s', u)
  {
    hide WellFormed;
    AwakenKeepsResume(s.threads[u], place);
  }

  lemma StepKeepsHeld(s: State, t: Tid, u: Tid)
    requires Inv(s) && CanStep(s, t) && RingsValid(s) && u != t
    ensures Held(Step(s, t), u) == Held(s, u)
  {
    hide NoLostReader, NoLostWriter, RingOk;
    assert ThreadOk(s, t);
    var i := Now(s, t);
    assert !i.Acquire? ==> !i.WakeWriters? ==> i.n in Held(s, t);
    forall n: Side ensures n in Held(Step(s, t), u) <==> n in Held(s, u) {
    }
  }

  lemma MoverHeld(s: State, t: Tid)
    requires Inv(s) && CanStep(s, t) && RingsValid(s)
    ensures var i, s' := Now(s, t), Step(s, t);
            Held(s', t) ==
              if i.Acquire? then Held(s, t) + {i.n}
              else if i.Release? || !s'.threads[t].place.Running? then Held(s, t) - {i.n}
              else Held(s, t)
  {
    hide NoLostReader, NoLostWriter, RingOk, ThreadOk;
  }

  lemma TailWellFormed(n: Side)
    ensures WellFormed([Release(n), WakeWriters(n)], {n})
  {
    assert [Release(n), WakeWriters(n)][1..] == [WakeWriters(n)];
    assert [WakeWriters(n)][1..] == [];
    assert {n} - {n} == {};
  }

  lemma MoverOk(s: State, t: Tid)
    requires Inv(s) && CanStep(s, t) && RingsValid(s)
    ensures t in Step(s, t).threads && ThreadOk(Step(s, t), t)
  {
    hide NoLostReader, NoLostWriter, RingOk;
    assert ThreadOk(s, t);
    MoverHeld(s, t);
    var s' := Step(s, t);
    var th, rest := s.threads[t], Later(s, t);
    match Now(s, t) {
      case Acquire(n) =>
      case Release(n) =>
      case Put(n, data) =>
        if data != [] {
          assert ([Put(n, data[1..])] + rest)[1..] == rest;
          assert ([Acquire(n)] + th.todo)[1..] == th.todo;
          assert Held(s, t) - {n} + {n} == Held(s, t);
        }
      case Await(n) =>
        assert ([Acquire(n)] + th.todo)[1..] == th.todo;
        assert Held(s, t) - {n} + {n} == Held(s, t);
      case Drain(n, want) =>
        TailWellFormed(n);
        if want > 0 {
          assert ([Drain(n, want - 1)] + rest)[1..] == rest;
        }
      case WakeWriters(n) =>
    }
  }

  lemma StepKeepsThreads(s: State, t: Tid)
    requires Inv(s) && CanStep(s, t) && RingsValid(s)
    ensures forall u :: u in Step(s, t).threads ==> ThreadOk(Step(s, t), u)
    ensures forall n: Side :: Step(s, t).locks.Of(n).Some? ==> Step(s, t).locks.Of(n).value in Step(s, t).threads
  {
    hide WellFormed, NoLostReader, NoLostWriter, RingOk, ThreadOk;
    var s' := Step(s, t);
    assert s'.threads.Keys == s.threads.Keys;
    forall n: Side | s'.locks.Of(n).Some? ensures s'.locks.Of(n).value in s'.threads {
      assert s'.locks.Of(n) == s.locks.Of(n) || s'.locks.Of(n) == Some(t);
    }
    forall u | u in s'.threads ensures ThreadOk(s', u) {
      if u == t {
        MoverOk(s, t);
      } else {
        StepKeepsHeld(s, t, u);
        var i := Now(s, t);
        BystanderOk(s, s', u, if i.WakeWriters? then Writing(i.n) else Reading(i.n));
      }
    }
  }

  /** A sleeper after a step either slept before or has just gone to sleep. */
  lemma SleeperBefore(s: State, t: Tid, place: Place)
    requires CanStep(s, t) && RingsValid(s) && !place.Running? && Asleep(Step(s, t), place)
    ensures Asleep(s, place) || Step(s, t) == Sleep(s, t, place)
  {
    var s' := Step(s, t);
    var u :| u in s'.threads && s'.threads[u].place == place;
    if u != t {
      assert s.threads[u].place == place;
    }
  }

  lemma StepKeepsReaders(s: State, t: Tid, n: Side)
    requires Inv(s) && CanStep(s, t) && RingsValid(s)
    ensures NoLostReader(Step(s, t), n)
  {
    hide NoLostWriter;
    var s', i := Step(s, t), Now(s, t);
    if Asleep(s', Reading(n)) && s'.rings.Of(n).size > 0 {
      SleeperBefore(s, t, Reading(n));
      assert NoLostReader(s, n) && ThreadOk(s, t) && RingOk(s, n);
      if i.Put? && i.n == n {
        assert i.n in Held(s, t);
        ReadersNeedPut(s, t, n);
      } else if s.rings.Of(n).size > 0 {
        var w :| WillWakeReaders(s, n, w);
        assert w != t;
        LockHolderKeeps(s, t, n, w);
        assert WillWakeReaders(s', n, w);
      }
    }
  }

  /** The writer that holds the lock neither blocks nor lets go while a reader sleeps. */
  lemma ReadersNeedPut(s: State, t: Tid, n: Side)
    requires Inv(s) && CanStep(s, t) && RingsValid(s) && Now(s, t).Put? && Now(s, t).n == n
    requires s.locks.Of(n) == Some(t) && Asleep(s, Reading(n)) && Asleep(Step(s, t), Reading(n))
    ensures WillWakeReaders(Step(s, t), n, t)
  {
    hide NoLostWriter, WellFormed;
    assert NoLostReader(s, n) && RingOk(s, n);
    var data := Now(s, t).data;
    PutIsShort(s, t);
    if data == [] {
      NobodyLeft(SetTodo(s, t, Later(s, t)), Reading(n));
    } else if s.rings.Of(n).size > 0 {
      var w :| WillWakeReaders(s, n, w);
      assert w == t;
    }
  }

  lemma PutIsShort(s: State, t: Tid)
    requires Inv(s) && CanStep(s, t) && Now(s, t).Put?
    ensures |Now(s, t).data| <= 3
  {
    hide NoLostReader, NoLostWriter, RingOk;
    assert ThreadOk(s, t);
  }

  lemma NobodyLeft(s: State, place: Place)
    requires !place.Running?
    ensures !Asleep(Broadcast(s, place), place)
  {
    var s' := Broadcast(s, place);
    forall u | u in s'.threads ensures s'.threads[u].place != place {
      assert s'.threads[u] == Awaken(s.threads[u], place);
    }
  }

  /** While another thread holds n's lock, a step leaves n and that thread alone. */
  lemma LockHolderKeeps(s: State, t: Tid, n: Side, w: Tid)
    requires Inv(s) && CanStep(s, t) && RingsValid(s)
    requires w != t && w in s.threads && s.threads[w].place.Running? && s.locks.Of(n) == Some(w)
    ensures var s' := Step(s, t);
            && w in s'.threads && s'.threads[w] == s.threads[w]
            && s'.locks.Of(n) == Some(w) && s'.rings.Of(n) == s.rings.Of(n)
  {
    hide NoLostReader, NoLostWriter, RingOk;
    assert ThreadOk(s, t);
    var i := Now(s, t);
    assert !i.Acquire? ==> !i.WakeWriters? ==> i.n in Held(s, t);
  }

  lemma StepKeepsWriters(s: State, t: Tid, n: Side)
    requires Inv(s) && CanStep(s, t) && RingsValid(s)
    ensures NoLostWriter(Step(s, t), n)
  {
    hide NoLostReader, WellFormed, TailOfRead;
    var s', i := Step(s, t), Now(s, t);
    if Asleep(s', Writing(n)) && !s'.rings.Of(n).Full() {
      SleeperBefore(s, t, Writing(n));
      assert NoLostWriter(s, n) && RingOk(s, n);
      if i.Drain? && i.n == n {
        DrainIsTail(s, t);
        TailMoves(s, t, n);
      } else {
        var r :| WillWakeWriters(s, n, r);
        if r == t {
          TailMoves(s, t, n);
        } else {
          assert WillWakeWriters(s', n, r);
        }
      }
    }
  }

  /** A reader past its wait stays on course until it has woken the writers. */
  lemma TailMoves(s: State, t: Tid, n: Side)
    requires CanStep(s, t) && RingsValid(s) && TailOfRead(s.threads[t].todo, n)
    requires Asleep(Step(s, t), Writing(n))
    ensures WillWakeWriters(Step(s, t), n, t)
  {
    if Now(s, t).WakeWriters? {
      NobodyLeft(SetTodo(s, t, Later(s, t)), Writing(n));
    }
  }

  lemma DrainIsTail(s: State, t: Tid)
    requires Inv(s) && CanStep(s, t) && Now(s, t).Drain?
    ensures TailOfRead(s.threads[t].todo, Now(s, t).n)
    ensures Later(s, t) == [Release(Now(s, t).n), WakeWriters(Now(s, t).n)]
  {
    hide NoLostReader, NoLostWriter, RingOk;
    assert ThreadOk(s, t);
    var todo := s.threads[t].todo;
    assert todo == [todo[0]] + todo[1..];
  }

  lemma StepKeepsInv(s: State, t: Tid)
    requires Inv(s) && CanStep(s, t) && RingsValid(s)
    ensures Inv(Step(s, t))
  {
    hide Step, RingOk, ThreadOk, NoLostReader, NoLostWriter;
    StepKeepsThreads(s, t);
    forall n: Side
      ensures RingOk(Step(s, t), n) && NoLostReader(Step(s, t), n) && NoLostWriter(Step(s, t), n)
    {
      StepKeepsRings(s, t, n);
      StepKeepsReaders(s, t, n);
      StepKeepsWriters(s, t, n);
    }
  }

  lemma BeginKeepsInv(s: State, t: Tid, todo: seq<Instr>)
    requires Inv(s) && t !in s.threads && WellFormed(todo, {})
    ensures Inv(Begin(s, t, todo))
  {
    hide WellFormed;
    var s' := Begin(s, t, todo);
    assert Held(s', t) == {};
    forall u | u in s.threads ensures ThreadOk(s', u) {
      BystanderOk(s, s', u, Reading(Master));
    }
    forall n: Side ensures RingOk(s', n) && NoLostReader(s', n) && NoLostWriter(s', n) {
      assert RingOk(s, n) && NoLostReader(s, n) && NoLostWriter(s, n);
      OthersUnchanged(s, s', t, n);
    }
  }

  lemma FinishKeepsInv(s: State, t: Tid)
    requires Inv(s) && t in s.threads && s.threads[t].place.Running? && s.threads[t].todo == []
    ensures Inv(Finish(s, t))
  {
    hide WellFormed;
    var s' := Finish(s, t);
    assert ThreadOk(s, t);
    assert Held(s, t) == {} by { EmptyHoldsNothing(s, t); }
    forall n: Side | s'.locks.Of(n).Some? ensures s'.locks.Of(n).value in s'.threads {
      assert n in Held(s, s'.locks.Of(n).value);
    }
    forall u | u in s'.threads ensures ThreadOk(s', u) {
      BystanderOk(s, s', u, Reading(Master));
    }
    forall n: Side ensures RingOk(s', n) && NoLostReader(s', n) && NoLostWriter(s', n) {
      assert RingOk(s, n) && NoLostReader(s, n) && NoLostWriter(s, n);
      OthersUnchanged(s, s', t, n);
    }
  }

  lemma EmptyHoldsNothing(s: State, t: Tid)
    requires t in s.threads && ThreadOk(s, t) && s.threads[t].place.Running? && s.threads[t].todo == []
    ensures Held(s, t) == {}
  {
  }

  /** One thread enters or leaves; it neither sleeps nor owes anybody a wake-up. */
  lemma OthersUnchanged(s: State, s': State, t: Tid, n: Side)
    requires s' == s.(threads := s'.threads)
    requires forall u :: u != t ==> (u in s.threads <==> u in s'.threads)
    requires forall u :: u != t && u in s.threads && u in s'.threads ==> s'.threads[u] == s.threads[u]
    requires t in s.threads ==> s.threads[t].place.Running? && s.threads[t].todo == []
    requires t in s'.threads ==> s'.threads[t].place.Running?
    ensures NoLostReader(s, n) ==> NoLostReader(s', n)
    ensures NoLostWriter(s, n) ==> NoLostWriter(s', n)
  {
    if NoLostReader(s, n) && Asleep(s', Reading(n)) && s'.rings.Of(n).size > 0 {
      var u :| u in s'.threads && s'.threads[u].place == Reading(n);
      assert u in s.threads && s.threads[u].place == Reading(n);
      var w :| WillWakeReaders(s, n, w);
      assert WillWakeReaders(s', n, w);
    }
    if NoLostWriter(s, n) && Asleep(s', Writing(n)) && !s'.rings.Of(n).Full() {
      var u :| u in s'.threads && s'.threads[u].place == Writing(n);
      assert u in s.threads && s.threads[u].place == Writing(n);
      var r :| WillWakeWriters(s, n, r);
      assert WillWakeWriters(s', n, r);
    }
  }

  // ---------------------------------------------------------------------------------------
  // Nobody is stuck without a reason

  /** t waits for the slave's lock, which an echoing writer keeps while it sleeps on the full
      buffer of the master. */
  ghost predicate BehindEcho(s: State, t: Tid)
    requires t in s.threads
  {
    && s.threads[t].place.Running?
    && s.threads[t].todo != []
    && s.threads[t].todo[0] == Acquire(Slave)
    && s.locks.slave.Some?
    && s.locks.slave.value in s.threads
    && s.threads[s.locks.slave.value].place == Writing(Master)
    && s.rings.master.Full()
  }

  /** The good reasons for a thread not to move. */
  ghost predicate Excused(s: State, t: Tid)
    requires t in s.threads
  {
    var th := s.threads[t];
    || (th.place.Running? && th.todo == [])
    || (th.place.Reading? && s.rings.Of(th.place.n).size == 0)
    || (th.place.Writing? && s.rings.Of(th.place.n).Full())
    || BehindEcho(s, t)
  }

  /** A reader asleep on a non-empty buffer is about to be woken. */
  lemma ReaderHasHope(s: State, n: Side)
    requires Inv(s) && Asleep(s, Reading(n)) && s.rings.Of(n).size > 0
    ensures exists t :: CanStep(s, t) && WillWakeReaders(s, n, t)
  {
    assert NoLostReader(s, n);
    var w :| WillWakeReaders(s, n, w);
    assert CanStep(s, w);
  }

  /** A writer asleep on a buffer with room is about to be woken. */
  lemma WriterHasHope(s: State, n: Side)
    requires Inv(s) && Asleep(s, Writing(n)) && !s.rings.Of(n).Full()
    ensures exists t :: CanStep(s, t) && WillWakeWriters(s, n, t)
  {
    assert NoLostWriter(s, n);
    var r :| WillWakeWriters(s, n, r);
    assert CanStep(s, r);
  }

  /** A lock holder still has something to do, is not asleep as a reader, and if it needs
      another lock it holds the slave's and wants the master's. */
  lemma HolderResumes(s: State, n: Side, w: Tid)
    requires Inv(s) && s.locks.Of(n) == Some(w)
    ensures w in s.threads && Resume(s.threads[w]) != []
    ensures Resume(s.threads[w])[0].Acquire? ==> n == Slave && Resume(s.threads[w])[0].n == Master
    ensures !s.threads[w].place.Reading?
  {
    hide NoLostReader, NoLostWriter, RingOk;
    assert ThreadOk(s, w) && n in Held(s, w);
    if s.threads[w].place.Reading? {
      ReaderHoldsNothing(s, w);
    }
  }

  lemma ReaderHoldsNothing(s: State, w: Tid)
    requires w in s.threads && ThreadOk(s, w) && s.threads[w].place.Reading?
    ensures Held(s, w) == {}
  {
    var th := s.threads[w];
    var m := th.place.n;
    assert ([Acquire(m)] + th.todo)[1..] == th.todo;
    assert WellFormed(th.todo, Held(s, w) + {m});
  }

  /** Whoever holds the master's lock can move. */
  lemma MasterHolderMoves(s: State, w: Tid)
    requires Inv(s) && s.locks.Of(Master) == Some(w)
    ensures CanStep(s, w)
  {
    HolderResumes(s, Master, w);
  }

  /** Whoever holds the slave's lock can move, or the holder of the master's can, or it is a
      writer asleep on the master. */
  lemma SlaveHolderMoves(s: State, w: Tid)
    requires Inv(s) && s.locks.Of(Slave) == Some(w)
    ensures w in s.threads
    ensures s.threads[w].place == Writing(Master) || exists t :: CanStep(s, t)
  {
    HolderResumes(s, Slave, w);
    if s.threads[w].place.Running? && !CanStep(s, w) {
      MasterHolderMoves(s, s.locks.Of(Master).value);
    }
  }

  /** When no thread can take a step, every reader asleep faces an empty buffer, every writer
      asleep a full one, and the only threads waiting for a lock wait behind such a writer. */
  lemma StuckOnlyWithReason(s: State, t: Tid)
    requires Inv(s) && t in s.threads && forall u :: !CanStep(s, u)
    ensures Excused(s, t)
  {
    hide WellFormed, NoLostReader, NoLostWriter;
    var th := s.threads[t];
    if th.place.Reading? {
      if s.rings.Of(th.place.n).size > 0 { ReaderHasHope(s, th.place.n); }
    } else if th.place.Writing? {
      if !s.rings.Of(th.place.n).Full() { WriterHasHope(s, th.place.n); }
    } else if th.todo != [] {
      assert !CanStep(s, t);
      var n := th.todo[0].n;
      var w := s.locks.Of(n).value;
      if n == Master {
        MasterHolderMoves(s, w);
      } else {
        SlaveHolderMoves(s, w);
        if !s.rings.Of(Master).Full() { WriterHasHope(s, Master); }
      }
    }
  }

  /** On one node, readers and writers never all sleep together: some thread that can move is
      about to wake the readers or the writers of this very node. */
  lemma NotBothAsleep(s: State, n: Side)
    requires Inv(s) && Asleep(s, Reading(n)) && Asleep(s, Writing(n))
    ensures exists t :: CanStep(s, t) && (WillWakeReaders(s, n, t) || WillWakeWriters(s, n, t))
  {
    assert RingOk(s, n);
    if s.rings.Of(n).size > 0 {
      ReaderHasHope(s, n);
    } else {
      WriterHasHope(s, n);
    }
  }
}
