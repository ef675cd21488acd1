/** What read() on a pseudo terminal hands to its callers. */
module PtyReads {
  import opened Options
  import opened Bytes
  import opened PtyRing
  import opened PtyProtocol
  import opened PtyLine
  import opened PtyRuns

  function Tail(n: Side): seq<Instr> {
    [Release(n), WakeWriters(n)]
  }

  function Draining(n: Side, want: nat): seq<Instr> {
    [Drain(n, want)] + Tail(n)
  }

  // ---------------------------------------------------------------------------------------
  // Only a read past its wait has got anything

  ghost predicate GotOk(th: Thread) {
    th.got == [] ||
    (th.place.Running? && (th.todo == [] || TailOfRead(th.todo, Master) || TailOfRead(th.todo, Slave)))
  }

  ghost predicate AllGotOk(s: State) {
    forall t :: t in s.threads ==> GotOk(s.threads[t])
  }

  lemma TailForms(todo: seq<Instr>, n: Side)
    requires TailOfRead(todo, n) && todo != []
    ensures todo[1..] == [] || TailOfRead(todo[1..], n)
    ensures !todo[0].Put? && !todo[0].Await? && !todo[0].Acquire?
    ensures todo[0].Drain? ==> todo[0].n == n && forall w: nat :: TailOfRead([Drain(n, w)] + todo[1..], n)
  {
  }

  lemma StepKeepsGot(s: State, t: Tid)
    requires Inv(s) && AllGotOk(s) && CanStep(s, t) && RingsValid(s)
    ensures AllGotOk(Step(s, t))
  {
    hide Inv, TailOfRead;
    var s' := Step(s, t);
    forall u | u in s'.threads ensures GotOk(s'.threads[u]) {
      assert u in s.threads && GotOk(s.threads[u]);
      if u == t {
        MoverGotOk(s, t);
      }
    }
  }

  lemma MoverGotOk(s: State, t: Tid)
    requires Inv(s) && CanStep(s, t) && RingsValid(s) && GotOk(s.threads[t])
    ensures t in Step(s, t).threads && GotOk(Step(s, t).threads[t])
  {
    hide Inv, TailOfRead;
    var todo := s.threads[t].todo;
    if TailOfRead(todo, Master) { TailForms(todo, Master); }
    if TailOfRead(todo, Slave) { TailForms(todo, Slave); }
    if todo[0].Drain? { DrainIsTail(s, t); TailForms(todo, todo[0].n); }
  }

  lemma {:induction false} RunKeepsGot(states: seq<State>, actions: seq<Action>, i: nat)
    requires Run(states, actions) && i < |states|
    ensures AllGotOk(states[i])
    decreases i
  {
    hide Inv, Step, GotOk;
    if i > 0 {
      RunKeepsGot(states, actions, i - 1);
      RunKeepsInv(states, actions, i - 1);
      var s, a := states[i - 1], actions[i - 1];
      match a {
        case Move(t) => StepKeepsGot(s, t);
        case Enter(t, call) => NothingGot(Program(call));
        case Leave(t) =>
      }
    }
  }

  lemma NothingGot(todo: seq<Instr>)
    ensures GotOk(Thread(Running, todo, []))
  {
  }

  // ---------------------------------------------------------------------------------------
  // One read

  /** At the i-th action t's wait on n ends: there is something to read. */
  ghost predicate WaitEnds(states: seq<State>, actions: seq<Action>, i: nat, t: Tid, n: Side)
    requires |states| == |actions| + 1
  {
    && i < |actions| && actions[i] == Move(t) && CanStep(states[i], t) && Now(states[i], t) == Await(n)
    && states[i].rings.Of(n).Valid() && states[i].rings.Of(n).size > 0
  }

  /** What a read of `want` bytes ought to get: the oldest bytes there are. */
  ghost function Due(s: State, n: Side, want: nat): seq<byte>
    requires s.rings.Of(n).Valid()
  {
    var waiting := s.rings.Of(n).Contents();
    if want < |waiting| then waiting[..want] else waiting
  }

  /** How far a read has come: it waits; or its wait ended at the i-th action and it drains; or it
      has drained. */
  datatype Phase = Waits | Drains(i: nat) | Drained(i: nat)

  ghost predicate AtPhase(states: seq<State>, actions: seq<Action>, j: nat, t: Tid, n: Side, want: nat, phase: Phase)
    requires |states| == |actions| + 1 && j < |states|
  {
    && t in states[j].threads && states[j].rings.Of(n).Valid()
    && var s, th := states[j], states[j].threads[t];
       match phase
       case Waits =>
         && th.got == []
         && ((th.place.Running? && th.todo == ReadProgram(n, want))
             || (th.todo == ReadProgram(n, want)[1..]
                 && ((th.place.Running? && s.locks.Of(n) == Some(t)) || th.place == Reading(n))))
       case Drains(i) =>
         && i < j && WaitEnds(states, actions, i, t, n)
         && th.place.Running? && s.locks.Of(n) == Some(t)
         && |th.got| <= want && th.todo == Draining(n, want - |th.got|)
         && th.got + s.rings.Of(n).Contents() == states[i].rings.Of(n).Contents()
       case Drained(i) =>
         && i < j && WaitEnds(states, actions, i, t, n)
         && th.place.Running? && th.got == Due(states[i], n, want)
         && (th.todo == Tail(n) || th.todo == Tail(n)[1..] || th.todo == [])
  }

  /** A step leaves other threads alone, except that it may wake them. */
  lemma OthersStep(s: State, u: Tid, t: Tid)
    requires CanStep(s, u) && RingsValid(s) && u != t && t in s.threads
    ensures t in Step(s, u).threads
    ensures var th, th' := s.threads[t], Step(s, u).threads[t];
            || th' == th
            || (!th.place.Running? && th' == Thread(Running, [Acquire(th.place.n)] + th.todo, th.got))
  {
  }

  /** Another thread's action leaves a read where it is. */
  lemma OtherKeepsPhase(states: seq<State>, actions: seq<Action>, j: nat, t: Tid, n: Side, want: nat, phase: Phase)
    requires Run(states, actions) && j < |actions| && AtPhase(states, actions, j, t, n, want, phase)
    requires actions[j].t != t
    ensures AtPhase(states, actions, j + 1, t, n, want, phase)
  {
    hide Inv, Ring.Contents, Due, Step;
    RunKeepsInv(states, actions, j);
    RunIsSafe(states, actions, j + 1, n);
    var s, u := states[j], actions[j].t;
    assert Enabled(s, actions[j]) && states[j + 1] == Apply(s, actions[j]);
    if actions[j].Move? {
      OthersStep(s, u, t);
      if s.threads[t].place.Running? && s.locks.Of(n) == Some(t) {
        LockHolderKeeps(s, u, n, t);
      }
      assert [Acquire(n)] + ReadProgram(n, want)[1..] == ReadProgram(n, want);
    }
  }

  // A read's own steps take it on.

  lemma WaitingStep(states: seq<State>, actions: seq<Action>, j: nat, t: Tid, n: Side, want: nat)
    returns (phase: Phase)
    requires Run(states, actions) && j < |actions| && actions[j] == Move(t)
    requires AtPhase(states, actions, j, t, n, want, Waits)
    ensures AtPhase(states, actions, j + 1, t, n, want, phase) && (phase == Waits || phase == Drains(j))
  {
    hide Inv, Ring.Contents;
    RunIsSafe(states, actions, j + 1, n);
    var s, th := states[j], states[j].threads[t];
    assert CanStep(s, t) && RingsValid(s) && states[j + 1] == Step(s, t);
    phase := Waits;
    if th.todo[0].Await? && s.rings.Of(n).size > 0 {
      phase := Drains(j);
      assert th.todo[1..] == Draining(n, want);
      assert [] + s.rings.Of(n).Contents() == s.rings.Of(n).Contents();
    }
  }

  lemma DrainingStep(states: seq<State>, actions: seq<Action>, j: nat, t: Tid, n: Side, want: nat, i: nat)
    returns (phase: Phase)
    requires Run(states, actions) && j < |actions| && actions[j] == Move(t)
    requires AtPhase(states, actions, j, t, n, want, Drains(i))
    ensures AtPhase(states, actions, j + 1, t, n, want, phase) && (phase == Drains(i) || phase == Drained(i))
  {
    hide Inv, Ring.Contents;
    RunIsSafe(states, actions, j + 1, n);
    var s, th := states[j], states[j].threads[t];
    assert CanStep(s, t) && RingsValid(s) && states[j + 1] == Step(s, t);
    phase := Drains(i);
    var ring, left := s.rings.Of(n), want - |th.got|;
    if left == 0 || ring.size == 0 {
      phase := Drained(i);
      DrainedAll(th.got, ring, states[i], n, want);
      assert th.todo[1..] == Tail(n);
    } else {
      var b, rest := ring.First(), ring.Take();
      ring.TakeRemoves();
      assert th.got + ([b] + rest.Contents()) == (th.got + [b]) + rest.Contents();
      assert [Drain(n, left - 1)] + th.todo[1..] == Draining(n, left - 1);
    }
  }

  lemma DrainedStep(states: seq<State>, actions: seq<Action>, j: nat, t: Tid, n: Side, want: nat, i: nat)
    returns (phase: Phase)
    requires Run(states, actions) && j < |actions| && actions[j] == Move(t)
    requires AtPhase(states, actions, j, t, n, want, Drained(i))
    ensures AtPhase(states, actions, j + 1, t, n, want, phase) && phase == Drained(i)
  {
    hide Inv, Ring.Contents;
    RunIsSafe(states, actions, j + 1, n);
    var s, th := states[j], states[j].threads[t];
    assert CanStep(s, t) && RingsValid(s) && states[j + 1] == Step(s, t);
    hide Due;
    phase := Drained(i);
  }

  lemma DrainedAll(got: seq<byte>, ring: Ring, s: State, n: Side, want: nat)
    requires ring.Valid() && s.rings.Of(n).Valid() && got + ring.Contents() == s.rings.Of(n).Contents()
    requires |got| <= want && (|got| == want || ring.size == 0)
    ensures got == Due(s, n, want)
  {
    assert |ring.Contents()| == ring.size;
  }

  /** A call that entered at action e is still the same call: it has not left. */
  ghost predicate SameCall(actions: seq<Action>, e: nat, j: nat, t: Tid) {
    forall k :: e < k < j && k < |actions| ==> actions[k] != Leave(t)
  }

  lemma {:induction false} ReadPhase(states: seq<State>, actions: seq<Action>, e: nat, j: nat, t: Tid, n: Side,
                                     want: nat)
    returns (phase: Phase)
    requires Run(states, actions) && e < j < |states| && SameCall(actions, e, j, t)
    requires actions[e] == Enter(t, ReadCall(n, want))
    ensures AtPhase(states, actions, j, t, n, want, phase)
    ensures phase != Waits ==> e < phase.i
    decreases j
  {
    hide Inv, AtPhase, Step;
    if j == e + 1 {
      phase := Waits;
      EnteredRead(states, actions, e, t, n, want);
    } else {
      phase := ReadPhase(states, actions, e, j - 1, t, n, want);
      if actions[j - 1].t != t {
        OtherKeepsPhase(states, actions, j - 1, t, n, want, phase);
      } else {
        PhasePresent(states, actions, j - 1, t, n, want, phase);
        match phase {
          case Waits => phase := WaitingStep(states, actions, j - 1, t, n, want);
          case Drains(i) => phase := DrainingStep(states, actions, j - 1, t, n, want, i);
          case Drained(i) => phase := DrainedStep(states, actions, j - 1, t, n, want, i);
        }
      }
    }
  }

  lemma PhasePresent(states: seq<State>, actions: seq<Action>, j: nat, t: Tid, n: Side, want: nat, phase: Phase)
    requires |states| == |actions| + 1 && j < |states| && AtPhase(states, actions, j, t, n, want, phase)
    ensures t in states[j].threads
  {
  }

  lemma EnteredRead(states: seq<State>, actions: seq<Action>, e: nat, t: Tid, n: Side, want: nat)
    requires Run(states, actions) && e < |actions| && actions[e] == Enter(t, ReadCall(n, want))
    ensures AtPhase(states, actions, e + 1, t, n, want, Waits)
  {
    hide Inv;
    RunIsSafe(states, actions, e + 1, n);
    assert states[e + 1] == Apply(states[e], actions[e]);
  }

  /** A read of `want` bytes that has run to its end has got the oldest bytes that were waiting
      when its wait ended, in order: `want` of them, or all if there were fewer. */
  lemma ReadReturns(states: seq<State>, actions: seq<Action>, e: nat, j: nat, t: Tid, n: Side, want: nat)
    returns (i: nat)
    requires Run(states, actions) && e < j < |states| && SameCall(actions, e, j, t)
    requires actions[e] == Enter(t, ReadCall(n, want))
    requires t in states[j].threads && states[j].threads[t].todo == []
    ensures e < i < j && WaitEnds(states, actions, i, t, n)
    ensures states[j].threads[t].got == Due(states[i], n, want)
  {
    hide Inv, Ring.Contents, Due;
    var phase := ReadPhase(states, actions, e, j, t, n, want);
    i := phase.i;
  }

  // ---------------------------------------------------------------------------------------
  // All reads of a node

  /** The read in progress on n that has started to take bytes, if there is one. */
  ghost predicate Takes(s: State, n: Side, t: Tid) {
    && s.locks.Of(n) == Some(t) && t in s.threads && s.threads[t].todo != []
    && (s.threads[t].todo == Tail(n) || s.threads[t].todo[0].Drain?)
  }

  ghost function Partial(s: State, n: Side): seq<byte> {
    var holder := s.locks.Of(n);
    if holder.Some? && Takes(s, n, holder.value) then s.threads[holder.value].got else []
  }

  /** The action that ends t's read of n: its Release. */
  ghost predicate EndsRead(s: State, a: Action, n: Side) {
    a.Move? && a.t in s.threads && s.threads[a.t].todo == Tail(n)
  }

  /** What the reads of n that ended among the first i actions got, one after the other. */
  ghost function Pieces(states: seq<State>, actions: seq<Action>, i: nat, n: Side): seq<byte>
    requires |states| == |actions| + 1 && i <= |actions|
    decreases i
  {
    if i == 0 then []
    else
      var before := Pieces(states, actions, i - 1, n);
      if EndsRead(states[i - 1], actions[i - 1], n)
      then before + states[i - 1].threads[actions[i - 1].t].got
      else before
  }

  /** One action, in terms of delivered bytes and the read in progress. */
  lemma ActionPieces(s: State, a: Action, n: Side)
    requires Inv(s) && AllGotOk(s) && Enabled(s, a)
    ensures var s' := Apply(s, a);
            if EndsRead(s, a, n)
            then s'.delivered.Of(n) == s.delivered.Of(n) && Partial(s', n) == [] && Partial(s, n) == s.threads[a.t].got
            else exists more ::
                   s'.delivered.Of(n) == s.delivered.Of(n) + more && Partial(s', n) == Partial(s, n) + more
  {
    hide Inv, Partial, Step, Begin, Finish, AllGotOk;
    match a {
      case Enter(t, call) =>
        EnterPieces(s, t, Program(call), n);
        NoMore(s, Apply(s, a), n);
      case Leave(t) =>
        LeavePieces(s, t, n);
        NoMore(s, Apply(s, a), n);
      case Move(t) =>
        var more := MovePieces(s, t, n);
    }
  }

  lemma NoMore(s: State, s': State, n: Side)
    requires s'.delivered == s.delivered && Partial(s', n) == Partial(s, n)
    ensures exists more :: s'.delivered.Of(n) == s.delivered.Of(n) + more && Partial(s', n) == Partial(s, n) + more
  {
    var more: seq<byte> := [];
    assert s'.delivered.Of(n) == s.delivered.Of(n) + more && Partial(s', n) == Partial(s, n) + more;
  }

  /** Whoever holds n's lock and has got something is a reader of n past its wait. */
  lemma HolderGot(s: State, n: Side, t: Tid)
    requires Inv(s) && AllGotOk(s) && s.locks.Of(n) == Some(t)
    ensures t in s.threads
    ensures s.threads[t].got == [] || (s.threads[t].place.Running? && Takes(s, n, t))
    ensures !s.threads[t].place.Running? ==> !Takes(s, n, t)
  {
    hide NoLostReader, NoLostWriter, RingOk;
    assert ThreadOk(s, t) && GotOk(s.threads[t]) && n in Held(s, t);
    var th := s.threads[t];
    if th.place.Running? && th.todo != [] {
      TailHolder(th.todo, Master, Held(s, t));
      TailHolder(th.todo, Slave, Held(s, t));
    }
  }

  /** What is left of a read of m is well formed only with m's lock alone, or with none. */
  lemma TailHolder(todo: seq<Instr>, m: Side, held: set<Side>)
    requires WellFormed(todo, held)
    ensures TailOfRead(todo, m) ==> held == {} || (held == {m} && (todo == Tail(m) || (todo != [] && todo[0].Drain?)))
  {
    if todo == [WakeWriters(m)] {
      assert todo[1..] == [];
    } else if todo == Tail(m) {
      assert todo[1..] == [WakeWriters(m)] && todo[1..][1..] == [];
      assert WellFormed(todo[1..], held - {m});
      assert WellFormed(todo[1..][1..], held - {m});
      assert held - {m} == {};
    }
  }

  /** A step of the thread that holds n's lock. */
  lemma HolderMoves(s: State, t: Tid, n: Side) returns (more: seq<byte>)
    requires Inv(s) && AllGotOk(s) && CanStep(s, t) && RingsValid(s) && s.locks.Of(n) == Some(t)
    requires s.threads[t].todo != Tail(n)
    ensures Step(s, t).delivered.Of(n) == s.delivered.Of(n) + more
    ensures Partial(Step(s, t), n) == Partial(s, n) + more
  {
    hide Inv;
    HolderGot(s, n, t);
    var s', i := Step(s, t), Now(s, t);
    more := [];
    if i.Drain? {
      DrainIsTail(s, t);
      MoverHeld(s, t);
      DrainsOwn(s, t, n);
      if i.want > 0 && s.rings.Of(n).size > 0 {
        more := [s.rings.Of(n).First()];
      }
    } else {
      assert s.threads[t].got == [] && s'.threads[t].got == [];
      assert s'.locks.Of(n) == Some(t) || s'.locks.Of(n) == None;
    }
  }

  lemma DrainsOwn(s: State, t: Tid, n: Side)
    requires Inv(s) && CanStep(s, t) && Now(s, t).Drain? && s.locks.Of(n) == Some(t)
    ensures Now(s, t).n == n && s.threads[t].todo[1..] == Tail(n)
  {
    hide NoLostReader, NoLostWriter, RingOk;
    assert ThreadOk(s, t) && n in Held(s, t);
  }

  /** A step of any other thread. */
  lemma StrangerMoves(s: State, t: Tid, n: Side)
    requires Inv(s) && AllGotOk(s) && CanStep(s, t) && RingsValid(s) && s.locks.Of(n) != Some(t)
    ensures s.threads[t].todo != Tail(n)
    ensures Step(s, t).delivered.Of(n) == s.delivered.Of(n) && Partial(Step(s, t), n) == Partial(s, n)
  {
    hide Inv;
    StrangerLeaves(s, t, n);
    var s', holder := Step(s, t), s.locks.Of(n);
    if holder.Some? {
      HolderGot(s, n, holder.value);
      OthersStep(s, t, holder.value);
    } else if Now(s, t) == Acquire(n) {
      NothingGotYet(s, t);
    }
  }

  lemma NothingGotYet(s: State, t: Tid)
    requires AllGotOk(s) && CanStep(s, t) && Now(s, t).Acquire?
    ensures s.threads[t].got == []
  {
    assert GotOk(s.threads[t]);
  }

  lemma StrangerLeaves(s: State, t: Tid, n: Side)
    requires Inv(s) && CanStep(s, t) && RingsValid(s) && s.locks.Of(n) != Some(t)
    ensures s.threads[t].todo != Tail(n)
    ensures Step(s, t).delivered.Of(n) == s.delivered.Of(n)
    ensures Step(s, t).locks.Of(n) == if Now(s, t) == Acquire(n) then Some(t) else s.locks.Of(n)
  {
    hide NoLostReader, NoLostWriter, RingOk;
    assert ThreadOk(s, t) && n !in Held(s, t);
  }

  lemma MovePieces(s: State, t: Tid, n: Side) returns (more: seq<byte>)
    requires Inv(s) && AllGotOk(s) && CanStep(s, t) && RingsValid(s)
    ensures var s' := Step(s, t);
            if s.threads[t].todo == Tail(n)
            then s'.delivered.Of(n) == s.delivered.Of(n) && Partial(s', n) == [] && Partial(s, n) == s.threads[t].got
            else s'.delivered.Of(n) == s.delivered.Of(n) + more && Partial(s', n) == Partial(s, n) + more
  {
    hide Inv, AllGotOk;
    more := [];
    if s.locks.Of(n) != Some(t) {
      StrangerMoves(s, t, n);
    } else if s.threads[t].todo != Tail(n) {
      more := HolderMoves(s, t, n);
    }
  }

  lemma EnterPieces(s: State, t: Tid, todo: seq<Instr>, n: Side)
    requires Inv(s) && t !in s.threads
    ensures Partial(Begin(s, t, todo), n) == Partial(s, n)
    ensures Begin(s, t, todo).delivered == s.delivered
  {
  }

  lemma LeavePieces(s: State, t: Tid, n: Side)
    requires Inv(s) && t in s.threads && s.threads[t].todo == []
    ensures Partial(Finish(s, t), n) == Partial(s, n)
    ensures Finish(s, t).delivered == s.delivered
  {
  }

  /** In every state of every run, the bytes delivered from a node are what its reads got, in the
      order in which they ended, followed by what the read in progress has got so far. */
  lemma {:induction false} ReadsMakeUpDelivered(states: seq<State>, actions: seq<Action>, i: nat, n: Side)
    requires Run(states, actions) && i < |states|
    ensures states[i].delivered.Of(n) == Pieces(states, actions, i, n) + Partial(states[i], n)
    decreases i
  {
    hide Inv, Partial, Apply, AllGotOk, EndsRead;
    if i == 0 {
      assert states[0].delivered.Of(n) == [] && Partial(states[0], n) == [] by { NothingTaken(states[0], n); }
    } else {
      ReadsMakeUpDelivered(states, actions, i - 1, n);
      RunKeepsInv(states, actions, i - 1);
      RunKeepsGot(states, actions, i - 1);
      ActionPieces(states[i - 1], actions[i - 1], n);
    }
  }

  lemma NothingTaken(s: State, n: Side)
    requires Init(s)
    ensures s.delivered.Of(n) == [] && Partial(s, n) == []
  {
  }
}
