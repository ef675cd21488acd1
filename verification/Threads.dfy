/** The life of threads: creation and exit (source/kernel/src/thread.c, fork.c), waiting for
    children (process.c) and signals (signal.c).

    Each section that holds the scheduler lock is one step. Putting a thread in the ready
    queue is setting it READY. Signal sets stand for the 64-bit masks. */
module Threads {
  import opened Options

  type Tid = nat

  const NO_PARENT := -1

  const SIGKILL := 9
  const SIGCHLD := 17
  const SIGSTOP := 19

  datatype RunState = New | Ready | Running | Waiting | Sleeping | Zombie

  /** Inside the loop of sys_wait4, or not. */
  datatype Control = Elsewhere | InWait(pid: int, nohang: bool)

  datatype Thread = Thread(
    parent: int,
    state: RunState,
    pending: set<int>,
    blocked: set<int>,
    exitCode: int,
    control: Control)

  type Table = map<Tid, Thread>

  /** exited and reaped record every exit status produced and every one handed out. */
  datatype State = State(
    threads: Table,
    init: Tid,
    exited: multiset<(Tid, int)>,
    reaped: multiset<(Tid, int)>)

  // ---------------------------------------------------------------------------------------
  // Signals

  /** is_signal_pending */
  predicate SignalPending(th: Thread) {
    th.pending - th.blocked != {}
  }

  /** Some pending signal is not blocked. */
  lemma PendingMeans(th: Thread)
    ensures SignalPending(th) <==> !(th.pending <= th.blocked)
    ensures SignalPending(th) <==> exists x :: x in th.pending && x !in th.blocked
  {
    var rest := th.pending - th.blocked;
    if forall x :: x in th.pending ==> x in th.blocked {
      assert rest == {};
    } else {
      var x :| x in th.pending && x !in th.blocked;
      assert x in rest;
    }
  }

  /** do_wake_up_thread */
  function WakeUp(th: Thread): Thread {
    match th.state
    case New | Waiting | Sleeping => th.(state := Ready)
    case _ => th
  }

  /** do_send_signal */
  function Signalled(th: Thread, isInit: bool, signal: int): Thread {
    if isInit then WakeUp(th)
    else
      var th' := th.(pending := th.pending + {signal});
      if SignalPending(th') then WakeUp(th') else th'
  }

  function SendSignal(threads: Table, init: Tid, u: Tid, signal: int): Table
    requires u in threads
  {
    threads[u := Signalled(threads[u], u == init, signal)]
  }

  datatype How = Block | Unblock | SetMask

  /** sys_sigprocmask: SIGKILL and SIGSTOP cannot be blocked. */
  function NewMask(now: set<int>, how: How, mask: set<int>): (r: set<int>)
    ensures SIGKILL !in now && SIGSTOP !in now ==> SIGKILL !in r && SIGSTOP !in r
    ensures forall x :: x in r <==>
              match how
              case Block => x in now || (x in mask && x != SIGKILL && x != SIGSTOP)
              case Unblock => x in now && (x !in mask || x == SIGKILL || x == SIGSTOP)
              case SetMask => x in mask && x != SIGKILL && x != SIGSTOP
  {
    var mask := mask - {SIGKILL, SIGSTOP};
    match how
    case Block => now + mask
    case Unblock => now - mask
    case SetMask => mask
  }

  /** Setting the mask that was in force undoes any change of it; unblocking undoes blocking. */
  lemma MasksUndone(now: set<int>, how: How, mask: set<int>)
    requires SIGKILL !in now && SIGSTOP !in now
    ensures NewMask(NewMask(now, how, mask), SetMask, now) == now
    ensures now !! mask ==> NewMask(NewMask(now, Block, mask), Unblock, mask) == now
    ensures mask <= now ==> NewMask(NewMask(now, Unblock, mask), Block, mask) == now
  {
  }

  /** What do_send_signal does to a thread. Only init has nothing added to its pending signals; a
      thread that was asleep or new becomes ready if and only if it is init or has an unblocked
      signal pending; nothing else about it changes. */
  lemma SignalEffect(th: Thread, isInit: bool, signal: int)
    ensures var th' := Signalled(th, isInit, signal);
            var wakes := isInit || (exists x :: x in th.pending + {signal} && x !in th.blocked);
            && th'.pending == (if isInit then th.pending else th.pending + {signal})
            && th'.state == (if wakes && th.state in {New, Waiting, Sleeping} then Ready else th.state)
            && th' == th.(pending := th'.pending, state := th'.state)
  {
    hide SignalPending;
    PendingMeans(th.(pending := th.pending + {signal}));
  }

  // ---------------------------------------------------------------------------------------
  // Exit

  function MarkZombie(threads: Table, t: Tid, code: int): Table
    requires t in threads
  {
    threads[t := threads[t].(state := Zombie, exitCode := code)]
  }

  /** The first SIGCHLD of thread_exit; nothing is sent when there is no such parent. */
  function NotifyParent(threads: Table, init: Tid, parent: int): Table {
    if parent >= 0 && parent in threads then SendSignal(threads, init, parent, SIGCHLD) else threads
  }

  predicate HasChild(threads: Table, t: Tid) {
    exists u :: u in threads && threads[u].parent == t
  }

  /** thread_reparent_iterator */
  function Adopt(th: Thread, init: Tid, t: Tid): Thread {
    if th.parent == t then th.(parent := init) else th
  }

  function Reparent(threads: Table, init: Tid, t: Tid): (r: Table)
    ensures r.Keys == threads.Keys
  {
    map u | u in threads :: Adopt(threads[u], init, t)
  }

  function NotifyInit(threads: Table, init: Tid, needed: bool): Table
    requires init in threads
  {
    if needed then SendSignal(threads, init, init, SIGCHLD) else threads
  }

  /** thread_exit */
  function ExitTable(threads: Table, init: Tid, t: Tid, code: int): Table
    requires t in threads && init in threads
  {
    var notified := NotifyParent(MarkZombie(threads, t, code), init, threads[t].parent);
    NotifyInit(Reparent(notified, init, t), init, HasChild(notified, t))
  }

  // ---------------------------------------------------------------------------------------
  // wait4

  /** What find_and_remove_zombie_child may return to t. */
  predicate Reapable(threads: Table, t: Tid, pid: int, z: Tid) {
    && z in threads
    && threads[z].state == Zombie
    && (pid > 0 ==> z == pid)
    && (pid <= 0 ==> pid == -1 && threads[z].parent == t)
  }

  /** The check at the start of sys_wait4 that there is something to wait for. */
  predicate WorthWaiting(threads: Table, t: Tid, pid: int) {
    if pid > 0 then pid in threads else pid == -1 && HasChild(threads, t)
  }

  // ---------------------------------------------------------------------------------------
  // Steps

  datatype Action =
    | Schedule(t: Tid)
    | Preempt(t: Tid)
    /** Going to sleep for any reason other than wait4. */
    | GoToSleep(t: Tid, sleeping: bool)
    /** create_kernel_thread, sys_create_thread (NEW) or fork (READY), by t. */
    | Create(t: Tid, child: Tid, ready: bool)
    | Exit(t: Tid, code: int)
    | Send(u: Tid, signal: int)
    | Wake(u: Tid)
    | SigProcMask(t: Tid, how: How, mask: set<int>)
    /** One pending signal taken off by handle_signals. */
    | Consume(t: Tid, signal: int)
    | WaitCall(t: Tid, pid: int, nohang: bool)
    /** One turn of the loop in sys_wait4; choice is the zombie found, if any. */
    | WaitTurn(t: Tid, choice: Option<Tid>)

  predicate IsRunning(s: State, t: Tid) {
    t in s.threads && s.threads[t].state == Running
  }

  predicate AtLarge(s: State, t: Tid) {
    IsRunning(s, t) && s.threads[t].control == Elsewhere
  }

  ghost predicate Enabled(s: State, a: Action) {
    && s.init in s.threads
    && match a
       case Schedule(t) => t in s.threads && s.threads[t].state == Ready
       case Preempt(t) => IsRunning(s, t)
       case GoToSleep(t, _) => AtLarge(s, t)
       case Create(t, child, _) => AtLarge(s, t) && child !in s.threads
       case Exit(t, _) => AtLarge(s, t) && t != s.init
       case Send(u, _) => u in s.threads
       case Wake(u) => u in s.threads
       case SigProcMask(t, _, _) => AtLarge(s, t)
       case Consume(t, signal) => AtLarge(s, t)
       case WaitCall(t, _, _) => AtLarge(s, t)
       case WaitTurn(t, choice) =>
         && IsRunning(s, t)
         && s.threads[t].control.InWait?
         && match choice
            case Some(z) => Reapable(s.threads, t, s.threads[t].control.pid, z)
            case None => forall z :: !Reapable(s.threads, t, s.threads[t].control.pid, z)
  }

  function Set(s: State, t: Tid, th: Thread): State {
    s.(threads := s.threads[t := th])
  }

  function TurnOf(s: State, t: Tid, choice: Option<Tid>): State
    requires t in s.threads && s.threads[t].control.InWait?
    requires choice.Some? ==> choice.value in s.threads
  {
    var th := s.threads[t];
    if choice.Some? then
      var z := choice.value;
      State(s.threads[t := th.(control := Elsewhere)] - {z}, s.init, s.exited,
            s.reaped + multiset{(z, s.threads[z].exitCode)})
    else if th.control.nohang || SignalPending(th) then
      Set(s, t, th.(control := Elsewhere))
    else
      Set(s, t, th.(state := Waiting))
  }

  ghost function Apply(s: State, a: Action): State
    requires Enabled(s, a)
  {
    match a
    case Schedule(t) => Set(s, t, s.threads[t].(state := Running))
    case Preempt(t) => Set(s, t, s.threads[t].(state := Ready))
    case GoToSleep(t, sleeping) => Set(s, t, s.threads[t].(state := if sleeping then Sleeping else Waiting))
    case Create(t, child, ready) =>
      Set(s, child, Thread(t, if ready then Ready else New, {}, {}, 0, Elsewhere))
    case Exit(t, code) =>
      s.(threads := ExitTable(s.threads, s.init, t, code), exited := s.exited + multiset{(t, code)})
    case Send(u, signal) => s.(threads := SendSignal(s.threads, s.init, u, signal))
    case Wake(u) => Set(s, u, WakeUp(s.threads[u]))
    case SigProcMask(t, how, mask) =>
      Set(s, t, s.threads[t].(blocked := NewMask(s.threads[t].blocked, how, mask)))
    case Consume(t, signal) => Set(s, t, s.threads[t].(pending := s.threads[t].pending - {signal}))
    case WaitCall(t, pid, nohang) =>
      if WorthWaiting(s.threads, t, pid) then Set(s, t, s.threads[t].(control := InWait(pid, nohang))) else s
    case WaitTurn(t, choice) => TurnOf(s, t, choice)
  }

  // ---------------------------------------------------------------------------------------
  // The invariant

  /** Every parent is none, or a thread in the table that is not a zombie. */
  ghost predicate ParentOk(s: State, t: Tid)
    requires t in s.threads
  {
    var p := s.threads[t].parent;
    p == NO_PARENT || (p >= 0 && p in s.threads && s.threads[p].state != Zombie)
  }

  /** Asleep in the loop of sys_wait4. */
  predicate InWaitSleep(th: Thread) {
    th.state == Waiting && th.control.InWait?
  }

  /** A call that may block, with no signal to end it. */
  predicate MaySleep(th: Thread)
    requires th.control.InWait?
  {
    !th.control.nohang && !SignalPending(th)
  }

  /** A SIGCHLD would wake t. */
  predicate HearsChildren(s: State, t: Tid)
    requires t in s.threads
  {
    t == s.init || SIGCHLD !in s.threads[t].blocked
  }

  /** t sleeps in wait4( -1 ) and a SIGCHLD would wake it. */
  predicate AwaitsChildren(s: State, t: Tid) {
    && t in s.threads
    && InWaitSleep(s.threads[t])
    && s.threads[t].control.pid == -1
    && HearsChildren(s, t)
  }

  ghost predicate ZombieChild(s: State, t: Tid, z: Tid) {
    z in s.threads && s.threads[z].state == Zombie && s.threads[z].parent == t
  }

  ghost function Statuses(threads: Table): set<(Tid, int)> {
    set z | z in threads && threads[z].state == Zombie :: (z, threads[z].exitCode)
  }

  ghost predicate Inv(s: State) {
    && s.init in s.threads
    && s.threads[s.init].state != Zombie
    && (forall t :: t in s.threads ==> ParentOk(s, t))
    && (forall t :: t in s.threads && t != s.init ==> s.threads[t].parent != t)
    && (forall t, z :: AwaitsChildren(s, t) ==> !ZombieChild(s, t, z))
    && (forall t :: t in s.threads && InWaitSleep(s.threads[t]) ==> MaySleep(s.threads[t]))
    && s.exited == s.reaped + multiset(Statuses(s.threads))
  }

  // ---------------------------------------------------------------------------------------
  // Steps that leave parents and zombies alone

  /** t's entry changes, but not its parent, not into or out of a zombie, and not into a
      sleep in wait4 with a zombie child, nor out of a mask that kept SIGCHLD away. */
  lemma QuietChange(s: State, t: Tid, th: Thread)
    requires Inv(s) && t in s.threads
    requires th.parent == s.threads[t].parent
    requires th.state == Zombie <==> s.threads[t].state == Zombie
    requires th.exitCode == s.threads[t].exitCode
    requires AwaitsChildren(Set(s, t, th), t) ==> forall z :: !ZombieChild(s, t, z)
    requires InWaitSleep(th) ==> MaySleep(th)
    ensures Inv(Set(s, t, th))
  {
    hide Statuses;
    var s' := Set(s, t, th);
    forall u | u in s'.threads ensures ParentOk(s', u) {
      assert ParentOk(s, u);
    }
    forall u, z | AwaitsChildren(s', u) ensures !ZombieChild(s', u, z) {
      assert ZombieChild(s', u, z) ==> ZombieChild(s, u, z);
      assert u != t ==> AwaitsChildren(s, u);
    }
    SameStatuses(s.threads, s'.threads);
  }

  lemma SameStatuses(a: Table, b: Table)
    requires forall z :: z in a && a[z].state == Zombie ==>
               z in b && b[z].state == Zombie && b[z].exitCode == a[z].exitCode
    requires forall z :: z in b && b[z].state == Zombie ==> z in a && a[z].state == Zombie
    ensures Statuses(a) == Statuses(b)
  {
    forall x ensures x in Statuses(a) <==> x in Statuses(b) {
      if x in Statuses(a) { assert b[x.0].exitCode == x.1; }
      if x in Statuses(b) { assert a[x.0].exitCode == x.1; }
    }
  }

  lemma CreateKeepsInv(s: State, t: Tid, child: Tid, ready: bool)
    requires Inv(s) && Enabled(s, Create(t, child, ready))
    ensures Inv(Apply(s, Create(t, child, ready)))
  {
    hide Statuses;
    var s' := Apply(s, Create(t, child, ready));
    forall u | u in s'.threads ensures ParentOk(s', u) {
      if u != child { assert ParentOk(s, u); }
    }
    forall u, z | AwaitsChildren(s', u) ensures !ZombieChild(s', u, z) {
      assert AwaitsChildren(s, u);
      assert ZombieChild(s', u, z) ==> ZombieChild(s, u, z);
    }
    SameStatuses(s.threads, s'.threads);
  }

  // ---------------------------------------------------------------------------------------
  // Reaping

  /** Nobody's parent is a zombie, so removing one leaves no dangling parent. */
  lemma ReapKeepsInv(s: State, t: Tid, z: Tid)
    requires Inv(s) && Enabled(s, WaitTurn(t, Some(z)))
    ensures Inv(Apply(s, WaitTurn(t, Some(z))))
  {
    hide Statuses;
    var s' := Apply(s, WaitTurn(t, Some(z)));
    assert z != t && z != s.init;
    assert s'.threads == s.threads[t := s.threads[t].(control := Elsewhere)] - {z};
    forall u | u in s'.threads ensures ParentOk(s', u) {
      assert ParentOk(s, u);
    }
    forall u, y | AwaitsChildren(s', u) ensures !ZombieChild(s', u, y) {
      assert AwaitsChildren(s, u);
      assert ZombieChild(s', u, y) ==> ZombieChild(s, u, y);
    }
    StatusRemoved(s.threads, s'.threads, z);
  }

  lemma StatusRemoved(a: Table, b: Table, z: Tid)
    requires z in a && a[z].state == Zombie && z !in b
    requires forall u :: u in b && b[u].state == Zombie ==>
               u in a && a[u].state == Zombie && a[u].exitCode == b[u].exitCode
    requires forall u :: u in a && u != z && a[u].state == Zombie ==> u in b && b[u].state == Zombie
    ensures multiset(Statuses(a)) == multiset(Statuses(b)) + multiset{(z, a[z].exitCode)}
  {
    var x := (z, a[z].exitCode);
    assert x !in Statuses(b);
    forall y ensures y in Statuses(a) <==> y in Statuses(b) + {x} {
      if y in Statuses(a) && y.0 != z { assert b[y.0].exitCode == y.1; }
      if y in Statuses(b) { assert a[y.0].exitCode == y.1; }
    }
    assert Statuses(a) == Statuses(b) + {x};
  }

  // ---------------------------------------------------------------------------------------
  // Exit

  /** How an exit changes another thread: at most it is woken, gets SIGCHLD or a new parent. */
  ghost predicate Touched(th: Thread, th': Thread) {
    && th'.blocked == th.blocked && th'.control == th.control && th'.exitCode == th.exitCode
    && (th'.state == th.state || (th.state in {New, Waiting, Sleeping} && th'.state == Ready))
    && (InWaitSleep(th') && !SignalPending(th) ==> !SignalPending(th'))
  }

  lemma ExitEffect(s: State, t: Tid, code: int, u: Tid)
    requires Inv(s) && Enabled(s, Exit(t, code)) && u in s.threads
    ensures var threads' := ExitTable(s.threads, s.init, t, code);
            && threads'.Keys == s.threads.Keys
            && threads'[u].parent == (if s.threads[u].parent == t then s.init else s.threads[u].parent)
            && (u == t ==> threads'[u].state == Zombie && threads'[u].exitCode == code)
            && (u != t ==> Touched(s.threads[u], threads'[u]))
  {
    hide Signalled, HasChild, Inv;
    var p := s.threads[t].parent;
    var marked := MarkZombie(s.threads, t, code);
    var notified := NotifyParent(marked, s.init, p);
    var reparented := Reparent(notified, s.init, t);
    assert p != t by { assert Inv(s); NotOwnParent(s, t); }
    assert notified[u] == if u == p then Signalled(marked[u], u == s.init, SIGCHLD) else marked[u];
    SignalledTouched(marked[u], u == s.init);
    SignalledTouched(reparented[u], true);
    TouchedTwice(marked[u], notified[u], s.init);
  }

  lemma NotOwnParent(s: State, t: Tid)
    requires Inv(s) && t in s.threads && t != s.init
    ensures s.threads[t].parent != t
  {
  }

  lemma SignalledTouched(th: Thread, isInit: bool)
    ensures Touched(th, Signalled(th, isInit, SIGCHLD)) && Signalled(th, isInit, SIGCHLD).parent == th.parent
    ensures Touched(th, th)
  {
  }

  lemma TouchedTwice(th: Thread, th': Thread, init: Tid)
    requires Touched(th, th')
    ensures var adopted := th'.(parent := init);
            && Touched(th, adopted)
            && Touched(th, Signalled(adopted, true, SIGCHLD)) && Touched(th, Signalled(th', true, SIGCHLD))
  {
  }

  /** The thread that gains a zombie child is awake afterwards: the parent of t, if SIGCHLD
      can reach it, and init, if t had any children to pass on. */
  lemma ExitWakes(s: State, t: Tid, code: int)
    requires Inv(s) && Enabled(s, Exit(t, code))
    ensures var threads' := ExitTable(s.threads, s.init, t, code);
            && (var p := s.threads[t].parent;
                p >= 0 ==> p in s.threads && (AwaitsChildren(s, p) ==> threads'[p].state == Ready))
            && (HasChild(s.threads, t) && s.threads[s.init].state == Waiting ==> threads'[s.init].state == Ready)
  {
    hide HasChild, Statuses;
    assert ParentOk(s, t);
    var p := s.threads[t].parent;
    ChildrenKept(s.threads, s.init, t, code, p);
    if p >= 0 && AwaitsChildren(s, p) && p != s.init {
      assert SIGCHLD in Signalled(s.threads[p], false, SIGCHLD).pending - s.threads[p].blocked;
    }
  }

  /** Marking a zombie and telling its parent leaves everybody's children alone. */
  lemma ChildrenKept(threads: Table, init: Tid, t: Tid, code: int, p: int)
    requires t in threads
    ensures HasChild(NotifyParent(MarkZombie(threads, t, code), init, p), t) <==> HasChild(threads, t)
  {
    var notified := NotifyParent(MarkZombie(threads, t, code), init, p);
    assert notified.Keys == threads.Keys;
    assert forall u :: u in threads ==> notified[u].parent == threads[u].parent;
    if HasChild(threads, t) {
      var u :| u in threads && threads[u].parent == t;
      assert notified[u].parent == t;
    }
  }

  /** A child's exit wakes its parent out of wait4 if and only if the parent is init or does
      not block SIGCHLD. (A parent that is init may also be woken for inherited children.) */
  lemma ExitWakesExactly(s: State, t: Tid, code: int)
    requires Inv(s) && Enabled(s, Exit(t, code)) && s.threads[t].parent >= 0
    ensures var p := s.threads[t].parent;
            && p in s.threads
            && (InWaitSleep(s.threads[p]) ==>
                  (ExitTable(s.threads, s.init, t, code)[p].state == Ready <==> HearsChildren(s, p)))
  {
    assert ParentOk(s, t);
    var p := s.threads[t].parent;
    if InWaitSleep(s.threads[p]) && p != s.init {
      var notified := s.threads[p].(pending := s.threads[p].pending + {SIGCHLD});
      assert SIGCHLD !in s.threads[p].blocked ==> SIGCHLD in notified.pending - notified.blocked;
      assert SIGCHLD in s.threads[p].blocked ==>
          notified.pending - notified.blocked == s.threads[p].pending - s.threads[p].blocked;
    }
  }

  lemma ExitKeepsWaiters(s: State, t: Tid, code: int, w: Tid, z: Tid)
    requires Inv(s) && Enabled(s, Exit(t, code)) && AwaitsChildren(Apply(s, Exit(t, code)), w)
    ensures !ZombieChild(Apply(s, Exit(t, code)), w, z)
  {
    hide ExitTable;
    var s' := Apply(s, Exit(t, code));
    ExitEffect(s, t, code, t);
    ExitEffect(s, t, code, w);
    ExitWakes(s, t, code);
    assert w != t && AwaitsChildren(s, w);
    if z in s.threads {
      ExitEffect(s, t, code, z);
      assert !ZombieChild(s, w, z);
      if s.threads[z].parent == t {
        assert HasChild(s.threads, t);
      }
    }
  }

  lemma ExitKeepsInv(s: State, t: Tid, code: int)
    requires Inv(s) && Enabled(s, Exit(t, code))
    ensures Inv(Apply(s, Exit(t, code)))
  {
    hide ExitTable;
    var s' := Apply(s, Exit(t, code));
    ExitEffect(s, t, code, s.init);
    forall u | u in s'.threads
      ensures ParentOk(s', u) && (u != s'.init ==> s'.threads[u].parent != u)
      ensures InWaitSleep(s'.threads[u]) ==> MaySleep(s'.threads[u])
    {
      ExitEffect(s, t, code, u);
      assert ParentOk(s, u);
      var p := s.threads[u].parent;
      if p >= 0 { ExitEffect(s, t, code, p); }
    }
    forall w, z | AwaitsChildren(s', w) ensures !ZombieChild(s', w, z) {
      ExitKeepsWaiters(s, t, code, w, z);
    }
    ExitStatuses(s, t, code);
  }

  lemma ExitStatuses(s: State, t: Tid, code: int)
    requires Inv(s) && Enabled(s, Exit(t, code))
    ensures multiset(Statuses(ExitTable(s.threads, s.init, t, code))) ==
            multiset(Statuses(s.threads)) + multiset{(t, code)}
  {
    hide ExitTable;
    var threads' := ExitTable(s.threads, s.init, t, code);
    forall u | u in s.threads
      ensures u in threads' && (u == t ==> threads'[u].state == Zombie && threads'[u].exitCode == code)
      ensures u != t ==> Touched(s.threads[u], threads'[u])
    {
      ExitEffect(s, t, code, u);
    }
    ExitEffect(s, t, code, t);
    var x := (t, code);
    assert x !in Statuses(s.threads);
    forall y ensures y in Statuses(threads') <==> y in Statuses(s.threads) + {x} {
      if y in Statuses(threads') && y.0 != t { assert s.threads[y.0].exitCode == y.1; }
      if y in Statuses(s.threads) { assert threads'[y.0].exitCode == y.1; }
    }
    assert Statuses(threads') == Statuses(s.threads) + {x};
  }

  // ---------------------------------------------------------------------------------------
  // All steps, all runs

  lemma ApplyKeepsInv(s: State, a: Action)
    requires Inv(s) && Enabled(s, a)
    ensures Inv(Apply(s, a))
  {
    hide Inv, Statuses, ExitTable;
    match a {
      case Create(t, child, ready) => CreateKeepsInv(s, t, child, ready);
      case Exit(t, code) => ExitKeepsInv(s, t, code);
      case WaitTurn(t, choice) =>
        if choice.Some? {
          ReapKeepsInv(s, t, choice.value);
        } else {
          NoZombieToReap(s, t);
          QuietChange(s, t, Apply(s, a).threads[t]);
        }
      case Schedule(t) => QuietChange(s, t, Apply(s, a).threads[t]);
      case Preempt(t) => QuietChange(s, t, Apply(s, a).threads[t]);
      case GoToSleep(t, _) => QuietChange(s, t, Apply(s, a).threads[t]);
      case Send(u, signal) =>
        StillAwaits(s, u, Apply(s, a).threads[u]);
        SleptBefore(s, u);
        QuietChange(s, u, Apply(s, a).threads[u]);
      case Wake(u) =>
        StillAwaits(s, u, Apply(s, a).threads[u]);
        SleptBefore(s, u);
        QuietChange(s, u, Apply(s, a).threads[u]);
      case SigProcMask(t, _, _) => QuietChange(s, t, Apply(s, a).threads[t]);
      case Consume(t, _) => QuietChange(s, t, Apply(s, a).threads[t]);
      case WaitCall(t, _, _) =>
        if Apply(s, a) != s { QuietChange(s, t, Apply(s, a).threads[t]); }
    }
  }

  lemma StillAwaits(s: State, u: Tid, th: Thread)
    requires Inv(s) && u in s.threads
    requires th.blocked == s.threads[u].blocked && th.control == s.threads[u].control
    requires th.state == s.threads[u].state || th.state == Ready
    ensures AwaitsChildren(Set(s, u, th), u) ==> forall z :: !ZombieChild(s, u, z)
  {
    assert AwaitsChildren(Set(s, u, th), u) ==> AwaitsChildren(s, u);
  }

  lemma SleptBefore(s: State, u: Tid)
    requires Inv(s) && u in s.threads
    ensures InWaitSleep(s.threads[u]) ==> MaySleep(s.threads[u])
  {
  }

  lemma NoZombieToReap(s: State, t: Tid)
    requires Enabled(s, WaitTurn(t, None))
    ensures s.threads[t].control.pid == -1 ==> forall z :: !ZombieChild(s, t, z)
  {
    forall z | s.threads[t].control.pid == -1 ensures !ZombieChild(s, t, z) {
      assert !Reapable(s.threads, t, -1, z);
    }
  }

  /** Boot: the init thread and any others, all alive, nobody waiting yet. */
  ghost predicate Boot(s: State) {
    && s.init in s.threads
    && s.exited == s.reaped == multiset{}
    && forall t :: t in s.threads ==>
         && s.threads[t].state != Zombie
         && s.threads[t].control == Elsewhere
         && s.threads[t].parent != t
         && ParentOk(s, t)
  }

  ghost predicate Run(states: seq<State>, actions: seq<Action>) {
    && |states| == |actions| + 1
    && Boot(states[0])
    && forall i :: 0 <= i < |actions| ==>
         Enabled(states[i], actions[i]) && states[i + 1] == Apply(states[i], actions[i])
  }

  lemma {:induction false} RunKeepsInv(states: seq<State>, actions: seq<Action>, i: nat)
    requires Run(states, actions) && i < |states|
    ensures Inv(states[i])
    decreases i
  {
    hide Apply, Statuses;
    if i == 0 {
      BootInv(states[0]);
    } else {
      RunKeepsInv(states, actions, i - 1);
      ApplyKeepsInv(states[i - 1], actions[i - 1]);
    }
  }

  lemma BootInv(s: State)
    requires Boot(s)
    ensures Inv(s)
  {
    assert Statuses(s.threads) == {};
  }

  /** In every reachable state: no thread that SIGCHLD would wake sleeps in wait4( -1 ) while
      it has a zombie child, inherited ones included; every parent id is -1 or names a live
      thread in the table; every exit status ever produced has been handed to exactly one
      waiter or is still in the table; and no thread sleeps in wait4 that asked not to, or that
      has an unblocked signal pending. */
  lemma RunIsSafe(states: seq<State>, actions: seq<Action>, i: nat)
    requires Run(states, actions) && i < |states|
    ensures var s := states[i];
            && (forall t, z :: AwaitsChildren(s, t) ==> !ZombieChild(s, t, z))
            && (forall t :: t in s.threads ==> ParentOk(s, t))
            && s.exited == s.reaped + multiset(Statuses(s.threads))
            && (forall t :: t in s.threads && InWaitSleep(s.threads[t]) ==>
                  !s.threads[t].control.nohang && s.threads[t].pending <= s.threads[t].blocked)
  {
    RunKeepsInv(states, actions, i);
    var s := states[i];
    forall t | t in s.threads && InWaitSleep(s.threads[t])
      ensures !s.threads[t].control.nohang && s.threads[t].pending <= s.threads[t].blocked
    {
      PendingMeans(s.threads[t]);
    }
  }

  /** A turn of the loop in sys_wait4 ends the call if and only if there is a zombie to reap, the
      caller asked not to wait, or an unblocked signal is pending; otherwise it sleeps. */
  lemma TurnEnds(s: State, t: Tid, choice: Option<Tid>)
    requires Enabled(s, WaitTurn(t, choice))
    ensures var th := s.threads[t];
            var threads' := Apply(s, WaitTurn(t, choice)).threads;
            var ends := || (exists z :: Reapable(s.threads, t, th.control.pid, z))
                        || th.control.nohang
                        || (exists x :: x in th.pending && x !in th.blocked);
            && t in threads'
            && threads'[t] == (if ends then th.(control := Elsewhere) else th.(state := Waiting))
            && threads'.Keys == s.threads.Keys - (if choice.Some? then {choice.value} else {})
  {
    hide ExitTable;
    var th := s.threads[t];
    PendingMeans(th);
  }

  /** The "parent not found" branch of thread_exit is dead code. */
  lemma ParentAlwaysFound(states: seq<State>, actions: seq<Action>, i: nat)
    requires Run(states, actions) && i < |actions| && actions[i].Exit?
    ensures var s, t := states[i], actions[i].t;
            s.threads[t].parent != NO_PARENT ==> s.threads[t].parent >= 0 && s.threads[t].parent in s.threads
  {
    RunKeepsInv(states, actions, i);
    assert ParentOk(states[i], actions[i].t);
  }

  /** t sleeps in wait4( -1 ), blocks SIGCHLD, and z is its child, running. */
  ghost predicate DeafWaiter(s: State, t: Tid, z: Tid) {
    && t in s.threads && InWaitSleep(s.threads[t]) && s.threads[t].control.pid == -1 && !HearsChildren(s, t)
    && Enabled(s, Exit(z, 0)) && s.threads[z].parent == t
  }

  const IDLE := Thread(NO_PARENT, Ready, {}, {}, 0, Elsewhere)

  /** Init, a parent p and a child c. */
  ghost function Family(p: Thread, c: Thread): State {
    State(map[0 := IDLE, 1 := p, 2 := c], 0, multiset{}, multiset{})
  }

  lemma FamilyChange(p: Thread, c: Thread, p': Thread, c': Thread)
    ensures Set(Family(p, c), 1, p') == Family(p', c) && Set(Family(p, c), 2, c') == Family(p, c')
  {
  }

  lemma FamilyWaits(p: Thread, c: Thread)
    requires p.state == Running && p.control == Elsewhere && p.pending == {} && c.parent == 1 && c.state == Ready
    ensures var waits := p.(control := InWait(-1, false));
            && Enabled(Family(p, c), WaitCall(1, -1, false))
            && Apply(Family(p, c), WaitCall(1, -1, false)) == Family(waits, c)
            && Enabled(Family(waits, c), WaitTurn(1, None))
            && Apply(Family(waits, c), WaitTurn(1, None)) == Family(waits.(state := Waiting), c)
  {
    hide ExitTable;
    var waits := p.(control := InWait(-1, false));
    FamilyChange(p, c, waits, c);
    FamilyChange(waits, c, waits.(state := Waiting), c);
    assert Family(p, c).threads[2].parent == 1;
    assert !SignalPending(waits);
  }

  lemma FamilyStarts(p: Thread, c: Thread)
    requires p == IDLE.(state := Running) && c == IDLE.(parent := 1)
    ensures var s0 := State(map[0 := IDLE, 1 := p], 0, multiset{}, multiset{});
            && Boot(s0)
            && Enabled(s0, Create(1, 2, true)) && Apply(s0, Create(1, 2, true)) == Family(p, c)
  {
  }

  lemma FamilyMasks(p: Thread, c: Thread)
    requires p == IDLE.(state := Running)
    ensures var a := SigProcMask(1, Block, {SIGCHLD});
            Enabled(Family(p, c), a) && Apply(Family(p, c), a) == Family(p.(blocked := {SIGCHLD}), c)
  {
    assert {} + ({SIGCHLD} - {SIGKILL, SIGSTOP}) == {SIGCHLD};
    FamilyChange(p, c, p.(blocked := {SIGCHLD}), c);
  }

  /** A thread may get there: it forks, blocks the signal and waits; then the child runs. */
  lemma DeafWaiterExists() returns (states: seq<State>, actions: seq<Action>)
    ensures Run(states, actions) && DeafWaiter(states[|actions|], 1, 2)
  {
    var p, c := IDLE.(state := Running), IDLE.(parent := 1);
    var masked := p.(blocked := {SIGCHLD});
    var waits := masked.(control := InWait(-1, false));
    var asleep := waits.(state := Waiting);
    FamilyStarts(p, c);
    FamilyMasks(p, c);
    FamilyWaits(masked, c);
    FamilyChange(asleep, c, asleep, c.(state := Running));
    assert Apply(Family(asleep, c), Schedule(2)) == Family(asleep, c.(state := Running));
    hide Apply, Boot;
    states := [State(map[0 := IDLE, 1 := p], 0, multiset{}, multiset{}), Family(p, c), Family(masked, c),
               Family(waits, c), Family(asleep, c), Family(asleep, c.(state := Running))];
    actions := [Create(1, 2, true), SigProcMask(1, Block, {SIGCHLD}), WaitCall(1, -1, false), WaitTurn(1, None),
                Schedule(2)];
  }

  /** A waiter that blocks SIGCHLD does miss its child's end. */
  lemma DeafWaiterStaysAsleep(s: State, t: Tid, z: Tid)
    requires Inv(s) && DeafWaiter(s, t, z)
    ensures var s' := Apply(s, Exit(z, 0)); t in s'.threads && InWaitSleep(s'.threads[t]) && ZombieChild(s', t, z)
  {
    ExitWakesExactly(s, z, 0);
    ExitEffect(s, z, 0, t);
    ExitEffect(s, z, 0, z);
  }

  /** So there is a run that ends with a thread asleep in wait4( -1 ) beside a zombie child. */
  lemma BlockedWaiterMissesZombie()
    ensures exists states: seq<State>, actions: seq<Action> ::
              && Run(states, actions)
              && var s := states[|actions|];
                 1 in s.threads && InWaitSleep(s.threads[1]) && ZombieChild(s, 1, 2)
  {
    hide Apply, Boot, DeafWaiter, ZombieChild;
    var states, actions := DeafWaiterExists();
    var s := states[|actions|];
    RunKeepsInv(states, actions, |actions|);
    assert Enabled(s, Exit(2, 0)) by { DeafCanExit(s); }
    DeafWaiterStaysAsleep(s, 1, 2);
    assert Run(states + [Apply(s, Exit(2, 0))], actions + [Exit(2, 0)]);
  }

  lemma DeafCanExit(s: State)
    requires DeafWaiter(s, 1, 2)
    ensures Enabled(s, Exit(2, 0))
  {
  }
}
