/** The thread table as the kernel updates it: insert_thread, do_send_signal, thread_exit and
    find_and_remove_zombie_child, each run with the scheduler locked. Their effects are the
    steps of module Threads. */
module ThreadTable {
  import opened Options
  import opened Ids
  import opened Threads

  const EINTR := 18
  const ECHILD := 30

  class ThreadTable {
    const init: Tid
    var threads: Table
    var idCounter: Tid

    constructor (init: Tid, threads: Table)
      ensures this.init == init && this.threads == threads && idCounter == 0
    {
      this.init := init;
      this.threads := threads;
      idCounter := 0;
    }

    /** insert_thread: it finds an unused id however the counter stands, as long as there is
        one. */
    method InsertThread(th: Thread) returns (id: Tid)
      requires idCounter < ID_LIMIT && |threads.Keys| < ID_LIMIT
      modifies this`threads, this`idCounter
      ensures id < ID_LIMIT && id !in old(threads) && threads == old(threads)[id := th]
      ensures idCounter < ID_LIMIT
    {
      id, idCounter := FindUnused(threads.Keys, idCounter);
      threads := threads[id := th];
    }

    /** do_send_signal */
    method DoSendSignal(u: Tid, signal: int)
      requires u in threads
      modifies this`threads
      ensures threads == SendSignal(old(threads), init, u, signal)
    {
      var th := threads[u];
      if u == init {
        th := WakeUp(th);
      } else {
        th := th.(pending := th.pending + {signal});
        if SignalPending(th) {
          th := WakeUp(th);
        }
      }
      threads := threads[u := th];
    }

    /** hashtable_iterate with thread_reparent_iterator. */
    method ReparentChildren(t: Tid) returns (found: bool)
      modifies this`threads
      ensures threads == Reparent(old(threads), init, t)
      ensures found <==> HasChild(old(threads), t)
    {
      found := false;
      var rest := threads.Keys;
      while rest != {}
        invariant threads.Keys == old(threads).Keys && rest <= threads.Keys
        invariant forall u :: u in old(threads) ==>
          threads[u] == if u in rest then old(threads)[u] else Adopt(old(threads)[u], init, t)
        invariant found <==> exists u :: u in old(threads) && u !in rest && old(threads)[u].parent == t
        decreases |rest|
      {
        var u :| u in rest;
        if threads[u].parent == t {
          threads := threads[u := threads[u].(parent := init)];
          found := true;
        }
        rest := rest - {u};
      }
    }

    /** thread_exit, up to the moment it gives up the processor. */
    method ThreadExit(t: Tid, code: int)
      requires t in threads && init in threads
      modifies this`threads
      ensures threads == ExitTable(old(threads), init, t, code)
    {
      var parent := threads[t].parent;
      threads := threads[t := threads[t].(state := Zombie, exitCode := code)];
      if parent >= 0 && parent in threads {
        DoSendSignal(parent, SIGCHLD);
      }
      var childrenFound := ReparentChildren(t);
      if childrenFound {
        DoSendSignal(init, SIGCHLD);
      }
    }

    /** wait4_child_check_iterator for zombies: the first one the iteration meets. */
    method FindZombieChild(t: Tid) returns (z: Option<Tid>)
      ensures z.Some? ==> Reapable(threads, t, -1, z.value)
      ensures z.None? ==> forall y :: !Reapable(threads, t, -1, y)
    {
      var rest := threads.Keys;
      while rest != {}
        invariant rest <= threads.Keys
        invariant forall y :: y in threads.Keys - rest ==> !Reapable(threads, t, -1, y)
        decreases |rest|
      {
        var y :| y in rest;
        if threads[y].state == Zombie && threads[y].parent == t {
          return Some(y);
        }
        ghost var done := threads.Keys - rest;
        rest := rest - {y};
        assert threads.Keys - rest == done + {y};
      }
      z := None;
      assert forall y :: y in threads ==> y in threads.Keys - rest;
    }

    /** find_and_remove_zombie_child: it misses no zombie it is asked for, and removes exactly
        the one it returns. */
    method FindAndRemoveZombieChild(t: Tid, pid: int) returns (z: Option<Tid>, status: int)
      modifies this`threads
      ensures z.Some? ==> Reapable(old(threads), t, pid, z.value) && threads == old(threads) - {z.value}
      ensures z.Some? ==> status == old(threads)[z.value].exitCode
      ensures z.None? ==> (forall y :: !Reapable(old(threads), t, pid, y)) && threads == old(threads)
    {
      z, status := None, 0;
      if pid > 0 {
        if pid in threads && threads[pid].state == Zombie {
          z := Some(pid);
        }
      } else if pid == -1 {
        z := FindZombieChild(t);
      }
      if z.Some? {
        status := threads[z.value].exitCode;
        threads := threads - {z.value};
      }
    }

    /** The check at the start of sys_wait4; it answers 0 or -ECHILD. */
    method Wait4Check(t: Tid, pid: int) returns (error: int)
      ensures error == if WorthWaiting(threads, t, pid) then 0 else -ECHILD
      ensures pid == -1 ==> (error == 0 <==> exists u :: u in threads && threads[u].parent == t)
    {
      if pid > 0 {
        return if pid in threads then 0 else -ECHILD;
      }
      error := -ECHILD;
      if pid == -1 {
        var rest := threads.Keys;
        while rest != {}
          invariant rest <= threads.Keys && error == -ECHILD
          invariant forall u :: u in threads && u !in rest ==> threads[u].parent != t
          decreases |rest|
        {
          var u :| u in rest;
          if threads[u].parent == t {
            return 0;
          }
          rest := rest - {u};
        }
      }
    }

    /** One turn of the loop in sys_wait4: a step of the lifecycle. It returns the id of a zombie,
        with its exit code, or 0 under WNOHANG, or -EINTR; or it sleeps. */
    method Wait4Turn(t: Tid) returns (choice: Option<Tid>, result: Option<int>, status: int)
      requires t in threads && threads[t].state == Running && threads[t].control.InWait? && init in threads
      modifies this`threads
      ensures forall exited, reaped :: var s := State(old(threads), init, exited, reaped);
              Enabled(s, WaitTurn(t, choice)) && threads == Apply(s, WaitTurn(t, choice)).threads
      ensures var th := old(threads)[t];
              && (choice.Some? <==> exists z :: Reapable(old(threads), t, th.control.pid, z))
              && (choice.Some? ==>
                    && choice.value in old(threads)
                    && result == Some(choice.value) && status == old(threads)[choice.value].exitCode)
              && (choice.None? && th.control.nohang ==> result == Some(0))
              && (choice.None? && !th.control.nohang && !(th.pending <= th.blocked) ==> result == Some(-EINTR))
              && (choice.None? && !th.control.nohang && th.pending <= th.blocked ==> result == None)
      ensures t in threads && (result.None? <==> threads[t].state == Waiting)
    {
      var pid := threads[t].control.pid;
      PendingMeans(threads[t]);
      choice, status := FindAndRemoveZombieChild(t, pid);
      if choice.Some? {
        result := Some(choice.value);
        threads := threads[t := threads[t].(control := Elsewhere)];
      } else if threads[t].control.nohang {
        result := Some(0);
        threads := threads[t := threads[t].(control := Elsewhere)];
      } else if SignalPending(threads[t]) {
        result := Some(-EINTR);
        threads := threads[t := threads[t].(control := Elsewhere)];
      } else {
        result := None;
        threads := threads[t := threads[t].(state := Waiting)];
      }
    }
  }
}
