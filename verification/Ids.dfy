/** The id counters of the kernel: insert_thread in source/kernel/src/thread.c and
    ipc_port_insert in source/kernel/src/ipc.c count up, start again at 0 after the largest
    int, and skip the ids that are in use. */
module Ids {

  /** Ids are non-negative ints. */
  const ID_LIMIT := 0x8000_0000

  function NextId(id: nat): nat {
    if id + 1 == ID_LIMIT then 0 else id + 1
  }

  /** The n-th id after start. */
  function Nth(start: nat, n: nat): nat
    requires start < ID_LIMIT && n <= ID_LIMIT
  {
    if start + n < ID_LIMIT then start + n else start + n - ID_LIMIT
  }

  /** n different ids in a row, going round at the limit. */
  ghost function Passed(start: nat, n: nat): set<nat>
    requires start < ID_LIMIT && n <= ID_LIMIT
  {
    if n == 0 then {} else Passed(start, n - 1) + {Nth(start, n - 1)}
  }

  lemma {:induction false} PassedSize(start: nat, n: nat)
    requires start < ID_LIMIT && n <= ID_LIMIT
    ensures |Passed(start, n)| == n
    ensures forall id :: id in Passed(start, n) ==> exists j :: 0 <= j < n && id == Nth(start, j)
    decreases n
  {
    if n > 0 {
      PassedSize(start, n - 1);
      assert Nth(start, n - 1) !in Passed(start, n - 1);
    }
  }

  /** If n ids in a row are taken, at least n are taken. */
  lemma TakenCount(taken: set<nat>, start: nat, n: nat)
    requires start < ID_LIMIT && n <= ID_LIMIT && Passed(start, n) <= taken
    ensures n <= |taken|
  {
    PassedSize(start, n);
    assert taken == Passed(start, n) + (taken - Passed(start, n));
  }

  lemma PassedNone(start: nat)
    requires start < ID_LIMIT
    ensures Passed(start, 0) == {}
  {
  }

  lemma PassedOne(start: nat, n: nat)
    requires start < ID_LIMIT && n < ID_LIMIT
    ensures Passed(start, n + 1) == Passed(start, n) + {Nth(start, n)}
  {
  }

  /** The search loop: wherever the counter stands, it ends with an unused id as long as
      there is one. */
  method FindUnused(taken: set<nat>, counter: nat) returns (id: nat, counter': nat)
    requires counter < ID_LIMIT && |taken| < ID_LIMIT
    ensures id < ID_LIMIT && id !in taken
    ensures counter' == NextId(id) && counter' < ID_LIMIT
  {
    hide Passed;
    ghost var n := 0;
    PassedNone(counter);
    id, counter' := counter, NextId(counter);
    while id in taken
      invariant n < ID_LIMIT && id == Nth(counter, n) && counter' == NextId(id)
      invariant Passed(counter, n) <= taken
      decreases ID_LIMIT - n
    {
      PassedOne(counter, n);
      TakenCount(taken, counter, n + 1);
      n := n + 1;
      id, counter' := counter', NextId(counter');
    }
  }
}
