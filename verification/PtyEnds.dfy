/** Calls on a pseudo terminal come to an end: once no new call enters the driver, only so many
    more steps are possible, and then every thread that is left has a good reason to wait. */
module PtyEnds {
  import opened Options
  import opened PtyProtocol
  import opened PtyLine
  import opened PtyRuns

  // ---------------------------------------------------------------------------------------
  // A measure that every step lowers

  /** A broadcast wakes at most n threads, each of which may take two steps before it sleeps
      again. */
  function Cost(i: Instr, n: nat): nat {
    match i
    case Put(_, data) => 1 + |data| + 2 * n
    case WakeWriters(_) => 1 + 2 * n
    case Drain(_, want) => 1 + want
    case _ => 1
  }

  function CostOf(todo: seq<Instr>, n: nat): nat {
    if todo == [] then 0 else Cost(todo[0], n) + CostOf(todo[1..], n)
  }

  function Weight(th: Thread, n: nat): nat {
    CostOf(th.todo, n) + if th.place.Running? then 1 else 0
  }

  ghost function SumOf(threads: map<Tid, Thread>, n: nat): nat
    decreases |threads|
  {
    if threads == map[] then 0
    else
      var t :| t in threads;
      Weight(threads[t], n) + SumOf(threads - {t}, n)
  }

  lemma {:induction false} SumWithout(threads: map<Tid, Thread>, t: Tid, n: nat)
    requires t in threads
    ensures SumOf(threads, n) == Weight(threads[t], n) + SumOf(threads - {t}, n)
    decreases |threads|
  {
    hide Weight;
    var u :| u in threads && SumOf(threads, n) == Weight(threads[u], n) + SumOf(threads - {u}, n);
    if u != t {
      SumWithout(threads - {u}, t, n);
      SumWithout(threads - {t}, u, n);
      assert threads - {u} - {t} == threads - {t} - {u};
    }
  }

  lemma SumChanged(threads: map<Tid, Thread>, t: Tid, th: Thread, n: nat)
    requires t in threads
    ensures SumOf(threads[t := th], n) + Weight(threads[t], n) == SumOf(threads, n) + Weight(th, n)
  {
    hide Weight;
    SumWithout(threads, t, n);
    SumWithout(threads[t := th], t, n);
    assert threads[t := th] - {t} == threads - {t};
  }

  lemma CostWith(i: Instr, todo: seq<Instr>, n: nat)
    ensures CostOf([i] + todo, n) == Cost(i, n) + CostOf(todo, n)
  {
    assert ([i] + todo)[1..] == todo;
  }

  lemma AwakenWeight(th: Thread, place: Place, n: nat)
    requires !place.Running?
    ensures Weight(Awaken(th, place), n) <= Weight(th, n) + 2
  {
    hide CostOf;
    CostWith(Acquire(place.n), th.todo, n);
  }

  lemma NothingLeft(n: nat)
    ensures SumOf(map[], n) == 0
  {
  }

  /** Waking everybody adds at most 2 a thread. */
  lemma {:induction false} BroadcastSum(threads: map<Tid, Thread>, place: Place, n: nat)
    requires !place.Running?
    ensures SumOf(map t | t in threads :: Awaken(threads[t], place), n) <= SumOf(threads, n) + 2 * |threads|
    decreases |threads|
  {
    hide Weight, Awaken, SumOf;
    NothingLeft(n);
    var woken := map t | t in threads :: Awaken(threads[t], place);
    if threads != map[] {
      var t :| t in threads;
      BroadcastSum(threads - {t}, place, n);
      SumWithout(threads, t, n);
      SumWithout(woken, t, n);
      assert woken - {t} == map u | u in threads - {t} :: Awaken((threads - {t})[u], place);
      AwakenWeight(threads[t], place, n);
    }
  }

  ghost function Measure(s: State, n: nat): nat {
    SumOf(s.threads, n)
  }

  /** A step of a broadcast. */
  lemma WakeLowers(s: State, t: Tid, place: Place, n: nat)
    requires CanStep(s, t) && !place.Running? && |s.threads| <= n
    requires Cost(Now(s, t), n) >= 1 + 2 * n
    ensures Measure(Broadcast(SetTodo(s, t, Later(s, t)), place), n) < Measure(s, n)
  {
    hide CostOf;
    var th := s.threads[t];
    assert th.todo == [Now(s, t)] + Later(s, t);
    CostWith(Now(s, t), Later(s, t), n);
    var th' := SetTodo(s, t, Later(s, t)).threads[t];
    SumChanged(s.threads, t, th', n);
    BroadcastSum(SetTodo(s, t, Later(s, t)).threads, place, n);
    assert |SetTodo(s, t, Later(s, t)).threads| == |s.threads|;
  }

  /** Any other step changes its own thread only. */
  lemma OneThreadLowers(s: State, t: Tid, th: Thread, n: nat)
    requires t in s.threads && Weight(th, n) < Weight(s.threads[t], n)
    ensures SumOf(s.threads[t := th], n) < Measure(s, n)
  {
    hide Weight;
    SumChanged(s.threads, t, th, n);
  }

  lemma SameThreads(s: State, t: Tid)
    requires CanStep(s, t) && RingsValid(s)
    ensures Step(s, t).threads.Keys == s.threads.Keys && |Step(s, t).threads| == |s.threads|
  {
    assert Step(s, t).threads.Keys == s.threads.Keys;
    assert |Step(s, t).threads| == |Step(s, t).threads.Keys| && |s.threads| == |s.threads.Keys|;
  }

  lemma StepLowers(s: State, t: Tid, n: nat)
    requires CanStep(s, t) && RingsValid(s) && |s.threads| <= n
    ensures Measure(Step(s, t), n) < Measure(s, n) && |Step(s, t).threads| == |s.threads|
  {
    hide CostOf, SumOf, RingsValid;
    SameThreads(s, t);
    var th, i, rest := s.threads[t], Now(s, t), Later(s, t);
    assert th.todo == [i] + rest;
    CostWith(i, rest, n);
    match i {
      case Put(k, data) =>
        if data == [] {
          WakeLowers(s, t, Reading(k), n);
        } else if s.rings.Of(k).Full() {
          OneThreadLowers(s, t, th.(place := Writing(k)), n);
        } else {
          CostWith(Put(k, data[1..]), rest, n);
          OneThreadLowers(s, t, th.(todo := [Put(k, data[1..])] + rest), n);
        }
      case WakeWriters(k) =>
        WakeLowers(s, t, Writing(k), n);
      case Await(k) =>
        if s.rings.Of(k).size == 0 {
          OneThreadLowers(s, t, th.(place := Reading(k)), n);
        } else {
          OneThreadLowers(s, t, th.(todo := rest), n);
        }
      case Drain(k, want) =>
        if want == 0 || s.rings.Of(k).size == 0 {
          OneThreadLowers(s, t, th.(todo := rest), n);
        } else {
          CostWith(Drain(k, want - 1), rest, n);
          OneThreadLowers(s, t, Step(s, t).threads[t], n);
        }
      case _ =>
        OneThreadLowers(s, t, th.(todo := rest), n);
    }
  }

  lemma LeaveLowers(s: State, t: Tid, n: nat)
    requires t in s.threads && s.threads[t].place.Running?
    ensures Measure(Finish(s, t), n) < Measure(s, n)
  {
    SumWithout(s.threads, t, n);
  }

  // ---------------------------------------------------------------------------------------
  // Runs without new calls

  lemma ApplyLowers(s: State, a: Action, n: nat)
    requires Enabled(s, a) && !a.Enter? && |s.threads| <= n
    ensures Measure(Apply(s, a), n) < Measure(s, n) && |Apply(s, a).threads| <= |s.threads|
  {
    hide Step, Measure;
    match a
    case Move(t) => StepLowers(s, t, n);
    case Leave(t) =>
      LeaveLowers(s, t, n);
      FewerThreads(s.threads, t);
  }

  lemma FewerThreads(threads: map<Tid, Thread>, t: Tid)
    requires t in threads
    ensures |threads - {t}| < |threads|
  {
    assert (threads - {t}).Keys == threads.Keys - {t};
    assert |threads - {t}| == |threads.Keys - {t}| && |threads| == |threads.Keys|;
  }

  ghost predicate NoNewCalls(actions: seq<Action>, i: nat, j: nat) {
    forall k :: i <= k < j && k < |actions| ==> !actions[k].Enter?
  }

  /** From any state of a run, without new calls, only so many more steps are possible. */
  lemma {:induction false} QuietRunsAreShort(states: seq<State>, actions: seq<Action>, i: nat, j: nat, n: nat)
    requires Run(states, actions) && i <= j < |states| && NoNewCalls(actions, i, j) && |states[i].threads| <= n
    ensures j - i + Measure(states[j], n) <= Measure(states[i], n)
    ensures |states[j].threads| <= n
    decreases j
  {
    hide Apply, Enabled, Measure, Init;
    if i < j {
      QuietRunsAreShort(states, actions, i, j - 1, n);
      ApplyLowers(states[j - 1], actions[j - 1], n);
    }
  }

  /** Nothing can happen any more without a new call. */
  ghost predicate AtRest(s: State) {
    forall t :: !CanStep(s, t) && !Enabled(s, Leave(t))
  }

  /** However a run has gone, it can go on without new calls until nothing can happen, and it
      must get there; then every thread left in the driver has a good reason to wait. */
  lemma {:induction false} ComesToRest(states: seq<State>, actions: seq<Action>, n: nat)
    returns (states': seq<State>, actions': seq<Action>)
    requires Run(states, actions) && |states[|actions|].threads| <= n
    ensures Run(states', actions') && actions <= actions' && NoNewCalls(actions', |actions|, |actions'|)
    ensures AtRest(states'[|actions'|])
    ensures forall t :: t in states'[|actions'|].threads ==> Excused(states'[|actions'|], t)
    decreases Measure(states[|actions|], n)
  {
    hide Apply, Measure, Excused, Run, Enabled, AtRest;
    assert |states| == |actions| + 1 by { RunLength(states, actions); }
    var s := states[|actions|];
    if a: Action :| Enabled(s, a) && !a.Enter? {
      ApplyLowers(s, a, n);
      MoreOfRun(states, actions, a);
      states', actions' := ComesToRest(states + [Apply(s, a)], actions + [a], n);
      RunLength(states', actions');
      assert actions + [a] <= actions' && actions'[|actions|] == a;
    } else {
      states', actions' := states, actions;
      RestIsExcused(states, actions);
    }
  }

  lemma RunLength(states: seq<State>, actions: seq<Action>)
    requires Run(states, actions)
    ensures |states| == |actions| + 1
  {
  }

  lemma MoreOfRun(states: seq<State>, actions: seq<Action>, a: Action)
    requires Run(states, actions) && Enabled(states[|actions|], a)
    ensures Run(states + [Apply(states[|actions|], a)], actions + [a])
  {
    hide Apply, Enabled, Init;
    var states', actions' := states + [Apply(states[|actions|], a)], actions + [a];
    forall i | 0 <= i < |actions'|
      ensures Enabled(states'[i], actions'[i]) && states'[i + 1] == Apply(states'[i], actions'[i])
    {
      assert i < |actions| ==> states'[i + 1] == states[i + 1] && actions'[i] == actions[i];
    }
  }

  lemma RestIsExcused(states: seq<State>, actions: seq<Action>)
    requires Run(states, actions)
    requires forall a: Action :: Enabled(states[|actions|], a) ==> a.Enter?
    ensures AtRest(states[|actions|])
    ensures forall t :: t in states[|actions|].threads ==> Excused(states[|actions|], t)
  {
    hide Apply, Init, Excused;
    var s := states[|actions|];
    RunIsSafe(states, actions, |actions|, Master);
    RunIsSafe(states, actions, |actions|, Slave);
    forall t ensures !CanStep(s, t) && !Enabled(s, Leave(t)) {
      assert Enabled(s, Move(t)) <==> CanStep(s, t);
    }
    forall t | t in s.threads ensures Excused(s, t) {
      RunEndsExcused(states, actions, |actions|, t);
    }
  }
}
