/** One IPC port with a single receiver and any number of senders: sys_send_ipc_message,
    sys_recv_ipc_message and sys_peek_ipc_message in source/kernel/src/ipc.c.

    Each section that holds the port mutex is one step. The queue semaphore is taken outside
    the mutex when the queue looks empty, and it does not always count the queue: a receive
    that fails with -E2BIG keeps the message but not its token, and a peek gives back a token
    that it may never have had. */
module IpcProtocol {
  import opened Bytes

  datatype Message = Message(code: int, data: seq<byte>)

  /** What the receiver asked for: a message that fits `size` bytes, or a look at the next. */
  datatype Request = Recv(size: nat) | Peek

  /** Where the receiver is: outside; waiting on the semaphore with the mutex released; or
      holding a token and about to take the mutex again. */
  datatype Receiver = Idle | Blocked(request: Request) | Holding(request: Request)

  /** How a call of the receiver ended. */
  datatype Result =
    | Received(message: Message)
    | Peeked(code: int, size: nat)
    | TooBig
    | NoEntry
    | TimedOut

  /** sent and received are everything ever sent and received; results is how the receiver's
      calls ended. */
  datatype State = State(
    queue: seq<Message>,
    semaphore: nat,
    receiver: Receiver,
    sent: seq<Message>,
    received: seq<Message>,
    results: seq<Result>)

  datatype Action =
    | Send(message: Message)
    | Call(request: Request)
    | TakeToken
    | TimeOut
    | Resume

  predicate Enabled(s: State, a: Action) {
    match a
    case Send(_) => true
    case Call(_) => s.receiver == Idle
    case TakeToken => s.receiver.Blocked? && s.semaphore > 0
    case TimeOut => s.receiver.Blocked?
    case Resume => s.receiver.Holding?
  }

  /** The rest of a receive or a peek, from the second test of the queue on. */
  function Complete(s: State, request: Request): State {
    var s := s.(receiver := Idle);
    if s.queue == [] then
      s.(results := s.results + [NoEntry])
    else
      var message := s.queue[0];
      match request
      case Peek =>
        s.(semaphore := s.semaphore + 1,
           results := s.results + [Peeked(message.code, |message.data|)])
      case Recv(size) =>
        if |message.data| > size then
          s.(results := s.results + [TooBig])
        else
          s.(queue := s.queue[1..],
             received := s.received + [message],
             results := s.results + [Received(message)])
  }

  function Apply(s: State, a: Action): State
    requires Enabled(s, a)
  {
    match a
    case Send(message) =>
      s.(queue := s.queue + [message], semaphore := s.semaphore + 1, sent := s.sent + [message])
    case Call(request) =>
      if s.queue == [] then s.(receiver := Blocked(request))
      // semaphore_timedlock with timeout 0: on failure only a message is printed
      else Complete(s.(semaphore := if s.semaphore > 0 then s.semaphore - 1 else 0), request)
    case TakeToken => s.(semaphore := s.semaphore - 1, receiver := Holding(s.receiver.request))
    case TimeOut => s.(receiver := Idle, results := s.results + [TimedOut])
    case Resume => Complete(s, s.receiver.request)
  }

  // ---------------------------------------------------------------------------------------
  // The invariant

  /** The semaphore never promises more than the queue holds, and while the receiver waits or
      holds a token the count is exact. */
  predicate CountOk(s: State) {
    match s.receiver
    case Idle => s.semaphore <= |s.queue|
    case Blocked(_) => s.semaphore == |s.queue|
    case Holding(_) => s.semaphore + 1 == |s.queue|
  }

  predicate Inv(s: State) {
    && CountOk(s)
    && s.sent == s.received + s.queue
    && NoEntry !in s.results
  }

  lemma CompleteKeepsInv(s: State, request: Request)
    requires s.sent == s.received + s.queue && NoEntry !in s.results && s.semaphore < |s.queue|
    ensures Inv(Complete(s, request))
  {
    assert s.queue == [s.queue[0]] + s.queue[1..];
    assert s.received + s.queue == s.received + [s.queue[0]] + s.queue[1..];
  }

  lemma ApplyKeepsInv(s: State, a: Action)
    requires Inv(s) && Enabled(s, a)
    ensures Inv(Apply(s, a))
  {
    hide Complete;
    match a {
      case Send(message) =>
        assert s.received + s.queue + [message] == s.received + (s.queue + [message]);
      case Call(request) =>
        if s.queue != [] {
          CompleteKeepsInv(s.(semaphore := if s.semaphore > 0 then s.semaphore - 1 else 0), request);
        }
      case Resume =>
        CompleteKeepsInv(s, s.receiver.request);
      case _ =>
    }
  }

  // ---------------------------------------------------------------------------------------
  // Runs

  predicate Init(s: State) {
    s == State([], 0, Idle, [], [], [])
  }

  ghost predicate Run(states: seq<State>, actions: seq<Action>) {
    && |states| == |actions| + 1
    && Init(states[0])
    && forall i :: 0 <= i < |actions| ==>
         Enabled(states[i], actions[i]) && states[i + 1] == Apply(states[i], actions[i])
  }

  lemma {:induction false} RunKeepsInv(states: seq<State>, actions: seq<Action>, i: nat)
    requires Run(states, actions) && i < |states|
    ensures Inv(states[i])
    decreases i
  {
    hide Apply;
    if i > 0 {
      RunKeepsInv(states, actions, i - 1);
      ApplyKeepsInv(states[i - 1], actions[i - 1]);
    }
  }

  /** In every state of every run: what was received followed by what is queued is what was
      sent, in order; no call has ended with -ENOENT; and a receiver that waits while the
      queue is non-empty finds a token. */
  lemma RunIsFifo(states: seq<State>, actions: seq<Action>, i: nat)
    requires Run(states, actions) && i < |states|
    ensures var s := states[i];
            && s.sent == s.received + s.queue
            && NoEntry !in s.results
            && (s.receiver.Blocked? && s.queue != [] ==> Enabled(s, TakeToken))
  {
    RunKeepsInv(states, actions, i);
  }

  // ---------------------------------------------------------------------------------------
  // What the receiver's calls return

  /** The call of the receiver that the step completes, if it completes one at the queue. */
  predicate Completes(s: State, a: Action) {
    Enabled(s, a) && (a.Resume? || (a.Call? && s.queue != []))
  }

  function RequestOf(s: State, a: Action): Request
    requires Completes(s, a)
  {
    if a.Call? then a.request else s.receiver.request
  }

  /** The guard of the branch that returns -E2BIG. */
  predicate FailsTooBig(s: State, a: Action) {
    Completes(s, a) && s.queue != [] && RequestOf(s, a).Recv? && RequestOf(s, a).size < |s.queue[0].data|
  }

  /** A call finds a message whether it went straight to the queue or waited first. It returns
      the head, a description of it, or -E2BIG, and only a successful receive changes what is
      queued. */
  lemma CallOutcome(s: State, a: Action)
    requires Inv(s) && Completes(s, a)
    ensures s.queue != []
    ensures var s', head, request := Apply(s, a), s.queue[0], RequestOf(s, a);
            && s'.receiver == Idle && s'.sent == s.sent
            && s'.results == s.results +
                 [if request.Peek? then Peeked(head.code, |head.data|)
                  else if FailsTooBig(s, a) then TooBig else Received(head)]
            && (if request.Recv? && !FailsTooBig(s, a)
                then s'.received == s.received + [head] && s.queue == [head] + s'.queue
                else s'.received == s.received && s'.queue == s.queue)
  {
    assert s.queue == [s.queue[0]] + s.queue[1..];
  }

  lemma StepGrows(s: State, a: Action)
    requires Enabled(s, a)
    ensures s.sent <= Apply(s, a).sent && s.received <= Apply(s, a).received
  {
  }

  /** Whatever has been sent stays sent, in its place. */
  lemma {:induction false} SentGrows(states: seq<State>, actions: seq<Action>, i: nat, k: nat)
    requires Run(states, actions) && i <= k < |states|
    ensures states[i].sent <= states[k].sent && states[i].received <= states[k].received
    decreases k
  {
    hide Apply;
    if i < k {
      SentGrows(states, actions, i, k - 1);
      StepGrows(states[k - 1], actions[k - 1]);
    }
  }

  /** From a state with m at the head on, m is the next message received, however late: until
      then it stays at the head. */
  lemma HeadComesNext(states: seq<State>, actions: seq<Action>, i: nat, k: nat)
    requires Run(states, actions) && i <= k < |states| && states[i].queue != []
    ensures var m, n := states[i].queue[0], |states[i].received|;
            && n <= |states[k].received|
            && (if |states[k].received| == n then states[k].queue != [] && states[k].queue[0] == m
                else states[k].received[n] == m)
  {
    RunKeepsInv(states, actions, i);
    RunKeepsInv(states, actions, k);
    SentGrows(states, actions, i, k);
    var n := |states[i].received|;
    assert states[k].sent[n] == states[i].sent[n] == states[i].queue[0];
  }

  /** A step that ends a call with a peek's description or with -E2BIG announces the message
      at the head: the description fits it, and in every later state of the run it is still
      at the head or was the next message received. */
  lemma AnnouncedComesNext(states: seq<State>, actions: seq<Action>, i: nat, k: nat)
    requires Run(states, actions) && i < k < |states|
    requires var r := states[i + 1].results[|states[i].results|..]; r == [TooBig] || (|r| == 1 && r[0].Peeked?)
    ensures var s, r := states[i], states[i + 1].results[|states[i].results|];
            && s.queue != []
            && var m, n := s.queue[0], |s.received|;
               && (r.Peeked? ==> r == Peeked(m.code, |m.data|))
               && (r == TooBig ==> |m.data| > RequestOf(s, actions[i]).size)
               && |states[i + 1].received| == n <= |states[k].received|
               && (if |states[k].received| == n then states[k].queue != [] && states[k].queue[0] == m
                   else states[k].received[n] == m)
  {
    RunKeepsInv(states, actions, i);
    var s, a := states[i], actions[i];
    assert Completes(s, a);
    CallOutcome(s, a);
    HeadComesNext(states, actions, i, k);
  }

  // ---------------------------------------------------------------------------------------
  // When the semaphore is the length of the queue

  /** How many tokens the semaphore is short of the queue, the receiver's own included. */
  function Shortfall(s: State): int {
    |s.queue| - s.semaphore - (if s.receiver.Holding? then 1 else 0)
  }

  /** A step loses a token if it returns -E2BIG after taking one, and makes up for a lost one if
      it completes a call that found messages but no token. */
  lemma ShortfallStep(s: State, a: Action)
    requires Inv(s) && Enabled(s, a)
    ensures Shortfall(s) >= 0
    ensures Shortfall(Apply(s, a)) == Shortfall(s) +
      (if FailsTooBig(s, a) && (a.Resume? || s.semaphore > 0) then 1
       else if Completes(s, a) && a.Call? && s.semaphore == 0 && !FailsTooBig(s, a) then -1
       else 0)
  {
  }

  predicate Exact(s: State) {
    Shortfall(s) == 0
  }

  /** Where the count is exact, the next step keeps it so if and only if it is not a receive
      whose buffer is smaller than the head message. */
  lemma ExactStep(s: State, a: Action)
    requires Inv(s) && Enabled(s, a) && Exact(s)
    ensures Exact(Apply(s, a)) <==> !FailsTooBig(s, a)
    ensures FailsTooBig(s, a) <==> Apply(s, a).results == s.results + [TooBig]
  {
    ShortfallStep(s, a);
    var r := Apply(s, a).results;
    assert r == s.results + [TooBig] ==> |r| == |s.results| + 1 && r[|s.results|] == TooBig;
    if Completes(s, a) {
      CallOutcome(s, a);
    }
  }

  lemma ResultsGrow(s: State, a: Action)
    requires Enabled(s, a)
    ensures s.results <= Apply(s, a).results
    ensures Apply(s, a).results == s.results + [TooBig]
         || (TooBig in Apply(s, a).results ==> TooBig in s.results)
  {
  }

  /** The semaphore has counted the queue all along if and only if no call has ended with
      -E2BIG. */
  lemma {:induction false} ExactUntilTooBig(states: seq<State>, actions: seq<Action>, i: nat)
    requires Run(states, actions) && i < |states|
    ensures (forall j :: 0 <= j <= i ==> Exact(states[j])) <==> TooBig !in states[i].results
    decreases i
  {
    if i > 0 {
      var s, a := states[i - 1], actions[i - 1];
      ExactUntilTooBig(states, actions, i - 1);
      RunKeepsInv(states, actions, i - 1);
      ResultsGrow(s, a);
      if Exact(s) {
        ExactStep(s, a);
      }
    }
  }

  /** A run in which the count falls short. */
  lemma TokenLostAfterTooBig(m: Message)
    requires |m.data| > 0
    ensures exists states: seq<State>, actions: seq<Action> ::
              && Run(states, actions)
              && var s := states[|actions|];
                 s.receiver == Idle && s.queue == [m] && s.semaphore == 0 && s.results == [TooBig]
  {
    var s0 := State([], 0, Idle, [], [], []);
    var s1 := Apply(s0, Send(m));
    var s2 := Apply(s1, Call(Recv(0)));
    var states, actions := [s0, s1, s2], [Send(m), Call(Recv(0))];
    assert s1.queue == [m] && s2.queue == [m] && s2.results == [TooBig];
    assert Run(states, actions);
  }
}
