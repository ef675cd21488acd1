/** IPC ports as the kernel stores them, source/kernel/src/ipc.c: a linked message queue with
    head and tail pointers, and a global table of ports that each process also threads into
    a list of its own. */
module IpcPorts {
  import opened Options
  import opened Ids
  import opened IpcProtocol

  // ---------------------------------------------------------------------------------------
  // The message queue of a port

  class MessageNode {
    const message: Message
    var next: MessageNode?

    constructor (message: Message)
      ensures this.message == message && next == null
    {
      this.message := message;
      next := null;
    }
  }

  /** What the next pointer of the i-th node has to be. */
  ghost function After(nodes: seq<MessageNode>, i: nat): MessageNode?
    requires i < |nodes|
  {
    if i + 1 < |nodes| then nodes[i + 1] else null
  }

  class MessageQueue {
    var head: MessageNode?
    var tail: MessageNode?
    ghost var nodes: seq<MessageNode>

    ghost predicate Valid()
      reads this, nodes
    {
      && (forall i, j :: 0 <= i < j < |nodes| ==> nodes[i] != nodes[j])
      && (forall i :: 0 <= i < |nodes| ==> nodes[i].next == After(nodes, i))
      && head == (if nodes == [] then null else nodes[0])
      && tail == (if nodes == [] then null else nodes[|nodes| - 1])
    }

    ghost function Contents(): seq<Message>
      reads this
    {
      seq(|nodes|, i requires 0 <= i < |nodes| reads this => nodes[i].message)
    }

    constructor ()
      ensures Valid() && Contents() == [] && nodes == []
    {
      head, tail := null, null;
      nodes := [];
    }

    /** The queue part of sys_send_ipc_message, with its two assertions. */
    method Enqueue(message: Message)
      requires Valid()
      modifies this, nodes
      ensures Valid() && Contents() == old(Contents()) + [message]
      ensures |nodes| == |old(nodes)| + 1 && nodes[..|old(nodes)|] == old(nodes) && fresh(nodes[|old(nodes)|])
    {
      var node := new MessageNode(message);
      if head == null {
        assert tail == null;
        head := node;
        tail := node;
      } else {
        assert tail != null;
        tail.next := node;
        tail := node;
      }
      nodes := nodes + [node];
    }

    /** The queue part of sys_recv_ipc_message: the head message if it fits. */
    method Dequeue(size: nat) returns (result: Result)
      requires Valid()
      modifies this
      ensures Valid()
      ensures if old(Contents()) == [] then result == NoEntry && Contents() == old(Contents())
              else if |old(Contents())[0].data| > size then result == TooBig && Contents() == old(Contents())
              else result == Received(old(Contents())[0]) && Contents() == old(Contents())[1..]
      ensures forall n :: n in nodes ==> n in old(nodes)
    {
      if head == null {
        return NoEntry;
      }
      var node := head;
      if |node.message.data| > size {
        return TooBig;
      }
      ghost var before := nodes;
      assert before[0].next == After(before, 0);
      head := node.next;
      if head == null {
        tail := null;
      }
      nodes := nodes[1..];
      forall i | 0 <= i < |nodes| ensures nodes[i].next == After(nodes, i) {
        assert nodes[i] == before[i + 1] && before[i + 1].next == After(before, i + 1);
      }
      result := Received(node.message);
    }

    /** The queue part of sys_peek_ipc_message. */
    method Look() returns (result: Result)
      requires Valid()
      ensures result == if Contents() == [] then NoEntry else Peeked(Contents()[0].code, |Contents()[0].data|)
    {
      if head == null {
        return NoEntry;
      }
      result := Peeked(head.message.code, |head.message.data|);
    }
  }

  // ---------------------------------------------------------------------------------------
  // One port: the linked queue and the semaphore follow the protocol

  class Port {
    const queue: MessageQueue
    var semaphore: nat
    var receiver: Receiver

    ghost predicate Implements(s: State)
      reads this, queue, queue.nodes
    {
      queue.Valid() && queue.Contents() == s.queue && semaphore == s.semaphore && receiver == s.receiver
    }

    constructor ()
      ensures fresh(queue) && queue.nodes == []
      ensures Implements(State([], 0, Idle, [], [], []))
    {
      queue := new MessageQueue();
      semaphore := 0;
      receiver := Idle;
    }

    /** The rest of a receive or a peek, from the second test of the queue on. */
    method Finish(request: Request, ghost s: State) returns (result: Result)
      requires Implements(s)
      modifies this, queue
      ensures Implements(Complete(s, request)) && Complete(s, request).results == s.results + [result]
      ensures forall n :: n in queue.nodes ==> n in old(queue.nodes)
    {
      hide MessageQueue.Valid, MessageQueue.Contents;
      receiver := Idle;
      match request
      case Peek =>
        result := queue.Look();
        if result != NoEntry {
          semaphore := semaphore + 1;
        }
      case Recv(size) =>
        result := queue.Dequeue(size);
    }

    /** One section that holds the mutex, or one operation on the semaphore. */
    method Perform(a: Action, ghost s: State) returns (result: Option<Result>)
      requires Implements(s) && Enabled(s, a)
      modifies this, queue, queue.nodes
      ensures Implements(Apply(s, a))
      ensures Apply(s, a).results == s.results + if result.Some? then [result.value] else []
      ensures forall n :: n in queue.nodes ==> n in old(queue.nodes) || fresh(n)
    {
      hide MessageQueue.Valid, MessageQueue.Contents, Complete;
      result := None;
      match a
      case Send(message) =>
        queue.Enqueue(message);
        assert forall n :: n in queue.nodes ==> n in old(queue.nodes) || fresh(n) by {
          assert queue.nodes == queue.nodes[..|old(queue.nodes)|] + [queue.nodes[|old(queue.nodes)|]];
        }
        semaphore := semaphore + 1;
      case Call(request) =>
        QueueEmpty();
        if queue.head == null {
          receiver := Blocked(request);
        } else {
          ghost var taken := s.(semaphore := if s.semaphore > 0 then s.semaphore - 1 else 0);
          if semaphore > 0 {
            semaphore := semaphore - 1;
          }
          var r := Finish(request, taken);
          result := Some(r);
        }
      case TakeToken =>
        semaphore := semaphore - 1;
        receiver := Holding(receiver.request);
      case TimeOut =>
        receiver := Idle;
        result := Some(TimedOut);
      case Resume =>
        var r := Finish(receiver.request, s);
        result := Some(r);
    }

    lemma QueueEmpty()
      requires queue.Valid()
      ensures queue.head == null <==> queue.Contents() == []
    {
    }
  }

  /** A port in memory goes through any run of the protocol: its calls end as the run says. */
  method Drive(actions: seq<Action>, ghost states: seq<State>) returns (results: seq<Result>)
    requires Run(states, actions)
    ensures results == states[|actions|].results
  {
    hide MessageQueue.Valid, MessageQueue.Contents, Apply;
    var port := new Port();
    results := [];
    for i := 0 to |actions|
      invariant fresh(port) && fresh(port.queue)
      invariant forall j :: 0 <= j < |port.queue.nodes| ==> fresh(port.queue.nodes[j])
      invariant port.Implements(states[i]) && results == states[i].results
    {
      var result := port.Perform(actions[i], states[i]);
      assert forall j :: 0 <= j < |port.queue.nodes| ==> port.queue.nodes[j] in port.queue.nodes;
      if result.Some? {
        results := results + [result.value];
      }
    }
  }

  // ---------------------------------------------------------------------------------------
  // The table of ports and the lists of the processes

  /** A pointer to a port, which is known by its id. */
  type Link = Option<nat>

  /** What proc_next of the i-th port of a list has to be. */
  function AfterId(list: seq<nat>, i: nat): Link
    requires i < |list|
  {
    if i + 1 < |list| then Some(list[i + 1]) else None
  }

  /** Following proc_next from p passes exactly the ports of list, and ends. */
  ghost predicate Chain(next: map<nat, Link>, p: Link, list: seq<nat>) {
    && p == (if list == [] then None else Some(list[0]))
    && (forall i :: 0 <= i < |list| ==> list[i] in next && next[list[i]] == AfterId(list, i))
  }

  ghost predicate Distinct(list: seq<nat>) {
    forall i, j :: 0 <= i < j < |list| ==> list[i] != list[j]
  }

  /** The list holds exactly the table's ports that this process owns, each once. */
  ghost predicate ListsAll(table: map<nat, nat>, list: seq<nat>, owner: nat) {
    && Distinct(list)
    && (forall id :: id in list <==> id in table && table[id] == owner)
  }

  lemma ChainPush(next: map<nat, Link>, p: Link, list: seq<nat>, id: nat)
    requires Chain(next, p, list) && id !in list
    ensures Chain(next[id := p], Some(id), [id] + list)
  {
    var next', list' := next[id := p], [id] + list;
    forall i | 0 <= i < |list'| ensures list'[i] in next' && next'[list'[i]] == AfterId(list', i) {
      if i > 0 { assert list'[i] == list[i - 1] && next[list[i - 1]] == AfterId(list, i - 1); }
    }
  }

  /** A pointer that does not belong to the list may change. */
  lemma ChainElsewhere(next: map<nat, Link>, p: Link, list: seq<nat>, id: nat, link: Link)
    requires Chain(next, p, list) && id !in list
    ensures Chain(next[id := link], p, list)
  {
  }

  function Without(list: seq<nat>, k: nat): seq<nat>
    requires k < |list|
  {
    list[..k] + list[k + 1..]
  }

  /** Bypassing the k-th port, which is not the first, leaves a chain without it. */
  lemma ChainCut(next: map<nat, Link>, p: Link, list: seq<nat>, k: nat)
    requires Chain(next, p, list) && Distinct(list) && 0 < k < |list|
    ensures Chain(next[list[k - 1] := AfterId(list, k)], p, Without(list, k))
  {
    var next', cut := next[list[k - 1] := AfterId(list, k)], Without(list, k);
    forall i | 0 <= i < |cut| ensures cut[i] in next' && next'[cut[i]] == AfterId(cut, i) {
      if i < k {
        assert cut[i] == list[i] && next[list[i]] == AfterId(list, i);
      } else {
        assert cut[i] == list[i + 1] && next[list[i + 1]] == AfterId(list, i + 1);
      }
    }
  }

  lemma ChainHead(next: map<nat, Link>, p: Link, list: seq<nat>)
    requires Chain(next, p, list)
    ensures p == if list == [] then None else Some(list[0])
  {
  }

  lemma ChainNext(next: map<nat, Link>, p: Link, list: seq<nat>, k: nat)
    requires Chain(next, p, list) && k < |list|
    ensures list[k] in next && next[list[k]] == AfterId(list, k)
  {
  }

  /** A search that has not met id so far still has it ahead. */
  lemma NotYet(list: seq<nat>, k: nat, id: nat)
    requires id in list && k < |list| && id !in list[..k] && list[k] != id
    ensures k + 1 < |list| && id !in list[..k + 1]
  {
    assert list[..k + 1] == list[..k] + [list[k]];
    assert list[..|list|] == list;
  }

  lemma ChainTail(next: map<nat, Link>, p: Link, list: seq<nat>)
    requires Chain(next, p, list) && list != []
    ensures Chain(next, AfterId(list, 0), Without(list, 0))
  {
    var cut := Without(list, 0);
    forall i | 0 <= i < |cut| ensures cut[i] in next && next[cut[i]] == AfterId(cut, i) {
      assert cut[i] == list[i + 1] && next[list[i + 1]] == AfterId(list, i + 1);
    }
  }

  lemma WithoutListsAll(table: map<nat, nat>, list: seq<nat>, owner: nat, k: nat)
    requires ListsAll(table, list, owner) && k < |list|
    ensures ListsAll(table - {list[k]}, Without(list, k), owner)
  {
    var cut := Without(list, k);
    forall i, j | 0 <= i < j < |cut| ensures cut[i] != cut[j] {
      assert cut[i] == list[if i < k then i else i + 1] && cut[j] == list[if j < k then j else j + 1];
    }
    forall id ensures id in cut <==> id in table - {list[k]} && table[id] == owner {
      if id in list && id != list[k] {
        var i :| 0 <= i < |list| && list[i] == id;
        assert cut[if i < k then i else i - 1] == id;
      }
      assert id in cut ==> id in list;
    }
  }

  class PortTable {
    /** The global table: the owner of each port. */
    var table: map<nat, nat>
    var procNext: map<nat, Link>
    /** ipc_port_list of each live process. */
    var portList: map<nat, Link>
    var idCounter: nat
    /** The ports on each process's list. */
    ghost var lists: map<nat, seq<nat>>

    ghost predicate ListOk(pid: nat)
      requires pid in lists && pid in portList
      reads this
    {
      ListsAll(table, lists[pid], pid) && Chain(procNext, portList[pid], lists[pid])
    }

    /** Every port has a live owner, and each live process's list through proc_next ends and
        holds exactly the ports that the table says it owns. */
    ghost predicate Valid()
      reads this
    {
      && idCounter < ID_LIMIT
      && lists.Keys == portList.Keys
      && (forall id :: id in table ==> table[id] in lists)
      && (forall pid :: pid in lists ==> ListOk(pid))
    }

    constructor ()
      ensures Valid() && table == map[] && lists == map[]
    {
      table, procNext, portList := map[], map[], map[];
      idCounter := 0;
      lists := map[];
    }

    /** A process comes to life without ports. */
    method AddProcess(pid: nat)
      requires Valid() && pid !in lists
      modifies this
      ensures Valid() && lists == old(lists)[pid := []] && table == old(table)
    {
      portList := portList[pid := None];
      lists := lists[pid := []];
      forall p | p in lists ensures ListOk(p) {
        assert p != pid ==> old(ListOk(p));
      }
    }

    /** sys_create_ipc_port: an unused id, an entry in the table, the head of the list. */
    method CreatePort(pid: nat) returns (id: nat)
      requires Valid() && pid in lists && |table.Keys| < ID_LIMIT
      modifies this
      ensures Valid() && id !in old(table) && table == old(table)[id := pid]
      ensures lists == old(lists)[pid := [id] + old(lists)[pid]]
    {
      hide Chain, ListsAll;
      id, idCounter := FindUnused(table.Keys, idCounter);
      ghost var t, next, heads := table, procNext, portList;
      table := table[id := pid];
      procNext := procNext[id := portList[pid]];
      portList := portList[pid := Some(id)];
      lists := lists[pid := [id] + lists[pid]];
      forall p | p in lists ensures ListOk(p) {
        assert old(ListOk(p));
        NewPortListed(t, old(lists)[p], p, id, pid);
        if p == pid {
          ChainPush(next, heads[pid], old(lists)[pid], id);
        } else {
          ChainElsewhere(next, heads[p], lists[p], id, heads[pid]);
        }
      }
    }

    /** The search and relinking in sys_destroy_ipc_port. */
    method Unlink(pid: nat, id: nat, ghost list: seq<nat>) returns (ghost k: nat)
      requires pid in portList && Chain(procNext, portList[pid], list) && Distinct(list) && id in list
      modifies this`procNext, this`portList
      ensures k < |list| && list[k] == id
      ensures portList.Keys == old(portList.Keys) && Chain(procNext, portList[pid], Without(list, k))
      ensures forall p :: p in portList && p != pid ==> portList[p] == old(portList)[p]
      ensures forall q :: q in old(procNext) && q !in list ==> q in procNext && procNext[q] == old(procNext)[q]
    {
      hide Chain, Distinct, Without;
      ChainHead(procNext, portList[pid], list);
      var prev: Link := None;
      var current := portList[pid];
      k := 0;
      while current != Some(id)
        invariant procNext == old(procNext) && portList == old(portList)
        invariant k < |list| && id !in list[..k] && current == Some(list[k])
        invariant prev == if k == 0 then None else Some(list[k - 1])
        decreases |list| - k
      {
        ChainNext(procNext, portList[pid], list, k);
        NotYet(list, k, id);
        prev := current;
        current := procNext[current.value];
        k := k + 1;
      }
      ChainNext(procNext, portList[pid], list, k);
      if prev == None {
        ChainTail(procNext, portList[pid], list);
        portList := portList[pid := procNext[id]];
      } else {
        ChainCut(procNext, portList[pid], list, k);
        procNext := procNext[prev.value := procNext[id]];
      }
    }

    /** sys_destroy_ipc_port. It answers 0 whatever happened; the port goes only if it exists
        and belongs to the caller. */
    method DestroyPort(pid: nat, id: nat) returns (error: int)
      requires Valid() && pid in lists
      modifies this
      ensures Valid() && error == 0 && lists.Keys == old(lists).Keys
      ensures forall p :: p in lists && p != pid ==> lists[p] == old(lists)[p]
      ensures table == if id in old(table) && old(table)[id] == pid then old(table) - {id} else old(table)
    {
      hide ListsAll, Chain, Distinct, Without;
      error := 0;
      if id !in table || table[id] != pid {
        return;
      }
      ghost var list := lists[pid];
      assert ListOk(pid);
      OwnPortListed(table, list, pid, id);
      ghost var k := Unlink(pid, id, list);
      WithoutListsAll(table, list, pid, k);
      forall p | p in lists && p != pid
        ensures ListsAll(table - {id}, lists[p], p) && Chain(procNext, portList[p], lists[p])
      {
        assert old(ListOk(p));
        OthersKept(table, id, list, lists[p], p);
        ChainKept(old(procNext), procNext, portList[p], lists[p]);
      }
      table := table - {id};
      lists := lists[pid := Without(list, k)];
      assert forall p :: p in lists ==> ListOk(p);
    }

    /** ipc_destroy_process_ports, the end of a process: all its ports go, and no other's. */
    method DestroyProcessPorts(pid: nat)
      requires Valid() && pid in lists
      modifies this
      ensures Valid() && lists == old(lists) - {pid}
      ensures forall id :: id in table <==> id in old(table) && old(table)[id] != pid
      ensures forall id :: id in table ==> table[id] == old(table)[id]
    {
      hide Chain, ListsAll;
      ghost var list := lists[pid];
      assert ListOk(pid);
      ChainHead(procNext, portList[pid], list);
      Walked(table, list, pid);
      var current := portList[pid];
      ghost var k := 0;
      while current != None
        invariant k <= |list| && current == if k < |list| then Some(list[k]) else None
        invariant lists == old(lists) && procNext == old(procNext) && portList == old(portList)
        invariant idCounter == old(idCounter)
        invariant forall id :: id in table <==> id in old(table) && id !in list[..k]
        invariant forall id :: id in table ==> table[id] == old(table)[id]
        decreases |list| - k
      {
        ChainNext(procNext, portList[pid], list, k);
        var toDelete := current.value;
        current := procNext[toDelete];
        assert list[..k + 1] == list[..k] + [toDelete];
        table := table - {toDelete};
        k := k + 1;
      }
      portList := portList - {pid};
      lists := lists - {pid};
      forall p | p in lists ensures ListOk(p) {
        assert old(ListOk(p));
        OthersListed(old(table), table, lists[p], p, pid);
      }
    }

    /** Whether a process is alive. */
    method IsLive(pid: nat) returns (live: bool)
      requires Valid()
      ensures live <==> pid in lists
    {
      live := pid in portList;
    }

    method Perform(op: Op)
      requires Valid()
      modifies this
      ensures Valid()
      ensures Effect(old(Owners(table, lists.Keys)), op, Owners(table, lists.Keys))
    {
      hide Valid, Effect;
      ghost var before := Owners(table, lists.Keys);
      SameOwners(before, op);
      var live := IsLive(op.pid);
      match op
      case Begin(pid) =>
        if !live { AddProcess(pid); }
        assert lists.Keys == before.live + {pid};
      case Create(pid) =>
        if live && |table.Keys| < ID_LIMIT {
          var id := CreatePort(pid);
          Created(before, pid, id, Owners(table, lists.Keys));
        }
      case Destroy(pid, id) =>
        if live {
          var error := DestroyPort(pid, id);
          Destroyed(before, pid, id, Owners(table, lists.Keys));
        }
      case End(pid) =>
        if live {
          DestroyProcessPorts(pid);
        } else {
          NoPorts(pid);
        }
        Ended(before, pid, Owners(table, lists.Keys));
    }

    /** A process that is not alive owns nothing. */
    lemma NoPorts(pid: nat)
      requires Valid() && pid !in lists
      ensures forall id :: id in table ==> table[id] != pid
    {
    }
  }

  /** A new port joins its owner's list and no other. */
  lemma NewPortListed(table: map<nat, nat>, list: seq<nat>, pid: nat, id: nat, owner: nat)
    requires ListsAll(table, list, pid) && id !in table
    ensures id !in list
    ensures ListsAll(table[id := owner], if pid == owner then [id] + list else list, pid)
  {
  }

  /** The end of one process leaves the others' lists as they are. */
  lemma OthersListed(table: map<nat, nat>, table': map<nat, nat>, list: seq<nat>, pid: nat, gone: nat)
    requires ListsAll(table, list, pid) && pid != gone
    requires forall id :: id in table' <==> id in table && table[id] != gone
    requires forall id :: id in table' ==> table'[id] == table[id]
    ensures ListsAll(table', list, pid)
  {
  }

  /** What a walk along the list meets next, and that it meets all ports of the process. */
  lemma Walked(table: map<nat, nat>, list: seq<nat>, pid: nat)
    requires ListsAll(table, list, pid)
    ensures forall id :: id in table && id !in list[..|list|] <==> id in table && table[id] != pid
  {
    assert list[..|list|] == list;
  }

  lemma OwnPortListed(table: map<nat, nat>, list: seq<nat>, pid: nat, id: nat)
    requires ListsAll(table, list, pid) && id in table && table[id] == pid
    ensures id in list && Distinct(list)
  {
  }

  /** Removing one owner's port does not touch the others' lists. */
  lemma OthersKept(table: map<nat, nat>, id: nat, list: seq<nat>, other: seq<nat>, pid: nat)
    requires id in table && table[id] != pid && ListsAll(table, list, table[id]) && ListsAll(table, other, pid)
    ensures ListsAll(table - {id}, other, pid) && forall q :: q in other ==> q !in list
  {
  }

  lemma ChainKept(next: map<nat, Link>, next': map<nat, Link>, p: Link, list: seq<nat>)
    requires Chain(next, p, list) && forall q :: q in list && q in next ==> q in next' && next'[q] == next[q]
    ensures Chain(next', p, list)
  {
  }

  // ---------------------------------------------------------------------------------------
  // Any sequence of operations

  datatype Op =
    /** A process comes to life. */
    | Begin(pid: nat)
    | Create(pid: nat)
    | Destroy(pid: nat, id: nat)
    /** A process ends, and its ports with it. */
    | End(pid: nat)

  /** The owners of all ports, and the processes alive. */
  datatype Owners = Owners(table: map<nat, nat>, live: set<nat>)

  /** What an operation may do to the owners. Operations of processes that do not exist, and
      creation when every id is taken, do not take place. */
  ghost predicate Effect(before: Owners, op: Op, after: Owners) {
    match op
    case Begin(pid) => after == before.(live := before.live + {pid})
    case Create(pid) =>
      if pid in before.live && |before.table.Keys| < ID_LIMIT then
        exists id: nat :: id !in before.table && after == before.(table := before.table[id := pid])
      else
        after == before
    case Destroy(pid, id) =>
      if pid in before.live && id in before.table && before.table[id] == pid
      then after == before.(table := before.table - {id})
      else after == before
    case End(pid) =>
      after == Owners(map id | id in before.table && before.table[id] != pid :: before.table[id], before.live - {pid})
  }

  /** An operation that does not take place, and the start of a process. */
  lemma SameOwners(before: Owners, op: Op)
    ensures op.Begin? ==> Effect(before, op, before.(live := before.live + {op.pid}))
    ensures op.Begin? && op.pid in before.live ==> before.live + {op.pid} == before.live
    ensures op.Create? && !(op.pid in before.live && |before.table.Keys| < ID_LIMIT) ==> Effect(before, op, before)
    ensures op.Destroy? && op.pid !in before.live ==> Effect(before, op, before)
  {
  }

  lemma Created(before: Owners, pid: nat, id: nat, after: Owners)
    requires pid in before.live && |before.table.Keys| < ID_LIMIT && id !in before.table
    requires after == before.(table := before.table[id := pid])
    ensures Effect(before, Create(pid), after)
  {
  }

  lemma Destroyed(before: Owners, pid: nat, id: nat, after: Owners)
    requires pid in before.live && after.live == before.live
    requires after.table == if id in before.table && before.table[id] == pid then before.table - {id} else before.table
    ensures Effect(before, Destroy(pid, id), after)
  {
  }

  lemma Ended(before: Owners, pid: nat, after: Owners)
    requires after.live == before.live - {pid}
    requires forall id :: id in after.table <==> id in before.table && before.table[id] != pid
    requires forall id :: id in after.table ==> after.table[id] == before.table[id]
    ensures Effect(before, End(pid), after)
  {
  }

  /** A table after any sequence of operations. It is valid, and the owners went from nobody
      to what they are by the effects of the operations. */
  method PerformAll(ops: seq<Op>) returns (ports: PortTable, ghost owners: seq<Owners>)
    ensures ports.Valid()
    ensures |owners| == |ops| + 1 && owners[0] == Owners(map[], {})
    ensures owners[|ops|] == Owners(ports.table, ports.lists.Keys)
    ensures forall i :: 0 <= i < |ops| ==> Effect(owners[i], ops[i], owners[i + 1])
  {
    hide PortTable.Valid, Effect;
    ports := new PortTable();
    owners := [Owners(map[], {})];
    for n := 0 to |ops|
      invariant ports.Valid() && fresh(ports)
      invariant |owners| == n + 1 && owners[0] == Owners(map[], {})
      invariant owners[n] == Owners(ports.table, ports.lists.Keys)
      invariant forall i :: 0 <= i < n ==> Effect(owners[i], ops[i], owners[i + 1])
    {
      ports.Perform(ops[n]);
      owners := owners + [Owners(ports.table, ports.lists.Keys)];
    }
  }
}
