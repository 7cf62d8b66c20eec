// The Binder transaction protocol: synchronous calls, replies, one-way queues and
// the error slots of a thread. Transactions, threads and nodes are C structs linked
// by pointers; here each is a record in a map and a pointer is a key. A transaction
// is keyed by its debug_id, which the driver draws from an increasing counter, and
// its buffer carries the same debug_id.
module Transactions {
  import opened Base

  type Tid = nat
  type Pid = nat
  type NodeId = nat
  type TxId = nat

  /** The lists a work item can be linked into. The link is part of the item, so an
      item is on at most one of them. */
  datatype Queue = ThreadTodo(thread: Tid) | ProcTodo(proc: Pid) | NodeAsync(node: NodeId)

  datatype Work = Deliver(t: TxId) | TransactionComplete

  /** The values of return_error and return_error2. */
  datatype Code = BrOk | BrTransactionComplete | BrFailedReply | BrDeadReply

  datatype Thread = Thread(proc: Pid, stack: Option<TxId>, err: Code, err2: Code)

  datatype Node = Node(owner: Pid, busy: bool)

  /** `node` is the target node of a call and None for a reply; `queue` is the list
      its work item is linked into, None once it has been delivered; `buffer` says
      whether the buffer pointer is still set. */
  datatype Txn = Txn(
    from: Option<Tid>,
    fromParent: Option<TxId>,
    toThread: Option<Tid>,
    toParent: Option<TxId>,
    node: Option<NodeId>,
    oneWay: bool,
    queue: Option<Queue>,
    buffer: bool)

  /** `active` is the back pointer to the transaction. */
  datatype Buffer = Buffer(proc: Pid, async: bool, node: Option<NodeId>, allowUserFree: bool, active: bool)

  datatype State = State(
    threads: map<Tid, Thread>,
    nodes: map<NodeId, Node>,
    txns: map<TxId, Txn>,
    buffers: map<TxId, Buffer>,
    lists: map<Queue, seq<Work>>,
    lastId: nat)

  /** How a handle in a transaction resolves. */
  datatype Target = ToNode(n: NodeId) | BadHandle | NoContextManager

  datatype Op =
    | AddThread(t: Tid, p: Pid)
    | AddNode(n: NodeId, p: Pid)
    | Send(t: Tid, target: Target, oneWay: bool, fault: bool)
    | Reply(t: Tid, fault: bool)
    | Read(t: Tid)
    | ReadError(t: Tid, room: bool)
    | FreeBuffer(t: Tid, b: TxId)

  /** What a step did. The last four are the outcomes the driver guards against. */
  datatype Event =
    | Quiet
    | UserError
    | Called(t: TxId)
    | OneWaySent(t: TxId, n: NodeId)
    | Accepted(t: TxId)
    | OneWayTaken(t: TxId, n: NodeId)
    | Answered(t: TxId, r: TxId, to: Tid)
    | FailureReported(t: TxId, to: Tid)
    | BadTargetStack
    | DeadCaller
    | FailureLost
    | Bug

  predicate Fatal(e: Event) {
    e.BadTargetStack? || e.DeadCaller? || e.FailureLost? || e.Bug?
  }

  const EMPTY := State(map[], map[], map[], map[], map[], 0)

  /** A two-way call, as opposed to a one-way call or a reply. */
  predicate Sync(x: Txn) {
    x.node.Some? && !x.oneWay
  }

  function At(lists: map<Queue, seq<Work>>, q: Queue): seq<Work> {
    if q in lists then lists[q] else []
  }

  function Push(lists: map<Queue, seq<Work>>, q: Queue, w: Work): map<Queue, seq<Work>> {
    lists[q := At(lists, q) + [w]]
  }

  function WithStack(s: State, t: Tid, stack: Option<TxId>): State
    requires t in s.threads
  {
    s.(threads := s.threads[t := s.threads[t].(stack := stack)])
  }

  function WithErr(s: State, t: Tid, err: Code): State
    requires t in s.threads
  {
    s.(threads := s.threads[t := s.threads[t].(err := err)])
  }

  /** The thread of process `p` that is furthest up the chain of callers of `t`. */
  function OutermostCaller(threads: map<Tid, Thread>, txns: map<TxId, Txn>, t: TxId, p: Pid): Option<Tid>
    decreases t
  {
    if t !in txns then None else
    var x := txns[t];
    var above := if x.fromParent.Some? && x.fromParent.value < t
                 then OutermostCaller(threads, txns, x.fromParent.value, p) else None;
    if above.Some? then above
    else if x.from.Some? && x.from.value in threads && threads[x.from.value].proc == p then x.from
    else None
  }

  /** The thread a two-way call from `t` to a node of `p` would be handed to directly. */
  function DirectTarget(s: State, t: Tid, p: Pid): Option<Tid>
    requires t in s.threads
  {
    if s.threads[t].stack.None? then None
    else OutermostCaller(s.threads, s.txns, s.threads[t].stack.value, p)
  }

  /** A thread that has an unanswered call of its own on top may not start another. */
  predicate MayCall(s: State, t: Tid)
    requires t in s.threads
  {
    var top := s.threads[t].stack;
    top.None? || (top.value in s.txns && s.txns[top.value].toThread == Some(t))
  }

  function Enqueue(s: State, t: Tid, id: TxId, x: Txn, b: Buffer): State
    requires x.queue.Some?
  {
    s.(txns := s.txns[id := x],
       buffers := s.buffers[id := b],
       lists := Push(Push(s.lists, x.queue.value, Deliver(id)), ThreadTodo(t), TransactionComplete),
       lastId := id)
  }

  function SendCall(s: State, t: Tid, n: NodeId): (State, Event)
    requires t in s.threads && n in s.nodes
  {
    var id := s.lastId + 1;
    var owner := s.nodes[n].owner;
    var direct := DirectTarget(s, t, owner);
    var q := if direct.Some? then ThreadTodo(direct.value) else ProcTodo(owner);
    var x := Txn(Some(t), s.threads[t].stack, direct, None, Some(n), false, Some(q), true);
    (WithStack(Enqueue(s, t, id, x, Buffer(owner, false, Some(n), false, true)), t, Some(id)), Called(id))
  }

  function SendOneWay(s: State, t: Tid, n: NodeId): (State, Event)
    requires t in s.threads && n in s.nodes
  {
    var id := s.lastId + 1;
    var owner := s.nodes[n].owner;
    var q := if s.nodes[n].busy then NodeAsync(n) else ProcTodo(owner);
    var x := Txn(None, None, None, None, Some(n), true, Some(q), true);
    var s1 := Enqueue(s, t, id, x, Buffer(owner, true, Some(n), false, true));
    (s1.(nodes := s1.nodes[n := s1.nodes[n].(busy := true)]), OneWaySent(id, n))
  }

  function DoSend(s: State, t: Tid, target: Target, oneWay: bool, fault: bool): (State, Event)
    requires t in s.threads
  {
    if target.NoContextManager? then (WithErr(s, t, BrDeadReply), UserError)
    else if target.BadHandle? || target.n !in s.nodes then (WithErr(s, t, BrFailedReply), UserError)
    else if !oneWay && !MayCall(s, t) then (WithErr(s, t, BrFailedReply), UserError)
    else if fault then (WithErr(s, t, BrFailedReply), UserError)
    else if oneWay then SendOneWay(s, t, target.n)
    else SendCall(s, t, target.n)
  }

  /** binder_pop_transaction: `t` leaves the stack of its caller and is freed. */
  function Pop(s: State, t: TxId): State
    requires t in s.txns && s.txns[t].from.Some? && s.txns[t].from.value in s.threads
  {
    var x := s.txns[t];
    var s1 := WithStack(s, x.from.value, x.fromParent);
    s1.(txns := s1.txns - {t},
        buffers := if x.buffer && t in s.buffers
                   then s.buffers[t := s.buffers[t].(active := false)] else s.buffers)
  }

  /** binder_send_failed_reply for a caller that is still there. */
  function ReportFailure(s: State, t: TxId, code: Code): (State, Event)
    requires t in s.txns && s.txns[t].from.Some? && s.txns[t].from.value in s.threads
  {
    var to := s.txns[t].from.value;
    var shift := s.threads[to].err != BrOk && s.threads[to].err2 == BrOk;
    if s.threads[to].err != BrOk && !shift then (s, FailureLost)
    else if s.threads[to].stack != Some(t) then (s, Bug)
    else
      var s1 := Pop(s, t);
      var th := s1.threads[to];
      (s1.(threads := s1.threads[to := th.(err := code, err2 := if shift then th.err else th.err2)]),
       FailureReported(t, to))
  }

  function SendReply(s: State, t: Tid, call: TxId, to: Tid): (State, Event)
    requires to in s.threads
    requires call in s.txns && s.txns[call].from == Some(to)
  {
    var id := s.lastId + 1;
    var x := Txn(None, None, Some(to), None, None, false, Some(ThreadTodo(to)), true);
    (Enqueue(Pop(s, call), t, id, x, Buffer(s.threads[to].proc, false, None, false, true)),
     Answered(call, id, to))
  }

  function DoReply(s: State, t: Tid, fault: bool): (State, Event)
    requires t in s.threads
  {
    var top := s.threads[t].stack;
    if top.None? then (WithErr(s, t, BrFailedReply), UserError)
    else if top.value !in s.txns then (s, Bug)
    else
      var call := s.txns[top.value];
      if call.toThread != Some(t) then (WithErr(s, t, BrFailedReply), UserError)
      else
        var s1 := WithStack(s, t, call.toParent);
        if call.from.None? || call.from.value !in s.threads then (s1, DeadCaller)
        else if s1.threads[call.from.value].stack != top then (WithErr(s1, t, BrFailedReply), BadTargetStack)
        else if fault then ReportFailure(WithErr(s1, t, BrTransactionComplete), top.value, BrFailedReply)
        else SendReply(s1, t, top.value, call.from.value)
  }

  /** The list a read of `t` takes its next item from. Process work is taken only by a
      thread with an empty stack. */
  function Source(s: State, t: Tid): Option<Queue>
    requires t in s.threads
  {
    if At(s.lists, ThreadTodo(t)) != [] then Some(ThreadTodo(t))
    else if s.threads[t].stack.None? && At(s.lists, ProcTodo(s.threads[t].proc)) != []
    then Some(ProcTodo(s.threads[t].proc))
    else None
  }

  /** Transaction `t`, just taken off its list, is handed to `to`. */
  function Take(s: State, to: Tid, t: TxId): (State, Event)
    requires to in s.threads && t in s.txns && t in s.buffers
  {
    var x := s.txns[t];
    if Sync(x) then
      var s1 := WithStack(s, to, Some(t));
      (s1.(txns := s.txns[t := x.(toParent := s.threads[to].stack, toThread := Some(to), queue := None)],
           buffers := s.buffers[t := s.buffers[t].(allowUserFree := true)]),
       Accepted(t))
    else
      (s.(txns := s.txns - {t},
          buffers := s.buffers[t := s.buffers[t].(allowUserFree := true, active := false)]),
       if x.node.Some? then OneWayTaken(t, x.node.value) else Quiet)
  }

  function DoRead(s: State, t: Tid): (State, Event)
    requires t in s.threads
  {
    var q := Source(s, t);
    if q.None? then (s, Quiet)
    else
      var w := At(s.lists, q.value)[0];
      var s1 := s.(lists := s.lists[q.value := At(s.lists, q.value)[1..]]);
      match w
      case TransactionComplete => (s1, Quiet)
      case Deliver(id) =>
        if id !in s.txns || !s.txns[id].buffer || id !in s.buffers then (s, Bug)
        else Take(s1, t, id)
  }

  function DoReadError(s: State, t: Tid, room: bool): (State, Event)
    requires t in s.threads
  {
    var th := s.threads[t];
    if th.err == BrOk || (th.err2 != BrOk && !room) then (s, Quiet)
    else (s.(threads := s.threads[t := th.(err := BrOk, err2 := BrOk)]), Quiet)
  }

  /** The next waiting one-way call of node `n`, if any, moves to the list of `t`. */
  function ReleaseNext(s: State, t: Tid, n: NodeId): (State, Event)
    requires n in s.nodes
  {
    var waiting := At(s.lists, NodeAsync(n));
    if !s.nodes[n].busy then (s, Bug)
    else if waiting == [] then (s.(nodes := s.nodes[n := s.nodes[n].(busy := false)]), Quiet)
    else if !waiting[0].Deliver? || waiting[0].t !in s.txns then (s, Bug)
    else
      var next := waiting[0].t;
      (s.(txns := s.txns[next := s.txns[next].(queue := Some(ThreadTodo(t)))],
          lists := Push(s.lists[NodeAsync(n) := waiting[1..]], ThreadTodo(t), Deliver(next))),
       Quiet)
  }

  function DoFreeBuffer(s: State, t: Tid, b: TxId): (State, Event)
    requires t in s.threads
  {
    if b !in s.buffers || s.buffers[b].proc != s.threads[t].proc || !s.buffers[b].allowUserFree then (s, UserError)
    else
      var buf := s.buffers[b];
      var s1 := if buf.active && b in s.txns then s.(txns := s.txns[b := s.txns[b].(buffer := false)]) else s;
      var s2 := s1.(buffers := s1.buffers - {b});
      if buf.async && buf.node.Some? && buf.node.value in s.nodes then ReleaseNext(s2, t, buf.node.value)
      else (s2, Quiet)
  }

  /** One atomic step: everything below runs under the driver's main lock. Commands are
      refused while return_error is set, reads are not. */
  function Step(s: State, op: Op): (State, Event) {
    match op
    case AddThread(t, p) =>
      if t in s.threads then (s, Quiet)
      else (s.(threads := s.threads[t := Thread(p, None, BrOk, BrOk)]), Quiet)
    case AddNode(n, p) =>
      if n in s.nodes then (s, Quiet) else (s.(nodes := s.nodes[n := Node(p, false)]), Quiet)
    case Send(t, target, oneWay, fault) =>
      if t !in s.threads || s.threads[t].err != BrOk then (s, Quiet) else DoSend(s, t, target, oneWay, fault)
    case Reply(t, fault) =>
      if t !in s.threads || s.threads[t].err != BrOk then (s, Quiet) else DoReply(s, t, fault)
    case Read(t) => if t !in s.threads then (s, Quiet) else DoRead(s, t)
    case ReadError(t, room) => if t !in s.threads then (s, Quiet) else DoReadError(s, t, room)
    case FreeBuffer(t, b) =>
      if t !in s.threads || s.threads[t].err != BrOk then (s, Quiet) else DoFreeBuffer(s, t, b)
  }

  /** The call `op` would be handed straight back to the thread that makes it. A caller
      can tell beforehand: some transaction it is already serving came, through whatever
      chain of calls, from that same thread, and the node belongs to its own process. */
  predicate SelfTargeted(s: State, op: Op) {
    && op.Send? && !op.oneWay && op.target.ToNode?
    && op.t in s.threads && op.target.n in s.nodes
    && DirectTarget(s, op.t, s.nodes[op.target.n].owner) == Some(op.t)
  }

  function Run(s: State, ops: seq<Op>): State
    decreases |ops|
  {
    if ops == [] then s else Run(Step(s, ops[0]).0, ops[1..])
  }

  function Events(s: State, ops: seq<Op>): seq<Event>
    decreases |ops|
  {
    if ops == [] then []
    else [Step(s, ops[0]).1] + Events(Step(s, ops[0]).0, ops[1..])
  }

  /** No step of the run is self-targeted. */
  predicate Fair(s: State, ops: seq<Op>)
    decreases |ops|
  {
    ops == [] || (!SelfTargeted(s, ops[0]) && Fair(Step(s, ops[0]).0, ops[1..]))
  }
}
