// The driver's transaction code in its own form: thread and transaction structs linked by
// pointers and updated in place under the main lock. Each method is one command or one work
// item, and is proved to take exactly the step of the specification. A BUG_ON is an assertion.
module BinderDriver {
  import opened Base
  import opened Transactions
  import opened CallStacks
  import opened TransactionSafety
  import opened TransactionTheorems

  /** struct binder_thread. */
  class ThreadStruct {
    const id: Tid
    const proc: Pid
    var stack: TxnStruct?
    var err: Code
    var err2: Code

    constructor (id: Tid, proc: Pid)
      ensures this.id == id && Value() == Thread(proc, None, BrOk, BrOk) && stack == null
    {
      this.id, this.proc, stack, err, err2 := id, proc, null, BrOk, BrOk;
    }

    ghost function Value(): Thread
      reads this
    {
      Thread(proc, TxnName(stack), err, err2)
    }
  }

  /** struct binder_transaction. */
  class TxnStruct {
    const id: TxId
    const node: Option<NodeId>
    const oneWay: bool
    var from: ThreadStruct?
    var fromParent: TxnStruct?
    var toThread: ThreadStruct?
    var toParent: TxnStruct?
    var queue: Option<Queue>
    var buffer: bool

    constructor (id: TxId, from: ThreadStruct?, fromParent: TxnStruct?, toThread: ThreadStruct?,
                 node: Option<NodeId>, oneWay: bool, queue: Queue)
      ensures this.id == id && this.from == from && this.fromParent == fromParent && this.toThread == toThread
      ensures toParent == null
      ensures Value() ==
        Txn(ThreadName(from), TxnName(fromParent), ThreadName(toThread), None, node, oneWay, Some(queue), true)
    {
      this.id, this.node, this.oneWay := id, node, oneWay;
      this.from, this.fromParent, this.toThread, toParent := from, fromParent, toThread, null;
      this.queue, buffer := Some(queue), true;
    }

    ghost function Value(): Txn
      reads this
    {
      Txn(ThreadName(from), TxnName(fromParent), ThreadName(toThread), TxnName(toParent), node, oneWay, queue, buffer)
    }
  }

  /** The specification names what a pointer points at. */
  function ThreadName(p: ThreadStruct?): Option<Tid> { if p == null then None else Some(p.id) }
  function TxnName(p: TxnStruct?): Option<TxId> { if p == null then None else Some(p.id) }

  /** The first error code of a thread moved to its second slot. */
  ghost function Shifted(s: State, to: Tid): State
    requires to in s.threads
  {
    var th := s.threads[to];
    if th.err != BrOk then s.(threads := s.threads[to := th.(err := BrOk, err2 := th.err)]) else s
  }

  /** A failure is reported by making room, popping the call, and setting the code. */
  lemma ShiftThenPop(s: State, t: TxId, code: Code)
    requires t in s.txns && s.txns[t].from.Some? && s.txns[t].from.value in s.threads
    requires var th := s.threads[s.txns[t].from.value];
      th.stack == Some(t) && th.err2 == BrOk
    ensures var to := s.txns[t].from.value;
      var s1 := Pop(Shifted(s, to), t);
      var th := s1.threads[to];
      ReportFailure(s, t, code) ==
        (s1.(threads := s1.threads[to := th.(err := code)]), FailureReported(t, to))
  {
    var x, to := s.txns[t], s.txns[t].from.value;
    var th := s.threads[to];
    var last := th.(stack := x.fromParent, err := code, err2 := if th.err != BrOk then th.err else BrOk);
    assert ReportFailure(s, t, code).0.threads == s.threads[to := last];
    assert Pop(Shifted(s, to), t).threads[to := last] == s.threads[to := last];
  }

  /** What the specification's call does, field by field. */
  lemma CallQueued(s: State, s': State, t: Tid, n: NodeId, direct: Option<Tid>, q: Queue)
    requires t in s.threads && n in s.nodes && direct == DirectTarget(s, t, s.nodes[n].owner)
    requires q == if direct.Some? then ThreadTodo(direct.value) else ProcTodo(s.nodes[n].owner)
    requires s'.lastId == s.lastId + 1 && s'.nodes == s.nodes
    requires s'.threads == s.threads[t := s.threads[t].(stack := Some(s'.lastId))]
    requires s'.txns ==
      s.txns[s'.lastId := Txn(Some(t), s.threads[t].stack, direct, None, Some(n), false, Some(q), true)]
    requires s'.buffers == s.buffers[s'.lastId := Buffer(s.nodes[n].owner, false, Some(n), false, true)]
    requires s'.lists == Push(Push(s.lists, q, Deliver(s'.lastId)), ThreadTodo(t), TransactionComplete)
    ensures (s', Called(s'.lastId)) == Transactions.SendCall(s, t, n)
  {
  }

  /** What the specification's reply does, once the call is popped. */
  lemma ReplyQueued(s: State, p: State, s': State, t: Tid, call: TxId, to: Tid)
    requires to in s.threads && call in s.txns && s.txns[call].from == Some(to) && t != to
    requires p == Pop(s, call)
    requires
      && s'.threads == p.threads && s'.nodes == p.nodes && s'.lastId == s.lastId + 1
      && s'.txns == p.txns[s'.lastId := Txn(None, None, Some(to), None, None, false, Some(ThreadTodo(to)), true)]
      && s'.buffers == p.buffers[s'.lastId := Buffer(s.threads[to].proc, false, None, false, true)]
      && s'.lists == Push(Push(s.lists, ThreadTodo(to), Deliver(s'.lastId)), ThreadTodo(t), TransactionComplete)
    ensures At(s'.lists, ThreadTodo(to)) == At(s.lists, ThreadTodo(to)) + [Deliver(s'.lastId)]
    ensures (s', Answered(call, s'.lastId, to)) == Transactions.SendReply(s, t, call, to)
  {
  }

  class Driver {
    /** Every thread, and every transaction that is allocated. */
    var threads: map<Tid, ThreadStruct>
    var txns: map<TxId, TxnStruct>
    var nodes: map<NodeId, Node>
    var buffers: map<TxId, Buffer>
    var lists: map<Queue, seq<Work>>
    var lastId: nat
    /** The structs as values, kept up to date with them. */
    ghost var threadView: map<Tid, Thread>
    ghost var txnView: map<TxId, Txn>

    ghost function Now(): State
      reads this
    {
      State(threadView, nodes, txnView, buffers, lists, lastId)
    }

    ghost predicate IsThread(p: ThreadStruct?)
      reads this`threads
    {
      p == null || (p.id in threads && threads[p.id] == p)
    }

    /** A pointer to a transaction that is allocated is to that very struct. */
    ghost predicate IsTxn(p: TxnStruct?)
      reads this`txns, this`lastId
    {
      p == null || (p.id <= lastId && (p.id in txns ==> txns[p.id] == p))
    }

    ghost predicate ThreadLinked(t: Tid)
      requires t in threads
      reads this`threads, this`txns, this`lastId, this`threadView, threads[t]
    {
      var th := threads[t];
      th.id == t && t in threadView && threadView[t] == th.Value() && IsTxn(th.stack)
    }

    ghost predicate TxnLinked(t: TxId)
      requires t in txns
      reads this`threads, this`txns, this`lastId, this`txnView, txns[t]
    {
      var x := txns[t];
      && x.id == t && t <= lastId && t in txnView && txnView[t] == x.Value()
      && IsThread(x.from) && IsThread(x.toThread) && IsTxn(x.fromParent) && IsTxn(x.toParent)
    }

    ghost predicate Known(th: ThreadStruct)
      reads this`threads, this`txns, this`lastId, this`threadView, th
    {
      th.id in threads && threads[th.id] == th && ThreadLinked(th.id)
    }

    ghost predicate Allocated(x: TxnStruct)
      reads this`threads, this`txns, this`lastId, this`txnView, x
    {
      x.id in txns && txns[x.id] == x && TxnLinked(x.id)
    }

    ghost predicate Linked()
      reads this`threads, this`txns, this`lastId, this`threadView, this`txnView, threads.Values, txns.Values
    {
      && threadView.Keys == threads.Keys && (forall t {:trigger ThreadLinked(t)} :: t in threads ==> ThreadLinked(t))
      && txnView.Keys == txns.Keys && (forall t {:trigger TxnLinked(t)} :: t in txns ==> TxnLinked(t))
    }

    ghost predicate Valid()
      reads this, threads.Values, txns.Values
    {
      Linked() && Inv(Now())
    }

    constructor ()
      ensures Valid() && Now() == EMPTY
    {
      threads, nodes, txns, buffers, lists, lastId := map[], map[], map[], map[], map[], 0;
      threadView, txnView := map[], map[];
      new;
      EmptyInv();
    }

    /** binder_get_thread, for a thread the driver has not met, and binder_new_node. */
    method NewThread(t: Tid, p: Pid) returns (th: ThreadStruct)
      requires Valid() && t !in threads
      modifies this`threads, this`threadView
      ensures Valid() && Now() == Step(old(Now()), AddThread(t, p)).0 && th.id == t && Known(th)
    {
      StepSafe(Now(), AddThread(t, p));
      th := MakeThread(t, p);
    }

    method MakeThread(t: Tid, p: Pid) returns (th: ThreadStruct)
      requires Linked() && t !in threads
      modifies this`threads, this`threadView
      ensures Linked() && th.id == t && Known(th) && threads == old(threads)[t := th]
      ensures threadView == old(threadView)[t := Thread(p, None, BrOk, BrOk)]
    {
      th := new ThreadStruct(t, p);
      threads := threads[t := th];
      threadView := threadView[t := th.Value()];
      forall k | k in threads ensures ThreadLinked(k) { assert k != t ==> old(ThreadLinked(k)); }
      forall k | k in txns ensures TxnLinked(k) { assert old(TxnLinked(k)); }
    }

    method NewNode(n: NodeId, p: Pid)
      requires Valid() && n !in nodes
      modifies this`nodes
      ensures Valid() && Now() == Step(old(Now()), AddNode(n, p)).0
    {
      StepSafe(Now(), AddNode(n, p));
      nodes := nodes[n := Node(p, false)];
    }

    // ---- Single writes --------------------------------------------------------------------

    method SetStack(th: ThreadStruct, p: TxnStruct?)
      requires Linked() && Known(th) && IsTxn(p)
      modifies this`threadView, th`stack
      ensures Linked() && th.stack == p && Now() == WithStack(old(Now()), th.id, TxnName(p))
    {
      th.stack := p;
      threadView := threadView[th.id := th.Value()];
      forall t | t in threads ensures ThreadLinked(t) { assert old(ThreadLinked(t)); }
      forall t | t in txns ensures TxnLinked(t) { assert old(TxnLinked(t)); }
    }

    method SetErrors(th: ThreadStruct, err: Code, err2: Code)
      requires Linked() && Known(th)
      modifies this`threadView, th`err, th`err2
      ensures Linked() && th.err == err && th.err2 == err2
      ensures threadView == old(threadView)[th.id := old(threadView)[th.id].(err := err, err2 := err2)]
    {
      th.err, th.err2 := err, err2;
      threadView := threadView[th.id := th.Value()];
      forall t | t in threads ensures ThreadLinked(t) { assert old(ThreadLinked(t)); }
      forall t | t in txns ensures TxnLinked(t) { assert old(TxnLinked(t)); }
    }

    /** A new transaction, numbered next. */
    method NewTxn(from: ThreadStruct?, fromParent: TxnStruct?, toThread: ThreadStruct?,
                  node: Option<NodeId>, oneWay: bool, queue: Queue)
      returns (x: TxnStruct)
      requires Linked() && IsThread(from) && IsTxn(fromParent) && IsThread(toThread)
      modifies this`txns, this`lastId, this`txnView
      ensures Linked() && fresh(x) && x.id == lastId == old(lastId) + 1 && txns == old(txns)[x.id := x]
      ensures x.from == from && x.fromParent == fromParent && x.toThread == toThread
      ensures txnView == old(txnView)[x.id :=
        Txn(ThreadName(from), TxnName(fromParent), ThreadName(toThread), None, node, oneWay, Some(queue), true)]
    {
      lastId := lastId + 1;
      x := new TxnStruct(lastId, from, fromParent, toThread, node, oneWay, queue);
      txns := txns[lastId := x];
      txnView := txnView[lastId := x.Value()];
      forall t | t in threads ensures ThreadLinked(t) { assert old(ThreadLinked(t)); }
      forall t | t in txns ensures TxnLinked(t) { assert t != x.id ==> old(TxnLinked(t)); }
    }

    /** kfree. */
    method FreeTxn(x: TxnStruct)
      requires Linked() && Allocated(x)
      modifies this`txns, this`txnView
      ensures Linked() && txns == old(txns) - {x.id} && txnView == old(txnView) - {x.id}
    {
      txns := txns - {x.id};
      txnView := txnView - {x.id};
      forall t | t in threads ensures ThreadLinked(t) { assert old(ThreadLinked(t)); }
      forall t | t in txns ensures TxnLinked(t) { assert old(TxnLinked(t)); }
    }

    /** Only one transaction was written to, and its pointers are in order. */
    twostate lemma Relinked(x: TxnStruct)
      requires old(Linked()) && old(Allocated(x)) && threads == old(threads) && txns == old(txns)
      requires lastId == old(lastId)
      requires threadView == old(threadView) && txnView == old(txnView)[x.id := x.Value()]
      requires forall t :: t in threads ==> unchanged(threads[t])
      requires forall t :: t in txns && txns[t] != x ==> unchanged(txns[t])
      requires IsThread(x.from) && IsThread(x.toThread) && IsTxn(x.fromParent) && IsTxn(x.toParent)
      ensures Linked()
    {
      forall t | t in threads ensures ThreadLinked(t) { assert old(ThreadLinked(t)); }
      forall t | t in txns ensures TxnLinked(t) { assert old(TxnLinked(t)); }
    }

    method SetReceiver(x: TxnStruct, th: ThreadStruct)
      requires Linked() && Allocated(x) && Known(th)
      modifies this`txnView, x`toThread, x`toParent, x`queue
      ensures Linked() && x.toThread == th && x.toParent == th.stack
      ensures txnView == old(txnView)[x.id :=
        old(txnView)[x.id].(toParent := TxnName(th.stack), toThread := Some(th.id), queue := None)]
    {
      x.toParent, x.toThread, x.queue := th.stack, th, None;
      txnView := txnView[x.id := x.Value()];
      Relinked(x);
    }

    method SetQueue(x: TxnStruct, q: Queue)
      requires Linked() && Allocated(x)
      modifies this`txnView, x`queue
      ensures Linked() && txnView == old(txnView)[x.id := old(txnView)[x.id].(queue := Some(q))]
    {
      x.queue := Some(q);
      txnView := txnView[x.id := x.Value()];
      Relinked(x);
    }

    method ClearBuffer(x: TxnStruct)
      requires Linked() && Allocated(x)
      modifies this`txnView, x`buffer
      ensures Linked() && txnView == old(txnView)[x.id := old(txnView)[x.id].(buffer := false)]
    {
      x.buffer := false;
      txnView := txnView[x.id := x.Value()];
      Relinked(x);
    }

    method SetList(q: Queue, ws: seq<Work>)
      requires Linked()
      modifies this`lists
      ensures Linked() && lists == old(lists)[q := ws]
    {
      lists := lists[q := ws];
    }

    method SetBuffer(b: TxId, buf: Buffer)
      requires Linked()
      modifies this`buffers
      ensures Linked() && buffers == old(buffers)[b := buf]
    {
      buffers := buffers[b := buf];
    }

    method ListAddTail(q: Queue, w: Work)
      requires Linked()
      modifies this`lists
      ensures Linked() && lists == Push(old(lists), q, w)
    {
      SetList(q, At(lists, q) + [w]);
    }

    /** The last lines of binder_transaction: the buffer is the transaction's, its work item goes
        on a list, and the sender is told it has been sent. */
    method Enqueue(th: ThreadStruct, x: TxnStruct, q: Queue, b: Buffer)
      requires Linked()
      modifies this`buffers, this`lists
      ensures Linked() && buffers == old(buffers)[x.id := b]
      ensures lists == Push(Push(old(lists), q, Deliver(x.id)), ThreadTodo(th.id), TransactionComplete)
    {
      SetBuffer(x.id, b);
      ListAddTail(q, Deliver(x.id));
      ListAddTail(ThreadTodo(th.id), TransactionComplete);
    }

    method Find(id: TxId) returns (x: TxnStruct)
      requires Linked() && id in txns
      ensures x == txns[id] && x.id == id && Allocated(x)
    {
      x := txns[id];
      assert TxnLinked(id);
    }

    // ---- Sending ----------------------------------------------------------------------------

    /** The walk up the callers of transaction `top` that picks a thread of process `p`. */
    method FindCaller(top: TxnStruct, p: Pid) returns (target: ThreadStruct?)
      requires Linked() && Stacks(Now()) && Allocated(top) && Sync(txnView[top.id])
      ensures IsThread(target) && ThreadName(target) == OutermostCaller(threadView, txnView, top.id, p)
    {
      target := null;
      var tmp: TxnStruct? := top;
      while tmp != null
        invariant IsThread(target) && (tmp != null ==> Allocated(tmp) && Sync(txnView[tmp.id]))
        invariant OutermostCaller(threadView, txnView, top.id, p) ==
          if tmp != null && OutermostCaller(threadView, txnView, tmp.id, p).Some?
          then OutermostCaller(threadView, txnView, tmp.id, p) else ThreadName(target)
        decreases if tmp != null then tmp.id + 1 else 0
      {
        assert EndsOk(threadView, txnView[tmp.id]);
        if tmp.from != null { assert ThreadLinked(tmp.from.id); }
        if tmp.fromParent != null { assert tmp.fromParent.id in txns && TxnLinked(tmp.fromParent.id); }
        if tmp.from != null && tmp.from.proc == p {
          target := tmp.from;
        }
        tmp := tmp.fromParent;
      }
    }

    /** The tail of binder_transaction for a two-way call: the new transaction is on top of the
        sender's stack, over what was there, and no other struct has changed. */
    method QueueCall(th: ThreadStruct, n: NodeId, direct: ThreadStruct?) returns (x: TxnStruct)
      requires Linked() && Known(th) && n in nodes && IsThread(direct)
      requires ThreadName(direct) == DirectTarget(Now(), th.id, nodes[n].owner)
      modifies this, th`stack
      ensures Linked() && (Now(), Called(x.id)) == Transactions.SendCall(old(Now()), th.id, n)
      ensures fresh(x) && th.stack == x && x.from == th && x.fromParent == old(th.stack) && x.toThread == direct
    {
      var q := if direct != null then ThreadTodo(direct.id) else ProcTodo(nodes[n].owner);
      x := NewTxn(th, th.stack, direct, Some(n), false, q);
      SetStack(th, x);
      Enqueue(th, x, q, Buffer(nodes[n].owner, false, Some(n), false, true));
      CallQueued(old(Now()), Now(), th.id, n, ThreadName(direct), q);
    }

    /** The tail of binder_transaction for a one-way call: it has no sender to answer to, and
        waits behind the one its node is busy with or is the last item of the owner's list. */
    method QueueOneWay(th: ThreadStruct, n: NodeId) returns (x: TxnStruct)
      requires Linked() && Known(th) && n in nodes
      modifies this
      ensures Linked() && (Now(), OneWaySent(x.id, n)) == Transactions.SendOneWay(old(Now()), th.id, n)
      ensures fresh(x) && x.from == null && x.toThread == null
      ensures At(lists, NodeAsync(n)) ==
        At(old(lists), NodeAsync(n)) + if old(nodes)[n].busy then [Deliver(x.id)] else []
      ensures var owners := ProcTodo(nodes[n].owner);
        At(lists, owners) == At(old(lists), owners) + if old(nodes)[n].busy then [] else [Deliver(x.id)]
    {
      var q := ProcTodo(nodes[n].owner);
      if nodes[n].busy {
        q := NodeAsync(n);
      } else {
        nodes := nodes[n := nodes[n].(busy := true)];
      }
      assert nodes == old(nodes)[n := old(nodes)[n].(busy := true)];
      x := NewTxn(null, null, null, Some(n), true, q);
      Enqueue(th, x, q, Buffer(nodes[n].owner, true, Some(n), false, true));
    }

    method Refuse(th: ThreadStruct, code: Code)
      requires Linked() && Known(th)
      modifies this`threadView, th`err, th`err2
      ensures Linked() && Now() == WithErr(old(Now()), th.id, code)
    {
      SetErrors(th, code, th.err2);
    }

    /** The transaction on top of a stack is allocated. */
    lemma TopIsThere(th: ThreadStruct)
      requires Valid() && Known(th) && th.stack != null
      ensures Allocated(th.stack) && Sync(txnView[th.stack.id])
    {
      assert Latest(txnView, th.id, lastId + 1, threadView[th.id].stack);
    }

    /** binder_transaction for a call. `fault` stands for a buffer that cannot be had or
        an object that does not translate. A self-targeted call goes through like any
        other, and only then is the invariant not kept. */
    method Transaction(th: ThreadStruct, target: Target, oneWay: bool, fault: bool) returns (e: Event)
      requires Valid() && Known(th) && th.err == BrOk
      modifies this, th
      ensures Linked() && (Now(), e) == Step(old(Now()), Send(th.id, target, oneWay, fault))
      ensures !SelfTargeted(old(Now()), Send(th.id, target, oneWay, fault)) ==> Inv(Now()) && !Fatal(e)
    {
      if !SelfTargeted(Now(), Send(th.id, target, oneWay, fault)) {
        StepSafe(Now(), Send(th.id, target, oneWay, fault));
      }
      if th.stack != null { TopIsThere(th); }
      e := Route(th, target, oneWay, fault);
    }

    /** Resolves the target and the thread to hand a call to. */
    method Route(th: ThreadStruct, target: Target, oneWay: bool, fault: bool) returns (e: Event)
      requires Linked() && Stacks(Now()) && Known(th)
      requires th.stack != null ==> Allocated(th.stack) && Sync(txnView[th.stack.id])
      modifies this, th
      ensures Linked() && (Now(), e) == DoSend(old(Now()), th.id, target, oneWay, fault)
    {
      e := UserError;
      if target.NoContextManager? {
        Refuse(th, BrDeadReply);
      } else if target.BadHandle? || target.n !in nodes {
        Refuse(th, BrFailedReply);
      } else if !oneWay && th.stack != null && th.stack.toThread != th {
        Refuse(th, BrFailedReply);
      } else {
        var direct: ThreadStruct? := null;
        if !oneWay && th.stack != null {
          direct := FindCaller(th.stack, nodes[target.n].owner);
        }
        if fault {
          Refuse(th, BrFailedReply);
        } else if oneWay {
          var x := QueueOneWay(th, target.n);
          e := OneWaySent(x.id, target.n);
        } else {
          var x := QueueCall(th, target.n, direct);
          e := Called(x.id);
        }
      }
    }

    // ---- Replying ---------------------------------------------------------------------------

    /** binder_pop_transaction, with its two BUG_ONs: the caller is back where it was when it
        made the call, and no other thread is touched. */
    method PopTransaction(target: ThreadStruct, t: TxnStruct)
      requires Linked() && Known(target) && Allocated(t)
      requires target.stack == t && t.from == target
      modifies this`txns, this`buffers, this`threadView, this`txnView, target`stack
      ensures Linked() && Now() == Pop(old(Now()), t.id) && target.stack == t.fromParent && txns == old(txns) - {t.id}
    {
      assert target.stack == t;
      assert target.stack.from == target;
      SetStack(target, t.fromParent);
      if t.buffer && t.id in buffers {
        SetBuffer(t.id, buffers[t.id].(active := false));
      }
      FreeTxn(t);
    }

    /** The answer itself: a transaction from nobody, with its buffer. */
    method QueueAnswer(th: ThreadStruct, to: ThreadStruct) returns (x: TxnStruct)
      requires Linked() && Known(th) && Known(to)
      modifies this`txns, this`lastId, this`txnView, this`buffers, this`lists
      ensures Linked() && fresh(x) && x.id == lastId == old(lastId) + 1 && x.toThread == to && x.from == null
      ensures txnView == old(txnView)[x.id :=
        Txn(None, None, Some(to.id), None, None, false, Some(ThreadTodo(to.id)), true)]
      ensures buffers == old(buffers)[x.id := Buffer(to.proc, false, None, false, true)]
      ensures lists ==
        Push(Push(old(lists), ThreadTodo(to.id), Deliver(x.id)), ThreadTodo(th.id), TransactionComplete)
    {
      x := NewTxn(null, null, to, None, false, ThreadTodo(to.id));
      Enqueue(th, x, ThreadTodo(to.id), Buffer(to.proc, false, None, false, true));
    }

    /** The tail of binder_transaction for a reply to `call`, made by `to`: the caller is popped
        and the answer is the last item on its list. */
    method QueueReply(th: ThreadStruct, call: TxnStruct, to: ThreadStruct) returns (x: TxnStruct)
      requires Linked() && Known(th) && Known(to) && th != to && Allocated(call)
      requires to.stack == call && call.from == to
      modifies this, to`stack
      ensures Linked()
      ensures (Now(), Answered(call.id, x.id, to.id)) == Transactions.SendReply(old(Now()), th.id, call.id, to.id)
      ensures to.stack == call.fromParent && fresh(x) && x.toThread == to && x.from == null
      ensures At(lists, ThreadTodo(to.id)) == At(old(lists), ThreadTodo(to.id)) + [Deliver(x.id)]
    {
      PopTransaction(to, call);
      ghost var popped := Now();
      x := QueueAnswer(th, to);
      ReplyQueued(old(Now()), popped, Now(), th.id, call.id, to.id);
    }

    /** binder_transaction for a reply. */
    method SendReply(th: ThreadStruct, fault: bool) returns (e: Event)
      requires Valid() && Known(th) && th.err == BrOk
      modifies this, threads.Values
      ensures Valid() && (Now(), e) == Step(old(Now()), Reply(th.id, fault)) && !Fatal(e)
    {
      StepSafe(Now(), Reply(th.id, fault));
      if th.stack != null {
        TopIsThere(th);
        if th.stack.toThread == th { CallerIsThere(th); }
      }
      e := Respond(th, fault);
    }

    /** The caller of the call on top of `th`'s stack waits for it, with a slot free for an error. */
    ghost predicate Awaited(th: ThreadStruct)
      requires th.stack != null
      reads this`threads, this`txns, this`lastId, this`threadView, th, th.stack, th.stack.from
    {
      var to := th.stack.from;
      to != null && to != th && Known(to) && to.stack == th.stack && to.err2 == BrOk
    }

    method Respond(th: ThreadStruct, fault: bool) returns (e: Event)
      requires Linked() && Known(th)
      requires th.stack != null ==> Allocated(th.stack) && (th.stack.toThread == th ==> Awaited(th))
      modifies this, threads.Values
      ensures Linked() && (Now(), e) == DoReply(old(Now()), th.id, fault)
    {
      if th.stack == null || th.stack.toThread != th {
        Refuse(th, BrFailedReply);
        return UserError;
      }
      e := Answer(th, th.stack.from, fault);
    }

    lemma CallerIsThere(th: ThreadStruct)
      requires Valid() && Known(th) && th.stack != null && Allocated(th.stack) && th.stack.toThread == th
      ensures Awaited(th)
    {
      var s, call := Now(), th.stack;
      CallerWaits(s, th.id, call.id);
      var to := call.from;
      assert ErrorsOk(s, to.id) && Waiting(s, to.id);
      assert ThreadLinked(to.id);
    }

    /** A reply to the call on top of the stack, made by `to`, which is waiting for it. The "bad
        target transaction stack" branch is not taken. */
    method Answer(th: ThreadStruct, to: ThreadStruct, fault: bool) returns (e: Event)
      requires Linked() && Known(th) && Known(to) && th != to && th.stack != null && Allocated(th.stack)
      requires th.stack.toThread == th && th.stack.from == to && to.stack == th.stack && to.err2 == BrOk
      modifies this, th, to
      ensures Linked() && (Now(), e) == DoReply(old(Now()), th.id, fault)
      ensures to.stack == old(th.stack.fromParent) && th.stack == old(th.stack.toParent)
    {
      var call := th.stack;
      SetStack(th, call.toParent);
      assert to.stack == call;
      if fault {
        Refuse(th, BrTransactionComplete);
        SendFailedReply(call, BrFailedReply);
        e := FailureReported(call.id, to.id);
      } else {
        var x := QueueReply(th, call, to);
        e := Answered(call.id, x.id, to.id);
      }
    }

    /** binder_send_failed_reply to a caller that is waiting: it always has a free slot. */
    method SendFailedReply(t: TxnStruct, code: Code)
      requires Linked() && Allocated(t) && t.from != null && Known(t.from)
      requires t.from.stack == t && t.from.err2 == BrOk
      modifies this, t.from
      ensures Linked() && Now() == ReportFailure(old(Now()), t.id, code).0
      ensures ReportFailure(old(Now()), t.id, code).1.FailureReported?
      ensures old(t.from).stack == old(t.fromParent) && old(t.from).err == code
    {
      var to := t.from;
      ghost var s := Now();
      MakeRoom(to);
      ShiftThenPop(s, t.id, code);
      // The "has error code already" branch is not taken.
      assert to.err == BrOk;
      PopWithError(to, t, code);
    }

    method PopWithError(to: ThreadStruct, t: TxnStruct, code: Code)
      requires Linked() && Known(to) && Allocated(t) && to.stack == t && t.from == to
      modifies this`txns, this`buffers, this`threadView, this`txnView, to
      ensures Linked() && to.stack == t.fromParent && to.err == code
      ensures var s := Pop(old(Now()), t.id);
        Now() == s.(threads := s.threads[to.id := s.threads[to.id].(err := code)])
    {
      PopTransaction(to, t);
      SetErrors(to, code, to.err2);
    }

    method MakeRoom(to: ThreadStruct)
      requires Linked() && Known(to) && to.err2 == BrOk
      modifies this`threadView, to`err, to`err2
      ensures Linked() && Known(to) && to.err == BrOk && Now() == Shifted(old(Now()), to.id)
    {
      if to.err != BrOk && to.err2 == BrOk {
        SetErrors(to, BrOk, to.err);
      }
    }

    // ---- Reading and freeing ------------------------------------------------------------------

    /** binder_thread_read for one work item: the thread's own list first, then that of
        its process if the thread has nothing on its stack. */
    method ThreadRead(th: ThreadStruct) returns (e: Event)
      requires Valid() && Known(th)
      modifies this, th, txns.Values
      ensures Valid() && (Now(), e) == Step(old(Now()), Read(th.id)) && !Fatal(e)
    {
      ghost var s := Now();
      ReadKeeps(s, th.id);
      var q := ThreadTodo(th.id);
      if At(lists, q) == [] {
        q := ProcTodo(th.proc);
        if th.stack != null || At(lists, q) == [] {
          return Quiet;
        }
      }
      var w := At(lists, q)[0];
      if w.Deliver? {
        ReadTakes(s, th.id, q, w.t);
      }
      e := Dequeue(th, q);
    }

    /** The first item of a list is taken off it and dealt with. */
    method Dequeue(th: ThreadStruct, q: Queue) returns (e: Event)
      requires Linked() && Known(th) && Source(Now(), th.id) == Some(q) && At(lists, q) != []
      requires var w := At(lists, q)[0];
        w.Deliver? ==> w.t in txns && w.t in buffers && txnView[w.t].buffer
      modifies this, th, txns.Values
      ensures Linked() && (Now(), e) == DoRead(old(Now()), th.id)
    {
      var w := At(lists, q)[0];
      SetList(q, At(lists, q)[1..]);
      if w.TransactionComplete? {
        return Quiet;
      }
      var x := Find(w.t);
      assert x.buffer;
      e := Hand(th, x);
    }

    /** A transaction taken off its list: a call goes on top of the reader's stack, over what was
        there, and knows its reader; a reply or one-way call is done with. */
    method Hand(th: ThreadStruct, x: TxnStruct) returns (e: Event)
      requires Linked() && Known(th) && Allocated(x) && x.id in buffers
      modifies this`txns, this`buffers, this`threadView, this`txnView, th`stack, x`toThread, x`toParent, x`queue
      ensures Linked() && (Now(), e) == Take(old(Now()), th.id, x.id)
      ensures e.Accepted? ==> th.stack == x && x.toThread == th && x.toParent == old(th.stack) && x.from == old(x.from)
      ensures !e.Accepted? ==> th.stack == old(th.stack) && txns == old(txns) - {x.id}
    {
      if x.node.Some? && !x.oneWay {
        Accept(th, x);
        e := Accepted(x.id);
      } else {
        Finish(x);
        e := if x.node.Some? then OneWayTaken(x.id, x.node.value) else Quiet;
      }
    }

    method Accept(th: ThreadStruct, x: TxnStruct)
      requires Linked() && Known(th) && Allocated(x) && x.id in buffers
      modifies this`buffers, this`threadView, this`txnView, th`stack, x`toThread, x`toParent, x`queue
      ensures Linked() && th.stack == x && x.toThread == th && x.toParent == old(th.stack)
      ensures threadView == old(threadView)[th.id := old(threadView)[th.id].(stack := Some(x.id))]
      ensures txnView == old(txnView)[x.id :=
        old(txnView)[x.id].(toParent := old(threadView)[th.id].stack, toThread := Some(th.id), queue := None)]
      ensures buffers == old(buffers)[x.id := old(buffers)[x.id].(allowUserFree := true)]
    {
      SetReceiver(x, th);
      SetStack(th, x);
      SetBuffer(x.id, buffers[x.id].(allowUserFree := true));
    }

    method Finish(x: TxnStruct)
      requires Linked() && Allocated(x) && x.id in buffers
      modifies this`txns, this`buffers, this`txnView
      ensures Linked() && txns == old(txns) - {x.id} && txnView == old(txnView) - {x.id}
      ensures buffers == old(buffers)[x.id := old(buffers)[x.id].(allowUserFree := true, active := false)]
    {
      FreeTxn(x);
      var b := buffers[x.id].(allowUserFree := true);
      SetBuffer(x.id, b.(active := false));
    }

    /** The BC_FREE_BUFFER command. */
    method FreeBuffer(th: ThreadStruct, b: TxId) returns (e: Event)
      requires Valid() && Known(th) && th.err == BrOk
      modifies this, txns.Values
      ensures Valid() && (Now(), e) == Step(old(Now()), Op.FreeBuffer(th.id, b)) && !Fatal(e)
    {
      ghost var s := Now();
      FreeKeeps(s, th.id, b);
      if b !in buffers || buffers[b].proc != th.proc || !buffers[b].allowUserFree {
        return UserError;
      }
      if buffers[b].async && buffers[b].node.Some? {
        NextInLine(s, b, buffers[b].node.value);
      }
      e := Quiet;
      Discard(th, b);
    }

    /** A buffer the process may free is unhooked from its transaction and goes. */
    method Discard(th: ThreadStruct, b: TxId)
      requires Linked() && Known(th) && b in buffers && buffers[b].proc == th.proc && buffers[b].allowUserFree
      requires buffers[b].async && buffers[b].node.Some? ==> Waits(buffers[b].node.value)
      modifies this`nodes, this`lists, this`buffers, this`txnView, txns.Values
      ensures Linked() && (Now(), Quiet) == DoFreeBuffer(old(Now()), th.id, b)
    {
      var buf := buffers[b];
      if buf.active && b in txns {
        var x := Find(b);
        ClearBuffer(x);
      }
      buffers := buffers - {b};
      if buf.async && buf.node.Some? {
        PassOn(th, buf.node.value);
      }
    }

    /** The node is busy, and what waits at it are transactions. */
    ghost predicate Waits(n: NodeId)
      reads this`nodes, this`lists, this`txns
    {
      && n in nodes && nodes[n].busy
      && var waiting := At(lists, NodeAsync(n));
         waiting != [] ==> waiting[0].Deliver? && waiting[0].t in txns
    }

    /** The next one-way call of `n`, the oldest waiting, takes the place of the one whose buffer
        is freed; if there is none the node is no longer busy. */
    method PassOn(th: ThreadStruct, n: NodeId)
      requires Linked() && Known(th) && Waits(n)
      modifies this`nodes, this`lists, this`txnView, txns.Values
      ensures Linked() && (Now(), Quiet) == ReleaseNext(old(Now()), th.id, n)
      ensures nodes[n].busy <==> At(old(lists), NodeAsync(n)) != []
      ensures nodes[n].busy ==>
        At(old(lists), NodeAsync(n)) ==
          [At(lists, ThreadTodo(th.id))[|At(lists, ThreadTodo(th.id))| - 1]] + At(lists, NodeAsync(n))
    {
      assert nodes[n].busy;
      if At(lists, NodeAsync(n)) == [] {
        nodes := nodes[n := nodes[n].(busy := false)];
      } else {
        Advance(th, n);
      }
    }

    /** list_move_tail of the first one-way call that waits. */
    method Advance(th: ThreadStruct, n: NodeId)
      requires Linked() && Known(th) && Waits(n) && At(lists, NodeAsync(n)) != []
      modifies this`lists, this`txnView, txns.Values
      ensures var next := At(old(lists), NodeAsync(n))[0];
        && Linked() && txnView == old(txnView)[next.t := old(txnView)[next.t].(queue := Some(ThreadTodo(th.id)))]
        && lists == Push(old(lists)[NodeAsync(n) := At(old(lists), NodeAsync(n))[1..]], ThreadTodo(th.id), next)
    {
      var waiting := At(lists, NodeAsync(n));
      var x := Find(waiting[0].t);
      SetQueue(x, ThreadTodo(th.id));
      SetList(NodeAsync(n), waiting[1..]);
      ListAddTail(ThreadTodo(th.id), waiting[0]);
    }
  }
}
