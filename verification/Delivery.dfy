// Where work ends up: a call is taken by a thread of the process that owns the node it is
// made to, a reply by the thread that made the call, and each buffer lies in the space of
// the process that reads it.
module Delivery {
  import opened Base
  import opened Transactions
  import opened CallStacks
  import opened TransactionSafety
  import opened TransactionTheorems

  // ---- The right process -----------------------------------------------------------------

  /** `th` belongs to the process that owns `n`. */
  ghost predicate Serves(s: State, th: Tid, n: NodeId) {
    th in s.threads && n in s.nodes && s.threads[th].proc == s.nodes[n].owner
  }

  /** Only threads of the owner of `n` take work off list `q`, now or once it is let through. */
  ghost predicate LeadsTo(s: State, q: Queue, n: NodeId) {
    match q
    case ThreadTodo(th) => Serves(s, th, n)
    case ProcTodo(p) => n in s.nodes && p == s.nodes[n].owner
    case NodeAsync(m) => m == n && n in s.nodes
  }

  ghost predicate Addressed(s: State, t: TxId)
    requires t in s.txns
  {
    var x := s.txns[t];
    match x.node
    case Some(n) => n in s.nodes && (x.queue.Some? ==> LeadsTo(s, x.queue.value, n))
    case None => x.toThread.Some? && x.toThread.value in s.threads && x.queue == Some(ThreadTodo(x.toThread.value))
  }

  /** A buffer lies in the space of the process that is to read it, which may free it unless its
      transaction is still undelivered. */
  ghost predicate Placed(s: State, b: TxId)
    requires b in s.buffers
  {
    && (s.buffers[b].node.Some? ==>
          s.buffers[b].node.value in s.nodes && s.buffers[b].proc == s.nodes[s.buffers[b].node.value].owner)
    && (b in s.txns && s.txns[b].node.None? && s.txns[b].toThread.Some? && s.txns[b].toThread.value in s.threads ==>
          s.buffers[b].proc == s.threads[s.txns[b].toThread.value].proc)
    && (!s.buffers[b].allowUserFree ==> b in s.txns && s.txns[b].queue.Some?)
  }

  ghost predicate Routed(s: State) {
    && (forall t {:trigger Addressed(s, t)} :: t in s.txns ==> Addressed(s, t))
    && (forall b {:trigger Placed(s, b)} :: b in s.buffers ==> Placed(s, b))
  }

  /** No thread or node is forgotten or moved to another process. */
  ghost predicate SameProcesses(s: State, s': State) {
    && (forall th :: th in s.threads ==> th in s'.threads && s'.threads[th].proc == s.threads[th].proc)
    && (forall n :: n in s.nodes ==> n in s'.nodes && s'.nodes[n].owner == s.nodes[n].owner)
  }

  /** A transaction or buffer that stays is still where it should be. */
  ghost predicate Kept(s: State, s': State, t: TxId)
    requires t in s'.txns
  {
    && t in s.txns && s'.txns[t].node == s.txns[t].node
    && (s'.txns[t].queue == s.txns[t].queue || (s.txns[t].node.Some? && s'.txns[t].queue.None?))
    && (s.txns[t].node.None? ==> s'.txns[t].toThread == s.txns[t].toThread)
  }

  /** A buffer that may not be freed could not be before, and waits as it did. */
  ghost predicate StillClosed(s: State, s': State, b: TxId)
    requires b in s'.buffers && b in s.buffers
  {
    !s'.buffers[b].allowUserFree ==>
      && !s.buffers[b].allowUserFree
      && (b in s.txns && s.txns[b].queue.Some? ==> b in s'.txns && s'.txns[b].queue.Some?)
  }

  lemma {:induction false} KeptAddressed(s: State, s': State, t: TxId)
    requires Routed(s) && SameProcesses(s, s') && t in s'.txns && Kept(s, s', t)
    ensures Addressed(s', t)
  {
    assert Addressed(s, t);
  }

  lemma {:induction false} KeptPlaced(s: State, s': State, b: TxId)
    requires Routed(s) && SameProcesses(s, s') && b in s'.buffers && b in s.buffers
    requires s'.buffers[b].node == s.buffers[b].node && s'.buffers[b].proc == s.buffers[b].proc
    requires b in s'.txns ==> Kept(s, s', b)
    requires StillClosed(s, s', b)
    ensures Placed(s', b)
  {
    assert Placed(s, b);
    if b in s'.txns { assert Addressed(s, b); }
  }

  /** The direct target of a call is a thread of the process called. */
  lemma {:induction false} OutermostServes(threads: map<Tid, Thread>, txns: Txns, t: TxId, p: Pid)
    ensures var c := OutermostCaller(threads, txns, t, p);
      c.Some? ==> c.value in threads && threads[c.value].proc == p
    decreases t
  {
    if t in txns && txns[t].fromParent.Some? && txns[t].fromParent.value < t {
      OutermostServes(threads, txns, txns[t].fromParent.value, p);
    }
  }

  lemma {:induction false} FreshId(s: State)
    requires Inv(s)
    ensures s.lastId + 1 !in s.txns && s.lastId + 1 !in s.buffers
  {
  }

  lemma {:induction false} CallRouted(s: State, th: Tid, n: NodeId)
    requires Routed(s) && s.lastId + 1 !in s.txns && s.lastId + 1 !in s.buffers && th in s.threads && n in s.nodes
    ensures Routed(SendCall(s, th, n).0)
  {
    var s', id := SendCall(s, th, n).0, s.lastId + 1;
    if s.threads[th].stack.Some? {
      OutermostServes(s.threads, s.txns, s.threads[th].stack.value, s.nodes[n].owner);
    }
    SentRouted(s, s', id, s'.txns[id], s'.buffers[id]);
  }

  lemma {:induction false} OneWayRouted(s: State, th: Tid, n: NodeId)
    requires Routed(s) && s.lastId + 1 !in s.txns && s.lastId + 1 !in s.buffers && th in s.threads && n in s.nodes
    ensures Routed(SendOneWay(s, th, n).0)
  {
    var s', id := SendOneWay(s, th, n).0, s.lastId + 1;
    SentRouted(s, s', id, s'.txns[id], s'.buffers[id]);
  }

  /** One transaction more, with its buffer. */
  lemma {:induction false} SentRouted(s: State, s': State, id: TxId, x: Txn, b: Buffer)
    requires Routed(s) && SameProcesses(s, s') && id !in s.txns && id !in s.buffers
    requires s'.txns == s.txns[id := x] && s'.buffers == s.buffers[id := b]
    requires Addressed(s', id) && Placed(s', id)
    ensures Routed(s')
  {
    forall t | t in s'.txns ensures Addressed(s', t) {
      if t != id { KeptAddressed(s, s', t); }
    }
    forall k | k in s'.buffers ensures Placed(s', k) {
      if k != id { KeptPlaced(s, s', k); }
    }
  }

  /** Transactions may go and be delivered; nothing is aimed anew. */
  lemma {:induction false} LessRouted(s: State, s': State)
    requires Routed(s) && SameProcesses(s, s')
    requires forall t :: t in s'.txns ==> Kept(s, s', t)
    requires forall b :: b in s'.buffers ==>
      b in s.buffers && s'.buffers[b].node == s.buffers[b].node && s'.buffers[b].proc == s.buffers[b].proc
      && StillClosed(s, s', b)
    ensures Routed(s')
  {
    forall t | t in s'.txns ensures Addressed(s', t) {
      KeptAddressed(s, s', t);
    }
    forall b | b in s'.buffers ensures Placed(s', b) {
      KeptPlaced(s, s', b);
    }
  }

  /** The call that is answered was delivered, so its buffer may be freed. */
  lemma {:induction false} UnwoundRouted(s: State, th: Tid, t: TxId)
    requires Routed(s) && th in s.threads && t in s.txns && s.txns[t].queue.None?
    requires s.txns[t].from.Some? && s.txns[t].from.value in s.threads
    ensures Routed(Unwound(s, t, th))
  {
    if t in s.buffers { assert Placed(s, t); }
    LessRouted(s, Unwound(s, t, th));
  }

  lemma {:induction false} AnswerRouted(s: State, th: Tid, t: TxId)
    requires Routed(s) && th in s.threads && t in s.txns && s.txns[t].queue.None?
    requires s.lastId + 1 !in s.txns && s.lastId + 1 !in s.buffers
    requires s.txns[t].from.Some? && s.txns[t].from.value in s.threads
    ensures Routed(Replied(s, th, t)) && Routed(Failed(s, th, t))
  {
    var s1 := Unwound(s, t, th);
    UnwoundRouted(s, th, t);
    WithReplyRouted(s1, th, s.txns[t].from.value);
    LessRouted(s1, Failed(s, th, t));
  }

  lemma {:induction false} ReplyRouted(s: State, th: Tid, fault: bool)
    requires Inv(s) && Routed(s) && th in s.threads && s.threads[th].err == BrOk
    ensures Routed(DoReply(s, th, fault).0)
  {
    var top := s.threads[th].stack;
    if top.Some? { assert Latest(s.txns, th, s.lastId + 1, top); }
    if top.None? || s.txns[top.value].toThread != Some(th) {
      RefusedRouted(s, th, BrFailedReply);
    } else {
      ReplyReaches(s, th, fault);
      CallerWaits(s, th, top.value);
      FreshId(s);
      AnswerRouted(s, th, top.value);
    }
  }

  lemma {:induction false} RefusedRouted(s: State, th: Tid, code: Code)
    requires Routed(s) && th in s.threads
    ensures Routed(WithErr(s, th, code))
  {
    LessRouted(s, WithErr(s, th, code));
  }

  lemma {:induction false} WithReplyRouted(s: State, th: Tid, to: Tid)
    requires Routed(s) && s.lastId + 1 !in s.txns && s.lastId + 1 !in s.buffers && to in s.threads
    ensures Routed(WithReply(s, th, to))
  {
    var s', id := WithReply(s, th, to), s.lastId + 1;
    SentRouted(s, s', id, s'.txns[id], s'.buffers[id]);
  }

  lemma {:induction false} ReadRouted(s: State, th: Tid)
    requires Inv(s) && Routed(s) && th in s.threads
    ensures Routed(DoRead(s, th).0)
  {
    var q := Source(s, th);
    if q.Some? && At(s.lists, q.value)[0].Deliver? {
      ReadTakes(s, th, q.value, At(s.lists, q.value)[0].t);
    }
    LessRouted(s, DoRead(s, th).0);
  }

  /** Freeing passes the next one-way call to a thread of the process whose buffer it was. */
  lemma {:induction false} FreeRouted(s: State, th: Tid, b: TxId)
    requires Inv(s) && Routed(s) && th in s.threads
    ensures Routed(DoFreeBuffer(s, th, b).0)
  {
    if b in s.buffers && s.buffers[b].proc == s.threads[th].proc && s.buffers[b].allowUserFree {
      var s1 := Dropped(s, b);
      LessRouted(s, s1);
      var n := s.buffers[b].node;
      if s.buffers[b].async && n.Some? && n.value in s.nodes {
        assert Placed(s, b);
        WaitersOf(s, n.value);
        NextRouted(s1, th, n.value);
      }
    }
  }

  lemma {:induction false} WaitersOf(s: State, n: NodeId)
    requires Inv(s)
    ensures forall w :: w in At(s.lists, NodeAsync(n)) && w.Deliver? ==> w.t in s.txns && s.txns[w.t].node == Some(n)
  {
    assert ListOk(s.txns, NodeAsync(n), At(s.lists, NodeAsync(n)));
    forall w | w in At(s.lists, NodeAsync(n)) && w.Deliver? ensures w.t in s.txns && s.txns[w.t].node == Some(n) {
      assert Parked(s.txns, w.t, n);
    }
  }

  lemma {:induction false} NextRouted(s: State, th: Tid, n: NodeId)
    requires Routed(s) && Serves(s, th, n)
    requires forall w :: w in At(s.lists, NodeAsync(n)) && w.Deliver? && w.t in s.txns ==> s.txns[w.t].node == Some(n)
    ensures Routed(ReleaseNext(s, th, n).0)
  {
    var s' := ReleaseNext(s, th, n).0;
    forall t | t in s'.txns ensures Addressed(s', t) {
      assert Addressed(s, t);
    }
    forall b | b in s'.buffers ensures Placed(s', b) {
      assert Placed(s, b);
    }
  }

  lemma {:induction false} SendRouted(s: State, th: Tid, target: Target, oneWay: bool, fault: bool)
    requires Routed(s) && s.lastId + 1 !in s.txns && s.lastId + 1 !in s.buffers && th in s.threads
    ensures Routed(DoSend(s, th, target, oneWay, fault).0)
  {
    if target.ToNode? && target.n in s.nodes && !fault && (oneWay || MayCall(s, th)) {
      if oneWay { OneWayRouted(s, th, target.n); } else { CallRouted(s, th, target.n); }
    } else {
      LessRouted(s, DoSend(s, th, target, oneWay, fault).0);
    }
  }

  lemma {:induction false} OtherRouted(s: State, op: Op)
    requires Routed(s) && (op.AddThread? || op.AddNode? || op.ReadError?)
    ensures Routed(Step(s, op).0)
  {
    OtherSame(s, op);
    LessRouted(s, Step(s, op).0);
  }

  lemma {:induction false} OtherSame(s: State, op: Op)
    requires op.AddThread? || op.AddNode? || op.ReadError?
    ensures SameProcesses(s, Step(s, op).0) && Step(s, op).0.txns == s.txns && Step(s, op).0.buffers == s.buffers
  {
  }

  lemma {:induction false} StepRouted(s: State, op: Op)
    requires Inv(s) && Routed(s)
    ensures Routed(Step(s, op).0)
  {
    match op
    case Send(th, target, oneWay, fault) =>
      FreshId(s);
      if th in s.threads { SendRouted(s, th, target, oneWay, fault); }
    case Reply(th, fault) =>
      if th in s.threads && s.threads[th].err == BrOk { ReplyRouted(s, th, fault); }
    case Read(th) => if th in s.threads { ReadRouted(s, th); }
    case FreeBuffer(th, b) => if th in s.threads { FreeRouted(s, th, b); }
    case _ => OtherRouted(s, op);
  }

  lemma {:induction false} RunRouted(s: State, ops: seq<Op>)
    requires Inv(s) && Routed(s) && Fair(s, ops)
    ensures Inv(Run(s, ops)) && Routed(Run(s, ops))
    decreases |ops|
  {
    if ops != [] {
      StepSafe(s, ops[0]);
      StepRouted(s, ops[0]);
      RunRouted(Step(s, ops[0]).0, ops[1..]);
    }
  }

  /** Theorem. In every fair run a call is taken only by a thread of the process that owns the
      node it was made to, one-way or not, and its buffer is in that process's space; a reply
      waits on the list of the thread it answers, with its buffer in that thread's process. */
  lemma {:induction false} TakenByOwner(ops: seq<Op>, th: Tid, t: TxId)
    requires Fair(EMPTY, ops)
    ensures var s := Run(EMPTY, ops);
      var e := Step(s, Read(th)).1;
      && (e == Accepted(t) ==> t in s.txns && s.txns[t].node.Some? && Serves(s, th, s.txns[t].node.value))
      && (e.OneWayTaken? ==> Serves(s, th, e.n))
    ensures var s := Run(EMPTY, ops);
      && (t in s.buffers && s.buffers[t].node.Some? ==>
            s.buffers[t].node.value in s.nodes && s.buffers[t].proc == s.nodes[s.buffers[t].node.value].owner)
      && (t in s.txns && s.txns[t].node.None? ==>
            var to := s.txns[t].toThread;
            && to.Some? && to.value in s.threads && s.txns[t].queue == Some(ThreadTodo(to.value))
            && t in s.buffers && s.buffers[t].proc == s.threads[to.value].proc)
  {
    EmptyInv();
    RunRouted(EMPTY, ops);
    var s := Run(EMPTY, ops);
    if th in s.threads { ReadServes(s, th); }
    if t in s.buffers { assert Placed(s, t); }
    if t in s.txns { assert Addressed(s, t) && Carries(s.txns, s.buffers, t); }
  }

  lemma {:induction false} ReadServes(s: State, th: Tid)
    requires Inv(s) && Routed(s) && th in s.threads
    ensures var e := DoRead(s, th).1;
      && (e.Accepted? ==> e.t in s.txns && s.txns[e.t].node.Some? && Serves(s, th, s.txns[e.t].node.value))
      && (e.OneWayTaken? ==> Serves(s, th, e.n))
  {
    var q := Source(s, th);
    if q.Some? && At(s.lists, q.value)[0].Deliver? {
      var t := At(s.lists, q.value)[0].t;
      ReadTakes(s, th, q.value, t);
      assert Addressed(s, t);
    }
  }

  /** Theorem. In every fair run a thread that is not in error can free a buffer exactly when it
      lies in its process's space and its transaction has been delivered, and so every buffer a
      thread is handed can be freed by it; a refusal changes nothing. */
  lemma {:induction false} FreedExactly(ops: seq<Op>, th: Tid, b: TxId)
    requires Fair(EMPTY, ops)
    ensures var s := Run(EMPTY, ops);
      var (s', e) := Step(s, FreeBuffer(th, b));
      th in s.threads && s.threads[th].err == BrOk ==>
        var may := b in s.buffers && s.buffers[b].proc == s.threads[th].proc && (b in s.txns ==> s.txns[b].queue.None?);
        if may then e == Quiet && s'.buffers == s.buffers - {b} else e == UserError && s' == s
  {
    EmptyInv();
    RunRouted(EMPTY, ops);
    var s := Run(EMPTY, ops);
    if b in s.buffers { assert Placed(s, b); }
    if b in s.txns { assert Carries(s.txns, s.buffers, b); }
    if th in s.threads {
      FreeKeeps(s, th, b);
      FreeEvent(s, th, b);
    }
  }

  lemma {:induction false} FreeEvent(s: State, th: Tid, b: TxId)
    requires th in s.threads && !Fatal(DoFreeBuffer(s, th, b).1)
    ensures var (s', e) := DoFreeBuffer(s, th, b);
      if b in s.buffers && s.buffers[b].proc == s.threads[th].proc && s.buffers[b].allowUserFree
      then e == Quiet && s'.buffers == s.buffers - {b} else e == UserError && s' == s
  {
  }

  // ---- The right thread --------------------------------------------------------------------

  /** Call `c` is the first of the chain that `top` ends that was made by a thread of `p`. */
  ghost predicate FirstFrom(s: State, top: TxId, p: Pid, c: TxId) {
    && c in s.txns && c <= top && Root(s.txns, c) == Root(s.txns, top) && CalledFrom(s.threads, s.txns, c, p)
    && forall d :: d in s.txns && d < c && Root(s.txns, d) == Root(s.txns, top) ==> !CalledFrom(s.threads, s.txns, d, p)
  }

  /** Theorem. A two-way call to a process that has a thread waiting up the chain of calls goes to
      that thread, and if there are several to the one that waits longest; only if there is none
      does it go to the process. */
  lemma {:induction false} GoesToWaiter(s: State, op: Op, c: TxId)
    requires Inv(s) && op.Send? && Step(s, op).1.Called?
    ensures var s' := Step(s, op).0;
      var x := s'.txns[s'.lastId];
      var top, owner := s.threads[op.t].stack, s.nodes[op.target.n].owner;
      && (top.Some? && FirstFrom(s, top.value, owner, c) ==>
            x.toThread == s.txns[c].from && x.queue == Some(ThreadTodo(s.txns[c].from.value)))
      && (top.None? || (forall d :: !FirstFrom(s, top.value, owner, d)) ==>
            x.toThread.None? && x.queue == Some(ProcTodo(owner)))
  {
    var top, owner := s.threads[op.t].stack, s.nodes[op.target.n].owner;
    if top.Some? {
      assert Latest(s.txns, op.t, s.lastId + 1, top);
      FirstIsOutermost(s, top.value, owner, c);
    }
  }

  lemma {:induction false} FirstIsOutermost(s: State, top: TxId, p: Pid, c: TxId)
    requires Stacks(s) && top in s.txns
    ensures FirstFrom(s, top, p, c) ==> OutermostCaller(s.threads, s.txns, top, p) == s.txns[c].from
    ensures (forall d :: !FirstFrom(s, top, p, d)) ==> OutermostCaller(s.threads, s.txns, top, p).None?
  {
    OutermostIsFirst(s.threads, s.txns, top, p);
    if OutermostCaller(s.threads, s.txns, top, p).Some? {
      var e: TxId :| FirstFrom(s, top, p, e) && s.txns[e].from == OutermostCaller(s.threads, s.txns, top, p);
    }
  }

  // ---- The answer to a command -------------------------------------------------------------

  /** Whether `th` has a call of its own that is not answered: it is on top of its stack. */
  lemma {:induction false} MayCallExactly(s: State, th: Tid)
    requires Inv(s) && th in s.threads
    ensures MayCall(s, th) <==> !Waiting(s, th)
  {
    var top := s.threads[th].stack;
    assert Latest(s.txns, th, s.lastId + 1, top);
    if top.Some? { assert EndsOk(s.threads, s.txns[top.value]); }
  }

  /** The sender is told of success by an item at the end of its list, and of nothing else. */
  ghost predicate Completed(s: State, s': State, th: Tid) {
    && th in s.threads && th in s'.threads && s'.threads[th].err == BrOk
    && At(s'.lists, ThreadTodo(th)) == At(s.lists, ThreadTodo(th)) + [TransactionComplete]
  }

  /** The sender is told of failure by `code` in its first slot, and all else is as it was. */
  ghost predicate Declined(s: State, s': State, th: Tid, code: Code) {
    th in s.threads && s' == s.(threads := s.threads[th := s.threads[th].(err := code)])
  }

  /** Theorem. A call is let through exactly when there is a node to call, it is translated
      without a fault, and, if it is two-way, its sender has no call of its own unanswered. The
      sender then finds one completion at the end of its list; otherwise an error code, which
      tells a missing context manager from anything else, and nothing has happened. */
  lemma {:induction false} CallAnswered(s: State, op: Op)
    requires Inv(s) && op.Send? && !SelfTargeted(s, op) && op.t in s.threads && s.threads[op.t].err == BrOk
    ensures var (s', e) := Step(s, op);
      && (e.Called? || e.OneWaySent? <==>
            op.target.ToNode? && op.target.n in s.nodes && !op.fault && (op.oneWay || !Waiting(s, op.t)))
      && (e.Called? ==> !op.oneWay && e.t in s'.txns && s'.txns[e.t].node == Some(op.target.n))
      && (e.OneWaySent? ==> op.oneWay && e.n == op.target.n && e.t in s'.txns && s'.txns[e.t].node == Some(e.n))
      && if e.Called? || e.OneWaySent? then Completed(s, s', op.t)
         else Declined(s, s', op.t, if op.target.NoContextManager? then BrDeadReply else BrFailedReply)
  {
    MayCallExactly(s, op.t);
    if Step(s, op).1.Called? { CallCompletes(s, op.t, op.target.n); }
  }

  lemma {:induction false} CallCompletes(s: State, th: Tid, n: NodeId)
    requires th in s.threads && n in s.nodes && s.threads[th].err == BrOk
    requires DirectTarget(s, th, s.nodes[n].owner) != Some(th)
    ensures Completed(s, SendCall(s, th, n).0, th)
  {
  }

  /** Theorem. A reply is let through exactly when its sender is serving the call on top of
      its stack. It is told of the outcome once: by a completion at the end of its list, or, if
      the reply was lost on the way and the caller was told so instead, by the completion code. */
  lemma {:induction false} ReplyAnswered(s: State, op: Op)
    requires Inv(s) && op.Reply? && op.t in s.threads && s.threads[op.t].err == BrOk
    ensures var (s', e) := Step(s, op);
      && (e.Answered? || e.FailureReported? <==> s.threads[op.t].stack.Some? && !Waiting(s, op.t))
      && (e.Answered? ==> !op.fault && Completed(s, s', op.t))
      && (e.FailureReported? ==> op.fault && s'.threads[op.t].err == BrTransactionComplete && s'.lists == s.lists)
      && (!e.Answered? && !e.FailureReported? ==> Declined(s, s', op.t, BrFailedReply))
  {
    var top := s.threads[op.t].stack;
    MayCallExactly(s, op.t);
    if top.Some? && !Waiting(s, op.t) {
      ReplyReaches(s, op.t, op.fault);
      CallerWaits(s, op.t, top.value);
    }
  }

  /** Errors are told and forgotten together: if all a thread has fit into a read, it may give
      commands again; if not, it has them still. Nothing else changes. */
  lemma {:induction false} ErrorsTold(s: State, th: Tid, room: bool)
    requires Inv(s) && th in s.threads
    ensures var s' := Step(s, ReadError(th, room)).0;
      && s'.txns == s.txns && s'.lists == s.lists && s'.buffers == s.buffers && s'.nodes == s.nodes
      && s'.threads.Keys == s.threads.Keys
      && (forall k :: k in s.threads && k != th ==> s'.threads[k] == s.threads[k])
      && s'.threads[th].stack == s.threads[th].stack && s'.threads[th].proc == s.threads[th].proc
      && (room || s.threads[th].err2 == BrOk ==> s'.threads[th].err == BrOk && s'.threads[th].err2 == BrOk)
      && (!room && s.threads[th].err2 != BrOk ==> s' == s)
  {
    assert ErrorsOk(s, th);
  }

  // ---- First in, first out ------------------------------------------------------------------

  /** What a read takes is the head of one list: the thread's own if that has anything, and
      otherwise its process's, if the thread is idle. */
  lemma {:induction false} ReadOrder(s: State, th: Tid, q: Queue)
    requires Inv(s) && th in s.threads
    ensures var own := At(s.lists, ThreadTodo(th));
      At(DoRead(s, th).0.lists, q) ==
        if q == ThreadTodo(th) then own[Min(1, |own|)..]
        else if q == ProcTodo(s.threads[th].proc) && own == [] && s.threads[th].stack.None?
        then At(s.lists, q)[Min(1, |At(s.lists, q)|)..]
        else At(s.lists, q)
  {
    var from := Source(s, th);
    if from.Some? && At(s.lists, from.value)[0].Deliver? {
      ReadTakes(s, th, from.value, At(s.lists, from.value)[0].t);
    }
  }

  /** Lists are queues: a step takes at most the head of one and otherwise appends. */
  ghost predicate Queues(before: seq<Work>, after: seq<Work>) {
    before <= after || (before != [] && before[1..] <= after)
  }

  lemma {:induction false} ListsAreQueues(s: State, op: Op, q: Queue)
    requires Inv(s)
    ensures Queues(At(s.lists, q), At(Step(s, op).0.lists, q))
    ensures !(At(s.lists, q) <= At(Step(s, op).0.lists, q)) ==>
      (op.Read? && !q.NodeAsync?) || (op.FreeBuffer? && q.NodeAsync?)
  {
    match op
    case Read(th) => if th in s.threads { ReadOrder(s, th, q); }
    case Reply(th, fault) =>
      if th in s.threads && s.threads[th].err == BrOk { ReplyAppends(s, th, fault, q); }
    case Send(th, target, oneWay, fault) => if th in s.threads { SendAppends(s, th, target, oneWay, fault, q); }
    case FreeBuffer(th, b) => if th in s.threads { FreeMoves(s, th, b, q); }
    case _ =>
  }

  lemma {:induction false} SendAppends(s: State, th: Tid, target: Target, oneWay: bool, fault: bool, q: Queue)
    requires th in s.threads
    ensures At(s.lists, q) <= At(DoSend(s, th, target, oneWay, fault).0.lists, q)
  {
  }

  lemma {:induction false} ReplyAppends(s: State, th: Tid, fault: bool, q: Queue)
    requires Inv(s) && th in s.threads && s.threads[th].err == BrOk
    ensures At(s.lists, q) <= At(DoReply(s, th, fault).0.lists, q)
  {
    var top := s.threads[th].stack;
    MayCallExactly(s, th);
    if top.Some? && !Waiting(s, th) { ReplyReaches(s, th, fault); }
  }

  lemma {:induction false} FreeMoves(s: State, th: Tid, b: TxId, q: Queue)
    requires th in s.threads
    ensures var after := At(DoFreeBuffer(s, th, b).0.lists, q);
      Queues(At(s.lists, q), after) && (!(At(s.lists, q) <= after) ==> q.NodeAsync?)
  {
  }
}
