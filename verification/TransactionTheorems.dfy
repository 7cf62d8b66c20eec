// What every run of the transaction protocol guarantees.
module TransactionTheorems {
  import opened Base
  import opened Transactions
  import opened CallStacks
  import opened TransactionSafety

  lemma {:induction false} SendKeeps(s: State, th: Tid, target: Target, oneWay: bool, fault: bool)
    requires Inv(s) && th in s.threads && s.threads[th].err == BrOk
    requires !SelfTargeted(s, Send(th, target, oneWay, fault))
    ensures Inv(DoSend(s, th, target, oneWay, fault).0) && !Fatal(DoSend(s, th, target, oneWay, fault).1)
  {
    if target.NoContextManager? {
      WithErrKeeps(s, th, BrDeadReply);
    } else if target.BadHandle? || target.n !in s.nodes || (!oneWay && !MayCall(s, th)) || fault {
      WithErrKeeps(s, th, BrFailedReply);
    } else if oneWay {
      SendOneWayKeeps(s, th, target.n);
    } else {
      SendCallKeeps(s, th, target.n);
    }
  }

  lemma {:induction false} RepliedKeeps(s: State, th: Tid, t: TxId)
    requires Inv(s) && th in s.threads && s.threads[th].err2 == BrOk && s.threads[th].stack == Some(t)
    requires t in s.txns && s.txns[t].toThread == Some(th)
    requires s.txns[t].from.Some? && s.txns[t].from.value in s.threads
    ensures Inv(Replied(s, th, t))
  {
    UnwoundKeeps(s, t, th);
    EnqueueReplyKeeps(Unwound(s, t, th), th, s.txns[t].from.value);
  }

  lemma {:induction false} ReplyKeeps(s: State, th: Tid, fault: bool)
    requires Inv(s) && th in s.threads && s.threads[th].err == BrOk
    ensures Inv(DoReply(s, th, fault).0) && !Fatal(DoReply(s, th, fault).1)
  {
    var top := s.threads[th].stack;
    if top.Some? {
      assert Latest(s.txns, th, s.lastId + 1, top);
    }
    if top.None? || s.txns[top.value].toThread != Some(th) {
      WithErrKeeps(s, th, BrFailedReply);
    } else {
      ReplyReaches(s, th, fault);
      assert ErrorsOk(s, th);
      if fault {
        FailedKeeps(s, th, top.value);
      } else {
        RepliedKeeps(s, th, top.value);
      }
    }
  }

  lemma {:induction false} AddKeeps(s: State, op: Op)
    requires Inv(s) && (op.AddThread? || op.AddNode?)
    ensures Inv(Step(s, op).0)
  {
    var s' := Step(s, op).0;
    if op.AddThread? {
      forall k | k in s'.threads ensures ErrorsOk(s', k) {
        if k in s.threads { assert ErrorsOk(s, k); }
      }
      ErrorsFrame(s, s');
    } else {
      SameStacksTrivial(s, s');
      forall n | n in s'.nodes ensures NodeOk(s', n) {
        NewNodeOk(s, op, n);
      }
    }
  }

  lemma {:induction false} NewNodeOk(s: State, op: Op, n: NodeId)
    requires Inv(s) && op.AddNode? && n in Step(s, op).0.nodes
    ensures NodeOk(Step(s, op).0, n)
  {
    var s' := Step(s, op).0;
    forall b: TxId ensures Released(s', b, n) == Released(s, b, n) {
    }
    if n in s.nodes {
      assert NodeOk(s, n);
      if s.nodes[n].busy {
        var b: TxId :| Released(s, b, n);
        assert Released(s', b, n);
      }
    } else {
      var w := At(s.lists, NodeAsync(n));
      assert ListOk(s.txns, NodeAsync(n), w);
      forall b: TxId ensures !Released(s, b, n) {
        if b in s.buffers && s.buffers[b].async { assert s.buffers[b].node.value in s.nodes; }
      }
      Unparked(s, n);
    }
  }

  /** Nothing is parked at a node that does not exist. */
  lemma {:induction false} Unparked(s: State, n: NodeId)
    requires Inv(s) && n !in s.nodes
    ensures At(s.lists, NodeAsync(n)) == []
  {
    var w := At(s.lists, NodeAsync(n));
    if w != [] {
      assert ListOk(s.txns, NodeAsync(n), w);
      assert Carries(s.txns, s.buffers, w[0].t);
      assert s.buffers[w[0].t].async ==> s.buffers[w[0].t].node.value in s.nodes;
      assert Parked(s.txns, w[0].t, n);
    }
  }

  lemma {:induction false} ReadErrorKeeps(s: State, th: Tid, room: bool)
    requires Inv(s) && th in s.threads
    ensures Inv(DoReadError(s, th, room).0)
  {
    var s' := DoReadError(s, th, room).0;
    forall k | k in s'.threads ensures ErrorsOk(s', k) {
      assert ErrorsOk(s, k);
    }
    ErrorsFrame(s, s');
  }

  /** Every step that is not self-targeted keeps the invariant and meets none of the
      conditions the driver treats as a bug or a corrupt stack. */
  lemma {:induction false} StepSafe(s: State, op: Op)
    requires Inv(s) && !SelfTargeted(s, op)
    ensures Inv(Step(s, op).0) && !Fatal(Step(s, op).1)
  {
    match op
    case AddThread(_, _) => AddKeeps(s, op);
    case AddNode(_, _) => AddKeeps(s, op);
    case Send(t, target, oneWay, fault) =>
      if t in s.threads && s.threads[t].err == BrOk { SendKeeps(s, t, target, oneWay, fault); }
    case Reply(t, fault) =>
      if t in s.threads && s.threads[t].err == BrOk { ReplyKeeps(s, t, fault); }
    case Read(t) => if t in s.threads { ReadKeeps(s, t); }
    case ReadError(t, room) => if t in s.threads { ReadErrorKeeps(s, t, room); }
    case FreeBuffer(t, b) => if t in s.threads { FreeKeeps(s, t, b); }
  }

  // ---- Whole runs ------------------------------------------------------------------------------

  lemma {:induction false} RunSafe(s: State, ops: seq<Op>)
    requires Inv(s) && Fair(s, ops)
    ensures Inv(Run(s, ops))
    ensures forall i :: 0 <= i < |Events(s, ops)| ==> !Fatal(Events(s, ops)[i])
    decreases |ops|
  {
    if ops != [] {
      StepSafe(s, ops[0]);
      RunSafe(Step(s, ops[0]).0, ops[1..]);
    }
  }

  lemma {:induction false} EmptyInv()
    ensures Inv(EMPTY)
  {
  }

  /** Theorem. In a run from the empty driver in which no call is self-targeted, a thread
      serving the call on top of its stack has a caller with that same call on top; no
      reply finds a bad target stack, no failed reply is lost, and no BUG_ON fires. */
  lemma {:induction false} CallersWait(ops: seq<Op>, th: Tid, t: TxId)
    requires Fair(EMPTY, ops)
    ensures forall i :: 0 <= i < |Events(EMPTY, ops)| ==> !Fatal(Events(EMPTY, ops)[i])
    ensures var s := Run(EMPTY, ops);
      th in s.threads && s.threads[th].stack == Some(t) && t in s.txns && s.txns[t].toThread == Some(th) ==>
        && s.txns[t].from.Some? && s.txns[t].from.value in s.threads && s.txns[t].from.value != th
        && s.threads[s.txns[t].from.value].stack == Some(t)
  {
    EmptyInv();
    RunSafe(EMPTY, ops);
    var s := Run(EMPTY, ops);
    if th in s.threads && s.threads[th].stack == Some(t) && t in s.txns && s.txns[t].toThread == Some(th) {
      CallerWaits(s, th, t);
    }
  }

  /** The condition is exact. A call that is let through is followed by a reply that hits
      the bad target stack just when the call was self-targeted. */
  lemma {:induction false} SelfTargetedExactly(s: State, op: Op, fault: bool)
    requires Inv(s) && op.Send? && Step(s, op).1.Called?
    ensures Step(Step(s, op).0, Reply(op.t, fault)).1 == BadTargetStack <==> SelfTargeted(s, op)
  {
    var s' := Step(s, op).0;
    var id := s.lastId + 1;
    assert s'.threads[op.t].stack == Some(id);
    assert s'.txns[id].toThread == DirectTarget(s, op.t, s.nodes[op.target.n].owner);
  }

  // ---- Records of calls ---------------------------------------------------------------------------

  /** What `a` says about `t` that never changes while the call is live. */
  ghost predicate SameRecord(a: Txns, b: Txns, t: TxId) {
    t in b ==> t in a && b[t].from == a[t].from && b[t].fromParent == a[t].fromParent
               && b[t].node == a[t].node && b[t].oneWay == a[t].oneWay
  }

  lemma {:induction false} StepRecord(s: State, op: Op, t: TxId)
    requires t <= s.lastId
    ensures SameRecord(s.txns, Step(s, op).0.txns, t) && s.lastId <= Step(s, op).0.lastId
  {
    match op
    case Reply(th, fault) =>
      if th in s.threads && s.threads[th].err == BrOk { ReplyRecord(s, th, fault, t); }
    case FreeBuffer(th, b) =>
      if th in s.threads { FreeRecord(s, th, b, t); }
    case _ =>
  }

  lemma {:induction false} FreeRecord(s: State, th: Tid, b: TxId, t: TxId)
    requires t <= s.lastId && th in s.threads
    ensures SameRecord(s.txns, DoFreeBuffer(s, th, b).0.txns, t) && s.lastId <= DoFreeBuffer(s, th, b).0.lastId
  {
  }

  lemma {:induction false} ReplyRecord(s: State, th: Tid, fault: bool, t: TxId)
    requires t <= s.lastId && th in s.threads
    ensures SameRecord(s.txns, DoReply(s, th, fault).0.txns, t) && s.lastId <= DoReply(s, th, fault).0.lastId
  {
  }

  lemma {:induction false} RunRecord(s: State, ops: seq<Op>, t: TxId)
    requires t <= s.lastId
    ensures SameRecord(s.txns, Run(s, ops).txns, t)
    decreases |ops|
  {
    if ops != [] {
      StepRecord(s, ops[0], t);
      RunRecord(Step(s, ops[0]).0, ops[1..], t);
    }
  }

  lemma {:induction false} CallRecord(s: State, call: Op)
    requires call.Send? && Step(s, call).1.Called?
    ensures call.t in s.threads
    ensures var s' := Step(s, call).0;
      var t := Step(s, call).1.t;
      && t == s'.lastId && t in s'.txns && s'.txns[t].from == Some(call.t)
      && s'.txns[t].fromParent == s.threads[call.t].stack
  {
  }

  /** `s'` is `s` after the call `t` of `caller` has been answered or has failed. */
  ghost predicate Returned(s': State, e: Event, t: TxId, caller: Tid, stack: Option<TxId>) {
    && (e.Answered? || e.FailureReported?) && e.t == t && e.to == caller
    && caller in s'.threads && s'.threads[caller].stack == stack && t !in s'.txns
    && (e.Answered? ==> Deliver(e.r) in At(s'.lists, ThreadTodo(caller)) && e.r in s'.txns && s'.txns[e.r].node.None?)
    && (e.FailureReported? ==> s'.threads[caller].err == BrFailedReply)
  }

  lemma {:induction false} ReplyReturns(s: State, th: Tid, fault: bool, t: TxId)
    requires Inv(s) && th in s.threads && s.threads[th].err == BrOk
    requires DoReply(s, th, fault).1.Answered? || DoReply(s, th, fault).1.FailureReported?
    requires DoReply(s, th, fault).1.t == t
    ensures t in s.txns && s.txns[t].from.Some?
    ensures Returned(DoReply(s, th, fault).0, DoReply(s, th, fault).1, t, s.txns[t].from.value, s.txns[t].fromParent)
  {
    ReplyTop(s, th, fault);
    assert Latest(s.txns, th, s.lastId + 1, s.threads[th].stack);
    ReplyReaches(s, th, fault);
    CallerWaits(s, th, t);
    ReplyRestores(s, th, t);
  }

  /** Theorem. Whatever happens between a call and the reply to it, the reply is queued to
      the thread that made the call, and that thread's stack is then what it was before. */
  lemma {:induction false} CallReturns(before: seq<Op>, call: Op, between: seq<Op>, reply: Op)
    requires Fair(EMPTY, before) && call.Send? && reply.Reply?
    requires var s := Run(EMPTY, before);
      && !SelfTargeted(s, call) && Step(s, call).1.Called? && Fair(Step(s, call).0, between)
      && var e := Step(Run(Step(s, call).0, between), reply).1;
         (e.Answered? || e.FailureReported?) && e.t == Step(s, call).1.t
    ensures var s := Run(EMPTY, before);
      var after := Step(Run(Step(s, call).0, between), reply);
      call.t in s.threads && Returned(after.0, after.1, Step(s, call).1.t, call.t, s.threads[call.t].stack)
  {
    EmptyInv();
    RunSafe(EMPTY, before);
    var s := Run(EMPTY, before);
    var s1 := Step(s, call).0;
    var s2 := Run(s1, between);
    var t := Step(s, call).1.t;
    StepSafe(s, call);
    RunSafe(s1, between);
    CallRecord(s, call);
    RunRecord(s1, between, t);
    ReplyReturns(s2, reply.t, reply.fault, t);
  }

  lemma {:induction false} ReplyTop(s: State, th: Tid, fault: bool)
    requires th in s.threads
    requires DoReply(s, th, fault).1.Answered? || DoReply(s, th, fault).1.FailureReported?
    ensures s.threads[th].stack == Some(DoReply(s, th, fault).1.t)
  {
  }

  lemma {:induction false} ReplyRestores(s: State, th: Tid, t: TxId)
    requires th in s.threads && t in s.txns && t <= s.lastId && s.txns[t].from.Some?
    requires s.txns[t].from.value in s.threads
    requires s.txns[t].from.value != th
    ensures var from := s.txns[t].from.value;
      && t !in Replied(s, th, t).txns && t !in Failed(s, th, t).txns
      && Replied(s, th, t).threads[from].stack == s.txns[t].fromParent
      && Failed(s, th, t).threads[from].stack == s.txns[t].fromParent
      && Failed(s, th, t).threads[from].err == BrFailedReply
      && Deliver(s.lastId + 1) in At(Replied(s, th, t).lists, ThreadTodo(from))
      && s.lastId + 1 in Replied(s, th, t).txns && Replied(s, th, t).txns[s.lastId + 1].node.None?
  {
    var from := s.txns[t].from.value;
    var q := At(s.lists, ThreadTodo(from));
    assert At(Replied(s, th, t).lists, ThreadTodo(from))[|q|] == Deliver(s.lastId + 1);
  }
}
