// The rest of the protocol invariant, and what holds of every run.
module TransactionSafety {
  import opened Base
  import opened Transactions
  import opened CallStacks

  type Lists = map<Queue, seq<Work>>

  /** The call on top of the stack of `th` is its own. */
  ghost predicate Waiting(s: State, th: Tid) {
    && th in s.threads && s.threads[th].stack.Some? && s.threads[th].stack.value in s.txns
    && s.txns[s.threads[th].stack.value].from == Some(th)
  }

  /** The second error slot fills only behind the first, and never while a call of the
      thread is unanswered: that is the room a failed reply needs. */
  ghost predicate ErrorsOk(s: State, th: Tid)
    requires th in s.threads
  {
    && (s.threads[th].err2 != BrOk ==> s.threads[th].err != BrOk)
    && (Waiting(s, th) ==> s.threads[th].err2 == BrOk)
  }

  ghost predicate Errors(s: State) {
    forall th {:trigger s.threads[th]} :: th in s.threads ==> ErrorsOk(s, th)
  }

  /** The work items of list `q` are distinct undelivered transactions linked into it. */
  ghost predicate ListOk(txns: Txns, q: Queue, w: seq<Work>) {
    && (forall i :: 0 <= i < |w| && w[i].Deliver? ==> w[i].t in txns && txns[w[i].t].queue == Some(q))
    && (forall i, j :: 0 <= i < j < |w| && w[i].Deliver? ==> w[i] != w[j])
    && (q.NodeAsync? ==> forall i :: 0 <= i < |w| ==> w[i].Deliver?)
  }

  ghost predicate Listed(txns: Txns, lists: Lists) {
    && (forall q {:trigger At(lists, q)} :: ListOk(txns, q, At(lists, q)))
    && (forall t {:trigger txns[t].queue} :: t in txns && txns[t].queue.Some? ==>
        Deliver(t) in At(lists, txns[t].queue.value))
  }

  /** An undelivered transaction has its buffer, and the user cannot free it yet. */
  ghost predicate Carries(txns: Txns, buffers: map<TxId, Buffer>, t: TxId)
    requires t in txns
  {
    && (txns[t].buffer ==> t in buffers && buffers[t].active)
    && (txns[t].queue.Some? ==>
          && txns[t].buffer && t in buffers && !buffers[t].allowUserFree
          && buffers[t].async == txns[t].oneWay && buffers[t].node == txns[t].node)
    && (!Sync(txns[t]) ==> txns[t].queue.Some? && txns[t].fromParent.None?)
    && (txns[t].oneWay ==> txns[t].node.Some?)
  }

  ghost predicate Buffered(txns: Txns, buffers: map<TxId, Buffer>) {
    && (forall t {:trigger Carries(txns, buffers, t)} :: t in txns ==> Carries(txns, buffers, t))
    && (forall b {:trigger buffers[b].active} :: b in buffers && buffers[b].active ==> b in txns && txns[b].buffer)
  }

  /** Transaction `t` is a one-way call parked behind an earlier one to node `n`. */
  ghost predicate Parked(txns: Txns, t: TxId, n: NodeId) {
    t in txns && txns[t].queue == Some(NodeAsync(n))
  }

  /** `b` is the buffer of a one-way call to `n` that has been let through. */
  ghost predicate Released(s: State, b: TxId, n: NodeId) {
    b in s.buffers && s.buffers[b].async && s.buffers[b].node == Some(n) && !Parked(s.txns, b, n)
  }

  ghost predicate NodeOk(s: State, n: NodeId)
    requires n in s.nodes
  {
    var w := At(s.lists, NodeAsync(n));
    && (s.nodes[n].busy ==> exists b: TxId :: Released(s, b, n))
    && (!s.nodes[n].busy ==> w == [] && forall b: TxId {:trigger Released(s, b, n)} :: !Released(s, b, n))
    && (forall b: TxId, c: TxId {:trigger Released(s, b, n), Released(s, c, n)} ::
        Released(s, b, n) && Released(s, c, n) ==> b == c)
    && (forall i :: 0 <= i < |w| ==>
        w[i].Deliver? && forall b: TxId {:trigger Released(s, b, n)} :: Released(s, b, n) ==> b < w[i].t)
    && (forall i, j :: 0 <= i < j < |w| ==> w[i].t < w[j].t)
  }

  ghost predicate OneWayOk(s: State) {
    && (forall n {:trigger s.nodes[n]} :: n in s.nodes ==> NodeOk(s, n))
    && (forall b {:trigger s.buffers[b].async} :: b in s.buffers && s.buffers[b].async ==>
          s.buffers[b].node.Some? && s.buffers[b].node.value in s.nodes)
    && (forall t: TxId, n: NodeId {:trigger Parked(s.txns, t, n)} :: Parked(s.txns, t, n) ==>
        s.txns[t].oneWay && s.txns[t].node == Some(n))
  }

  ghost predicate Inv(s: State) {
    && Stacks(s) && Errors(s) && Listed(s.txns, s.lists) && Buffered(s.txns, s.buffers) && OneWayOk(s)
    && (forall b :: b in s.buffers ==> b <= s.lastId)
  }

  // ---- Lists ---------------------------------------------------------------------------

  lemma {:induction false} PushTxn(txns: Txns, lists: Lists, id: TxId, x: Txn)
    requires Listed(txns, lists) && id !in txns && x.queue.Some?
    ensures Listed(txns[id := x], Push(lists, x.queue.value, Deliver(id)))
  {
    var q := x.queue.value;
    var after := Push(lists, q, Deliver(id));
    forall k ensures ListOk(txns[id := x], k, At(after, k)) {
      assert ListOk(txns, k, At(lists, k));
    }
    forall t | t in txns[id := x] && txns[id := x][t].queue.Some?
      ensures Deliver(t) in At(after, txns[id := x][t].queue.value)
    {
      if t == id { assert At(after, q)[|At(lists, q)|] == Deliver(id); }
      else { assert Deliver(t) in At(lists, txns[t].queue.value); }
    }
  }

  lemma {:induction false} PushComplete(txns: Txns, lists: Lists, q: Queue)
    requires Listed(txns, lists) && !q.NodeAsync?
    ensures Listed(txns, Push(lists, q, TransactionComplete))
  {
    var after := Push(lists, q, TransactionComplete);
    forall k ensures ListOk(txns, k, At(after, k)) {
      assert ListOk(txns, k, At(lists, k));
    }
    forall t | t in txns && txns[t].queue.Some? ensures Deliver(t) in At(after, txns[t].queue.value) {
      assert Deliver(t) in At(lists, txns[t].queue.value);
    }
  }

  /** Taking the head of a list: a transaction taken off is no longer linked anywhere. */
  lemma {:induction false} TakeHead(txns: Txns, lists: Lists, q: Queue, after: Txns)
    requires Listed(txns, lists) && At(lists, q) != []
    requires var w := At(lists, q)[0];
      forall t :: t in after ==>
        t in txns && if w == Deliver(t) then after[t].queue.None? else after[t].queue == txns[t].queue
    requires forall t :: t in txns && At(lists, q)[0] != Deliver(t) ==> t in after
    ensures Listed(after, lists[q := At(lists, q)[1..]])
  {
    var rest := lists[q := At(lists, q)[1..]];
    var w := At(lists, q)[0];
    forall k ensures ListOk(after, k, At(rest, k)) {
      assert ListOk(txns, k, At(lists, k));
      assert ListOk(txns, q, At(lists, q));
      forall i | 0 <= i < |At(rest, k)| && At(rest, k)[i].Deliver? ensures At(rest, k)[i] != w {
        assert k == q ==> At(rest, k)[i] == At(lists, q)[i + 1];
      }
    }
    forall t | t in after && after[t].queue.Some? ensures Deliver(t) in At(rest, after[t].queue.value) {
      assert Deliver(t) in At(lists, txns[t].queue.value);
      assert w != Deliver(t);
    }
  }

  /** Links are unaffected by anything that leaves the queue fields alone. */
  lemma {:induction false} SameListed(txns: Txns, lists: Lists, after: Txns)
    requires Listed(txns, lists)
    requires forall t :: t in after ==> t in txns && after[t].queue == txns[t].queue
    requires forall t :: t in txns && txns[t].queue.Some? ==> t in after
    ensures Listed(after, lists)
  {
    forall k ensures ListOk(after, k, At(lists, k)) {
      assert ListOk(txns, k, At(lists, k));
    }
    forall t | t in after && after[t].queue.Some? ensures Deliver(t) in At(lists, after[t].queue.value) {
      assert Deliver(t) in At(lists, txns[t].queue.value);
    }
  }

  /** A transaction may be unlinked from one list and linked at the end of another. */
  lemma {:induction false} MoveTxn(txns: Txns, lists: Lists, q: Queue, to: Queue)
    requires Listed(txns, lists) && q != to
    requires At(lists, q) != [] && At(lists, q)[0].Deliver? && At(lists, q)[0].t in txns
    ensures var t := At(lists, q)[0].t;
      Listed(txns[t := txns[t].(queue := Some(to))], Push(lists[q := At(lists, q)[1..]], to, Deliver(t)))
  {
    var t := At(lists, q)[0].t;
    var mid := txns - {t};
    TakeHead(txns, lists, q, mid);
    var x := txns[t].(queue := Some(to));
    PushTxn(mid, lists[q := At(lists, q)[1..]], t, x);
    assert mid[t := x] == txns[t := x];
  }

  // ---- One-way calls: steps that leave them alone ------------------------------------------

  lemma {:induction false} SameOneWay(s: State, s': State)
    requires OneWayOk(s) && s'.nodes == s.nodes
    requires forall b: TxId, n: NodeId :: Released(s', b, n) == Released(s, b, n)
    requires forall n: NodeId :: At(s'.lists, NodeAsync(n)) == At(s.lists, NodeAsync(n))
    requires forall b :: b in s'.buffers && s'.buffers[b].async ==>
      b in s.buffers && s.buffers[b].async && s.buffers[b].node == s'.buffers[b].node
    requires forall t: TxId, n: NodeId :: Parked(s'.txns, t, n) ==>
      Parked(s.txns, t, n) && s'.txns[t].oneWay == s.txns[t].oneWay && s'.txns[t].node == s.txns[t].node
    ensures OneWayOk(s')
  {
    forall n | n in s'.nodes ensures NodeOk(s', n) {
      assert NodeOk(s, n);
      if s.nodes[n].busy {
        var b: TxId :| Released(s, b, n);
        assert Released(s', b, n);
      }
    }
  }

  // ---- Calls -------------------------------------------------------------------------------

  lemma {:induction false} EnqueueStacks(s: State, th: Tid, id: TxId, x: Txn, b: Buffer)
    requires Stacks(s) && id == s.lastId + 1 && x.queue.Some? && !Sync(x) && x.fromParent.None?
    ensures Stacks(Enqueue(s, th, id, x, b))
  {
    SameStacks(s, Enqueue(s, th, id, x, b));
  }

  lemma {:induction false} EnqueueLists(s: State, th: Tid, id: TxId, x: Txn, b: Buffer)
    requires Inv(s) && id == s.lastId + 1 && x.queue.Some? && x.buffer
    requires !b.allowUserFree && b.active && b.async == x.oneWay && b.node == x.node
    requires !Sync(x) ==> x.fromParent.None?
    requires x.oneWay ==> x.node.Some?
    ensures var s' := Enqueue(s, th, id, x, b);
      Listed(s'.txns, s'.lists) && Buffered(s'.txns, s'.buffers) && forall k :: k in s'.buffers ==> k <= s'.lastId
  {
    var s' := Enqueue(s, th, id, x, b);
    PushTxn(s.txns, s.lists, id, x);
    PushComplete(s.txns[id := x], Push(s.lists, x.queue.value, Deliver(id)), ThreadTodo(th));
    forall t | t in s'.txns ensures Carries(s'.txns, s'.buffers, t) {
      if t != id { assert Carries(s.txns, s.buffers, t); }
    }
    forall k | k in s'.buffers && s'.buffers[k].active ensures k in s'.txns && s'.txns[k].buffer {
      if k != id { assert s.buffers[k].active; }
    }
  }

  lemma {:induction false} CallStacksKept(s: State, th: Tid, n: NodeId)
    requires Stacks(s) && th in s.threads && n in s.nodes && MayCall(s, th)
    requires DirectTarget(s, th, s.nodes[n].owner) != Some(th)
    ensures Stacks(SendCall(s, th, n).0)
  {
    var s' := SendCall(s, th, n).0;
    var id := s.lastId + 1;
    var x := s'.txns[id];
    var top := s.threads[th].stack;
    var direct := DirectTarget(s, th, s.nodes[n].owner);
    assert Latest(s.txns, th, id, top);
    if top.Some? {
      assert On(s.txns[top.value], th);
      assert EndsOk(s.threads, s.txns[top.value]);
    }
    if direct.Some? {
      var c := OutermostIsCaller(s.threads, s.txns, top.value, s.nodes[n].owner);
      assert HasCaller(s.txns, top.value, direct.value);
    }
    CallChains(s.txns, th, top, id, x);
    forall t | t in s'.txns ensures EndsOk(s'.threads, s'.txns[t]) {
      if t != id { assert EndsOk(s.threads, s.txns[t]); }
    }
    forall k | k in s'.threads ensures Latest(s'.txns, k, id + 1, s'.threads[k].stack) {
      assert Latest(s.txns, k, id, s.threads[k].stack);
      assert s'.txns == s.txns[id := x];
      forall t | t in s'.txns && On(s'.txns[t], k) ensures s'.threads[k].stack.Some? && t <= s'.threads[k].stack.value {
        if t != id { assert On(s.txns[t], k); }
      }
    }
  }

  lemma {:induction false} SendCallOneWay(s: State, th: Tid, n: NodeId)
    requires OneWayOk(s) && th in s.threads && n in s.nodes && s.lastId + 1 !in s.buffers && s.lastId + 1 !in s.txns
    ensures OneWayOk(SendCall(s, th, n).0)
  {
    SameOneWay(s, SendCall(s, th, n).0);
  }

  lemma {:induction false} SendCallErrors(s: State, th: Tid, n: NodeId)
    requires Errors(s) && th in s.threads && n in s.nodes && s.threads[th].err == BrOk
    requires Tops(s.threads, s.txns, s.lastId + 1)
    ensures Errors(SendCall(s, th, n).0)
  {
    var s' := SendCall(s, th, n).0;
    forall k | k in s'.threads ensures ErrorsOk(s', k) {
      assert ErrorsOk(s, k);
    }
  }

  lemma {:induction false} SendCallKeeps(s: State, th: Tid, n: NodeId)
    requires Inv(s) && th in s.threads && n in s.nodes && MayCall(s, th) && s.threads[th].err == BrOk
    requires DirectTarget(s, th, s.nodes[n].owner) != Some(th)
    ensures Inv(SendCall(s, th, n).0)
  {
    var s' := SendCall(s, th, n).0;
    CallStacksKept(s, th, n);
    EnqueueLists(s, th, s'.lastId, s'.txns[s'.lastId], s'.buffers[s'.lastId]);
    SendCallOneWay(s, th, n);
    SendCallErrors(s, th, n);
  }

  lemma {:induction false} SendOneWayReleases(s: State, th: Tid, n: NodeId, k: NodeId, b: TxId)
    requires th in s.threads && n in s.nodes
    requires s.lastId + 1 !in s.txns && s.lastId + 1 !in s.buffers
    ensures Released(SendOneWay(s, th, n).0, b, k) ==
      (Released(s, b, k) || (b == s.lastId + 1 && k == n && !s.nodes[n].busy))
  {
  }

  lemma {:induction false} SendOneWayQueues(s: State, th: Tid, n: NodeId, k: NodeId)
    requires th in s.threads && n in s.nodes
    ensures At(SendOneWay(s, th, n).0.lists, NodeAsync(k)) ==
            At(s.lists, NodeAsync(k)) + (if k == n && s.nodes[n].busy then [Deliver(s.lastId + 1)] else [])
  {
  }

  lemma {:induction false} SendOneWayKeepsNode(s: State, th: Tid, n: NodeId, k: NodeId)
    requires th in s.threads && n in s.nodes && k in s.nodes && NodeOk(s, k)
    requires ListOk(s.txns, NodeAsync(k), At(s.lists, NodeAsync(k)))
    requires Bounded(s.txns, s.lastId + 1) && forall b :: b in s.buffers ==> b <= s.lastId
    ensures NodeOk(SendOneWay(s, th, n).0, k)
  {
    var s' := SendOneWay(s, th, n).0;
    var id := s.lastId + 1;
    SendOneWayQueues(s, th, n, k);
    forall b: TxId ensures Released(s', b, k) == (Released(s, b, k) || (b == id && k == n && !s.nodes[n].busy)) {
      SendOneWayReleases(s, th, n, k, b);
    }
    if s.nodes[k].busy {
      var b: TxId :| Released(s, b, k);
      assert Released(s', b, k);
    } else if k == n {
      assert Released(s', id, k);
    }
  }

  lemma {:induction false} SendOneWayKeeps(s: State, th: Tid, n: NodeId)
    requires Inv(s) && th in s.threads && n in s.nodes
    ensures Inv(SendOneWay(s, th, n).0)
  {
    var s' := SendOneWay(s, th, n).0;
    var id := s.lastId + 1;
    var x := s'.txns[id];
    EnqueueStacks(s, th, id, x, s'.buffers[id]);
    EnqueueLists(s, th, id, x, s'.buffers[id]);
    forall k | k in s'.nodes ensures NodeOk(s', k) {
      assert ListOk(s.txns, NodeAsync(k), At(s.lists, NodeAsync(k)));
      SendOneWayKeepsNode(s, th, n, k);
    }
    forall k | k in s'.threads ensures ErrorsOk(s', k) {
      assert ErrorsOk(s, k);
    }
    forall t: TxId, k: NodeId | Parked(s'.txns, t, k) ensures s'.txns[t].oneWay && s'.txns[t].node == Some(k) {
      if t != id { assert Parked(s.txns, t, k); }
    }
  }

  // ---- Replies --------------------------------------------------------------------------------

  /** The state after a call `t`, on top of both its ends, has left both stacks. */
  function Unwound(s: State, t: TxId, to: Tid): State
    requires to in s.threads && t in s.txns && s.txns[t].from.Some? && s.txns[t].from.value in s.threads
  {
    Pop(WithStack(s, to, s.txns[t].toParent), t)
  }

  lemma {:induction false} UnwoundStacks(s: State, t: TxId, to: Tid)
    requires Stacks(s) && to in s.threads && s.threads[to].stack == Some(t)
    requires t in s.txns && s.txns[t].toThread == Some(to)
    ensures s.txns[t].from.Some? && s.txns[t].from.value in s.threads
    ensures Stacks(Unwound(s, t, to))
  {
    CallerWaits(s, to, t);
    var from := s.txns[t].from.value;
    var s' := Unwound(s, t, to);
    assert MayReturn(s.txns, t, from, to, s.lastId + 1);
    ReturnChains(s.txns, t, from, to, s.lastId + 1);
    forall k | k in s'.threads ensures Latest(s'.txns, k, s'.lastId + 1, s'.threads[k].stack) {
      ReturnTops(s.txns, t, from, to, s.lastId + 1, k, s.threads[k].stack);
    }
    forall u | u in s'.txns ensures EndsOk(s'.threads, s'.txns[u]) {
      assert EndsOk(s.threads, s.txns[u]);
    }
  }

  lemma {:induction false} UnwoundKeeps(s: State, t: TxId, to: Tid)
    requires Inv(s) && to in s.threads && s.threads[to].stack == Some(t)
    requires t in s.txns && s.txns[t].toThread == Some(to) && s.threads[to].err2 == BrOk
    ensures s.txns[t].from.Some? && s.txns[t].from.value in s.threads
    ensures Inv(Unwound(s, t, to))
  {
    UnwoundStacks(s, t, to);
    CallerWaits(s, to, t);
    var s' := Unwound(s, t, to);
    SameListed(s.txns, s.lists, s'.txns);
    UnwoundOneWay(s, t, to);
    UnwoundBuffers(s, t, to);
    forall k | k in s'.threads ensures ErrorsOk(s', k) {
      assert ErrorsOk(s, k);
    }
  }

  lemma {:induction false} UnwoundOneWay(s: State, t: TxId, to: Tid)
    requires OneWayOk(s) && to in s.threads && t in s.txns && s.txns[t].queue.None?
    requires s.txns[t].from.Some? && s.txns[t].from.value in s.threads
    ensures OneWayOk(Unwound(s, t, to))
  {
    SameOneWay(s, Unwound(s, t, to));
  }

  lemma {:induction false} UnwoundBuffers(s: State, t: TxId, to: Tid)
    requires Buffered(s.txns, s.buffers) && to in s.threads && t in s.txns
    requires s.txns[t].from.Some? && s.txns[t].from.value in s.threads
    ensures Buffered(Unwound(s, t, to).txns, Unwound(s, t, to).buffers)
  {
    var s' := Unwound(s, t, to);
    assert Carries(s.txns, s.buffers, t);
    forall u | u in s'.txns ensures Carries(s'.txns, s'.buffers, u) {
      assert Carries(s.txns, s.buffers, u);
    }
    forall k | k in s'.buffers && s'.buffers[k].active ensures k in s'.txns && s'.txns[k].buffer {
      assert s.buffers[k].active;
    }
  }

  /** Only the error slots, or threads that have done nothing yet, differ. */
  lemma {:induction false} ErrorsFrame(s: State, s': State)
    requires Inv(s) && s' == s.(threads := s'.threads)
    requires forall k :: k in s.threads ==> k in s'.threads && s'.threads[k].stack == s.threads[k].stack
    requires forall k :: k in s'.threads && k !in s.threads ==> s'.threads[k].stack.None?
    requires Errors(s')
    ensures Inv(s')
  {
    assert forall t :: t in s.txns && !Sync(s.txns[t]) ==> Carries(s.txns, s.buffers, t);
    SameStacks(s, s');
    SameOneWay(s, s');
  }

  lemma {:induction false} WithErrKeeps(s: State, th: Tid, code: Code)
    requires Inv(s) && th in s.threads && code != BrOk
    ensures Inv(WithErr(s, th, code))
  {
    var s' := WithErr(s, th, code);
    forall k | k in s'.threads ensures ErrorsOk(s', k) {
      assert ErrorsOk(s, k);
    }
    ErrorsFrame(s, s');
  }

  /** A reply from `th` is on the list of `to`. */
  function WithReply(s: State, th: Tid, to: Tid): State
    requires to in s.threads
  {
    Enqueue(s, th, s.lastId + 1,
            Txn(None, None, Some(to), None, None, false, Some(ThreadTodo(to)), true),
            Buffer(s.threads[to].proc, false, None, false, true))
  }

  lemma {:induction false} ReplyOneWay(s: State, th: Tid, to: Tid)
    requires OneWayOk(s) && Errors(s) && to in s.threads && s.lastId + 1 !in s.txns && s.lastId + 1 !in s.buffers
    ensures OneWayOk(WithReply(s, th, to)) && Errors(WithReply(s, th, to))
  {
    SameOneWay(s, WithReply(s, th, to));
    StillWaiting(s, WithReply(s, th, to));
  }

  lemma {:induction false} EnqueueReplyKeeps(s: State, th: Tid, to: Tid)
    requires Inv(s) && to in s.threads
    ensures Inv(WithReply(s, th, to))
  {
    var s' := WithReply(s, th, to);
    EnqueueStacks(s, th, s'.lastId, s'.txns[s'.lastId], s'.buffers[s'.lastId]);
    EnqueueLists(s, th, s'.lastId, s'.txns[s'.lastId], s'.buffers[s'.lastId]);
    ReplyOneWay(s, th, to);
  }

  /** A reply to the call on top of the stack always finds the caller waiting for it:
      either the reply is queued to that caller, or the caller gets the failure code. */
  lemma {:induction false} ReplyReaches(s: State, th: Tid, fault: bool)
    requires Inv(s) && th in s.threads && s.threads[th].err == BrOk
    requires s.threads[th].stack.Some? && s.threads[th].stack.value in s.txns
    requires s.txns[s.threads[th].stack.value].toThread == Some(th)
    ensures var t := s.threads[th].stack.value;
      var from := s.txns[t].from;
      && from.Some? && from.value in s.threads && s.threads[from.value].stack == Some(t)
      && DoReply(s, th, fault) == if fault then (Failed(s, th, t), FailureReported(t, from.value))
                                  else (Replied(s, th, t), Answered(t, s.lastId + 1, from.value))
  {
    var t := s.threads[th].stack.value;
    CallerWaits(s, th, t);
    var from := s.txns[t].from.value;
    assert ErrorsOk(s, from) && Waiting(s, from);
    ReplyOutcome(s, th, fault, t, from);
  }

  lemma {:induction false} ReplyOutcome(s: State, th: Tid, fault: bool, t: TxId, from: Tid)
    requires th in s.threads && s.threads[th].stack == Some(t) && t in s.txns && s.txns[t].toThread == Some(th)
    requires s.txns[t].from == Some(from) && from in s.threads && from != th
    requires s.threads[from].stack == Some(t) && s.threads[from].err2 == BrOk
    ensures DoReply(s, th, fault) == if fault then (Failed(s, th, t), FailureReported(t, from))
                                     else (Replied(s, th, t), Answered(t, s.lastId + 1, from))
  {
    if fault {
      var s1 := WithErr(WithStack(s, th, s.txns[t].toParent), th, BrTransactionComplete);
      assert s1.threads[from] == s.threads[from];
      assert ReportFailure(s1, t, BrFailedReply).0.threads == Failed(s, th, t).threads;
    }
  }

  /** The reply is on its way, and both ends are back to what they did before. */
  function Replied(s: State, th: Tid, t: TxId): State
    requires th in s.threads && t in s.txns && s.txns[t].from.Some? && s.txns[t].from.value in s.threads
  {
    WithReply(Unwound(s, t, th), th, s.txns[t].from.value)
  }

  /** The caller has the failure code instead, behind an error of its own if it has one. */
  function Failed(s: State, th: Tid, t: TxId): State
    requires th in s.threads && t in s.txns && s.txns[t].from.Some? && s.txns[t].from.value in s.threads
  {
    var from := s.txns[t].from.value;
    var s1 := Unwound(s, t, th);
    var caller := s1.threads[from].(err := BrFailedReply,
                                    err2 := if s.threads[from].err != BrOk then s.threads[from].err
                                      else s.threads[from].err2);
    s1.(threads := s1.threads[th := s1.threads[th].(err := BrTransactionComplete)][from := caller])
  }

  lemma {:induction false} FailedKeeps(s: State, th: Tid, t: TxId)
    requires Inv(s) && th in s.threads && s.threads[th].err == BrOk && s.threads[th].stack == Some(t)
    requires t in s.txns && s.txns[t].toThread == Some(th)
    requires s.txns[t].from.Some? && s.txns[t].from.value in s.threads
    ensures Inv(Failed(s, th, t))
  {
    var from := s.txns[t].from.value;
    CallerWaits(s, th, t);
    assert ErrorsOk(s, th);
    UnwoundKeeps(s, t, th);
    var s1 := Unwound(s, t, th);
    var s' := Failed(s, th, t);
    FailedErrors(s, th, t);
    ErrorsFrame(s1, s');
  }

  lemma {:induction false} FailedErrors(s: State, th: Tid, t: TxId)
    requires Inv(s) && th in s.threads && s.threads[th].err == BrOk && s.threads[th].stack == Some(t)
    requires t in s.txns && s.txns[t].toThread == Some(th)
    requires s.txns[t].from.Some? && s.txns[t].from.value in s.threads
    requires Inv(Unwound(s, t, th))
    ensures Errors(Failed(s, th, t))
  {
    var from := s.txns[t].from.value;
    var s1 := Unwound(s, t, th);
    var s' := Failed(s, th, t);
    CallerWaits(s, th, t);
    forall k | k in s'.threads ensures ErrorsOk(s', k) {
      assert ErrorsOk(s1, k);
      if k == from && s.txns[t].fromParent.Some? {
        var p := s.txns[t].fromParent.value;
        assert Serving(s.txns, p, Some(from));
        assert EndsOk(s.threads, s.txns[p]);
      }
    }
  }

  // ---- Reads ------------------------------------------------------------------------------------

  /** A two-way call is taken only by an idle thread or by a thread up its own chain. */
  lemma {:induction false} TakerFits(s: State, th: Tid, t: TxId)
    requires Stacks(s) && th in s.threads && t in s.txns && Sync(s.txns[t])
    requires s.txns[t].queue == Some(ThreadTodo(th)) ||
      (s.txns[t].queue.Some? && s.txns[t].queue.value.ProcTodo? && s.threads[th].stack.None?)
    ensures MayTake(s.txns, th, s.threads[th].stack, s.lastId + 1, t)
  {
    assert DirectOk(s.txns, t);
    assert EndsOk(s.threads, s.txns[t]);
    assert Latest(s.txns, th, s.lastId + 1, s.threads[th].stack);
    if s.threads[th].stack.None? { assert !On(s.txns[t], th); }
  }

  lemma {:induction false} TakeCallStacks(s: State, th: Tid, t: TxId)
    requires Stacks(s) && th in s.threads && t in s.txns && t in s.buffers && Sync(s.txns[t])
    requires MayTake(s.txns, th, s.threads[th].stack, s.lastId + 1, t)
    ensures Stacks(Take(s, th, t).0)
  {
    var s' := Take(s, th, t).0;
    var top := s.threads[th].stack;
    assert s'.txns == s.txns[t := Delivered(s.txns[t], th, top)];
    TakeChains(s.txns, th, top, s.lastId + 1, t);
    forall k | k in s'.threads ensures Latest(s'.txns, k, s'.lastId + 1, s'.threads[k].stack) {
      TakeTops(s.txns, th, top, s.lastId + 1, t, k, s.threads[k].stack);
    }
    forall u | u in s'.txns ensures EndsOk(s'.threads, s'.txns[u]) {
      assert EndsOk(s.threads, s.txns[u]);
    }
  }

  lemma {:induction false} TakeBuffers(s: State, th: Tid, t: TxId)
    requires Buffered(s.txns, s.buffers) && th in s.threads && t in s.txns && t in s.buffers
    ensures Buffered(Take(s, th, t).0.txns, Take(s, th, t).0.buffers)
  {
    var s' := Take(s, th, t).0;
    assert Carries(s.txns, s.buffers, t);
    forall u | u in s'.txns ensures Carries(s'.txns, s'.buffers, u) {
      assert Carries(s.txns, s.buffers, u);
    }
    forall k | k in s'.buffers && s'.buffers[k].active ensures k in s'.txns && s'.txns[k].buffer {
      assert s.buffers[k].active;
    }
  }

  lemma {:induction false} ReadTakes(s: State, th: Tid, q: Queue, t: TxId)
    requires Inv(s) && th in s.threads && Source(s, th) == Some(q)
    requires At(s.lists, q)[0] == Deliver(t)
    ensures t in s.txns && s.txns[t].queue == Some(q) && s.txns[t].buffer && t in s.buffers
    ensures !s.buffers[t].allowUserFree
    ensures DoRead(s, th) == Take(s.(lists := s.lists[q := At(s.lists, q)[1..]]), th, t)
  {
    assert ListOk(s.txns, q, At(s.lists, q));
    assert Carries(s.txns, s.buffers, t);
  }

  lemma {:induction false} ReadCallKeeps(s: State, th: Tid, q: Queue, t: TxId)
    requires Inv(s) && th in s.threads && Source(s, th) == Some(q)
    requires At(s.lists, q)[0] == Deliver(t) && t in s.txns && Sync(s.txns[t])
    ensures Inv(DoRead(s, th).0)
  {
    ReadTakes(s, th, q, t);
    var s1 := s.(lists := s.lists[q := At(s.lists, q)[1..]]);
    var s' := Take(s1, th, t).0;
    TakerFits(s, th, t);
    TakeCallStacks(s1, th, t);
    TakeBuffers(s1, th, t);
    TakeHead(s.txns, s.lists, q, s'.txns);
    TakeOneWay(s, th, q, t);
    TakeCallErrors(s1, th, t);
  }

  lemma {:induction false} TakeOneWay(s: State, th: Tid, q: Queue, t: TxId)
    requires OneWayOk(s) && th in s.threads && t in s.txns && t in s.buffers
    requires s.txns[t].queue == Some(q) && !q.NodeAsync? && At(s.lists, q) != []
    ensures OneWayOk(Take(s.(lists := s.lists[q := At(s.lists, q)[1..]]), th, t).0)
  {
    SameOneWay(s, Take(s.(lists := s.lists[q := At(s.lists, q)[1..]]), th, t).0);
  }

  lemma {:induction false} TakeCallErrors(s: State, th: Tid, t: TxId)
    requires Errors(s) && th in s.threads && t in s.txns && t in s.buffers && Sync(s.txns[t])
    requires s.txns[t].from != Some(th)
    ensures Errors(Take(s, th, t).0)
  {
    var s' := Take(s, th, t).0;
    forall k | k in s'.threads ensures ErrorsOk(s', k) {
      assert ErrorsOk(s, k);
    }
  }

  lemma {:induction false} ReadOtherKeeps(s: State, th: Tid, q: Queue, t: TxId)
    requires Inv(s) && th in s.threads && Source(s, th) == Some(q)
    requires At(s.lists, q)[0] == Deliver(t) && t in s.txns && !Sync(s.txns[t])
    ensures Inv(DoRead(s, th).0)
  {
    ReadTakes(s, th, q, t);
    var s1 := s.(lists := s.lists[q := At(s.lists, q)[1..]]);
    var s' := Take(s1, th, t).0;
    TakeOtherStacks(s1, th, t);
    TakeBuffers(s1, th, t);
    TakeHead(s.txns, s.lists, q, s'.txns);
    TakeOneWay(s, th, q, t);
  }

  lemma {:induction false} TakeOtherStacks(s: State, th: Tid, t: TxId)
    requires Stacks(s) && Errors(s) && Buffered(s.txns, s.buffers)
    requires th in s.threads && t in s.txns && t in s.buffers && !Sync(s.txns[t])
    ensures Stacks(Take(s, th, t).0) && Errors(Take(s, th, t).0)
  {
    var s' := Take(s, th, t).0;
    assert forall u :: u in s.txns && !Sync(s.txns[u]) ==> Carries(s.txns, s.buffers, u);
    SameStacks(s, s');
    StillWaiting(s, s');
  }

  /** Error slots depend on the stacks and on who made the call on top. */
  lemma {:induction false} StillWaiting(s: State, s': State)
    requires Errors(s) && s'.threads == s.threads
    requires forall t :: t in s'.txns ==> (t in s.txns && s'.txns[t].from == s.txns[t].from) || s'.txns[t].from.None?
    ensures Errors(s')
  {
    forall k | k in s'.threads ensures ErrorsOk(s', k) {
      assert ErrorsOk(s, k);
    }
  }

  lemma {:induction false} ReadKeeps(s: State, th: Tid)
    requires Inv(s) && th in s.threads
    ensures Inv(DoRead(s, th).0) && !Fatal(DoRead(s, th).1)
  {
    var q := Source(s, th);
    if q.Some? {
      var w := At(s.lists, q.value)[0];
      if w.Deliver? {
        ReadTakes(s, th, q.value, w.t);
        if Sync(s.txns[w.t]) { ReadCallKeeps(s, th, q.value, w.t); } else { ReadOtherKeeps(s, th, q.value, w.t); }
      } else {
        var s' := DoRead(s, th).0;
        TakeHead(s.txns, s.lists, q.value, s.txns);
        assert forall u :: u in s.txns && !Sync(s.txns[u]) ==> Carries(s.txns, s.buffers, u);
        SameStacks(s, s');
        SameOneWay(s, s');
        StillWaiting(s, s');
      }
    }
  }

  // ---- Freeing a buffer ----------------------------------------------------------------------------

  /** The state after the buffer itself is gone, before the next one-way call is let through. */
  function Dropped(s: State, b: TxId): State
    requires b in s.buffers
  {
    s.(txns := if s.buffers[b].active && b in s.txns then s.txns[b := s.txns[b].(buffer := false)] else s.txns,
       buffers := s.buffers - {b})
  }

  lemma {:induction false} DroppedBuffers(s: State, b: TxId)
    requires Buffered(s.txns, s.buffers) && b in s.buffers && s.buffers[b].allowUserFree
    ensures Buffered(Dropped(s, b).txns, Dropped(s, b).buffers)
    ensures b in s.txns ==> s.txns[b].queue.None?
  {
    var s' := Dropped(s, b);
    assert b in s.txns ==> Carries(s.txns, s.buffers, b);
    forall u | u in s'.txns ensures Carries(s'.txns, s'.buffers, u) {
      assert Carries(s.txns, s.buffers, u);
    }
    forall k | k in s'.buffers && s'.buffers[k].active ensures k in s'.txns && s'.txns[k].buffer {
      assert s.buffers[k].active;
    }
  }

  lemma {:induction false} DroppedKeeps(s: State, b: TxId)
    requires Inv(s) && b in s.buffers && s.buffers[b].allowUserFree
    ensures var s' := Dropped(s, b);
      && Stacks(s') && Errors(s') && Listed(s'.txns, s'.lists) && Buffered(s'.txns, s'.buffers)
      && (forall k :: k in s'.buffers ==> k <= s'.lastId)
      && (b in s.txns ==> s.txns[b].queue.None?)
  {
    var s' := Dropped(s, b);
    DroppedBuffers(s, b);
    DroppedStacks(s, b);
    SameListed(s.txns, s.lists, s'.txns);
  }

  lemma {:induction false} DroppedStacks(s: State, b: TxId)
    requires Stacks(s) && Errors(s) && Buffered(s.txns, s.buffers) && b in s.buffers
    ensures Stacks(Dropped(s, b)) && Errors(Dropped(s, b))
  {
    assert forall u :: u in s.txns && !Sync(s.txns[u]) ==> Carries(s.txns, s.buffers, u);
    SameStacks(s, Dropped(s, b));
    StillWaiting(s, Dropped(s, b));
  }

  /** What is let through when the buffer `b` of a one-way call to `n` goes away. */
  lemma {:induction false} NextInLine(s: State, b: TxId, n: NodeId)
    requires Inv(s) && b in s.buffers && s.buffers[b].allowUserFree && s.buffers[b].async
    requires s.buffers[b].node == Some(n)
    ensures n in s.nodes && s.nodes[n].busy && Released(s, b, n)
    ensures var w := At(s.lists, NodeAsync(n));
      w != [] ==> w[0].Deliver? && Parked(s.txns, w[0].t, n) && w[0].t != b
    ensures forall c: TxId :: c in s.buffers && s.buffers[c].async && s.buffers[c].node == Some(n) ==>
      c == b || Deliver(c) in At(s.lists, NodeAsync(n))
  {
    DroppedKeeps(s, b);
    assert s.buffers[b].async;
    assert NodeOk(s, n);
    var w := At(s.lists, NodeAsync(n));
    assert ListOk(s.txns, NodeAsync(n), w);
    assert Released(s, b, n);
    forall c: TxId | c in s.buffers && s.buffers[c].async && s.buffers[c].node == Some(n)
      ensures c == b || Deliver(c) in w
    {
      if !Released(s, c, n) { assert s.txns[c].queue == Some(NodeAsync(n)); }
    }
  }

  lemma {:induction false} FreeLastKeeps(s: State, b: TxId, n: NodeId, th: Tid)
    requires Inv(s) && b in s.buffers && s.buffers[b].allowUserFree && s.buffers[b].async
    requires s.buffers[b].node == Some(n)
    requires n in s.nodes && At(s.lists, NodeAsync(n)) == []
    ensures s.nodes[n].busy && Inv(ReleaseNext(Dropped(s, b), th, n).0)
  {
    var s1 := Dropped(s, b);
    var s' := ReleaseNext(s1, th, n).0;
    DroppedKeeps(s, b);
    NextInLine(s, b, n);
    SameStacksTrivial(s1, s');
    forall k: NodeId | k in s'.nodes ensures NodeOk(s', k) {
      assert NodeOk(s, k);
      forall c: TxId ensures Released(s', c, k) == (Released(s, c, k) && c != b) {
      }
      if k != n && s.nodes[k].busy {
        var c: TxId :| Released(s, c, k);
        assert Released(s', c, k);
      }
    }
    assert forall t: TxId, k: NodeId :: Parked(s'.txns, t, k) ==> Parked(s.txns, t, k);
  }

  lemma {:induction false} SameStacksTrivial(s: State, s': State)
    requires Stacks(s) && Errors(s) && s'.threads == s.threads && s'.txns == s.txns && s'.lastId == s.lastId
    ensures Stacks(s') && Errors(s')
  {
    StillWaiting(s, s');
  }

  lemma {:induction false} FreeNextReleases(s: State, b: TxId, n: NodeId, th: Tid, k: NodeId, c: TxId)
    requires Inv(s) && b in s.buffers && s.buffers[b].allowUserFree && s.buffers[b].async
    requires s.buffers[b].node == Some(n)
    requires n in s.nodes && s.nodes[n].busy && At(s.lists, NodeAsync(n)) != [] && At(s.lists, NodeAsync(n))[0].Deliver?
    requires Parked(s.txns, At(s.lists, NodeAsync(n))[0].t, n) && At(s.lists, NodeAsync(n))[0].t != b
    ensures Released(ReleaseNext(Dropped(s, b), th, n).0, c, k) ==
            ((Released(s, c, k) && c != b) || (k == n && c == At(s.lists, NodeAsync(n))[0].t))
  {
    var next := At(s.lists, NodeAsync(n))[0].t;
    assert Carries(s.txns, s.buffers, next);
    assert b in s.txns ==> Carries(s.txns, s.buffers, b);
  }

  lemma {:induction false} FreeNextNode(s: State, b: TxId, n: NodeId, th: Tid, k: NodeId)
    requires Inv(s) && b in s.buffers && s.buffers[b].allowUserFree && s.buffers[b].async
    requires s.buffers[b].node == Some(n)
    requires n in s.nodes && k in s.nodes && At(s.lists, NodeAsync(n)) != []
    ensures NodeOk(ReleaseNext(Dropped(s, b), th, n).0, k)
  {
    NextInLine(s, b, n);
    var s' := ReleaseNext(Dropped(s, b), th, n).0;
    var next := At(s.lists, NodeAsync(n))[0].t;
    assert NodeOk(s, k) && NodeOk(s, n);
    assert At(s'.lists, NodeAsync(k)) == if k == n then At(s.lists, NodeAsync(k))[1..] else At(s.lists, NodeAsync(k));
    forall c: TxId ensures Released(s', c, k) == ((Released(s, c, k) && c != b) || (k == n && c == next)) {
      FreeNextReleases(s, b, n, th, k, c);
    }
    PassedOn(s, s', b, n, k, next);
  }

  /** A node whose released call gives way to the first that waits. */
  lemma {:induction false} PassedOn(s: State, s': State, b: TxId, n: NodeId, k: NodeId, next: TxId)
    requires k in s.nodes && k in s'.nodes && NodeOk(s, k) && s'.nodes[k] == s.nodes[k]
    requires Released(s, b, n) && (k == n ==> s.nodes[k].busy)
    requires var w := At(s.lists, NodeAsync(k));
      && At(s'.lists, NodeAsync(k)) == (if k == n then w[if w == [] then 0 else 1..] else w)
      && (k == n ==> w != [] && w[0] == Deliver(next))
    requires forall c: TxId {:trigger Released(s', c, k)} ::
      Released(s', c, k) == ((Released(s, c, k) && c != b) || (k == n && c == next))
    ensures NodeOk(s', k)
  {
    if k == n {
      assert Released(s', next, k);
    } else if s.nodes[k].busy {
      var c: TxId :| Released(s, c, k);
      assert c != b;
      assert Released(s', c, k);
    }
  }

  /** Moving a parked call to a thread's list touches neither stacks nor buffers. */
  lemma {:induction false} MovedKeeps(s: State, s': State, t: TxId, q: Queue)
    requires Stacks(s) && Errors(s) && Buffered(s.txns, s.buffers)
    requires t in s.txns && !Sync(s.txns[t]) && s.txns[t].queue.Some?
    requires s'.txns == s.txns[t := s.txns[t].(queue := Some(q))]
    requires s'.threads == s.threads && s'.buffers == s.buffers && s'.lastId == s.lastId
    ensures Stacks(s') && Errors(s') && Buffered(s'.txns, s'.buffers)
  {
    SameStacks(s, s');
    StillWaiting(s, s');
    MovedCarries(s.txns, s.buffers, t, q);
  }

  lemma {:induction false} MovedCarries(txns: Txns, buffers: map<TxId, Buffer>, t: TxId, q: Queue)
    requires Buffered(txns, buffers) && t in txns && txns[t].queue.Some?
    ensures Buffered(txns[t := txns[t].(queue := Some(q))], buffers)
  {
    var after := txns[t := txns[t].(queue := Some(q))];
    forall u | u in after ensures Carries(after, buffers, u) {
      assert Carries(txns, buffers, u);
    }
  }

  lemma {:induction false} FreeNextKeeps(s: State, b: TxId, n: NodeId, th: Tid)
    requires Inv(s) && b in s.buffers && s.buffers[b].allowUserFree && s.buffers[b].async
    requires s.buffers[b].node == Some(n)
    requires n in s.nodes && At(s.lists, NodeAsync(n)) != []
    ensures s.nodes[n].busy && Inv(ReleaseNext(Dropped(s, b), th, n).0) && !Fatal(ReleaseNext(Dropped(s, b), th, n).1)
  {
    var s1 := Dropped(s, b);
    var s' := ReleaseNext(s1, th, n).0;
    DroppedKeeps(s, b);
    NextInLine(s, b, n);
    var next := At(s.lists, NodeAsync(n))[0].t;
    assert Parked(s.txns, next, n) && s.txns[next].oneWay;
    MoveTxn(s1.txns, s1.lists, NodeAsync(n), ThreadTodo(th));
    MovedKeeps(s1, s', next, ThreadTodo(th));
    FreeNextOneWay(s, b, n, th);
  }

  lemma {:induction false} FreeNextOneWay(s: State, b: TxId, n: NodeId, th: Tid)
    requires Inv(s) && b in s.buffers && s.buffers[b].allowUserFree && s.buffers[b].async
    requires s.buffers[b].node == Some(n)
    requires n in s.nodes && At(s.lists, NodeAsync(n)) != []
    ensures OneWayOk(ReleaseNext(Dropped(s, b), th, n).0)
  {
    var s' := ReleaseNext(Dropped(s, b), th, n).0;
    NextInLine(s, b, n);
    forall k: NodeId | k in s'.nodes ensures NodeOk(s', k) {
      FreeNextNode(s, b, n, th, k);
    }
    forall t: TxId, k: NodeId | Parked(s'.txns, t, k) ensures s'.txns[t].oneWay && s'.txns[t].node == Some(k) {
      assert Parked(s.txns, t, k);
    }
  }

  lemma {:induction false} FreeKeeps(s: State, th: Tid, b: TxId)
    requires Inv(s) && th in s.threads
    ensures Inv(DoFreeBuffer(s, th, b).0) && !Fatal(DoFreeBuffer(s, th, b).1)
  {
    if b in s.buffers && s.buffers[b].proc == s.threads[th].proc && s.buffers[b].allowUserFree {
      if s.buffers[b].async {
        var n := s.buffers[b].node.value;
        NextInLine(s, b, n);
        if At(s.lists, NodeAsync(n)) == [] { FreeLastKeeps(s, b, n, th); } else { FreeNextKeeps(s, b, n, th); }
      } else {
        var s' := Dropped(s, b);
        DroppedKeeps(s, b);
        SameOneWay(s, s');
      }
    }
  }
}
