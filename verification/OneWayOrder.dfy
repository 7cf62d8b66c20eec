// One-way calls: one at a time per node, in the order they were sent.
module OneWayOrder {
  import opened Base
  import opened Transactions
  import opened CallStacks
  import opened TransactionSafety
  import opened TransactionTheorems

  /** `t` is a one-way call to `n` that has not been delivered. */
  ghost predicate Pends(txns: Txns, t: TxId, n: NodeId) {
    t in txns && txns[t].oneWay && txns[t].node == Some(n)
  }

  /** One-way calls to `n`, in the order they were accepted from senders. */
  function SentTo(es: seq<Event>, n: NodeId): seq<TxId> {
    if es == [] then []
    else (if es[0].OneWaySent? && es[0].n == n then [es[0].t] else []) + SentTo(es[1..], n)
  }

  /** One-way calls to `n`, in the order a thread received them. */
  function TakenFrom(es: seq<Event>, n: NodeId): seq<TxId> {
    if es == [] then []
    else (if es[0].OneWayTaken? && es[0].n == n then [es[0].t] else []) + TakenFrom(es[1..], n)
  }

  /** Which one-way calls are pending changes only when one is sent or taken. */
  ghost predicate Accounts(s: State, s': State, e: Event, t: TxId, n: NodeId) {
    Pends(s'.txns, t, n) == ((Pends(s.txns, t, n) && e != OneWayTaken(t, n)) || e == OneWaySent(t, n))
  }

  lemma {:induction false} SendAccounts(s: State, th: Tid, target: Target, oneWay: bool, fault: bool, t: TxId,
                                        n: NodeId)
    requires Inv(s) && th in s.threads
    ensures Accounts(s, DoSend(s, th, target, oneWay, fault).0, DoSend(s, th, target, oneWay, fault).1, t, n)
  {
    assert s.lastId + 1 !in s.txns;
  }

  lemma {:induction false} ReplyAccounts(s: State, th: Tid, fault: bool, t: TxId, n: NodeId)
    requires Inv(s) && th in s.threads && s.threads[th].err == BrOk
    ensures Accounts(s, DoReply(s, th, fault).0, DoReply(s, th, fault).1, t, n)
  {
    var top := s.threads[th].stack;
    if top.Some? {
      assert Latest(s.txns, th, s.lastId + 1, top);
      if s.txns[top.value].toThread == Some(th) {
        ReplyReaches(s, th, fault);
        assert s.lastId + 1 !in s.txns;
      }
    }
  }

  lemma {:induction false} ReadAccounts(s: State, th: Tid, t: TxId, n: NodeId)
    requires Inv(s) && th in s.threads
    ensures Accounts(s, DoRead(s, th).0, DoRead(s, th).1, t, n)
  {
    var q := Source(s, th);
    if q.Some? && At(s.lists, q.value)[0].Deliver? {
      var id := At(s.lists, q.value)[0].t;
      ReadTakes(s, th, q.value, id);
      assert Carries(s.txns, s.buffers, id);
    }
  }

  lemma {:induction false} FreeAccounts(s: State, th: Tid, b: TxId, t: TxId, n: NodeId)
    requires Inv(s) && th in s.threads
    ensures Accounts(s, DoFreeBuffer(s, th, b).0, DoFreeBuffer(s, th, b).1, t, n)
  {
    if b in s.buffers && s.buffers[b].proc == s.threads[th].proc && s.buffers[b].allowUserFree {
      var buf := s.buffers[b];
      if buf.async && buf.node.Some? && buf.node.value in s.nodes {
        ReleaseAccounts(Dropped(s, b), th, buf.node.value, t, n);
      }
    }
  }

  lemma {:induction false} ReleaseAccounts(s: State, th: Tid, m: NodeId, t: TxId, n: NodeId)
    requires m in s.nodes
    ensures Accounts(s, ReleaseNext(s, th, m).0, ReleaseNext(s, th, m).1, t, n)
  {
  }

  lemma {:induction false} StepAccounts(s: State, op: Op, t: TxId, n: NodeId)
    requires Inv(s)
    ensures Accounts(s, Step(s, op).0, Step(s, op).1, t, n)
  {
    match op
    case Send(th, target, oneWay, fault) =>
      if th in s.threads && s.threads[th].err == BrOk { SendAccounts(s, th, target, oneWay, fault, t, n); }
    case Reply(th, fault) =>
      if th in s.threads && s.threads[th].err == BrOk { ReplyAccounts(s, th, fault, t, n); }
    case Read(th) => if th in s.threads { ReadAccounts(s, th, t, n); }
    case FreeBuffer(th, b) => if th in s.threads { FreeAccounts(s, th, b, t, n); }
    case _ =>
  }

  /** The call a thread takes is the oldest one pending at its node. */
  lemma {:induction false} TakenIsOldest(s: State, op: Op, t: TxId, n: NodeId, u: TxId)
    requires Inv(s) && Step(s, op).1 == OneWayTaken(t, n)
    ensures Pends(s.txns, t, n) && (Pends(s.txns, u, n) ==> t <= u)
  {
    var q := Source(s, op.t).value;
    ReadTakes(s, op.t, q, t);
    assert Carries(s.txns, s.buffers, t);
    assert s.buffers[t].async;
    assert NodeOk(s, n) && Released(s, t, n);
    if Pends(s.txns, u, n) {
      assert Carries(s.txns, s.buffers, u);
      if !Released(s, u, n) {
        assert s.txns[u].queue == Some(NodeAsync(n));
        assert Deliver(u) in At(s.lists, NodeAsync(n));
      }
    }
  }

  /** The calls taken so far are the first of those sent, and the rest are pending. */
  ghost predicate Fifo(s: State, n: NodeId, sent: seq<TxId>, taken: seq<TxId>) {
    && taken <= sent
    && (forall i, j :: 0 <= i < j < |sent| ==> sent[i] < sent[j])
    && (forall i :: 0 <= i < |sent| ==> sent[i] <= s.lastId)
    && (forall t: TxId {:trigger Pends(s.txns, t, n)} :: Pends(s.txns, t, n) <==> t in sent[|taken|..])
  }

  lemma {:induction false} EventParts(e: Event, n: NodeId)
    ensures SentTo([e], n) == if e.OneWaySent? && e.n == n then [e.t] else []
    ensures TakenFrom([e], n) == if e.OneWayTaken? && e.n == n then [e.t] else []
  {
    assert [e][1..] == [];
  }

  lemma {:induction false} FifoSame(s: State, s': State, n: NodeId, sent: seq<TxId>, taken: seq<TxId>)
    requires Fifo(s, n, sent, taken) && s.lastId <= s'.lastId
    requires forall u: TxId {:trigger Pends(s'.txns, u, n)} :: Pends(s'.txns, u, n) == Pends(s.txns, u, n)
    ensures Fifo(s', n, sent, taken)
  {
  }

  lemma {:induction false} FifoQueued(s: State, s': State, n: NodeId, sent: seq<TxId>, taken: seq<TxId>, t: TxId)
    requires Fifo(s, n, sent, taken) && t == s.lastId + 1 && t == s'.lastId
    requires forall u: TxId {:trigger Pends(s'.txns, u, n)} :: Pends(s'.txns, u, n) == (Pends(s.txns, u, n) || u == t)
    ensures Fifo(s', n, sent + [t], taken)
  {
    assert (sent + [t])[|taken|..] == sent[|taken|..] + [t];
  }

  lemma {:induction false} FifoTook(s: State, s': State, n: NodeId, sent: seq<TxId>, taken: seq<TxId>, t: TxId)
    requires Fifo(s, n, sent, taken) && s.lastId <= s'.lastId && Pends(s.txns, t, n)
    requires forall u: TxId {:trigger Pends(s.txns, u, n)} :: Pends(s.txns, u, n) ==> t <= u
    requires forall u: TxId {:trigger Pends(s'.txns, u, n)} :: Pends(s'.txns, u, n) == (Pends(s.txns, u, n) && u != t)
    ensures Fifo(s', n, sent, taken + [t])
  {
    var k := |taken|;
    assert t in sent[k..];
    assert sent[k] in sent[k..] && Pends(s.txns, sent[k], n);
    var rest := sent[k + 1..];
    assert sent[k..] == [sent[k]] + rest;
    assert forall u: TxId :: u in rest ==> t < u;
  }

  lemma {:induction false} FifoMoves(s: State, s': State, e: Event, n: NodeId, sent: seq<TxId>, taken: seq<TxId>)
    requires Fifo(s, n, sent, taken) && s.lastId <= s'.lastId
    requires forall t: TxId {:trigger Pends(s'.txns, t, n)} :: Accounts(s, s', e, t, n)
    requires e.OneWaySent? && e.n == n ==> e.t == s.lastId + 1 && e.t == s'.lastId
    requires e.OneWayTaken? && e.n == n ==>
      Pends(s.txns, e.t, n) && forall u: TxId {:trigger Pends(s.txns, u, n)} :: Pends(s.txns, u, n) ==> e.t <= u
    ensures Fifo(s', n, sent + SentTo([e], n), taken + TakenFrom([e], n))
  {
    EventParts(e, n);
    assert taken + [] == taken && sent + [] == sent;
    if e.OneWaySent? && e.n == n {
      FifoQueued(s, s', n, sent, taken, e.t);
    } else if e.OneWayTaken? && e.n == n {
      FifoTook(s, s', n, sent, taken, e.t);
    } else {
      FifoSame(s, s', n, sent, taken);
    }
  }

  lemma {:induction false} FifoStep(s: State, op: Op, n: NodeId, sent: seq<TxId>, taken: seq<TxId>)
    requires Inv(s) && Fifo(s, n, sent, taken)
    ensures Fifo(Step(s, op).0, n, sent + SentTo([Step(s, op).1], n), taken + TakenFrom([Step(s, op).1], n))
  {
    var s', e := Step(s, op).0, Step(s, op).1;
    StepRecord(s, op, 0);
    forall t: TxId ensures Accounts(s, s', e, t, n) {
      StepAccounts(s, op, t, n);
    }
    if e.OneWaySent? {
      FifoSent(s, op, e.n, e.t);
    }
    if e.OneWayTaken? && e.n == n {
      forall u: TxId ensures Pends(s.txns, e.t, n) && (Pends(s.txns, u, n) ==> e.t <= u) {
        TakenIsOldest(s, op, e.t, n, u);
      }
    }
    FifoMoves(s, s', e, n, sent, taken);
  }

  lemma {:induction false} FifoSent(s: State, op: Op, n: NodeId, t: TxId)
    requires Step(s, op).1 == OneWaySent(t, n)
    ensures t == s.lastId + 1 && t == Step(s, op).0.lastId
  {
  }

  lemma {:induction false} FifoRun(s: State, ops: seq<Op>, n: NodeId, sent: seq<TxId>, taken: seq<TxId>)
    requires Inv(s) && Fair(s, ops) && Fifo(s, n, sent, taken)
    ensures taken + TakenFrom(Events(s, ops), n) <= sent + SentTo(Events(s, ops), n)
    decreases |ops|
  {
    if ops == [] {
      assert taken + [] == taken && sent + [] == sent;
    } else {
      var s', e := Step(s, ops[0]).0, Step(s, ops[0]).1;
      StepSafe(s, ops[0]);
      FifoStep(s, ops[0], n, sent, taken);
      FifoRun(s', ops[1..], n, sent + SentTo([e], n), taken + TakenFrom([e], n));
      FifoRest(e, Events(s', ops[1..]), n, sent, taken);
    }
  }

  lemma {:induction false} FifoRest(e: Event, es: seq<Event>, n: NodeId, sent: seq<TxId>, taken: seq<TxId>)
    requires taken + TakenFrom([e], n) + TakenFrom(es, n) <= sent + SentTo([e], n) + SentTo(es, n)
    ensures taken + TakenFrom([e] + es, n) <= sent + SentTo([e] + es, n)
  {
    FifoSplit(e, es, n);
    assert taken + (TakenFrom([e], n) + TakenFrom(es, n)) == taken + TakenFrom([e], n) + TakenFrom(es, n);
    assert sent + (SentTo([e], n) + SentTo(es, n)) == sent + SentTo([e], n) + SentTo(es, n);
  }

  lemma {:induction false} FifoSplit(e: Event, es: seq<Event>, n: NodeId)
    ensures SentTo([e] + es, n) == SentTo([e], n) + SentTo(es, n)
    ensures TakenFrom([e] + es, n) == TakenFrom([e], n) + TakenFrom(es, n)
  {
    assert ([e] + es)[1..] == es;
    assert [e][1..] == [];
  }

  /** Theorem. In every run, the one-way calls a node's process has received are exactly
      the first ones sent to that node, in the order they were sent. */
  lemma {:induction false} OneWayInOrder(ops: seq<Op>, n: NodeId)
    requires Fair(EMPTY, ops)
    ensures TakenFrom(Events(EMPTY, ops), n) <= SentTo(Events(EMPTY, ops), n)
  {
    EmptyInv();
    FifoRun(EMPTY, ops, n, [], []);
    assert [] + TakenFrom(Events(EMPTY, ops), n) == TakenFrom(Events(EMPTY, ops), n);
    assert [] + SentTo(Events(EMPTY, ops), n) == SentTo(Events(EMPTY, ops), n);
  }

  /** Theorem. At any time at most one one-way call to a node has been let through and not
      yet had its buffer freed, and a parked call always has such a call ahead of it. */
  lemma {:induction false} OneAtATime(ops: seq<Op>, n: NodeId, b: TxId, c: TxId)
    requires Fair(EMPTY, ops)
    ensures var s := Run(EMPTY, ops);
      && (Released(s, b, n) && Released(s, c, n) ==> b == c)
      && (Parked(s.txns, b, n) ==> exists d: TxId :: Released(s, d, n) && d < b)
  {
    EmptyInv();
    RunSafe(EMPTY, ops);
    var s := Run(EMPTY, ops);
    if Released(s, b, n) && Released(s, c, n) {
      assert s.buffers[b].async;
      assert NodeOk(s, n);
    }
    if Parked(s.txns, b, n) {
      assert Carries(s.txns, s.buffers, b);
      assert s.buffers[b].async && NodeOk(s, n);
      assert Deliver(b) in At(s.lists, NodeAsync(n));
    }
  }
}
