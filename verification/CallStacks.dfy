// The shape of the call stacks: an invariant over the transaction records and the stack
// tops, and the three steps that change it.
module CallStacks {
  import opened Base
  import opened Transactions

  type Txns = map<TxId, Txn>

  /** `x` is on the stack of thread `th`: as its caller, or as the thread serving it. */
  ghost predicate On(x: Txn, th: Tid) {
    Sync(x) && (x.from == Some(th) || (x.queue.None? && x.toThread == Some(th)))
  }

  /** The call at the start of the chain of callers of `t`. */
  function Root(txns: Txns, t: TxId): TxId
    decreases t
  {
    if t in txns && txns[t].fromParent.Some? && txns[t].fromParent.value < t
    then Root(txns, txns[t].fromParent.value) else t
  }

  /** `p` is a call that has been delivered to the thread `th`, or to none. */
  ghost predicate Serving(txns: Txns, p: TxId, th: Option<Tid>) {
    p in txns && Sync(txns[p]) && txns[p].queue.None? && txns[p].toThread == th
  }

  /** A call made while serving another one points at it, and that one was made earlier
      and delivered to the caller. */
  ghost predicate Nested(txns: Txns) {
    forall t {:trigger txns[t].fromParent} :: t in txns && txns[t].fromParent.Some? ==>
      Sync(txns[t]) && txns[t].fromParent.value < t && Serving(txns, txns[t].fromParent.value, txns[t].from)
  }

  /** No two calls are made on behalf of the same one. */
  ghost predicate Unforked(txns: Txns) {
    forall t, u {:trigger txns[t].fromParent, txns[u].fromParent} ::
      t in txns && u in txns && t != u && txns[t].fromParent.Some? ==> txns[t].fromParent != txns[u].fromParent
  }

  /** Everything on the stack of one thread belongs to one chain. */
  ghost predicate OneChain(txns: Txns) {
    forall th, t, u {:trigger On(txns[t], th), On(txns[u], th)} ::
      t in txns && u in txns && On(txns[t], th) && On(txns[u], th) ==> Root(txns, t) == Root(txns, u)
  }

  /** `top` is the latest transaction of `th` made before `bound`. */
  ghost predicate Latest(txns: Txns, th: Tid, bound: nat, top: Option<TxId>) {
    && (top.Some? ==> top.value < bound && top.value in txns && On(txns[top.value], th))
    && (forall t {:trigger On(txns[t], th)} :: t in txns && t < bound && On(txns[t], th) ==>
        top.Some? && t <= top.value)
  }

  /** The link below a delivered call leads to what was on top when it came in. */
  ghost predicate Below(txns: Txns) {
    forall t {:trigger txns[t].toParent} ::
      t in txns && Sync(txns[t]) && txns[t].queue.None? && txns[t].toThread.Some? ==>
      Latest(txns, txns[t].toThread.value, t, txns[t].toParent)
  }

  ghost predicate HasCaller(txns: Txns, t: TxId, th: Tid) {
    exists c {:trigger Root(txns, c)} ::
      c in txns && Sync(txns[c]) && txns[c].from == Some(th) && Root(txns, c) == Root(txns, t)
  }

  /** A call handed to a thread directly is on that thread's list, and the thread is one
      of the callers up its chain. */
  ghost predicate DirectOk(txns: Txns, t: TxId)
    requires t in txns
  {
    Sync(txns[t]) && txns[t].queue.Some? ==>
      if txns[t].toThread.Some?
      then txns[t].queue == Some(ThreadTodo(txns[t].toThread.value)) && HasCaller(txns, t, txns[t].toThread.value)
      else txns[t].queue.value.ProcTodo?
  }

  ghost predicate Direct(txns: Txns) {
    forall t {:trigger DirectOk(txns, t)} :: t in txns ==> DirectOk(txns, t)
  }

  /** Both ends of a call are threads of the driver, and different ones. */
  ghost predicate EndsOk(threads: map<Tid, Thread>, x: Txn) {
    Sync(x) ==>
      && x.from.Some? && x.from.value in threads && x.from != x.toThread
      && (x.toThread.Some? ==> x.toThread.value in threads)
      && (x.queue.None? ==> x.toThread.Some?)
  }

  ghost predicate Ends(threads: map<Tid, Thread>, txns: Txns) {
    forall t {:trigger EndsOk(threads, txns[t])} :: t in txns ==> EndsOk(threads, txns[t])
  }

  ghost predicate Tops(threads: map<Tid, Thread>, txns: Txns, bound: nat) {
    forall th {:trigger threads[th].stack} :: th in threads ==> Latest(txns, th, bound, threads[th].stack)
  }

  ghost predicate Chains(txns: Txns) {
    Nested(txns) && Unforked(txns) && OneChain(txns) && Below(txns) && Direct(txns)
  }

  ghost predicate Bounded(txns: Txns, bound: nat) {
    forall t :: t in txns ==> t < bound
  }

  ghost predicate Stacks(s: State) {
    Bounded(s.txns, s.lastId + 1) && Chains(s.txns) && Ends(s.threads, s.txns) && Tops(s.threads, s.txns, s.lastId + 1)
  }

  // ---- Chains are linear ------------------------------------------------------------

  lemma RootBelow(txns: Txns, t: TxId)
    ensures Root(txns, t) <= t
    ensures Root(txns, t) == t || (t in txns && txns[t].fromParent.Some? && txns[t].fromParent.value < t)
  {
    if t in txns && txns[t].fromParent.Some? && txns[t].fromParent.value < t {
      RootBelow(txns, txns[t].fromParent.value);
    }
  }

  /** Of two calls of one chain, the earlier has a call made on its behalf that is no
      later than the other. */
  lemma {:induction false} Linear(txns: Txns, t: TxId, u: TxId) returns (c: TxId)
    requires Nested(txns) && Unforked(txns)
    requires t in txns && u in txns && Root(txns, t) == Root(txns, u) && t < u
    ensures c in txns && txns[c].fromParent == Some(t) && c <= u
    decreases u + t
  {
    RootBelow(txns, t);
    RootBelow(txns, u);
    var p := txns[u].fromParent.value;
    if p == t {
      c := u;
    } else if t < p {
      c := Linear(txns, t, p);
    } else {
      var d := Linear(txns, p, t);
    }
  }

  /** A thread serving the call on top of its stack is at the end of its chain. */
  lemma {:induction false} ServedIsLast(txns: Txns, th: Tid, bound: nat, t: TxId, u: TxId)
    requires Nested(txns) && Unforked(txns) && Bounded(txns, bound)
    requires Latest(txns, th, bound, Some(t)) && Serving(txns, t, Some(th))
    requires u in txns && Root(txns, u) == Root(txns, t)
    ensures u <= t
  {
    if t < u {
      var c := Linear(txns, t, u);
      assert On(txns[c], th);
    }
  }

  /** An undelivered call is the last of its chain. */
  lemma {:induction false} UndeliveredIsLast(txns: Txns, t: TxId, u: TxId)
    requires Nested(txns) && Unforked(txns)
    requires t in txns && txns[t].queue.Some?
    requires u in txns && Root(txns, u) == Root(txns, t)
    ensures u <= t
  {
    if t < u {
      var c := Linear(txns, t, u);
    }
  }

  /** So the caller of the call on top has that same call on top. */
  lemma {:induction false} CallerWaits(s: State, th: Tid, t: TxId)
    requires Stacks(s)
    requires th in s.threads && s.threads[th].stack == Some(t) && t in s.txns && s.txns[t].toThread == Some(th)
    ensures Serving(s.txns, t, Some(th))
    ensures s.txns[t].from.Some? && s.txns[t].from.value in s.threads && s.txns[t].from.value != th
    ensures s.threads[s.txns[t].from.value].stack == Some(t)
  {
    assert EndsOk(s.threads, s.txns[t]);
    assert On(s.txns[t], th);
    var f := s.txns[t].from.value;
    assert On(s.txns[t], f);
    var top := s.threads[f].stack;
    assert On(s.txns[top.value], f);
    ServedIsLast(s.txns, th, s.lastId + 1, t, top.value);
  }

  /** Roots depend on the fromParent links only. */
  lemma {:induction false} RootSame(a: Txns, b: Txns, t: TxId)
    requires Nested(b)
    requires forall x :: x in b ==> b[x].fromParent == if x in a then a[x].fromParent else None
    requires t in b
    ensures Root(a, t) == Root(b, t)
  {
    if b[t].fromParent.Some? {
      RootSame(a, b, b[t].fromParent.value);
    }
  }

  // ---- A call -------------------------------------------------------------------------

  lemma {:induction false} OutermostIsCaller(threads: map<Tid, Thread>, txns: Txns, t: TxId, p: Pid) returns (c: TxId)
    requires Nested(txns) && t in txns && Sync(txns[t])
    requires OutermostCaller(threads, txns, t, p).Some?
    ensures c in txns && Sync(txns[c]) && txns[c].from == OutermostCaller(threads, txns, t, p)
    ensures Root(txns, c) == Root(txns, t)
    ensures txns[c].from.value in threads && threads[txns[c].from.value].proc == p
    decreases t
  {
    if txns[t].fromParent.Some? && OutermostCaller(threads, txns, txns[t].fromParent.value, p).Some? {
      c := OutermostIsCaller(threads, txns, txns[t].fromParent.value, p);
    } else {
      c := t;
    }
  }

  /** Nothing of a chain lies between a call and the one it was made on behalf of. */
  lemma {:induction false} ParentBetween(txns: Txns, d: TxId, u: TxId)
    requires Nested(txns) && Unforked(txns) && d in txns && u in txns && d < u && Root(txns, d) == Root(txns, u)
    ensures txns[u].fromParent.Some? && d <= txns[u].fromParent.value < u && txns[u].fromParent.value in txns
    ensures Root(txns, txns[u].fromParent.value) == Root(txns, u)
  {
    RootBelow(txns, d);
    var w := txns[u].fromParent.value;
    if d > w { var c := Linear(txns, w, d); }
  }

  /** If nobody up the chain of callers of `u` is a thread of `p`, no earlier call of the
      chain was made by one. */
  lemma {:induction false} NoneAbove(threads: map<Tid, Thread>, txns: Txns, u: TxId, p: Pid, d: TxId)
    requires Nested(txns) && Unforked(txns) && u in txns && OutermostCaller(threads, txns, u, p).None?
    requires d in txns && d <= u && Root(txns, d) == Root(txns, u)
    ensures !CalledFrom(threads, txns, d, p)
    decreases u
  {
    if d < u {
      ParentBetween(txns, d, u);
      NoneAbove(threads, txns, txns[u].fromParent.value, p, d);
    }
  }

  /** Call `d` was made by a thread of process `p`. */
  ghost predicate CalledFrom(threads: map<Tid, Thread>, txns: Txns, d: TxId, p: Pid)
    requires d in txns
  {
    txns[d].from.Some? && txns[d].from.value in threads && threads[txns[d].from.value].proc == p
  }

  /** The thread found made the first call of the chain that was made by a thread of `p`; if
      none is found there is no such call up to this one. */
  lemma {:induction false} OutermostIsFirst(threads: map<Tid, Thread>, txns: Txns, t: TxId, p: Pid)
    requires Nested(txns) && Unforked(txns) && t in txns
    ensures var found := OutermostCaller(threads, txns, t, p);
      if found.None?
      then forall d :: d in txns && d <= t && Root(txns, d) == Root(txns, t) ==> !CalledFrom(threads, txns, d, p)
      else exists c :: c in txns && c <= t && Root(txns, c) == Root(txns, t) && txns[c].from == found
             && CalledFrom(threads, txns, c, p)
             && forall d :: d in txns && d < c && Root(txns, d) == Root(txns, t) ==> !CalledFrom(threads, txns, d, p)
    decreases t
  {
    var found := OutermostCaller(threads, txns, t, p);
    var up := txns[t].fromParent;
    if found.None? {
      forall d | d in txns && d <= t && Root(txns, d) == Root(txns, t) ensures !CalledFrom(threads, txns, d, p) {
        NoneAbove(threads, txns, t, p, d);
      }
    } else if up.Some? && OutermostCaller(threads, txns, up.value, p).Some? {
      OutermostIsFirst(threads, txns, up.value, p);
    } else {
      FirstHere(threads, txns, t, p);
    }
  }

  lemma {:induction false} FirstHere(threads: map<Tid, Thread>, txns: Txns, t: TxId, p: Pid)
    requires Nested(txns) && Unforked(txns) && t in txns && CalledFrom(threads, txns, t, p)
    requires txns[t].fromParent.Some? ==> OutermostCaller(threads, txns, txns[t].fromParent.value, p).None?
    ensures forall d :: d in txns && d < t && Root(txns, d) == Root(txns, t) ==> !CalledFrom(threads, txns, d, p)
  {
    forall d | d in txns && d < t && Root(txns, d) == Root(txns, t) ensures !CalledFrom(threads, txns, d, p) {
      ParentBetween(txns, d, t);
      NoneAbove(threads, txns, txns[t].fromParent.value, p, d);
    }
  }

  /** `x` is a call that `th`, with `top` on its stack, may make. */
  ghost predicate NewCall(txns: Txns, th: Tid, top: Option<TxId>, bound: nat, x: Txn) {
    && Latest(txns, th, bound, top)
    && (top.Some? ==> Serving(txns, top.value, Some(th)))
    && Sync(x) && x.from == Some(th) && x.fromParent == top && x.queue.Some?
    && x.toThread != Some(th)
  }

  lemma {:induction false} CallNests(txns: Txns, th: Tid, top: Option<TxId>, id: TxId, x: Txn)
    requires Nested(txns) && Unforked(txns) && Bounded(txns, id) && NewCall(txns, th, top, id, x)
    ensures Nested(txns[id := x]) && Unforked(txns[id := x])
  {
    forall u | u in txns && top.Some? && txns[u].fromParent == top ensures false {
      assert On(txns[u], th);
    }
    var after := txns[id := x];
    forall t | t in after && after[t].fromParent.Some?
      ensures Sync(after[t]) && after[t].fromParent.value < t
      ensures Serving(after, after[t].fromParent.value, after[t].from)
    {
      assert t != id ==> after[t] == txns[t] && Serving(txns, txns[t].fromParent.value, txns[t].from);
    }
  }

  lemma {:induction false} CallRoots(txns: Txns, th: Tid, top: Option<TxId>, id: TxId, x: Txn)
    requires Nested(txns) && Unforked(txns) && Bounded(txns, id) && NewCall(txns, th, top, id, x)
    ensures forall t :: t in txns ==> Root(txns[id := x], t) == Root(txns, t)
    ensures Root(txns[id := x], id) == if top.Some? then Root(txns, top.value) else id
  {
    var after := txns[id := x];
    forall t | t in txns ensures Root(after, t) == Root(txns, t) {
      RootSame(after, txns, t);
    }
  }

  lemma {:induction false} CallOneChain(txns: Txns, th: Tid, top: Option<TxId>, id: TxId, x: Txn)
    requires Nested(txns) && Unforked(txns) && OneChain(txns) && Bounded(txns, id) && NewCall(txns, th, top, id, x)
    ensures OneChain(txns[id := x])
  {
    var after := txns[id := x];
    CallRoots(txns, th, top, id, x);
    forall k, t, u | t in after && u in after && On(after[t], k) && On(after[u], k)
      ensures Root(after, t) == Root(after, u)
    {
      if t == id && u != id { assert On(txns[u], th); assert On(txns[top.value], th); }
      if u == id && t != id { assert On(txns[t], th); assert On(txns[top.value], th); }
    }
  }

  /** `x` goes to the thread of a caller up the chain of `top`, or to a process. */
  ghost predicate Addressed(txns: Txns, top: Option<TxId>, x: Txn) {
    x.queue.Some? &&
    if x.toThread.Some?
    then x.queue == Some(ThreadTodo(x.toThread.value)) && top.Some? && HasCaller(txns, top.value, x.toThread.value)
    else x.queue.value.ProcTodo?
  }

  lemma {:induction false} CallDirect(txns: Txns, th: Tid, top: Option<TxId>, id: TxId, x: Txn)
    requires Nested(txns) && Unforked(txns) && Direct(txns) && Bounded(txns, id)
    requires NewCall(txns, th, top, id, x) && Addressed(txns, top, x)
    ensures Direct(txns[id := x])
  {
    var after := txns[id := x];
    CallRoots(txns, th, top, id, x);
    forall t | t in after ensures DirectOk(after, t) {
      if t != id { assert DirectOk(txns, t); }
      var key := if t == id && top.Some? then top.value else t;
      if Sync(after[t]) && after[t].queue.Some? && after[t].toThread.Some? {
        CallerStays(txns, after, key, after[t].toThread.value);
      }
    }
  }

  lemma {:induction false} CallChains(txns: Txns, th: Tid, top: Option<TxId>, id: TxId, x: Txn)
    requires Chains(txns) && Bounded(txns, id) && NewCall(txns, th, top, id, x) && Addressed(txns, top, x)
    ensures Chains(txns[id := x])
  {
    var after := txns[id := x];
    CallNests(txns, th, top, id, x);
    CallOneChain(txns, th, top, id, x);
    CallDirect(txns, th, top, id, x);
    forall t | t in after && Sync(after[t]) && after[t].queue.None? && after[t].toThread.Some?
      ensures Latest(after, after[t].toThread.value, t, after[t].toParent)
    {
      assert Latest(txns, txns[t].toThread.value, t, txns[t].toParent);
    }
  }

  lemma {:induction false} CallerStays(a: Txns, b: Txns, t: TxId, th: Tid)
    requires HasCaller(a, t, th)
    requires t in a && forall c :: c in a ==> c in b && Root(b, c) == Root(a, c) && a[c] == b[c]
    ensures HasCaller(b, t, th)
  {
    var c :| c in a && Sync(a[c]) && a[c].from == Some(th) && Root(a, c) == Root(a, t);
    assert Root(b, c) == Root(b, t);
  }

  // ---- Delivery of a call -------------------------------------------------------------

  function Delivered(x: Txn, th: Tid, top: Option<TxId>): Txn {
    x.(toParent := top, toThread := Some(th), queue := None)
  }

  /** `th`, with `top` on its stack, may take the call `t`: it is idle, or it is one of
      the callers up the chain of `t`. */
  ghost predicate MayTake(txns: Txns, th: Tid, top: Option<TxId>, bound: nat, t: TxId) {
    && t in txns && Sync(txns[t]) && txns[t].queue.Some? && txns[t].from != Some(th)
    && Latest(txns, th, bound, top)
    && (top.None? || HasCaller(txns, t, th))
  }

  lemma {:induction false} TakeJoins(txns: Txns, th: Tid, top: Option<TxId>, bound: nat, t: TxId, u: TxId)
    requires Nested(txns) && Unforked(txns) && OneChain(txns) && Bounded(txns, bound)
    requires MayTake(txns, th, top, bound, t)
    requires u in txns && On(txns[u], th)
    ensures Root(txns, u) == Root(txns, t) && u < t
  {
    var c :| c in txns && Sync(txns[c]) && txns[c].from == Some(th) && Root(txns, c) == Root(txns, t);
    assert On(txns[c], th);
    UndeliveredIsLast(txns, t, u);
  }

  lemma {:induction false} TakeNests(txns: Txns, th: Tid, top: Option<TxId>, t: TxId)
    requires Nested(txns) && Unforked(txns) && t in txns && Sync(txns[t]) && txns[t].queue.Some?
    ensures Nested(txns[t := Delivered(txns[t], th, top)]) && Unforked(txns[t := Delivered(txns[t], th, top)])
  {
    var after := txns[t := Delivered(txns[t], th, top)];
    forall u | u in after && after[u].fromParent.Some?
      ensures Sync(after[u]) && after[u].fromParent.value < u
      ensures Serving(after, after[u].fromParent.value, after[u].from)
    {
      assert txns[u].fromParent == after[u].fromParent;
      assert Serving(txns, txns[u].fromParent.value, txns[u].from);
    }
  }

  lemma {:induction false} TakeRoots(txns: Txns, th: Tid, top: Option<TxId>, t: TxId)
    requires Nested(txns) && Unforked(txns) && t in txns && Sync(txns[t]) && txns[t].queue.Some?
    ensures forall u :: u in txns ==> Root(txns[t := Delivered(txns[t], th, top)], u) == Root(txns, u)
  {
    var after := txns[t := Delivered(txns[t], th, top)];
    forall u | u in txns ensures Root(after, u) == Root(txns, u) {
      RootSame(after, txns, u);
    }
  }

  lemma {:induction false} TakeOneChain(txns: Txns, th: Tid, top: Option<TxId>, bound: nat, t: TxId)
    requires Nested(txns) && Unforked(txns) && OneChain(txns) && Bounded(txns, bound)
    requires MayTake(txns, th, top, bound, t)
    ensures OneChain(txns[t := Delivered(txns[t], th, top)])
  {
    var after := txns[t := Delivered(txns[t], th, top)];
    TakeRoots(txns, th, top, t);
    forall k, u, v | u in after && v in after && On(after[u], k) && On(after[v], k)
      ensures Root(after, u) == Root(after, v)
    {
      if u == t && k == th && v != t { assert On(txns[v], th); TakeJoins(txns, th, top, bound, t, v); }
      else if v == t && k == th && u != t { assert On(txns[u], th); TakeJoins(txns, th, top, bound, t, u); }
      else { assert u == v || (On(txns[u], k) && On(txns[v], k)); }
    }
  }

  lemma {:induction false} TakeDirect(txns: Txns, th: Tid, top: Option<TxId>, t: TxId)
    requires Nested(txns) && Unforked(txns) && Direct(txns)
    requires t in txns && Sync(txns[t]) && txns[t].queue.Some?
    ensures Direct(txns[t := Delivered(txns[t], th, top)])
  {
    var after := txns[t := Delivered(txns[t], th, top)];
    TakeRoots(txns, th, top, t);
    forall u | u in after ensures DirectOk(after, u) {
      assert DirectOk(txns, u);
      if u != t && Sync(txns[u]) && txns[u].queue.Some? && txns[u].toThread.Some? {
        var c :| c in txns && Sync(txns[c]) && txns[c].from == txns[u].toThread && Root(txns, c) == Root(txns, u);
        assert Root(after, c) == Root(after, u) && after[c].from == txns[c].from;
      }
    }
  }

  lemma {:induction false} TakeChains(txns: Txns, th: Tid, top: Option<TxId>, bound: nat, t: TxId)
    requires Chains(txns) && Bounded(txns, bound) && MayTake(txns, th, top, bound, t)
    ensures Chains(txns[t := Delivered(txns[t], th, top)])
  {
    TakeNests(txns, th, top, t);
    TakeOneChain(txns, th, top, bound, t);
    TakeDirect(txns, th, top, t);
    TakeBelow(txns, th, top, bound, t);
  }

  lemma {:induction false} TakeBelow(txns: Txns, th: Tid, top: Option<TxId>, bound: nat, t: TxId)
    requires Chains(txns) && Bounded(txns, bound) && MayTake(txns, th, top, bound, t)
    ensures Below(txns[t := Delivered(txns[t], th, top)])
  {
    var after := txns[t := Delivered(txns[t], th, top)];
    forall u | u in after && Sync(after[u]) && after[u].queue.None? && after[u].toThread.Some?
      ensures Latest(after, after[u].toThread.value, u, after[u].toParent)
    {
      var k := after[u].toThread.value;
      if u == t {
        if top.Some? { assert On(txns[top.value], th); TakeJoins(txns, th, top, bound, t, top.value); }
      } else {
        assert Latest(txns, k, u, txns[u].toParent);
        if k == th { assert On(txns[u], th); TakeJoins(txns, th, top, bound, t, u); }
      }
      forall v | v in after && v < u && On(after[v], k)
        ensures after[u].toParent.Some? && v <= after[u].toParent.value
      {
        assert v != t ==> On(txns[v], k);
        assert v == t ==> k != th && On(txns[v], k);
      }
    }
  }

  lemma {:induction false} TakeTops(txns: Txns, th: Tid, top: Option<TxId>, bound: nat, t: TxId, k: Tid,
                                    ktop: Option<TxId>)
    requires Chains(txns) && Bounded(txns, bound) && MayTake(txns, th, top, bound, t)
    requires Latest(txns, k, bound, ktop)
    ensures Latest(txns[t := Delivered(txns[t], th, top)], k, bound, if k == th then Some(t) else ktop)
  {
    var after := txns[t := Delivered(txns[t], th, top)];
    forall v | v in after && On(after[v], k) ensures if k == th then v <= t else ktop.Some? && v <= ktop.value {
      if v != t || k != th { assert On(txns[v], k); }
      if k == th && v != t { TakeJoins(txns, th, top, bound, t, v); }
    }
  }

  // ---- A reply, or a failure reported instead of one ------------------------------------

  /** `t` is on top of the stacks of both its ends. */
  ghost predicate MayReturn(txns: Txns, t: TxId, from: Tid, to: Tid, bound: nat) {
    && Serving(txns, t, Some(to)) && txns[t].from == Some(from) && from != to
    && Latest(txns, to, bound, Some(t)) && Latest(txns, from, bound, Some(t))
  }

  lemma {:induction false} ReturnNests(txns: Txns, t: TxId, from: Tid, to: Tid, bound: nat)
    requires Nested(txns) && Unforked(txns) && Bounded(txns, bound) && MayReturn(txns, t, from, to, bound)
    ensures Nested(txns - {t}) && Unforked(txns - {t})
    ensures forall u :: u in txns && u != t ==> Root(txns - {t}, u) == Root(txns, u)
  {
    var after := txns - {t};
    forall u | u in txns && txns[u].fromParent == Some(t) ensures false {
      ServedIsLast(txns, to, bound, t, u);
    }
    forall u | u in after && after[u].fromParent.Some?
      ensures Sync(after[u]) && after[u].fromParent.value < u
      ensures Serving(after, after[u].fromParent.value, after[u].from)
    {
      assert txns[u].fromParent == after[u].fromParent;
      assert Serving(txns, txns[u].fromParent.value, txns[u].from);
    }
    forall u | u in after ensures Root(after, u) == Root(txns, u) {
      RootSame(txns, after, u);
    }
  }

  lemma {:induction false} ReturnDirect(txns: Txns, t: TxId, from: Tid, to: Tid, bound: nat, u: TxId)
    requires Chains(txns) && Bounded(txns, bound) && MayReturn(txns, t, from, to, bound) && u in txns && u != t
    requires forall v :: v in txns && v != t ==> Root(txns - {t}, v) == Root(txns, v)
    ensures DirectOk(txns - {t}, u)
  {
    var after := txns - {t};
    assert DirectOk(txns, u);
    if Sync(txns[u]) && txns[u].queue.Some? && txns[u].toThread.Some? {
      var c :| c in txns && Sync(txns[c]) && txns[c].from == txns[u].toThread && Root(txns, c) == Root(txns, u);
      if c == t { ServedIsLast(txns, to, bound, t, u); UndeliveredIsLast(txns, u, t); }
      assert Root(after, c) == Root(after, u);
    }
  }

  lemma {:induction false} ReturnChains(txns: Txns, t: TxId, from: Tid, to: Tid, bound: nat)
    requires Chains(txns) && Bounded(txns, bound) && MayReturn(txns, t, from, to, bound)
    ensures Chains(txns - {t})
  {
    var after := txns - {t};
    ReturnNests(txns, t, from, to, bound);
    forall k, u, v | u in after && v in after && On(after[u], k) && On(after[v], k)
      ensures Root(after, u) == Root(after, v)
    {
      assert On(txns[u], k) && On(txns[v], k);
    }
    forall u | u in after ensures DirectOk(after, u) {
      ReturnDirect(txns, t, from, to, bound, u);
    }
    forall u | u in after && Sync(after[u]) && after[u].queue.None? && after[u].toThread.Some?
      ensures Latest(after, after[u].toThread.value, u, after[u].toParent)
    {
      var k := after[u].toThread.value;
      assert Latest(txns, k, u, txns[u].toParent);
      assert On(txns[u], k);
      if txns[u].toParent == Some(t) { ServedIsLast(txns, to, bound, t, u); }
      forall v | v in after && v < u && On(after[v], k)
        ensures after[u].toParent.Some? && v <= after[u].toParent.value
      {
        assert On(txns[v], k);
      }
    }
  }

  /** What lies below a call on the stack of its caller is exactly the call it was made for. */
  lemma {:induction false} ReturnTops(txns: Txns, t: TxId, from: Tid, to: Tid, bound: nat, k: Tid, ktop: Option<TxId>)
    requires Chains(txns) && Bounded(txns, bound) && MayReturn(txns, t, from, to, bound)
    requires Latest(txns, k, bound, ktop)
    ensures Latest(txns - {t}, k, bound,
                   if k == from then txns[t].fromParent else if k == to then txns[t].toParent else ktop)
  {
    var after := txns - {t};
    assert On(txns[t], from) && On(txns[t], to);
    if k == from {
      if txns[t].fromParent.Some? { assert On(txns[txns[t].fromParent.value], from); }
      forall v | v in after && On(after[v], k) ensures txns[t].fromParent.Some? && v <= txns[t].fromParent.value {
        assert On(txns[v], k);
        RootBelow(txns, v);
        RootBelow(txns, t);
        if txns[t].fromParent.Some? && txns[t].fromParent.value < v {
          var c := Linear(txns, txns[t].fromParent.value, v);
        }
      }
    } else if k == to {
      assert Latest(txns, to, t, txns[t].toParent);
      forall v | v in after && On(after[v], k) ensures txns[t].toParent.Some? && v <= txns[t].toParent.value {
        assert On(txns[v], k);
      }
    } else {
      forall v | v in after && On(after[v], k) ensures ktop.Some? && v <= ktop.value {
        assert On(txns[v], k);
      }
    }
  }

  // ---- Everything else -------------------------------------------------------------------

  /** `a` and `b` hold the same two-way calls, up to the buffer pointer. */
  ghost predicate SameCalls(a: Txns, b: Txns) {
    && (forall t :: t in a && Sync(a[t]) ==> t in b && b[t].(buffer := a[t].buffer) == a[t])
    && (forall t :: t in b && Sync(b[t]) ==> t in a && Sync(a[t]))
    && (forall t :: t in b && !Sync(b[t]) ==> b[t].fromParent.None?)
  }

  lemma {:induction false} SameNests(a: Txns, b: Txns)
    requires Nested(a) && Unforked(a) && SameCalls(a, b)
    ensures Nested(b) && Unforked(b)
    ensures forall t :: t in b && Sync(b[t]) ==> Root(b, t) == Root(a, t)
  {
    forall t | t in b && b[t].fromParent.Some?
      ensures Sync(b[t]) && b[t].fromParent.value < t && Serving(b, b[t].fromParent.value, b[t].from)
    {
      assert a[t].fromParent == b[t].fromParent;
      assert Serving(a, a[t].fromParent.value, a[t].from);
    }
    forall t, u | t in b && u in b && t != u && b[t].fromParent.Some? ensures b[t].fromParent != b[u].fromParent {
      assert a[t].fromParent == b[t].fromParent;
      if b[u].fromParent.Some? { assert a[u].fromParent == b[u].fromParent; }
    }
    forall t | t in b && Sync(b[t]) ensures Root(b, t) == Root(a, t) {
      RootSync(a, b, t);
    }
  }

  lemma {:induction false} RootSync(a: Txns, b: Txns, t: TxId)
    requires Nested(b) && SameCalls(a, b) && t in b && Sync(b[t])
    ensures Root(b, t) == Root(a, t)
  {
    if b[t].fromParent.Some? {
      assert Serving(b, b[t].fromParent.value, b[t].from);
      RootSync(a, b, b[t].fromParent.value);
    }
  }

  lemma {:induction false} SameChains(a: Txns, b: Txns)
    requires Chains(a) && SameCalls(a, b)
    ensures Chains(b)
  {
    SameNests(a, b);
    forall k, u, v | u in b && v in b && On(b[u], k) && On(b[v], k) ensures Root(b, u) == Root(b, v) {
      assert On(a[u], k) && On(a[v], k);
    }
    forall u | u in b ensures DirectOk(b, u) {
      if Sync(b[u]) {
        assert DirectOk(a, u);
        if b[u].queue.Some? && b[u].toThread.Some? {
          var c :| c in a && Sync(a[c]) && a[c].from == a[u].toThread && Root(a, c) == Root(a, u);
          assert Root(b, c) == Root(b, u);
        }
      }
    }
    forall u | u in b && Sync(b[u]) && b[u].queue.None? && b[u].toThread.Some?
      ensures Latest(b, b[u].toThread.value, u, b[u].toParent)
    {
      assert Latest(a, a[u].toThread.value, u, a[u].toParent);
      SameLatest(a, b, b[u].toThread.value, u, b[u].toParent);
    }
  }

  lemma {:induction false} SameLatest(a: Txns, b: Txns, th: Tid, bound: nat, top: Option<TxId>)
    requires SameCalls(a, b) && Latest(a, th, bound, top)
    ensures Latest(b, th, bound, top)
  {
    forall t | t in b && t < bound && On(b[t], th) ensures top.Some? && t <= top.value {
      assert On(a[t], th);
    }
  }

  lemma {:induction false} MoreLatest(txns: Txns, th: Tid, bound: nat, more: nat, top: Option<TxId>)
    requires Latest(txns, th, bound, top) && Bounded(txns, bound) && bound <= more
    ensures Latest(txns, th, more, top)
  {
  }

  /** A step that moves no stack and no call keeps the stacks in order. */
  lemma {:induction false} SameStacks(s: State, s': State)
    requires Stacks(s) && SameCalls(s.txns, s'.txns) && s.lastId <= s'.lastId && Bounded(s'.txns, s'.lastId + 1)
    requires forall th :: th in s.threads ==> th in s'.threads && s'.threads[th].stack == s.threads[th].stack
    requires forall th :: th in s'.threads && th !in s.threads ==> s'.threads[th].stack.None?
    ensures Stacks(s')
  {
    SameChains(s.txns, s'.txns);
    forall t | t in s'.txns ensures EndsOk(s'.threads, s'.txns[t]) {
      if Sync(s'.txns[t]) { assert EndsOk(s.threads, s.txns[t]); }
    }
    forall th | th in s'.threads ensures Latest(s'.txns, th, s'.lastId + 1, s'.threads[th].stack) {
      if th in s.threads {
        assert Latest(s.txns, th, s.lastId + 1, s.threads[th].stack);
        MoreLatest(s.txns, th, s.lastId + 1, s'.lastId + 1, s.threads[th].stack);
        SameLatest(s.txns, s'.txns, th, s'.lastId + 1, s.threads[th].stack);
      } else {
        forall t | t in s'.txns ensures !On(s'.txns[t], th) {
          if Sync(s'.txns[t]) { assert EndsOk(s.threads, s.txns[t]); }
        }
      }
    }
  }
}
