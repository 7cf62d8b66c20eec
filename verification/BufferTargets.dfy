// Transactions and reference counts together. A buffer made for a call points at the node it
// is aimed at; sending takes a strong count on that node and freeing the buffer gives it
// back, and in between binder_thread_read and BC_FREE_BUFFER follow the pointer.
module BufferTargets {
  import opened Base
  import T = Transactions
  import R = NodeRefs
  import P = NodeRefProofs

  datatype Joint = Joint(tx: T.State, rc: R.Sys)

  const EMPTY := Joint(T.EMPTY, R.EMPTY)

  /** A counting operation, or one on threads, transactions and buffers. */
  datatype Op = Count(c: R.Op) | Move(m: T.Op)

  /** Some buffer is aimed at the node. */
  ghost predicate Aimed(tx: T.State, n: T.NodeId) {
    exists b :: b in tx.buffers && tx.buffers[b].node == Some(n)
  }

  /** Nodes are made by counting operations, the count for a buffer's target is taken and
      given back by the operations on buffers, and a process dies only without buffers. */
  ghost predicate Enabled(j: Joint, op: Op) {
    match op
    case Count(c) =>
      && (c.Hold? || c.Drop? ==> !c.h.Target?)
      && (c.OwnerDies? ==> !Aimed(j.tx, c.n))
    case Move(m) => !m.AddNode?
  }

  /** A handle leads to a node only while the node is there and has an owner. */
  function Resolved(rc: R.Sys, m: T.Op): T.Op {
    if m.Send? && m.target.ToNode? && (m.target.n !in rc.nodes || rc.nodes[m.target.n].owner.None?)
    then m.(target := T.NoContextManager) else m
  }

  /** The target node the operation follows a pointer to, if any. */
  function Followed(tx: T.State, m: T.Op): Option<T.NodeId> {
    match m
    case Read(t) =>
      if t !in tx.threads || T.Source(tx, t).None? then None
      else
        var w := T.At(tx.lists, T.Source(tx, t).value)[0];
        if w.Deliver? && w.t in tx.buffers then tx.buffers[w.t].node else None
    case FreeBuffer(t, b) => if b in tx.buffers then tx.buffers[b].node else None
    case Send(_, target, _, _) => if target.ToNode? then Some(target.n) else None
    case _ => None
  }

  function Counts(rc: R.Sys, tx: T.State, tx': T.State, m: T.Op, e: T.Event): (R.Sys, R.Event) {
    if m.Send? && m.target.ToNode? && (e.Called? || e.OneWaySent?)
    then R.Step(rc, R.Hold(R.Target(tx'.lastId), m.target.n, true))
    else if m.FreeBuffer? && m.b in tx.buffers && m.b !in tx'.buffers && tx.buffers[m.b].node.Some?
    then R.Step(rc, R.Drop(R.Target(m.b)))
    else (rc, R.Quiet)
  }

  /** One step, and whether every node it follows a pointer to is there. */
  ghost function Step(j: Joint, op: Op): (Joint, bool) {
    if !Enabled(j, op) then (j, true) else
    match op
    case Count(c) =>
      var (rc, e) := R.Step(j.rc, c);
      var made := (c.NewNode? || c.SetContextManager?) && rc.lastId != j.rc.lastId;
      (Joint(if made then T.Step(j.tx, T.AddNode(rc.lastId, c.p)).0 else j.tx, rc), e != R.UseAfterFree)
    case Move(m) =>
      var m := Resolved(j.rc, m);
      var (tx, e) := T.Step(j.tx, m);
      var (rc, f) := Counts(j.rc, j.tx, tx, m, e);
      var n := Followed(j.tx, m);
      (Joint(tx, rc), f != R.UseAfterFree && (n.Some? ==> n.value in j.rc.nodes))
  }

  ghost function Run(j: Joint, ops: seq<Op>): Joint
    decreases |ops|
  {
    if ops == [] then j else Run(Step(j, ops[0]).0, ops[1..])
  }

  /** Whether every step of the run was safe. */
  ghost predicate Safe(j: Joint, ops: seq<Op>)
    decreases |ops|
  {
    ops == [] || (Step(j, ops[0]).1 && Safe(Step(j, ops[0]).0, ops[1..]))
  }

  // ---- The invariant ---------------------------------------------------------------------

  /** Every buffer aimed at a node has its claim on it, and there are no other such claims. */
  ghost predicate Paired(buffers: map<T.TxId, T.Buffer>, holders: P.Holders) {
    && (forall b {:trigger buffers[b].node} :: b in buffers && buffers[b].node.Some? ==>
          R.Target(b) in holders && holders[R.Target(b)] == R.Claim(buffers[b].node.value, true))
    && (forall b {:trigger R.Target(b) in holders} :: R.Target(b) in holders ==>
          b in buffers && buffers[b].node.Some?)
  }

  ghost predicate Inv(j: Joint) {
    P.Inv(j.rc) && Paired(j.tx.buffers, j.rc.holders) && forall b :: b in j.tx.buffers ==> b <= j.tx.lastId
  }

  /** What a step does to buffers: it makes at most one, aimed where the call is, and frees
      at most the one named. */
  lemma {:induction false} BuffersStep(tx: T.State, m: T.Op)
    requires forall b :: b in tx.buffers ==> b <= tx.lastId
    ensures var (tx', e) := T.Step(tx, m);
      var sent := m.Send? && m.target.ToNode? && (e.Called? || e.OneWaySent?);
      && (forall b :: b in tx'.buffers ==> b <= tx'.lastId)
      && (forall b :: b in tx.buffers && b in tx'.buffers ==> tx'.buffers[b].node == tx.buffers[b].node)
      && (forall b :: b in tx.buffers && b !in tx'.buffers ==> m.FreeBuffer? && b == m.b)
      && (forall b :: b in tx'.buffers && b !in tx.buffers ==>
            b == tx'.lastId == tx.lastId + 1 && tx'.buffers[b].node == if sent then Some(m.target.n) else None)
      && (sent ==> tx'.lastId == tx.lastId + 1 && tx'.lastId in tx'.buffers)
  {
    match m
    case Send(t, target, oneWay, fault) => SendBuffers(tx, t, target, oneWay, fault);
    case Reply(t, fault) => ReplyBuffers(tx, t, fault);
    case Read(t) => ReadBuffers(tx, t);
    case FreeBuffer(t, b) => FreeBuffers(tx, t, b);
    case _ =>
  }

  /** `tx'` has the buffers of `tx`, aimed as before, and possibly the next one. */
  ghost predicate Grown(tx: T.State, tx': T.State, made: bool, node: Option<T.NodeId>) {
    && tx.lastId <= tx'.lastId
    && (forall b :: b in tx.buffers ==> b in tx'.buffers && tx'.buffers[b].node == tx.buffers[b].node)
    && (forall b :: b in tx'.buffers && b !in tx.buffers ==>
          made && b == tx'.lastId == tx.lastId + 1 && tx'.buffers[b].node == node)
    && (made ==> tx'.lastId == tx.lastId + 1 && tx'.lastId in tx'.buffers)
  }

  lemma {:induction false} SendBuffers(tx: T.State, t: T.Tid, target: T.Target, oneWay: bool, fault: bool)
    requires forall b :: b in tx.buffers ==> b <= tx.lastId
    ensures var (tx', e) := T.Step(tx, T.Send(t, target, oneWay, fault));
      var sent := target.ToNode? && (e.Called? || e.OneWaySent?);
      Grown(tx, tx', sent, if target.ToNode? then Some(target.n) else None)
  {
  }

  lemma {:induction false} ReplyBuffers(tx: T.State, t: T.Tid, fault: bool)
    requires forall b :: b in tx.buffers ==> b <= tx.lastId
    ensures var (tx', e) := T.Step(tx, T.Reply(t, fault));
      Grown(tx, tx', e.Answered?, None)
  {
  }

  lemma {:induction false} ReadBuffers(tx: T.State, t: T.Tid)
    ensures Grown(tx, T.Step(tx, T.Read(t)).0, false, None)
  {
  }

  lemma {:induction false} FreeBuffers(tx: T.State, t: T.Tid, b: T.TxId)
    ensures var tx' := T.Step(tx, T.FreeBuffer(t, b)).0;
      (tx'.buffers == tx.buffers || tx'.buffers == tx.buffers - {b}) && tx'.lastId == tx.lastId
  {
  }

  /** A step of the counts that is not about targets leaves the pairing alone. */
  lemma {:induction false} CountPairs(j: Joint, c: R.Op)
    requires Inv(j) && Enabled(j, Count(c))
    ensures Paired(j.tx.buffers, R.Step(j.rc, c).0.holders)
  {
    var after := R.Step(j.rc, c).0.holders;
    HoldersOfCount(j.rc, c);
    forall b | b in j.tx.buffers && j.tx.buffers[b].node.Some?
      ensures R.Target(b) in after && after[R.Target(b)] == R.Claim(j.tx.buffers[b].node.value, true)
    {
      assert R.Target(b) in j.rc.holders;
    }
    forall b | R.Target(b) in after ensures b in j.tx.buffers && j.tx.buffers[b].node.Some? {
      assert R.Target(b) in j.rc.holders;
    }
  }

  lemma {:induction false} HoldersOfCount(rc: R.Sys, c: R.Op)
    requires c.Hold? || c.Drop? ==> !c.h.Target?
    ensures var after := R.Step(rc, c).0.holders;
      && (forall h: R.Holder :: h.Target? && h in rc.holders && !(c.OwnerDies? && rc.holders[h].node == c.n) ==>
            h in after && after[h] == rc.holders[h])
      && (forall h: R.Holder :: h.Target? && h in after ==> h in rc.holders && after[h] == rc.holders[h])
  {
    if R.Enabled(rc, c) && c.DecRef? { P.DecRefClaims(rc, c.k, c.strong); }
  }

  lemma {:induction false} CountSafe(j: Joint, c: R.Op)
    requires Inv(j)
    ensures Inv(Step(j, Count(c)).0) && Step(j, Count(c)).1
  {
    if Enabled(j, Count(c)) {
      P.StepKeeps(j.rc, c);
      CountPairs(j, c);
    }
  }

  /** A call takes the count its buffer stands for. */
  lemma {:induction false} SendPairs(j: Joint, n: T.NodeId, buffers: map<T.TxId, T.Buffer>)
    requires Inv(j) && n in j.rc.nodes && j.rc.nodes[n].owner.Some?
    requires var id := j.tx.lastId + 1;
      && id in buffers && buffers[id].node == Some(n)
      && (forall b :: b in buffers <==> b in j.tx.buffers || b == id)
      && (forall b :: b in j.tx.buffers ==> buffers[b].node == j.tx.buffers[b].node)
    ensures var (rc, f) := R.Step(j.rc, R.Hold(R.Target(j.tx.lastId + 1), n, true));
      P.Inv(rc) && f == R.Quiet && Paired(buffers, rc.holders)
  {
    var id := j.tx.lastId + 1;
    assert R.Target(id) !in j.rc.holders;
    P.StepKeeps(j.rc, R.Hold(R.Target(id), n, true));
    var after := j.rc.holders[R.Target(id) := R.Claim(n, true)];
    forall b | b in buffers && buffers[b].node.Some?
      ensures R.Target(b) in after && after[R.Target(b)] == R.Claim(buffers[b].node.value, true)
    {
      if b != id { assert j.tx.buffers[b].node == buffers[b].node; }
    }
    forall b | R.Target(b) in after ensures b in buffers && buffers[b].node.Some? {
      if b != id { assert R.Target(b) in j.rc.holders; }
    }
  }

  /** Freeing a buffer gives its count back, to a node that is still there. */
  lemma {:induction false} FreePairs(j: Joint, b: T.TxId)
    requires Inv(j) && b in j.tx.buffers && j.tx.buffers[b].node.Some?
    ensures var (rc, f) := R.Step(j.rc, R.Drop(R.Target(b)));
      P.Inv(rc) && f == R.Quiet && Paired(j.tx.buffers - {b}, rc.holders)
  {
    var h := R.Target(b);
    assert j.tx.buffers[b].node.Some? && h in j.rc.holders;
    P.StepKeeps(j.rc, R.Drop(h));
    P.OwnerHolds(j.rc, h);
    var buffers, after := j.tx.buffers - {b}, j.rc.holders - {h};
    forall d | d in buffers && buffers[d].node.Some?
      ensures R.Target(d) in after && after[R.Target(d)] == R.Claim(buffers[d].node.value, true)
    {
      assert j.tx.buffers[d].node.Some?;
    }
    forall d | R.Target(d) in after ensures d in buffers && buffers[d].node.Some? {
      assert R.Target(d) in j.rc.holders;
    }
  }

  lemma {:induction false} SamePairs(buffers: map<T.TxId, T.Buffer>, buffers': map<T.TxId, T.Buffer>,
                                     holders: P.Holders)
    requires Paired(buffers, holders)
    requires forall b :: b in buffers ==> b in buffers' && buffers'[b].node == buffers[b].node
    requires forall b :: b in buffers' && b !in buffers ==> buffers'[b].node.None?
    ensures Paired(buffers', holders)
  {
    forall b | b in buffers' && buffers'[b].node.Some?
      ensures R.Target(b) in holders && holders[R.Target(b)] == R.Claim(buffers'[b].node.value, true)
    {
      assert buffers[b].node.Some?;
    }
  }

  /** What a buffer is aimed at is a node that is there and has an owner. */
  lemma {:induction false} TargetIsThere(j: Joint, b: T.TxId)
    requires Inv(j) && b in j.tx.buffers && j.tx.buffers[b].node.Some?
    ensures j.tx.buffers[b].node.value in j.rc.nodes && j.rc.nodes[j.tx.buffers[b].node.value].owner.Some?
  {
    assert j.tx.buffers[b].node.Some? && R.Target(b) in j.rc.holders;
    P.OwnerHolds(j.rc, R.Target(b));
  }

  lemma {:induction false} MoveSafe(j: Joint, m: T.Op)
    requires Inv(j)
    ensures Inv(Step(j, Move(m)).0) && Step(j, Move(m)).1
  {
    if Enabled(j, Move(m)) {
      var m := Resolved(j.rc, m);
      FollowedIsThere(j, m);
      MoveKeeps(j, m);
    }
  }

  lemma {:induction false} FollowedIsThere(j: Joint, m: T.Op)
    requires Inv(j) && m == Resolved(j.rc, m)
    ensures Followed(j.tx, m).Some? ==> Followed(j.tx, m).value in j.rc.nodes
  {
    match m
    case Read(t) =>
      if Followed(j.tx, m).Some? { TargetIsThere(j, T.At(j.tx.lists, T.Source(j.tx, t).value)[0].t); }
    case FreeBuffer(t, b) => if Followed(j.tx, m).Some? { TargetIsThere(j, b); }
    case _ =>
  }

  lemma {:induction false} MoveKeeps(j: Joint, m: T.Op)
    requires Inv(j) && m == Resolved(j.rc, m)
    ensures var (tx, e) := T.Step(j.tx, m);
      var (rc, f) := Counts(j.rc, j.tx, tx, m, e);
      Inv(Joint(tx, rc)) && f != R.UseAfterFree
  {
    var tx, e := T.Step(j.tx, m).0, T.Step(j.tx, m).1;
    BuffersStep(j.tx, m);
    MovePairs(j, m, tx, e);
  }

  lemma {:induction false} MovePairs(j: Joint, m: T.Op, tx: T.State, e: T.Event)
    requires Inv(j) && m == Resolved(j.rc, m)
    requires var sent := m.Send? && m.target.ToNode? && (e.Called? || e.OneWaySent?);
      && (forall b :: b in tx.buffers ==> b <= tx.lastId)
      && (forall b :: b in j.tx.buffers && b in tx.buffers ==> tx.buffers[b].node == j.tx.buffers[b].node)
      && (forall b :: b in j.tx.buffers && b !in tx.buffers ==> m.FreeBuffer? && b == m.b)
      && (forall b :: b in tx.buffers && b !in j.tx.buffers ==>
            b == tx.lastId == j.tx.lastId + 1 && tx.buffers[b].node == if sent then Some(m.target.n) else None)
      && (sent ==> tx.lastId == j.tx.lastId + 1 && tx.lastId in tx.buffers)
    ensures var (rc, f) := Counts(j.rc, j.tx, tx, m, e);
      Inv(Joint(tx, rc)) && f != R.UseAfterFree
  {
    if m.Send? && m.target.ToNode? && (e.Called? || e.OneWaySent?) {
      SendPairs(j, m.target.n, tx.buffers);
    } else if m.FreeBuffer? && m.b in j.tx.buffers && m.b !in tx.buffers {
      if j.tx.buffers[m.b].node.Some? {
        FreePairs(j, m.b);
        SamePairs(j.tx.buffers - {m.b}, tx.buffers, R.Step(j.rc, R.Drop(R.Target(m.b))).0.holders);
      } else {
        UnaimedPairs(j.tx.buffers, m.b, j.rc.holders);
        SamePairs(j.tx.buffers - {m.b}, tx.buffers, j.rc.holders);
      }
    } else {
      SamePairs(j.tx.buffers, tx.buffers, j.rc.holders);
    }
  }

  lemma {:induction false} UnaimedPairs(buffers: map<T.TxId, T.Buffer>, b: T.TxId, holders: P.Holders)
    requires Paired(buffers, holders) && b in buffers && buffers[b].node.None?
    ensures Paired(buffers - {b}, holders)
  {
    var after := buffers - {b};
    forall d | d in after && after[d].node.Some?
      ensures R.Target(d) in holders && holders[R.Target(d)] == R.Claim(after[d].node.value, true)
    {
      assert buffers[d].node.Some?;
    }
  }

  lemma {:induction false} RunSafe(j: Joint, ops: seq<Op>)
    requires Inv(j)
    ensures Inv(Run(j, ops)) && Safe(j, ops)
    decreases |ops|
  {
    if ops != [] {
      match ops[0]
      case Count(c) =>
        CountSafe(j, c);
        RunSafe(Step(j, ops[0]).0, ops[1..]);
      case Move(m) =>
        MoveSafe(j, m);
        RunSafe(Step(j, ops[0]).0, ops[1..]);
    }
  }

  /** Theorem. In every run the node every live buffer is aimed at is there and has an owner;
      so no read and no freeing of a buffer follows a pointer to a node that was freed. */
  lemma {:induction false} TargetsLive(ops: seq<Op>, b: T.TxId)
    ensures Safe(EMPTY, ops)
    ensures var j := Run(EMPTY, ops);
      b in j.tx.buffers && j.tx.buffers[b].node.Some? ==>
        var n := j.tx.buffers[b].node.value;
        n in j.rc.nodes && j.rc.nodes[n].owner.Some? && j.rc.nodes[n].localStrong > 0
  {
    RunSafe(EMPTY, ops);
    var j := Run(EMPTY, ops);
    if b in j.tx.buffers && j.tx.buffers[b].node.Some? {
      var n, h := j.tx.buffers[b].node.value, R.Target(b);
      TargetIsThere(j, b);
      assert h in j.rc.holders && h in P.Claims(j.rc.holders, n, true);
      assert P.NodeOk(j.rc, n);
    }
  }
}
