// The counts of a ref are what its process has taken and not given back: a ledger kept over
// whole runs, beside the driver's own numbers.
module RefLedger {
  import opened Base
  import opened NodeRefs
  import opened NodeRefProofs
  import opened NodeRefTheorems

  /** The count of one kind the driver keeps for `k`; a ref that is not there has none. */
  function CountOf(s: Sys, k: Key, strong: bool): int {
    if k !in s.refs then 0 else if strong then s.refs[k].strong else s.refs[k].weak
  }

  predicate Took(op: Op, e: Event, k: Key, strong: bool) {
    op.IncRef? && op.k == k && op.strong == strong && e == Quiet
  }

  predicate GaveBack(op: Op, e: Event, k: Key, strong: bool) {
    op == DecRef(k, strong) && e == Quiet
  }

  /** The ledger after one step: one more for a count taken, one less for one given back, and
      closed when the ref is gone. */
  function Booked(s: Sys, op: Op, k: Key, strong: bool, balance: int): int {
    var (s', e) := Step(s, op);
    if k !in s'.refs then 0
    else balance + One(Took(op, e, k, strong)) - One(GaveBack(op, e, k, strong))
  }

  /** The balance at the end of a run. */
  function Balance(s: Sys, ops: seq<Op>, k: Key, strong: bool, balance: int): int
    decreases |ops|
  {
    if ops == [] then balance
    else Balance(Step(s, ops[0]).0, ops[1..], k, strong, Booked(s, ops[0], k, strong, balance))
  }

  lemma {:induction false} StepBooks(s: Sys, op: Op, k: Key, strong: bool)
    requires Inv(s)
    ensures CountOf(Step(s, op).0, k, strong) == Booked(s, op, k, strong, CountOf(s, k, strong))
  {
    if Enabled(s, op) {
      match op
      case GetRef(p, n) => if !HasRef(s, p, n) { NewKeyUnused(s, p, n); }
      case IncRef(j, kind, list) => IncBooks(s, j, kind, list, k, strong);
      case DecRef(j, kind) => DecBooks(s, j, kind, k, strong);
      case DeleteRef(j) => DeleteRefs(s, j);
      case _ => OtherRefs(s, op);
    }
  }

  lemma {:induction false} IncBooks(s: Sys, j: Key, kind: bool, list: bool, k: Key, strong: bool)
    requires j in s.refs && s.refs[j].node in s.nodes && Enabled(s, IncRef(j, kind, list))
    ensures var op := IncRef(j, kind, list);
      CountOf(Step(s, op).0, k, strong) == Booked(s, op, k, strong, CountOf(s, k, strong))
  {
  }

  lemma {:induction false} DeleteRefs(s: Sys, j: Key)
    requires j in s.refs && s.refs[j].node in s.nodes
    ensures DoDeleteRef(s, j).0.refs == s.refs - {j}
  {
  }

  /** What giving a count back does to the refs. */
  lemma {:induction false} DecRefs(s: Sys, j: Key, kind: bool)
    requires Inv(s) && j in s.refs
    ensures s.refs[j].node in s.nodes
    ensures var (s', e) := DoDecRef(s, j, kind);
      && e == (if CountOf(s, j, kind) > 0 then Quiet else Refused)
      && s'.refs ==
           if CountOf(s, j, kind) == 0 then s.refs
           else if CountOf(s, j, kind) == 1 && CountOf(s, j, !kind) == 0 then s.refs - {j}
           else s.refs[j := if kind then s.refs[j].(strong := s.refs[j].strong - 1)
                            else s.refs[j].(weak := s.refs[j].weak - 1)]
  {
    StepKeeps(s, DecRef(j, kind));
  }

  lemma {:induction false} DecBooks(s: Sys, j: Key, kind: bool, k: Key, strong: bool)
    requires Inv(s) && Enabled(s, DecRef(j, kind))
    ensures var op := DecRef(j, kind);
      CountOf(Step(s, op).0, k, strong) == Booked(s, op, k, strong, CountOf(s, k, strong))
  {
    DecRefs(s, j, kind);
  }

  lemma {:induction false} OtherRefs(s: Sys, op: Op)
    requires Enabled(s, op) && !op.GetRef? && !op.IncRef? && !op.DecRef? && !op.DeleteRef?
    ensures Step(s, op).0.refs == s.refs
  {
  }

  lemma {:induction false} RunBooks(s: Sys, ops: seq<Op>, k: Key, strong: bool)
    requires Inv(s)
    ensures CountOf(Run(s, ops), k, strong) == Balance(s, ops, k, strong, CountOf(s, k, strong))
    decreases |ops|
  {
    if ops != [] {
      StepBooks(s, ops[0], k, strong);
      StepKeeps(s, ops[0]);
      RunBooks(Step(s, ops[0]).0, ops[1..], k, strong);
    }
  }

  /** Theorem. After every run the driver's count of each kind for each ref is the number of
      counts taken less those given back since the ref was made, and that is never negative. */
  lemma {:induction false} LedgerAgrees(ops: seq<Op>, k: Key, strong: bool)
    ensures CountOf(Run(EMPTY, ops), k, strong) == Balance(EMPTY, ops, k, strong, 0) >= 0
  {
    RunBooks(EMPTY, ops, k, strong);
    RunKeeps(EMPTY, ops);
  }

  /** Theorem. A count is given back exactly when one of its kind is outstanding; and a ref
      goes, other than by being deleted outright, exactly when that was the last of both
      kinds. */
  lemma {:induction false} GoesWhenSettled(s: Sys, k: Key, strong: bool, op: Op)
    requires Inv(s) && k in s.refs
    ensures Step(s, DecRef(k, strong)).1 == Quiet <==> CountOf(s, k, strong) > 0
    ensures k !in Step(s, op).0.refs <==>
      || op == DeleteRef(k)
      || (op.DecRef? && op.k == k && CountOf(s, k, op.strong) == 1 && CountOf(s, k, !op.strong) == 0)
  {
    DecRefs(s, k, strong);
    if Enabled(s, op) {
      match op
      case DecRef(j, kind) => DecRefs(s, j, kind);
      case DeleteRef(j) => DeleteRefs(s, j);
      case GetRef(_, _) =>
      case IncRef(_, _, _) =>
      case _ => OtherRefs(s, op);
    }
  }

  /** Theorem. A count is refused exactly when it would be the first of its kind for the ref,
      there is no list to tell the owner by, and the owner does not know already: for a strong
      one, from another ref or as context manager; for a weak one, by command sent or queued. */
  lemma {:induction false} TakenExactly(s: Sys, k: Key, strong: bool, list: bool)
    requires Inv(s) && Enabled(s, IncRef(k, strong, list))
    ensures var n := s.refs[k].node;
      Step(s, IncRef(k, strong, list)).1 == Quiet <==>
        || CountOf(s, k, strong) > 0
        || list
        || (strong && (Strongs(s.refs, n) != {} || (s.ctx == Some(n) && s.nodes[n].hasStrong)))
        || (!strong && (s.nodes[n].hasWeak || s.nodes[n].queued))
  {
    var n := s.refs[k].node;
    assert NodeOk(s, n);
    assert s.nodes[n].internalStrong == 0 <==> Strongs(s.refs, n) == {};
    assert s.refs[k].strong > 0 ==> k in Strongs(s.refs, n);
  }

  // ---- Descriptor zero ---------------------------------------------------------------------------

  /** Descriptor 0 names the context manager, or one whose process is gone. */
  ghost predicate ZeroOk(s: Sys, k: Key)
    requires k in s.refs
  {
    k.desc == 0 ==>
      var n := s.refs[k].node;
      s.ctx == Some(n) || (n in s.nodes && s.nodes[n].owner.None?)
  }

  lemma {:induction false} OwnerStays(s: Sys, op: Op, n: NodeId)
    requires n in s.nodes && n <= s.lastId && n in Step(s, op).0.nodes
    ensures Step(s, op).0.nodes[n].owner == if Enabled(s, op) && op == OwnerDies(n) then None else s.nodes[n].owner
  {
    if Enabled(s, op) {
      match op
      case DecRef(k, strong) => DecOwner(s, k, strong, n);
      case DeleteRef(k) => DeleteOwner(s, k, n);
      case _ => OtherOwner(s, op, n);
    }
  }

  lemma {:induction false} DeleteOwner(s: Sys, k: Key, n: NodeId)
    requires k in s.refs && s.refs[k].node in s.nodes && n in s.nodes
    ensures n in DoDeleteRef(s, k).0.nodes ==> DoDeleteRef(s, k).0.nodes[n].owner == s.nodes[n].owner
  {
  }

  lemma {:induction false} DecOwner(s: Sys, k: Key, strong: bool, n: NodeId)
    requires k in s.refs && s.refs[k].node in s.nodes && n in s.nodes
    ensures n in DoDecRef(s, k, strong).0.nodes ==> DoDecRef(s, k, strong).0.nodes[n].owner == s.nodes[n].owner
  {
  }

  lemma {:induction false} OtherOwner(s: Sys, op: Op, n: NodeId)
    requires Enabled(s, op) && n in s.nodes && n <= s.lastId && !op.DecRef? && !op.DeleteRef?
    ensures n in Step(s, op).0.nodes ==>
      Step(s, op).0.nodes[n].owner == if op == OwnerDies(n) then None else s.nodes[n].owner
  {
  }

  lemma {:induction false} ManagerStays(s: Sys, op: Op)
    ensures Step(s, op).0.ctx == s.ctx || (op.SetContextManager? && s.ctx.None?) ||
      (op.OwnerDies? && s.ctx == Some(op.n) && Step(s, op).0.ctx.None?)
  {
  }

  /** A ref after a step was there before, to the same node, or was made by this step. */
  lemma {:induction false} RefsStay(s: Sys, op: Op, k: Key)
    requires Inv(s) && k in Step(s, op).0.refs
    ensures if k in s.refs then Step(s, op).0.refs[k].node == s.refs[k].node
      else op.GetRef? && Step(s, op).0.refs[k].node == op.n && k == NewKey(s, op.p, op.n)
  {
    if Enabled(s, op) {
      match op
      case DecRef(j, kind) => DecRefs(s, j, kind);
      case DeleteRef(j) => DeleteRefs(s, j);
      case GetRef(p, n) => NewKeyUnused(s, p, n);
      case IncRef(_, _, _) =>
      case _ => OtherRefs(s, op);
    }
  }

  lemma {:induction false} StepZero(s: Sys, op: Op, k: Key)
    requires Inv(s) && (k in s.refs ==> ZeroOk(s, k)) && k in Step(s, op).0.refs
    ensures ZeroOk(Step(s, op).0, k)
  {
    StepKeeps(s, op);
    RefsStay(s, op, k);
    ManagerStays(s, op);
    var n := Step(s, op).0.refs[k].node;
    if k in s.refs { OwnerStays(s, op, n); } else { NewKeyUnused(s, op.p, op.n); }
  }

  lemma {:induction false} RunZero(s: Sys, ops: seq<Op>, k: Key)
    requires Inv(s) && (k in s.refs ==> ZeroOk(s, k))
    ensures k in Run(s, ops).refs ==> ZeroOk(Run(s, ops), k)
    decreases |ops|
  {
    if ops != [] {
      StepKeeps(s, ops[0]);
      if k in Step(s, ops[0]).0.refs { StepZero(s, ops[0], k); }
      RunZero(Step(s, ops[0]).0, ops[1..], k);
    }
  }

  /** Theorem. In every run, while the context manager lives, handle 0 of any process that has
      one leads to it or to a manager that is dead; and the first ref made to it is handle 0
      wherever that is free. */
  lemma {:induction false} ZeroIsManager(ops: seq<Op>, k: Key, p: Pid)
    ensures var s := Run(EMPTY, ops);
      && (k in s.refs && k.desc == 0 ==>
            s.ctx == Some(s.refs[k].node) ||
            (s.refs[k].node in s.nodes && s.nodes[s.refs[k].node].owner.None?))
      && (s.ctx.Some? && s.ctx.value in s.nodes && Key(p, 0) !in s.refs && !HasRef(s, p, s.ctx.value) ==>
            Step(s, GetRef(p, s.ctx.value)).0.refs == s.refs[Key(p, 0) := Ref(s.ctx.value, 0, 0)])
  {
    RunKeeps(EMPTY, ops);
    RunZero(EMPTY, ops, k);
    var s := Run(EMPTY, ops);
    if s.ctx.Some? { NewKeyUnused(s, p, s.ctx.value); }
  }

  /** The context manager is held by the references it started with for as long as it is that. */
  ghost predicate ManagerOk(s: Sys) {
    s.ctx.Some? ==> Manager(true) in s.holders && s.holders[Manager(true)] == Claim(s.ctx.value, true)
  }

  lemma {:induction false} StepManager(s: Sys, op: Op)
    requires Inv(s) && ManagerOk(s)
    ensures ManagerOk(Step(s, op).0)
  {
    ManagerStays(s, op);
    if s.ctx.Some? { ClaimsLast(s, op, Manager(true)); }
  }

  lemma {:induction false} RunManager(s: Sys, ops: seq<Op>)
    requires Inv(s) && ManagerOk(s)
    ensures ManagerOk(Run(s, ops))
    decreases |ops|
  {
    if ops != [] {
      StepKeeps(s, ops[0]);
      StepManager(s, ops[0]);
      RunManager(Step(s, ops[0]).0, ops[1..]);
    }
  }

  /** Theorem. In every run a process can become the context manager exactly when there is none
      alive: the one there is has a node and an owner, and its death makes room for another. */
  lemma {:induction false} ManagerLives(ops: seq<Op>, p: Pid)
    ensures var s := Run(EMPTY, ops);
      && (s.ctx.Some? ==> s.ctx.value in s.nodes && s.nodes[s.ctx.value].owner.Some?)
      && (Step(s, SetContextManager(p)).1 == Quiet <==> s.ctx.None?)
      && (s.ctx.Some? ==> Step(s, OwnerDies(s.ctx.value)).0.ctx.None?)
  {
    RunKeeps(EMPTY, ops);
    RunManager(EMPTY, ops);
    var s := Run(EMPTY, ops);
    if s.ctx.Some? { OwnerHolds(s, Manager(true)); }
  }

  // ---- Acknowledgements -----------------------------------------------------------------------------

  /** Whether the driver still expects the owner to acknowledge that it holds the node. */
  predicate Awaits(x: Node, strong: bool) { if strong then x.pendingStrong else x.pendingWeak }

  function Telling(strong: bool): Cmd { if strong then Acquire else Increfs }
  function Untelling(strong: bool): Cmd { if strong then Release else Decrefs }

  /** An acknowledgement is due from the command until it is given. */
  function DueAfter(s: Sys, op: Op, n: NodeId, strong: bool, due: bool): bool {
    var e := Step(s, op).1;
    if e == Sent(n, Telling(strong)) then true
    else if op == Done(n, strong) && e == Quiet then false
    else due
  }

  function Due(s: Sys, ops: seq<Op>, n: NodeId, strong: bool, due: bool): bool
    decreases |ops|
  {
    if ops == [] then due
    else Due(Step(s, ops[0]).0, ops[1..], n, strong, DueAfter(s, ops[0], n, strong, due))
  }

  lemma {:induction false} StepDue(s: Sys, op: Op, n: NodeId, strong: bool)
    requires n in s.nodes && n <= s.lastId && n in Step(s, op).0.nodes
    ensures Awaits(Step(s, op).0.nodes[n], strong) == DueAfter(s, op, n, strong, Awaits(s.nodes[n], strong))
  {
    if Enabled(s, op) {
      match op
      case DecRef(k, _) => DecDue(s, k, op.strong, n, strong);
      case DeleteRef(k) => DeleteDue(s, k, n, strong);
      case _ => OtherDue(s, op, n, strong);
    }
  }

  lemma {:induction false} DeleteDue(s: Sys, k: Key, n: NodeId, strong: bool)
    requires k in s.refs && s.refs[k].node in s.nodes && n in s.nodes
    ensures var s' := DoDeleteRef(s, k).0;
      !DoDeleteRef(s, k).1.Sent? && (n in s'.nodes ==> Awaits(s'.nodes[n], strong) == Awaits(s.nodes[n], strong))
  {
  }

  lemma {:induction false} DecDue(s: Sys, k: Key, kind: bool, n: NodeId, strong: bool)
    requires k in s.refs && s.refs[k].node in s.nodes && n in s.nodes
    ensures var s' := DoDecRef(s, k, kind).0;
      !DoDecRef(s, k, kind).1.Sent? && (n in s'.nodes ==> Awaits(s'.nodes[n], strong) == Awaits(s.nodes[n], strong))
  {
  }

  lemma {:induction false} OtherDue(s: Sys, op: Op, n: NodeId, strong: bool)
    requires Enabled(s, op) && n in s.nodes && n <= s.lastId && !op.DecRef? && !op.DeleteRef?
    ensures n in Step(s, op).0.nodes ==>
      Awaits(Step(s, op).0.nodes[n], strong) == DueAfter(s, op, n, strong, Awaits(s.nodes[n], strong))
  {
  }

  lemma {:induction false} RunDue(s: Sys, ops: seq<Op>, n: NodeId, strong: bool, due: bool)
    requires Inv(s) && (if n in s.nodes then Awaits(s.nodes[n], strong) == due else n > s.lastId ==> !due)
    ensures n in Run(s, ops).nodes ==> Awaits(Run(s, ops).nodes[n], strong) == Due(s, ops, n, strong, due)
    decreases |ops|
  {
    if ops != [] {
      var s' := Step(s, ops[0]).0;
      StepKeeps(s, ops[0]);
      if n in s.nodes && n in s'.nodes { StepDue(s, ops[0], n, strong); }
      if n !in s.nodes { NotThere(s, ops[0], n, strong); }
      if n !in s'.nodes && n <= s'.lastId {
        GoneForGood(s', ops[1..], n);
      } else {
        RunDue(s', ops[1..], n, strong, DueAfter(s, ops[0], n, strong, due));
      }
    }
  }

  /** Of a node that is not there nothing is said, and a new one owes nothing. */
  lemma {:induction false} NotThere(s: Sys, op: Op, n: NodeId, strong: bool)
    requires Inv(s) && n !in s.nodes
    ensures var (s', e) := Step(s, op);
      && e != Sent(n, Telling(strong)) && !(op == Done(n, strong) && e == Quiet)
      && (n in s'.nodes ==> n > s.lastId && !Awaits(s'.nodes[n], strong))
      && (n !in s'.nodes && n > s'.lastId ==> n > s.lastId)
  {
    StepKeeps(s, op);
    if Enabled(s, op) {
      match op
      case DecRef(k, kind) => DecNodes(s, k, kind, n);
      case _ =>
    }
  }

  lemma {:induction false} DecNodes(s: Sys, k: Key, kind: bool, n: NodeId)
    requires k in s.refs && s.refs[k].node in s.nodes && n !in s.nodes
    ensures n !in DoDecRef(s, k, kind).0.nodes && DoDecRef(s, k, kind).0.lastId == s.lastId
    ensures !DoDecRef(s, k, kind).1.Sent?
  {
  }

  /** Theorem. After every run an acknowledgement is awaited exactly when the command it answers
      was sent and has not been acknowledged since. */
  lemma {:induction false} AwaitedExactly(ops: seq<Op>, n: NodeId, strong: bool)
    ensures var s := Run(EMPTY, ops);
      n in s.nodes ==> Awaits(s.nodes[n], strong) == Due(EMPTY, ops, n, strong, false)
  {
    RunDue(EMPTY, ops, n, strong, false);
  }

  /** Theorem. Until its owner has acknowledged a command the node stays, unless the owner dies,
      and the opposite command is not sent. */
  lemma {:induction false} AwaitedKeeps(s: Sys, op: Op, n: NodeId, strong: bool)
    requires Inv(s) && n in s.nodes && s.nodes[n].owner.Some? && Awaits(s.nodes[n], strong) && op != OwnerDies(n)
    ensures n in Step(s, op).0.nodes && Step(s, op).1 != Sent(n, Untelling(strong))
  {
    assert NodeOk(s, n);
    StepTells(s, op, n);
    if op.ReadWork? && op.n == n { ReadKeepsAwaited(s.nodes[n], strong); } else { OnlyReadsSend(s, op, n); }
  }

  lemma {:induction false} ReadKeepsAwaited(x: Node, strong: bool)
    requires Awaits(x, strong) && (if strong then x.localStrong > 0 else x.localWeak > 0)
    ensures ReadNode(x).1 != Some(Untelling(strong))
  {
  }

  lemma {:induction false} OnlyReadsSend(s: Sys, op: Op, n: NodeId)
    ensures Step(s, op).1.Sent? && Step(s, op).1.n == n ==> op == ReadWork(n)
  {
  }
}
