// What every run of reference counting guarantees.
module NodeRefTheorems {
  import opened Base
  import opened NodeRefs
  import opened NodeRefProofs

  lemma {:induction false} RunKeeps(s: Sys, ops: seq<Op>)
    requires Inv(s)
    ensures Inv(Run(s, ops)) && UseAfterFree !in Events(s, ops)
    decreases |ops|
  {
    if ops != [] {
      StepKeeps(s, ops[0]);
      RunKeeps(Step(s, ops[0]).0, ops[1..]);
    }
  }

  /** Theorem. In every reachable state a node's internal count is the number of refs that
      hold it strongly; no ref points at a freed node, and nothing of the driver's holds one;
      the local counts of a node with an owner are the claims on it and the acknowledgements
      due; a process has one ref per node; and a
      live node its owner still believes in, but nobody wants, has its work item queued, as
      has one whose refs its owner has not been told about. No node is used after it is
      freed. */
  lemma {:induction false} CountsAgree(ops: seq<Op>)
    ensures var s := Run(EMPTY, ops);
      && UseAfterFree !in Events(EMPTY, ops)
      && (forall k :: k in s.refs ==> s.refs[k].node in s.nodes && k in s.nodes[s.refs[k].node].refs)
      && (forall j, k :: j in s.refs && k in s.refs && j.proc == k.proc && s.refs[j].node == s.refs[k].node ==> j == k)
      && (forall h :: h in s.holders ==> s.holders[h].node in s.nodes && s.nodes[s.holders[h].node].owner.Some?)
      && forall n :: n in s.nodes ==>
           var x := s.nodes[n];
           && x.internalStrong == |Strongs(s.refs, n)|
           && (x.owner.Some? ==> x.localStrong == |Claims(s.holders, n, true)| + One(x.pendingStrong))
           && (x.owner.Some? ==> x.localWeak == |Claims(s.holders, n, false)| + One(x.pendingWeak))
           && (x.owner.Some? && Unwanted(x) && (x.hasWeak || x.hasStrong) ==> x.queued)
           && (x.owner.Some? && Strongs(s.refs, n) != {} && !x.hasStrong ==> x.queued)
           && (x.owner.Some? && Counted(s.refs, n) && !x.hasWeak ==> x.queued)
  {
    RunKeeps(EMPTY, ops);
    var s := Run(EMPTY, ops);
    forall k | k in s.refs ensures s.refs[k].node in s.nodes && k in s.nodes[s.refs[k].node].refs {
      assert NodeOk(s, s.refs[k].node);
      assert k in RefsOf(s.refs, s.refs[k].node);
    }
    forall h | h in s.holders ensures s.holders[h].node in s.nodes && s.nodes[s.holders[h].node].owner.Some? {
      OwnerHolds(s, h);
    }
    forall n | n in s.nodes ensures NodeOk(s, n) {
    }
  }

  // ---- Commands ---------------------------------------------------------------------------

  /** Whether the owner has been told to hold the node weakly, and strongly. */
  datatype Belief = Belief(weak: bool, strong: bool)

  /** What a command makes of the owner's belief, if it is in its place. */
  function Hear(b: Belief, c: Cmd): Option<Belief> {
    match c
    case Increfs => if !b.weak && !b.strong then Some(Belief(true, false)) else None
    case Acquire => if b.weak && !b.strong then Some(Belief(true, true)) else None
    case Release => if b.weak && b.strong then Some(Belief(true, false)) else None
    case Decrefs => if b.weak && !b.strong then Some(Belief(false, false)) else None
  }

  function HearAll(b: Belief, cs: seq<Cmd>): Option<Belief>
    decreases |cs|
  {
    if cs == [] then Some(b)
    else
      var b1 := Hear(b, cs[0]);
      if b1.None? then None else HearAll(b1.value, cs[1..])
  }

  function CommandsTo(es: seq<Event>, n: NodeId): seq<Cmd> {
    if es == [] then []
    else (if es[0].Sent? && es[0].n == n then [es[0].cmd] else []) + CommandsTo(es[1..], n)
  }

  function Told(x: Node): Belief { Belief(x.hasWeak, x.hasStrong) }

  /** A step sends a command for `n` exactly when its flags change, and the change is the one
      the command stands for. A live owner's node disappears only when it believes nothing. */
  lemma {:induction false} StepTells(s: Sys, op: Op, n: NodeId)
    requires Inv(s) && n in s.nodes
    ensures var (s', e) := Step(s, op);
      && (e.Sent? && e.n == n ==> n in s'.nodes && Hear(Told(s.nodes[n]), e.cmd) == Some(Told(s'.nodes[n])))
      && (!(e.Sent? && e.n == n) && n in s'.nodes ==> Told(s'.nodes[n]) == Told(s.nodes[n]))
      && (n !in s'.nodes ==> s.nodes[n].owner.None? || op == OwnerDies(n) || Told(s.nodes[n]) == Belief(false, false))
  {
    if Enabled(s, op) {
      match op
      case DecRef(k, strong) => DecRefTells(s, k, strong, n);
      case DeleteRef(k) => DeleteRefTells(s, k, n);
      case ReadWork(m) =>
        assert NodeOk(s, m);
        ReadTells(s.nodes[m]);
      case Drop(h) =>
        OwnerHolds(s, h);
        DecTells(s.nodes[s.holders[h].node], s.holders[h].strong, false);
      case Done(m, strong) => DoneTells(s.nodes[m], strong);
      case _ => OtherTells(s, op, n);
    }
  }

  lemma DecTells(x: Node, strong: bool, internal: bool)
    ensures var (y, freed) := DecNode(x, strong, internal);
      Told(y) == Told(x) && (freed ==> x.owner.None? || Told(x) == Belief(false, false))
  {
  }

  lemma DoneTells(x: Node, strong: bool)
    ensures var z := if strong then x.(pendingStrong := false) else x.(pendingWeak := false);
      var (y, freed) := DecNode(z, strong, false);
      Told(y) == Told(x) && (freed ==> x.owner.None? || Told(x) == Belief(false, false))
  {
  }

  lemma OtherTells(s: Sys, op: Op, n: NodeId)
    requires Inv(s) && n in s.nodes && Enabled(s, op)
    requires op.NewNode? || op.SetContextManager? || op.GetRef? || op.IncRef? || op.Hold? || op.OwnerDies?
    ensures var (s', e) := Step(s, op);
      && !e.Sent? && (n in s'.nodes ==> Told(s'.nodes[n]) == Told(s.nodes[n]))
      && (n !in s'.nodes ==> op == OwnerDies(n))
  {
  }

  lemma ReadTells(x: Node)
    requires x.hasStrong ==> x.hasWeak
    ensures var (y, c, freed) := ReadNode(x);
      if c.Some? then !freed && Hear(Told(x), c.value) == Some(Told(y))
      else Told(y) == Told(x) && (freed ==> Told(x) == Belief(false, false))
  {
  }

  lemma {:induction false} DeleteRefTells(s: Sys, k: Key, n: NodeId)
    requires k in s.refs && s.refs[k].node in s.nodes && n in s.nodes
    ensures var s' := DoDeleteRef(s, k).0;
      && (n in s'.nodes ==> Told(s'.nodes[n]) == Told(s.nodes[n]))
      && (n !in s'.nodes ==> s.nodes[n].owner.None? || Told(s.nodes[n]) == Belief(false, false))
  {
  }

  lemma {:induction false} DecRefTells(s: Sys, k: Key, strong: bool, n: NodeId)
    requires k in s.refs && s.refs[k].node in s.nodes && n in s.nodes
    ensures var s' := DoDecRef(s, k, strong).0;
      && (n in s'.nodes ==> Told(s'.nodes[n]) == Told(s.nodes[n]))
      && (n !in s'.nodes ==> s.nodes[n].owner.None? || Told(s.nodes[n]) == Belief(false, false))
  {
    var f, m := s.refs[k], s.refs[k].node;
    if !(if strong then f.strong == 0 else f.weak == 0) {
      var g := if strong then f.(strong := f.strong - 1) else f.(weak := f.weak - 1);
      var s1 := s.(refs := s.refs[k := g]);
      var s2 := if strong && g.strong == 0 then Put(s1, m, DecNode(s1.nodes[m], true, true)) else s1;
      if m in s2.nodes && g.strong == 0 && g.weak == 0 && n in s2.nodes {
        DeleteRefTells(s2, k, n);
      }
    }
  }

  /** A node that is gone stays gone: ids are not used again, so nothing is sent for it. */
  lemma {:induction false} GoneStaysGone(s: Sys, op: Op, n: NodeId)
    requires Inv(s) && n <= s.lastId && n !in s.nodes
    ensures var (s', e) := Step(s, op);
      n !in s'.nodes && n <= s'.lastId && !(e.Sent? && e.n == n)
  {
  }

  lemma {:induction false} GoneForGood(s: Sys, ops: seq<Op>, n: NodeId)
    requires Inv(s) && n <= s.lastId && n !in s.nodes
    ensures n !in Run(s, ops).nodes && CommandsTo(Events(s, ops), n) == []
    decreases |ops|
  {
    if ops != [] {
      StepKeeps(s, ops[0]);
      GoneStaysGone(s, ops[0], n);
      GoneForGood(Step(s, ops[0]).0, ops[1..], n);
      CommandsCons(Step(s, ops[0]).1, Events(Step(s, ops[0]).0, ops[1..]), n);
    }
  }

  lemma CommandsCons(e: Event, es: seq<Event>, n: NodeId)
    ensures CommandsTo([e] + es, n) == (if e.Sent? && e.n == n then [e.cmd] else []) + CommandsTo(es, n)
  {
    assert ([e] + es)[1..] == es;
  }

  /** Theorem. Over any run the commands sent for a node are properly nested: INCREFS before
      ACQUIRE, RELEASE before DECREFS, each the undoing of the one before; and they leave the
      owner believing what the node's flags say. */
  lemma {:induction false} CommandsNest(s: Sys, ops: seq<Op>, n: NodeId)
    requires Inv(s) && n in s.nodes
    ensures var b := HearAll(Told(s.nodes[n]), CommandsTo(Events(s, ops), n));
      b.Some? && (n in Run(s, ops).nodes ==> b.value == Told(Run(s, ops).nodes[n]))
    decreases |ops|
  {
    if ops != [] {
      var (s', e) := Step(s, ops[0]);
      var es := Events(s', ops[1..]);
      StepKeeps(s, ops[0]);
      StepTells(s, ops[0], n);
      if n in s'.nodes {
        CommandsNest(s', ops[1..], n);
        HearNext(e, es, n, Told(s.nodes[n]), Told(s'.nodes[n]));
      } else {
        GoneForGood(s', ops[1..], n);
        HearNext(e, es, n, Told(s.nodes[n]), Told(s.nodes[n]));
      }
    }
  }

  lemma {:induction false} HearNext(e: Event, es: seq<Event>, n: NodeId, b: Belief, b': Belief)
    requires if e.Sent? && e.n == n then Hear(b, e.cmd) == Some(b') else b' == b
    ensures HearAll(b, CommandsTo([e] + es, n)) == HearAll(b', CommandsTo(es, n))
  {
    CommandsCons(e, es, n);
    if e.Sent? && e.n == n {
      assert ([e.cmd] + CommandsTo(es, n))[1..] == CommandsTo(es, n);
    } else {
      assert [] + CommandsTo(es, n) == CommandsTo(es, n);
    }
  }

  /** A claim lasts until it is given back or its node's owner dies. */
  lemma {:induction false} ClaimsLast(s: Sys, op: Op, h: Holder)
    requires Inv(s) && h in s.holders
    ensures op == Drop(h) || op == OwnerDies(s.holders[h].node) ||
      (h in Step(s, op).0.holders && Step(s, op).0.holders[h] == s.holders[h])
  {
    if Enabled(s, op) {
      match op
      case DecRef(k, strong) => DecRefClaims(s, k, strong);
      case SetContextManager(_) => assert !h.Manager?;
      case _ =>
    }
  }

  /** Theorem. A node is freed only when the counts balance: afterwards no ref points at it
      and nothing of the driver's holds it; before, nothing did but the claim just given
      back; and, unless its owner is gone or going, its commands have cancelled out. */
  lemma {:induction false} FreedWhenBalanced(ops: seq<Op>, op: Op, n: NodeId)
    requires n in Run(EMPTY, ops).nodes && n !in Step(Run(EMPTY, ops), op).0.nodes
    ensures var s := Run(EMPTY, ops);
      var s' := Step(s, op).0;
      && (forall k :: k in s'.refs ==> s'.refs[k].node != n)
      && (forall h :: h in s'.holders ==> s'.holders[h].node != n)
      && (op != OwnerDies(n) ==> forall h :: h in s.holders && s.holders[h].node == n ==> op == Drop(h))
      && (op == OwnerDies(n) || s.nodes[n].owner.None? || Told(s.nodes[n]) == Belief(false, false))
  {
    var s := Run(EMPTY, ops);
    RunKeeps(EMPTY, ops);
    StepTells(s, op, n);
    StepKeeps(s, op);
    var s' := Step(s, op).0;
    forall k | k in s'.refs ensures s'.refs[k].node != n {
      assert s'.refs[k].node in s'.nodes;
    }
    forall h | h in s'.holders ensures s'.holders[h].node != n {
      assert s'.holders[h].node in s'.nodes;
    }
    forall h | op != OwnerDies(n) && h in s.holders && s.holders[h].node == n ensures op == Drop(h) {
      ClaimsLast(s, op, h);
    }
  }

  /** Theorem. A live node whose work item is queued is dealt with after at most two commands,
      whatever state it is in, and a RELEASE or DECREFS never overtakes an acknowledgement
      that is still due. */
  lemma {:induction false} WorkDrains(ops: seq<Op>, n: NodeId)
    requires n in Run(EMPTY, ops).nodes && Run(EMPTY, ops).nodes[n].queued
    ensures var x := Run(EMPTY, ops).nodes[n];
      var (x1, c1, _) := ReadNode(x);
      var (x2, c2, _) := ReadNode(x1);
      var (x3, c3, _) := ReadNode(x2);
      && (c1.None? || c2.None? || c3.None?)
      && (c1 == Some(Release) ==> !x.pendingStrong) && (c1 == Some(Decrefs) ==> !x.pendingWeak)
      && var y := if c1.None? then x1 else if c2.None? then x2 else x3;
         !y.queued && (y.hasWeak <==> WantsWeak(y)) && (y.hasStrong <==> WantsStrong(y))
  {
    RunKeeps(EMPTY, ops);
    var s := Run(EMPTY, ops);
    assert NodeOk(s, n);
    NodeFine(s, n);
    DrainsInTwo(s.nodes[n], HeldOn(s.holders, n), Counted(s.refs, n));
    ReadFine(s.nodes[n], HeldOn(s.holders, n), Counted(s.refs, n));
  }
}
