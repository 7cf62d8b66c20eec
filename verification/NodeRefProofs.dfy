// The invariant of reference counting, and that every step keeps it.
module NodeRefProofs {
  import opened Base
  import opened NodeRefs

  type Refs = map<Key, Ref>
  type Holders = map<Holder, Claim>

  ghost function RefsOf(refs: Refs, n: NodeId): set<Key> {
    set k | k in refs && refs[k].node == n
  }

  /** The refs that hold the node strongly. */
  ghost function Strongs(refs: Refs, n: NodeId): set<Key> {
    set k | k in refs && refs[k].node == n && refs[k].strong > 0
  }

  /** Some ref to the node has been counted. */
  ghost predicate Counted(refs: Refs, n: NodeId) {
    exists k :: k in refs && refs[k].node == n && (refs[k].strong > 0 || refs[k].weak > 0)
  }

  /** The claims on a node of one strength, and how many there are of each. */
  ghost function Claims(holders: Holders, n: NodeId, strong: bool): set<Holder> {
    set h | h in holders && holders[h] == Claim(n, strong)
  }

  datatype Held = Held(strong: nat, weak: nat)

  ghost function HeldOn(holders: Holders, n: NodeId): Held {
    Held(|Claims(holders, n, true)|, |Claims(holders, n, false)|)
  }

  predicate Unwanted(x: Node) {
    x.refs == {} && x.localStrong == 0 && x.localWeak == 0
  }

  function One(b: bool): nat { if b then 1 else 0 }

  /** What holds of a node and the references the driver holds on it. The flags are nested; a
      pending acknowledgement keeps a local count; a node its owner still believes in, but
      nobody wants, has its work item queued, and so has one whose owner has not been told. */
  predicate Local(x: Node, h: Held) {
    && (x.hasStrong ==> x.hasWeak) && (x.pendingStrong ==> x.hasStrong) && (x.pendingWeak ==> x.hasWeak)
    && x.internalStrong >= 0 && (x.internalStrong > 0 ==> x.refs != {})
    && if x.owner.Some?
       then
         && x.localStrong == h.strong + One(x.pendingStrong) && x.localWeak == h.weak + One(x.pendingWeak)
         && (Unwanted(x) && (x.hasWeak || x.hasStrong) ==> x.queued)
         && (x.internalStrong > 0 && !x.hasStrong ==> x.queued)
       else x.localStrong == 0 && x.localWeak == 0 && h == Held(0, 0) && !x.queued && x.refs != {}
  }

  ghost predicate NodeOk(s: Sys, n: NodeId)
    requires n in s.nodes
  {
    var x := s.nodes[n];
    && Local(x, HeldOn(s.holders, n))
    && x.refs == RefsOf(s.refs, n) && x.internalStrong == |Strongs(s.refs, n)|
    && (x.owner.Some? && Counted(s.refs, n) && !x.hasWeak ==> x.queued)
  }

  /** No ref dangles, and a process has at most one ref to a node. */
  ghost predicate RefsOk(s: Sys) {
    && (forall k {:trigger s.refs[k].node} ::
          k in s.refs ==> s.refs[k].node in s.nodes && s.refs[k].strong >= 0 && s.refs[k].weak >= 0)
    && (forall j, k {:trigger s.refs[j].node, s.refs[k].node} ::
          j in s.refs && k in s.refs && j.proc == k.proc && s.refs[j].node == s.refs[k].node ==> j == k)
  }

  /** No claim dangles: what a buffer is aimed at is still there. */
  ghost predicate HoldersOk(s: Sys) {
    forall h {:trigger s.holders[h]} :: h in s.holders ==>
      s.holders[h].node in s.nodes && (h.Manager? ==> s.ctx == Some(s.holders[h].node))
  }

  ghost predicate Inv(s: Sys) {
    && (forall n {:trigger NodeOk(s, n)} :: n in s.nodes ==> NodeOk(s, n))
    && RefsOk(s) && HoldersOk(s) && (forall n :: n in s.nodes ==> n <= s.lastId)
  }

  // ---- One node at a time -----------------------------------------------------------------

  /** `s` and `s'` differ at most at node `n`, the refs to it and what is held on it. */
  ghost predicate OnlyAt(s: Sys, s': Sys, n: NodeId) {
    && s'.lastId == s.lastId
    && (forall m :: m in s'.nodes && m != n ==> m in s.nodes && s'.nodes[m] == s.nodes[m])
    && (forall m :: m in s.nodes && m != n ==> m in s'.nodes)
    && HoldersOnlyAt(s.holders, s'.holders, n)
    && (forall k :: k in s.refs && s.refs[k].node != n ==> k in s'.refs && s'.refs[k] == s.refs[k])
    && (forall k :: k in s'.refs && s'.refs[k].node != n ==> k in s.refs && s.refs[k] == s'.refs[k])
    && (forall m :: m in s'.nodes ==> m <= s'.lastId)
  }

  ghost predicate HoldersOnlyAt(a: Holders, b: Holders, n: NodeId) {
    && (forall h :: h in a && a[h].node != n ==> h in b && b[h] == a[h])
    && (forall h :: h in b && b[h].node != n ==> h in a && a[h] == b[h])
  }

  lemma {:induction false} SameClaims(a: Holders, b: Holders, n: NodeId, m: NodeId)
    requires HoldersOnlyAt(a, b, n) && m != n
    ensures HeldOn(a, m) == HeldOn(b, m)
  {
    forall strong ensures Claims(a, m, strong) == Claims(b, m, strong) {
    }
  }

  lemma {:induction false} OthersKept(s: Sys, s': Sys, n: NodeId, m: NodeId)
    requires OnlyAt(s, s', n) && m != n && m in s.nodes && NodeOk(s, m)
    ensures m in s'.nodes && NodeOk(s', m)
  {
    SameClaims(s.holders, s'.holders, n, m);
    assert RefsOf(s'.refs, m) == RefsOf(s.refs, m);
    assert Strongs(s'.refs, m) == Strongs(s.refs, m);
    if Counted(s'.refs, m) {
      var k :| k in s'.refs && s'.refs[k].node == m && (s'.refs[k].strong > 0 || s'.refs[k].weak > 0);
      assert k in s.refs && s.refs[k] == s'.refs[k];
    }
  }

  lemma {:induction false} InvAt(s: Sys, s': Sys, n: NodeId)
    requires Inv(s) && OnlyAt(s, s', n) && RefsOk(s') && HoldersOk(s')
    requires n in s'.nodes ==> NodeOk(s', n)
    ensures Inv(s')
  {
    forall m | m in s'.nodes ensures NodeOk(s', m) {
      if m != n {
        assert NodeOk(s, m);
        OthersKept(s, s', n, m);
      }
    }
  }

  /** The refs to `n` lose nothing and gain nothing but counts. */
  lemma {:induction false} SameRefsOk(s: Sys, s': Sys)
    requires RefsOk(s)
    requires forall k :: k in s'.refs ==>
      k in s.refs && s'.refs[k].node == s.refs[k].node && s'.refs[k].node in s'.nodes
                                          && s'.refs[k].strong >= 0 && s'.refs[k].weak >= 0
    ensures RefsOk(s')
  {
  }

  // ---- What each count change does to one node ----------------------------------------------

  /** Local, and the owner told; `c` says whether some ref to the node is counted. */
  predicate Fine(x: Node, h: Held, c: bool) {
    Local(x, h) && (x.owner.Some? && c && !x.hasWeak ==> x.queued) && (c ==> x.refs != {})
  }

  /** When a node may go: nobody points at it or holds it, and its owner, if alive, has been
      told to let go as often as to hold on. */
  predicate Balanced(x: Node, h: Held) {
    x.refs == {} && x.internalStrong == 0 && h == Held(0, 0) && (x.owner.Some? ==> !x.hasWeak && !x.hasStrong)
  }

  function Plus(h: Held, strong: bool, delta: int): Held
    requires (if strong then h.strong else h.weak) + delta >= 0
  {
    if strong then h.(strong := h.strong + delta) else h.(weak := h.weak + delta)
  }

  lemma HoldFine(x: Node, h: Held, c: bool, strong: bool, ctx: bool)
    requires Fine(x, h, c) && x.owner.Some?
    ensures var y := IncNode(x, strong, false, false, ctx).0;
      Fine(y, Plus(h, strong, 1), c) && y.refs == x.refs && y.internalStrong == x.internalStrong
  {
  }

  lemma DropFine(x: Node, h: Held, c: bool, strong: bool)
    requires Fine(x, h, c) && x.owner.Some? && (if strong then h.strong else h.weak) > 0
    ensures var (y, freed) := DecNode(x, strong, false);
      && y.refs == x.refs && y.internalStrong == x.internalStrong
      && if freed then Balanced(x, Plus(h, strong, -1)) else Fine(y, Plus(h, strong, -1), c)
  {
  }

  lemma DoneFine(x: Node, h: Held, c: bool, strong: bool)
    requires Fine(x, h, c) && x.owner.Some? && (if strong then x.pendingStrong else x.pendingWeak)
    ensures var z := if strong then x.(pendingStrong := false) else x.(pendingWeak := false);
      var (y, freed) := DecNode(z, strong, false);
      !freed && y.refs == x.refs && y.internalStrong == x.internalStrong && Fine(y, h, c)
  {
  }

  lemma ReadFine(x: Node, h: Held, c: bool)
    requires Fine(x, h, c) && x.queued
    ensures var (y, cmd, freed) := ReadNode(x);
      && y.refs == x.refs && y.internalStrong == x.internalStrong
      && (if freed then Balanced(x, h) && cmd.None? else Fine(y, h, c))
      && (cmd == Some(Release) ==> !x.pendingStrong) && (cmd == Some(Decrefs) ==> !x.pendingWeak)
  {
  }

  /** A queued node is dealt with after at most two commands, and its owner's view is then
      the true one. */
  lemma DrainsInTwo(x: Node, h: Held, c: bool)
    requires Fine(x, h, c) && x.queued
    ensures var (x1, c1, _) := ReadNode(x);
      var (x2, c2, _) := ReadNode(x1);
      var (x3, c3, _) := ReadNode(x2);
      && (c1.None? || c2.None? || c3.None?)
      && var y := if c1.None? then x1 else if c2.None? then x2 else x3;
         !y.queued && (y.hasWeak <==> WantsWeak(y)) && (y.hasStrong <==> WantsStrong(y))
  {
  }

  lemma IncFine(x: Node, h: Held, c: bool, strong: bool, list: bool, ctx: bool)
    requires Fine(x, h, c) && x.refs != {} && (list ==> x.owner.Some?) && (x.internalStrong > 0 ==> c)
    ensures var (y, ok) := IncNode(x, strong, true, list, ctx);
      && y.refs == x.refs
      && (ok ==> Fine(y, h, true) && y.internalStrong == x.internalStrong + One(strong))
      && (!ok ==> y == x)
  {
  }

  lemma DecStrongFine(x: Node, h: Held, c: bool, c': bool)
    requires Fine(x, h, c) && x.refs != {} && x.internalStrong > 0 && (c' ==> c)
    ensures var (y, freed) := DecNode(x, true, true);
      !freed && y.refs == x.refs && y.internalStrong == x.internalStrong - 1 && Fine(y, h, c')
  {
  }

  lemma DecWeakFine(x: Node, h: Held, c: bool, c': bool, r: set<Key>)
    requires Fine(x, h, c) && r <= x.refs && (x.internalStrong > 0 ==> r != {}) && (c' ==> c && r != {})
    ensures var (y, freed) := DecNode(x.(refs := r), false, true);
      && y.refs == r && y.internalStrong == x.internalStrong
      && if freed then Balanced(x.(refs := r), h) else Fine(y, h, c')
  {
  }

  // ---- Steps that leave the refs alone ----------------------------------------------------------

  lemma {:induction false} NodeFine(s: Sys, n: NodeId)
    requires n in s.nodes && NodeOk(s, n)
    ensures Fine(s.nodes[n], HeldOn(s.holders, n), Counted(s.refs, n))
    ensures s.nodes[n].internalStrong > 0 ==> Counted(s.refs, n)
    ensures s.nodes[n].refs == {} ==> forall k :: k in s.refs ==> s.refs[k].node != n
  {
    if Counted(s.refs, n) {
      var k :| k in s.refs && s.refs[k].node == n && (s.refs[k].strong > 0 || s.refs[k].weak > 0);
      assert k in RefsOf(s.refs, n);
    }
    if s.nodes[n].internalStrong > 0 {
      assert Strongs(s.refs, n) != {};
      var k :| k in Strongs(s.refs, n);
    }
    if s.nodes[n].refs == {} {
      forall k | k in s.refs ensures s.refs[k].node != n { assert k !in RefsOf(s.refs, n); }
    }
  }

  /** Nothing is held on a node exactly when no claim names it. */
  lemma {:induction false} NoClaims(holders: Holders, n: NodeId)
    ensures HeldOn(holders, n) == Held(0, 0) <==> forall h :: h in holders ==> holders[h].node != n
  {
    if HeldOn(holders, n) == Held(0, 0) {
      forall h | h in holders ensures holders[h].node != n {
        assert h !in Claims(holders, n, true) && h !in Claims(holders, n, false);
      }
    } else {
      assert Claims(holders, n, true) != {} || Claims(holders, n, false) != {};
      var h :| h in Claims(holders, n, true) || h in Claims(holders, n, false);
      assert h in holders && holders[h].node == n;
    }
  }

  /** Only node `n` and what is held on it change, and its refs are the same. */
  lemma {:induction false} LocalStep(s: Sys, s': Sys, n: NodeId)
    requires Inv(s) && n in s.nodes && s'.refs == s.refs && OnlyAt(s, s', n) && HoldersOk(s')
    requires n in s'.nodes ==>
      && s'.nodes[n].refs == s.nodes[n].refs && s'.nodes[n].internalStrong == s.nodes[n].internalStrong
      && Fine(s'.nodes[n], HeldOn(s'.holders, n), Counted(s.refs, n))
    requires n !in s'.nodes ==> s.nodes[n].refs == {}
    ensures Inv(s')
  {
    assert NodeOk(s, n);
    NodeFine(s, n);
    forall k | k in s'.refs ensures s'.refs[k].node in s'.nodes {
      assert s.refs[k].node in s.nodes;
    }
    SameRefsOk(s, s');
    InvAt(s, s', n);
  }

  /** What a change of the claims on one node needs to keep those of the others in order. */
  lemma {:induction false} ClaimsOk(s: Sys, s': Sys, n: NodeId)
    requires Inv(s) && HoldersOnlyAt(s.holders, s'.holders, n)
    requires forall m :: m in s.nodes && m != n ==> m in s'.nodes
    requires forall h :: h in s'.holders && s'.holders[h].node == n ==>
      n in s'.nodes && (h.Manager? ==> s'.ctx == Some(n))
    requires s'.ctx == s.ctx || (s.ctx == Some(n) && s'.ctx == None)
    ensures HoldersOk(s')
  {
    forall h | h in s'.holders
      ensures s'.holders[h].node in s'.nodes && (h.Manager? ==> s'.ctx == Some(s'.holders[h].node))
    {
      if s'.holders[h].node != n { assert h in s.holders && s.holders[h] == s'.holders[h]; }
    }
  }

  lemma {:induction false} PutKeeps(s: Sys, n: NodeId, holders: Holders, r: (Node, bool))
    requires Inv(s) && n in s.nodes && HoldersOnlyAt(s.holders, holders, n)
    requires forall h :: h in holders && h.Manager? ==> h in s.holders && holders[h] == s.holders[h]
    requires r.0.refs == s.nodes[n].refs && r.0.internalStrong == s.nodes[n].internalStrong
    requires if r.1 then s.nodes[n].refs == {} && HeldOn(holders, n) == Held(0, 0)
             else Fine(r.0, HeldOn(holders, n), Counted(s.refs, n))
    ensures Inv(Put(s.(holders := holders), n, r))
  {
    var s' := Put(s.(holders := holders), n, r);
    NoClaims(holders, n);
    forall h | h in s'.holders && s'.holders[h].node == n ensures n in s'.nodes && (h.Manager? ==> s'.ctx == Some(n)) {
      assert h.Manager? ==> s.holders[h] == holders[h];
    }
    ClaimsOk(s, s', n);
    LocalStep(s, s', n);
  }

  /** One claim more. */
  lemma {:induction false} ClaimAdded(holders: Holders, h: Holder, c: Claim)
    requires h !in holders
    ensures HeldOn(holders[h := c], c.node) == Plus(HeldOn(holders, c.node), c.strong, 1)
    ensures HoldersOnlyAt(holders, holders[h := c], c.node)
  {
    var after := holders[h := c];
    assert Claims(after, c.node, c.strong) == Claims(holders, c.node, c.strong) + {h};
    assert Claims(after, c.node, !c.strong) == Claims(holders, c.node, !c.strong);
  }

  /** One claim fewer. */
  lemma {:induction false} ClaimRemoved(holders: Holders, h: Holder)
    requires h in holders
    ensures var c := holders[h];
      && h in Claims(holders, c.node, c.strong) && Claims(holders, c.node, c.strong) != {}
      && HeldOn(holders - {h}, c.node) == Plus(HeldOn(holders, c.node), c.strong, -1)
      && HoldersOnlyAt(holders, holders - {h}, c.node)
  {
    var c, after := holders[h], holders - {h};
    assert Claims(after, c.node, c.strong) == Claims(holders, c.node, c.strong) - {h};
    assert Claims(after, c.node, !c.strong) == Claims(holders, c.node, !c.strong);
  }

  lemma {:induction false} HoldKeeps(s: Sys, h: Holder, n: NodeId, strong: bool)
    requires Inv(s) && Enabled(s, Hold(h, n, strong))
    ensures Inv(Step(s, Hold(h, n, strong)).0)
  {
    var x := s.nodes[n];
    NodeFine(s, n);
    HoldFine(x, HeldOn(s.holders, n), Counted(s.refs, n), strong, s.ctx == Some(n));
    ClaimAdded(s.holders, h, Claim(n, strong));
    PutKeeps(s, n, s.holders[h := Claim(n, strong)], (IncNode(x, strong, false, false, s.ctx == Some(n)).0, false));
  }

  lemma {:induction false} DropKeeps(s: Sys, h: Holder)
    requires Inv(s) && Enabled(s, Drop(h))
    ensures Inv(Step(s, Drop(h)).0) && Step(s, Drop(h)).1 == Quiet
  {
    var c := s.holders[h];
    var n := c.node;
    NodeFine(s, n);
    ClaimRemoved(s.holders, h);
    OwnerHolds(s, h);
    DropFine(s.nodes[n], HeldOn(s.holders, n), Counted(s.refs, n), c.strong);
    PutKeeps(s, n, s.holders - {h}, DecNode(s.nodes[n], c.strong, false));
  }

  /** Only a node with an owner is held by the driver. */
  lemma {:induction false} OwnerHolds(s: Sys, h: Holder)
    requires Inv(s) && h in s.holders
    ensures s.holders[h].node in s.nodes && s.nodes[s.holders[h].node].owner.Some?
  {
    var n := s.holders[h].node;
    assert NodeOk(s, n);
    NoClaims(s.holders, n);
  }

  lemma {:induction false} DoneKeeps(s: Sys, n: NodeId, strong: bool)
    requires Inv(s) && Enabled(s, Done(n, strong))
    ensures Inv(Step(s, Done(n, strong)).0)
  {
    var x := s.nodes[n];
    NodeFine(s, n);
    DoneFine(x, HeldOn(s.holders, n), Counted(s.refs, n), strong);
    PutKeeps(s, n, s.holders,
      DecNode(if strong then x.(pendingStrong := false) else x.(pendingWeak := false), strong, false));
  }

  lemma {:induction false} ReadKeeps(s: Sys, n: NodeId)
    requires Inv(s) && Enabled(s, ReadWork(n))
    ensures Inv(Step(s, ReadWork(n)).0)
  {
    var (y, _, freed) := ReadNode(s.nodes[n]);
    NodeFine(s, n);
    ReadFine(s.nodes[n], HeldOn(s.holders, n), Counted(s.refs, n));
    PutKeeps(s, n, s.holders, (y, freed));
  }

  lemma {:induction false} DiesKeeps(s: Sys, n: NodeId)
    requires Inv(s) && Enabled(s, OwnerDies(n))
    ensures Inv(Step(s, OwnerDies(n)).0)
  {
    var s' := Step(s, OwnerDies(n)).0;
    assert NodeOk(s, n);
    NodeFine(s, n);
    NoClaims(s'.holders, n);
    ClaimsOk(s, s', n);
    LocalStep(s, s', n);
  }

  // ---- New nodes and new refs ------------------------------------------------------------------------

  lemma {:induction false} NewNodeKeeps(s: Sys, op: Op)
    requires Inv(s) && Enabled(s, op) && (op.NewNode? || op.SetContextManager?)
    ensures Inv(Step(s, op).0)
  {
    var s', id := Step(s, op).0, s.lastId + 1;
    NewNodeHeld(s, op);
    forall k | k in s.refs ensures s.refs[k].node != id {
      assert s.refs[k].node in s.nodes;
    }
    assert RefsOf(s.refs, id) == {} && Strongs(s.refs, id) == {};
    forall n | n in s'.nodes ensures NodeOk(s', n) {
      if n != id {
        assert NodeOk(s, n);
        SameClaims(s.holders, s'.holders, id, n);
      }
    }
    SameRefsOk(s, s');
  }

  /** A new node is held by nobody, or, as context manager, once strongly and once weakly. */
  lemma {:induction false} NewNodeHeld(s: Sys, op: Op)
    requires Inv(s) && Enabled(s, op) && (op.NewNode? || op.SetContextManager?)
    ensures var s' := Step(s, op).0;
      && HoldersOk(s') && HoldersOnlyAt(s.holders, s'.holders, s.lastId + 1)
      && HeldOn(s'.holders, s.lastId + 1) == if op.NewNode? then Held(0, 0) else Held(1, 1)
  {
    var s', id := Step(s, op).0, s.lastId + 1;
    forall h | h in s.holders ensures s.holders[h].node != id && (op.SetContextManager? ==> !h.Manager?) {
      assert s.holders[h].node in s.nodes;
    }
    if op.NewNode? {
      NoClaims(s.holders, id);
    } else {
      assert Claims(s'.holders, id, true) == {Manager(true)} && Claims(s'.holders, id, false) == {Manager(false)};
    }
  }

  lemma {:induction false} AddedRef(refs: Refs, k: Key, n: NodeId)
    requires k !in refs
    ensures var after := refs[k := Ref(n, 0, 0)];
      && RefsOf(after, n) == RefsOf(refs, n) + {k} && Strongs(after, n) == Strongs(refs, n)
      && (Counted(after, n) <==> Counted(refs, n))
  {
    var after := refs[k := Ref(n, 0, 0)];
    if Counted(after, n) {
      var j :| j in after && after[j].node == n && (after[j].strong > 0 || after[j].weak > 0);
      assert j in refs && refs[j] == after[j];
    }
    if Counted(refs, n) {
      var j :| j in refs && refs[j].node == n && (refs[j].strong > 0 || refs[j].weak > 0);
      assert after[j] == refs[j];
    }
  }

  lemma {:induction false} GetRefKeeps(s: Sys, p: Pid, n: NodeId)
    requires Inv(s) && n in s.nodes
    ensures Inv(DoGetRef(s, p, n))
  {
    if !HasRef(s, p, n) {
      NewKeyUnused(s, p, n);
      AddRefKeeps(s, DoGetRef(s, p, n), NewKey(s, p, n), n);
    }
  }

  lemma {:induction false} AddRefKeeps(s: Sys, s': Sys, k: Key, n: NodeId)
    requires Inv(s) && n in s.nodes && k !in s.refs && forall j :: j in s.nodes[n].refs ==> j.proc != k.proc
    requires s'.refs == s.refs[k := Ref(n, 0, 0)]
    requires s'.nodes == s.nodes[n := s.nodes[n].(refs := s.nodes[n].refs + {k})]
    requires s'.holders == s.holders && s'.ctx == s.ctx && s'.lastId == s.lastId
    ensures Inv(s')
  {
    assert NodeOk(s, n);
    AddRefNode(s, s', k, n);
    AddRefRefs(s, s', k, n);
    ClaimsOk(s, s', n);
    AddRefOnly(s, s', k, n);
    InvAt(s, s', n);
  }

  lemma {:induction false} AddRefOnly(s: Sys, s': Sys, k: Key, n: NodeId)
    requires (forall m :: m in s.nodes ==> m <= s.lastId) && n in s.nodes && k !in s.refs
    requires s'.refs == s.refs[k := Ref(n, 0, 0)]
    requires s'.nodes == s.nodes[n := s.nodes[n].(refs := s.nodes[n].refs + {k})]
    requires s'.holders == s.holders && s'.lastId == s.lastId
    ensures OnlyAt(s, s', n)
  {
  }

  lemma {:induction false} AddRefNode(s: Sys, s': Sys, k: Key, n: NodeId)
    requires n in s.nodes && NodeOk(s, n) && k !in s.refs && s'.refs == s.refs[k := Ref(n, 0, 0)]
    requires s'.holders == s.holders && n in s'.nodes && s'.nodes[n] == s.nodes[n].(refs := s.nodes[n].refs + {k})
    ensures NodeOk(s', n)
  {
    NodeFine(s, n);
    AddedRef(s.refs, k, n);
  }

  lemma {:induction false} AddRefRefs(s: Sys, s': Sys, k: Key, n: NodeId)
    requires RefsOk(s) && n in s.nodes && NodeOk(s, n) && k !in s.refs && s'.refs == s.refs[k := Ref(n, 0, 0)]
    requires s'.nodes.Keys == s.nodes.Keys && forall j :: j in s.nodes[n].refs ==> j.proc != k.proc
    ensures RefsOk(s')
  {
    forall j | j in s.refs && j.proc == k.proc ensures s.refs[j].node != n {
      assert j !in RefsOf(s.refs, n);
    }
    forall j | j in s'.refs ensures s'.refs[j].node in s'.nodes {
      if j != k { assert s.refs[j].node in s.nodes; }
    }
  }

  /** A new descriptor is unused, is the least such number at or above its start, and leaves
      smaller ones in use: the BUG() on a duplicate cannot happen. */
  lemma {:induction false} NewKeyUnused(s: Sys, p: Pid, n: NodeId)
    ensures var k := NewKey(s, p, n);
      var start := if s.ctx == Some(n) then 0 else 1;
      && k !in s.refs && k.proc == p && k.desc >= start
      && forall d :: start <= d < k.desc ==> Key(p, d) in s.refs
  {
    var k := NewKey(s, p, n);
    assert k in s.refs ==> k.desc in Descs(s.refs, p);
    forall d | (if s.ctx == Some(n) then 0 else 1) <= d < k.desc ensures Key(p, d) in s.refs {
      assert d in Descs(s.refs, p);
    }
  }

  // ---- Counting refs up and down ------------------------------------------------------------------------

  lemma {:induction false} SwapCount<T>(a: set<T>, b: set<T>, k: T)
    requires a - {k} == b - {k}
    ensures |b| == |a| + One(k in b) - One(k in a)
  {
    assert k in a ==> a == a - {k} + {k};
    assert k in b ==> b == b - {k} + {k};
    assert k !in a ==> a == a - {k};
    assert k !in b ==> b == b - {k};
  }

  lemma {:induction false} RecountStrongs(refs: Refs, k: Key, g: Ref, n: NodeId)
    requires k in refs && refs[k].node == n && g.node == n
    ensures |Strongs(refs[k := g], n)| == |Strongs(refs, n)| + One(g.strong > 0) - One(refs[k].strong > 0)
  {
    var after := refs[k := g];
    assert forall j :: j != k ==> (j in Strongs(after, n) <==> j in Strongs(refs, n));
    SwapCount(Strongs(refs, n), Strongs(after, n), k);
  }

  lemma {:induction false} RecountRefs(refs: Refs, k: Key, g: Ref, n: NodeId)
    requires k in refs && refs[k].node == n && g.node == n && refs[k].strong >= 0 && g.strong >= 0
    ensures RefsOf(refs[k := g], n) == RefsOf(refs, n)
    ensures |Strongs(refs[k := g], n)| == |Strongs(refs, n)| + One(g.strong > 0) - One(refs[k].strong > 0)
    ensures g.strong <= refs[k].strong && g.weak <= refs[k].weak && Counted(refs[k := g], n) ==> Counted(refs, n)
    ensures g.strong > 0 || g.weak > 0 ==> Counted(refs[k := g], n)
  {
    var after := refs[k := g];
    RecountStrongs(refs, k, g, n);
    if g.strong <= refs[k].strong && g.weak <= refs[k].weak && Counted(after, n) {
      var j :| j in after && after[j].node == n && (after[j].strong > 0 || after[j].weak > 0);
      assert j in refs && (refs[j].strong > 0 || refs[j].weak > 0);
    }
    if g.strong > 0 || g.weak > 0 { assert k in after; }
  }

  /** A ref and its node change together, and the counts of the node follow. */
  lemma {:induction false} RecountKeeps(s: Sys, k: Key, g: Ref, y: Node)
    requires Inv(s) && k in s.refs && g.node == s.refs[k].node && g.strong >= 0 && g.weak >= 0
    requires s.refs[k].node in s.nodes
    requires var n := g.node;
      && y.refs == s.nodes[n].refs && y.internalStrong == |Strongs(s.refs[k := g], n)|
      && Fine(y, HeldOn(s.holders, n), Counted(s.refs[k := g], n))
    ensures Inv(s.(nodes := s.nodes[g.node := y], refs := s.refs[k := g]))
  {
    var s' := s.(nodes := s.nodes[g.node := y], refs := s.refs[k := g]);
    var n := g.node;
    assert NodeOk(s, n);
    RecountRefs(s.refs, k, g, n);
    forall j | j in s'.refs ensures s'.refs[j].node in s'.nodes && s'.refs[j].strong >= 0 && s'.refs[j].weak >= 0 {
      assert s.refs[j].node in s.nodes;
    }
    SameRefsOk(s, s');
    InvAt(s, s', n);
  }

  /** The node of a ref counted up from none. */
  lemma {:induction false} CountUpFirst(s: Sys, k: Key, strong: bool, list: bool, g: Ref)
    requires Inv(s) && Enabled(s, IncRef(k, strong, list))
    requires var f := s.refs[k];
      && (if strong then f.strong == 0 else f.weak == 0)
      && g == if strong then f.(strong := f.strong + 1) else f.(weak := f.weak + 1)
    ensures var (y, ok) := IncNode(s.nodes[g.node], strong, true, list, s.ctx == Some(g.node));
      ok ==> Inv(s.(nodes := s.nodes[g.node := y], refs := s.refs[k := g]))
  {
    var n := g.node;
    assert NodeOk(s, n);
    NodeFine(s, n);
    assert k in RefsOf(s.refs, n);
    RecountRefs(s.refs, k, g, n);
    IncFine(s.nodes[n], HeldOn(s.holders, n), Counted(s.refs, n), strong, list, s.ctx == Some(n));
    var (y, ok) := IncNode(s.nodes[n], strong, true, list, s.ctx == Some(n));
    if ok { RecountKeeps(s, k, g, y); }
  }

  lemma {:induction false} CountUpMore(s: Sys, k: Key, strong: bool, g: Ref)
    requires Inv(s) && k in s.refs && s.refs[k].node in s.nodes
    requires var f := s.refs[k];
      && (if strong then f.strong > 0 else f.weak > 0)
      && g == if strong then f.(strong := f.strong + 1) else f.(weak := f.weak + 1)
    ensures Inv(s.(refs := s.refs[k := g]))
  {
    var n := g.node;
    assert NodeOk(s, n);
    NodeFine(s, n);
    RecountRefs(s.refs, k, g, n);
    assert Counted(s.refs, n);
    RecountKeeps(s, k, g, s.nodes[n]);
    assert s.nodes[n := s.nodes[n]] == s.nodes;
  }

  lemma {:induction false} IncRefKeeps(s: Sys, k: Key, strong: bool, list: bool)
    requires Inv(s) && Enabled(s, IncRef(k, strong, list))
    ensures Inv(DoIncRef(s, k, strong, list).0)
  {
    var f, n := s.refs[k], s.refs[k].node;
    var g := if strong then f.(strong := f.strong + 1) else f.(weak := f.weak + 1);
    if (if strong then f.strong == 0 else f.weak == 0) {
      CountUpFirst(s, k, strong, list, g);
    } else {
      assert RefsOk(s) && f.strong >= 0 && f.weak >= 0;
      CountUpMore(s, k, strong, g);
      assert s.nodes[n := s.nodes[n]] == s.nodes;
    }
  }

  lemma {:induction false} RemoveRef(refs: Refs, k: Key, n: NodeId)
    requires k in refs && refs[k].node == n && refs[k].strong >= 0
    ensures RefsOf(refs - {k}, n) == RefsOf(refs, n) - {k}
    ensures |Strongs(refs - {k}, n)| == |Strongs(refs, n)| - One(refs[k].strong > 0)
    ensures Counted(refs - {k}, n) ==> Counted(refs, n) && RefsOf(refs - {k}, n) != {}
    ensures Strongs(refs - {k}, n) <= RefsOf(refs - {k}, n)
  {
    var after := refs - {k};
    assert Strongs(after, n) == Strongs(refs, n) - {k};
    if refs[k].strong > 0 { assert k in Strongs(refs, n); } else { assert Strongs(refs, n) - {k} == Strongs(refs, n); }
    if Counted(after, n) {
      var j :| j in after && after[j].node == n && (after[j].strong > 0 || after[j].weak > 0);
      assert j in refs && refs[j] == after[j] && j in RefsOf(after, n);
    }
  }

  lemma {:induction false} DeleteRefNode(s: Sys, k: Key)
    requires Inv(s) && k in s.refs && s.refs[k].node in s.nodes
    ensures var n := s.refs[k].node;
      var x := s.nodes[n];
      var x1 := if s.refs[k].strong != 0 then DecNode(x, true, true).0 else x;
      var (y, freed) := DecNode(x1.(refs := x.refs - {k}), false, true);
      && DoDeleteRef(s, k) == (Put(s.(refs := s.refs - {k}), n, (y, freed)), Quiet)
      && y.refs == RefsOf(s.refs - {k}, n) && y.internalStrong == |Strongs(s.refs - {k}, n)| 
      && if freed then y.refs == {} && HeldOn(s.holders, n) == Held(0, 0)
          else Fine(y, HeldOn(s.holders, n), Counted(s.refs - {k}, n))
  {
    var f, n := s.refs[k], s.refs[k].node;
    var x, h, c := s.nodes[n], HeldOn(s.holders, n), Counted(s.refs, n);
    assert NodeOk(s, n);
    NodeFine(s, n);
    assert k in RefsOf(s.refs, n);
    RemoveRef(s.refs, k, n);
    if f.strong != 0 {
      assert k in Strongs(s.refs, n);
      DecStrongFine(x, h, c, c);
    }
    var x1 := if f.strong != 0 then DecNode(x, true, true).0 else x;
    DecWeakFine(x1, h, c, Counted(s.refs - {k}, n), x.refs - {k});
    assert s.nodes[n := x1][n] == x1;
    assert x1.refs == x.refs;
    DeleteRefShape(s, k, x1);
  }

  lemma {:induction false} DeleteRefShape(s: Sys, k: Key, x1: Node)
    requires k in s.refs && s.refs[k].node in s.nodes
    requires var x := s.nodes[s.refs[k].node];
      x1 == if s.refs[k].strong != 0 then DecNode(x, true, true).0 else x
    requires s.refs[k].strong != 0 ==> !DecNode(s.nodes[s.refs[k].node], true, true).1
    ensures var n := s.refs[k].node;
      DoDeleteRef(s, k) == (Put(s.(refs := s.refs - {k}), n, DecNode(x1.(refs := x1.refs - {k}), false, true)), Quiet)
  {
    var n := s.refs[k].node;
    var r := DecNode(x1.(refs := x1.refs - {k}), false, true);
    assert s.nodes[n := x1][n := r.0] == s.nodes[n := r.0];
    assert s.nodes[n := x1] - {n} == s.nodes - {n};
  }

  lemma {:induction false} DeleteRefRefs(s: Sys, k: Key, s': Sys)
    requires RefsOk(s) && k in s.refs && s'.refs == s.refs - {k}
    requires forall m :: m in s.nodes && m != s.refs[k].node ==> m in s'.nodes
    requires s.refs[k].node in s'.nodes || RefsOf(s.refs - {k}, s.refs[k].node) == {}
    ensures RefsOk(s')
  {
    var n := s.refs[k].node;
    forall j | j in s'.refs ensures s'.refs[j].node in s'.nodes && s'.refs[j].strong >= 0 && s'.refs[j].weak >= 0 {
      assert s.refs[j].node in s.nodes;
      if s'.refs[j].node == n { assert j in RefsOf(s.refs - {k}, n); }
    }
    SameRefsOk(s, s');
  }

  lemma {:induction false} DeleteRefKeeps(s: Sys, k: Key)
    requires Inv(s) && k in s.refs && s.refs[k].node in s.nodes
    ensures Inv(DoDeleteRef(s, k).0) && DoDeleteRef(s, k).1 == Quiet
  {
    DeleteRefNode(s, k);
    var n, s' := s.refs[k].node, DoDeleteRef(s, k).0;
    DeletedKeeps(s, k, s');
  }

  lemma {:induction false} DeletedKeeps(s: Sys, k: Key, s': Sys)
    requires Inv(s) && k in s.refs && s.refs[k].node in s.nodes
    requires s'.refs == s.refs - {k} && s'.holders == s.holders && s'.ctx == s.ctx && s'.lastId == s.lastId
    requires var n := s.refs[k].node;
      if n in s'.nodes
      then
        && s'.nodes == s.nodes[n := s'.nodes[n]] && s'.nodes[n].refs == RefsOf(s'.refs, n)
        && s'.nodes[n].internalStrong == |Strongs(s'.refs, n)|
        && Fine(s'.nodes[n], HeldOn(s.holders, n), Counted(s'.refs, n))
      else s'.nodes == s.nodes - {n} && RefsOf(s'.refs, n) == {} && HeldOn(s.holders, n) == Held(0, 0)
    ensures Inv(s')
  {
    var n := s.refs[k].node;
    NoClaims(s.holders, n);
    ClaimsOk(s, s', n);
    DeleteRefRefs(s, k, s');
    InvAt(s, s', n);
  }

  /** Counting a ref down, before it is deleted or not. */
  lemma {:induction false} CountDown(s: Sys, k: Key, strong: bool, g: Ref, y: Node)
    requires Inv(s) && k in s.refs && s.refs[k].node in s.nodes
    requires var f := s.refs[k];
      && (if strong then f.strong > 0 else f.weak > 0)
      && g == (if strong then f.(strong := f.strong - 1) else f.(weak := f.weak - 1))
      && y == if strong && g.strong == 0 then DecNode(s.nodes[f.node], true, true).0 else s.nodes[f.node]
    ensures Inv(s.(nodes := s.nodes[g.node := y], refs := s.refs[k := g]))
    ensures strong && g.strong == 0 ==> !DecNode(s.nodes[g.node], true, true).1
  {
    var n := g.node;
    assert NodeOk(s, n);
    NodeFine(s, n);
    RecountRefs(s.refs, k, g, n);
    assert k in RefsOf(s.refs, n);
    if strong && g.strong == 0 {
      assert k in Strongs(s.refs, n);
      DecStrongFine(s.nodes[n], HeldOn(s.holders, n), Counted(s.refs, n), Counted(s.refs[k := g], n));
    }
    RecountKeeps(s, k, g, y);
  }

  lemma {:induction false} DecRefKeeps(s: Sys, k: Key, strong: bool)
    requires Inv(s) && k in s.refs && s.refs[k].node in s.nodes
    ensures Inv(DoDecRef(s, k, strong).0) && DoDecRef(s, k, strong).1 != UseAfterFree
  {
    var f, n := s.refs[k], s.refs[k].node;
    assert s.nodes[n := s.nodes[n]] == s.nodes;
    if (if strong then f.strong != 0 else f.weak != 0) {
      assert RefsOk(s) && f.strong >= 0 && f.weak >= 0;
      var g := if strong then f.(strong := f.strong - 1) else f.(weak := f.weak - 1);
      var y := if strong && g.strong == 0 then DecNode(s.nodes[n], true, true).0 else s.nodes[n];
      CountDown(s, k, strong, g, y);
      if g.strong == 0 && g.weak == 0 {
        DeleteRefKeeps(s.(nodes := s.nodes[n := y], refs := s.refs[k := g]), k);
      }
    }
  }

  lemma {:induction false} DecRefClaims(s: Sys, k: Key, strong: bool)
    requires k in s.refs && s.refs[k].node in s.nodes
    ensures DoDecRef(s, k, strong).0.holders == s.holders
  {
  }

  // ---- Every step, every run ------------------------------------------------------------------------------

  lemma {:induction false} StepKeeps(s: Sys, op: Op)
    requires Inv(s)
    ensures Inv(Step(s, op).0) && Step(s, op).1 != UseAfterFree
  {
    if Enabled(s, op) {
      match op
      case NewNode(_) => NewNodeKeeps(s, op);
      case SetContextManager(_) => NewNodeKeeps(s, op);
      case GetRef(p, n) => GetRefKeeps(s, p, n);
      case IncRef(k, strong, list) => IncRefKeeps(s, k, strong, list);
      case DecRef(k, strong) => DecRefKeeps(s, k, strong);
      case DeleteRef(k) => DeleteRefKeeps(s, k);
      case Hold(h, n, strong) => HoldKeeps(s, h, n, strong);
      case Drop(h) => DropKeeps(s, h);
      case ReadWork(n) => ReadKeeps(s, n);
      case Done(n, strong) => DoneKeeps(s, n, strong);
      case OwnerDies(n) => DiesKeeps(s, n);
    }
  }
}
