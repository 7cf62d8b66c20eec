// The driver's reference counting on its own structs: nodes whose counts and flags are written
// field by field, and refs that point at them. Each operation is proved to make the step of
// NodeRefs.Step that bears its name.
module RefDriver {
  import opened Base
  import opened NodeRefs
  import opened NodeRefProofs

  /** `ds` lists the descriptors of process `p` in increasing order. */
  ghost predicate Lists(ds: seq<nat>, used: set<nat>) {
    && (forall i, j :: 0 <= i < j < |ds| ==> ds[i] < ds[j])
    && (forall d :: d in ds <==> d in used)
  }

  lemma LeastFreeIs(used: set<nat>, start: nat, d: nat)
    requires start <= d && d !in used && forall x :: start <= x < d ==> x in used
    ensures d == LeastFree(used, start)
  {
    var r := LeastFree(used, start);
    assert start <= d < r ==> d in used;
    assert start <= r < d ==> r in used;
  }

  /** Walks the tree of refs by descriptor in order, stopping at the first gap. */
  method FreeDesc(ds: seq<nat>, start: nat, ghost used: set<nat>) returns (d: nat, at: nat)
    requires Lists(ds, used) && start <= 1
    ensures d == LeastFree(used, start)
    ensures at <= |ds| && (forall i :: 0 <= i < at ==> ds[i] < d) && (forall i :: at <= i < |ds| ==> d < ds[i])
  {
    d, at := start, 0;
    while at < |ds|
      invariant at <= |ds| && start <= d
      invariant if at == 0 then d == start else d == ds[at - 1] + 1
      invariant forall x :: start <= x < d ==> x in used
    {
      assert ds[at] in ds;
      if ds[at] > d { break; }
      d, at := ds[at] + 1, at + 1;
    }
    assert d !in ds;
    LeastFreeIs(used, start, d);
  }

  lemma ListsInsert(ds: seq<nat>, used: set<nat>, d: nat, at: nat)
    requires Lists(ds, used) && at <= |ds|
    requires (forall i :: 0 <= i < at ==> ds[i] < d) && (forall i :: at <= i < |ds| ==> d < ds[i])
    ensures Lists(ds[..at] + [d] + ds[at..], used + {d})
  {
    var es := ds[..at] + [d] + ds[at..];
    forall x ensures x in es <==> x in used + {d} {
      assert ds == ds[..at] + ds[at..];
      assert x in es <==> x in ds[..at] || x == d || x in ds[at..];
    }
  }

  lemma ListsRemove(ds: seq<nat>, used: set<nat>, at: nat)
    requires Lists(ds, used) && at < |ds|
    ensures Lists(ds[..at] + ds[at + 1..], used - {ds[at]})
  {
    var es := ds[..at] + ds[at + 1..];
    forall x ensures x in es <==> x in used - {ds[at]} {
      assert ds == ds[..at] + [ds[at]] + ds[at + 1..];
      assert x in es <==> x in ds[..at] || x in ds[at + 1..];
    }
  }

  function ListOf(byDesc: map<Pid, seq<nat>>, p: Pid): seq<nat> {
    if p in byDesc then byDesc[p] else []
  }

  /** The two indexes of every process hold the same refs. */
  ghost predicate Indexed(byDesc: map<Pid, seq<nat>>, refs: map<Key, Ref>) {
    forall p {:trigger Descs(refs, p)} :: Lists(ListOf(byDesc, p), Descs(refs, p))
  }

  lemma IndexedInsert(byDesc: map<Pid, seq<nat>>, refs: map<Key, Ref>, k: Key, f: Ref, at: nat)
    requires Indexed(byDesc, refs) && at <= |ListOf(byDesc, k.proc)|
    requires forall i :: 0 <= i < at ==> ListOf(byDesc, k.proc)[i] < k.desc
    requires forall i :: at <= i < |ListOf(byDesc, k.proc)| ==> k.desc < ListOf(byDesc, k.proc)[i]
    ensures var ds := ListOf(byDesc, k.proc);
      Indexed(byDesc[k.proc := ds[..at] + [k.desc] + ds[at..]], refs[k := f])
  {
    assert Lists(ListOf(byDesc, k.proc), Descs(refs, k.proc));
    ListsInsert(ListOf(byDesc, k.proc), Descs(refs, k.proc), k.desc, at);
    AddDesc(refs, k, f);
    var ds, refs' := ListOf(byDesc, k.proc), refs[k := f];
    var byDesc' := byDesc[k.proc := ds[..at] + [k.desc] + ds[at..]];
    forall p ensures Lists(ListOf(byDesc', p), Descs(refs', p)) { assert Lists(ListOf(byDesc, p), Descs(refs, p)); }
  }

  lemma IndexedRemove(byDesc: map<Pid, seq<nat>>, refs: map<Key, Ref>, k: Key, at: nat)
    requires Indexed(byDesc, refs) && k in refs && at < |ListOf(byDesc, k.proc)| && ListOf(byDesc, k.proc)[at] == k.desc
    ensures var ds := ListOf(byDesc, k.proc);
      Indexed(byDesc[k.proc := ds[..at] + ds[at + 1..]], refs - {k})
  {
    assert Lists(ListOf(byDesc, k.proc), Descs(refs, k.proc));
    ListsRemove(ListOf(byDesc, k.proc), Descs(refs, k.proc), at);
    DropDesc(refs, k);
    var ds, refs' := ListOf(byDesc, k.proc), refs - {k};
    var byDesc' := byDesc[k.proc := ds[..at] + ds[at + 1..]];
    forall p ensures Lists(ListOf(byDesc', p), Descs(refs', p)) { assert Lists(ListOf(byDesc, p), Descs(refs, p)); }
  }

  /** struct binder_node. */
  class NodeStruct {
    const id: NodeId
    var owner: Option<Pid>
    var internalStrong: int
    var localWeak: int
    var localStrong: int
    var hasStrong: bool
    var pendingStrong: bool
    var hasWeak: bool
    var pendingWeak: bool
    var queued: bool
    var refs: set<Key>

    constructor (id: NodeId, p: Pid)
      ensures this.id == id && Value() == NodeFor(p)
    {
      this.id, owner := id, Some(p);
      internalStrong, localWeak, localStrong := 0, 0, 0;
      hasStrong, pendingStrong, hasWeak, pendingWeak := false, false, false, false;
      queued, refs := false, {};
    }

    ghost function Value(): Node
      reads this
    {
      Node(owner, internalStrong, localWeak, localStrong, hasStrong, pendingStrong, hasWeak, pendingWeak, queued, refs)
    }

    /** binder_inc_node: exactly one count goes up, or, for a weak count of a ref, none; the node
        is queued only if there is a list to put it on. */
    method Inc(strong: bool, internal: bool, list: bool, manager: bool) returns (ok: bool)
      modifies this
      ensures (Value(), ok) == NodeRefs.IncNode(old(Value()), strong, internal, list, manager)
      ensures internalStrong + localStrong + localWeak - old(internalStrong + localStrong + localWeak) ==
        if internal then One(strong && ok) else 1
      ensures queued != old(queued) ==> list && queued
    {
      ok := true;
      if strong {
        if internal {
          if !list && internalStrong == 0 && !(manager && hasStrong) { return false; }
          internalStrong := internalStrong + 1;
        } else {
          localStrong := localStrong + 1;
        }
        if !hasStrong && list { queued := true; }
      } else {
        if !internal { localWeak := localWeak + 1; }
        if !hasWeak && !queued {
          if list { queued := true; } else { ok := false; }
        }
      }
    }

    /** binder_dec_node, up to freeing: one count goes down, or none; a node that is to go has no
        refs and no local counts left, and one whose owner believes in it is not. */
    method Dec(strong: bool, internal: bool) returns (freed: bool)
      modifies this
      ensures (Value(), freed) == NodeRefs.DecNode(old(Value()), strong, internal)
      ensures internalStrong + localStrong + localWeak - old(internalStrong + localStrong + localWeak) ==
        if internal && !strong then 0 else -1
      ensures freed ==> refs == {} && localStrong == 0 && localWeak == 0 && (owner.None? || (!hasStrong && !hasWeak))
    {
      if strong {
        if internal { internalStrong := internalStrong - 1; } else { localStrong := localStrong - 1; }
        if localStrong != 0 || internalStrong != 0 { return false; }
      } else {
        if !internal { localWeak := localWeak - 1; }
        if localWeak != 0 || refs != {} { return false; }
      }
      if owner.Some? && (hasStrong || hasWeak) {
        if !queued { queued := true; }
        return false;
      }
      return refs == {} && localStrong == 0 && localWeak == 0;
    }

    /** The BINDER_WORK_NODE case of binder_thread_read: a command for the owner, or the work item
        is taken off its list; and whether the node goes with it. */
    method Tell() returns (cmd: Option<Cmd>, freed: bool)
      modifies this
      ensures (Value(), cmd, freed) == ReadNode(old(Value()))
      ensures cmd.Some? ==> queued == old(queued) && (hasWeak, hasStrong) != (old(hasWeak), old(hasStrong))
      ensures cmd.None? ==> !queued && (hasWeak, hasStrong) == (old(hasWeak), old(hasStrong))
    {
      var strong := internalStrong != 0 || localStrong != 0;
      var weak := refs != {} || localWeak != 0 || strong;
      cmd, freed := None, false;
      if weak && !hasWeak {
        cmd := Some(Increfs);
        hasWeak := true;
        pendingWeak := true;
        localWeak := localWeak + 1;
      } else if strong && !hasStrong {
        cmd := Some(Acquire);
        hasStrong := true;
        pendingStrong := true;
        localStrong := localStrong + 1;
      } else if !strong && hasStrong {
        cmd := Some(Release);
        hasStrong := false;
      } else if !weak && hasWeak {
        cmd := Some(Decrefs);
        hasWeak := false;
      } else {
        queued := false;
        freed := !weak && !strong;
      }
    }

    /** The references a context manager starts with. */
    method HoldFirst()
      modifies this
      ensures var v := old(Value());
        Value() ==
          v.(localWeak := v.localWeak + 1, localStrong := v.localStrong + 1, hasStrong := true, hasWeak := true)
    {
      localWeak := localWeak + 1;
      localStrong := localStrong + 1;
      hasStrong := true;
      hasWeak := true;
    }

    /** binder_node_release of a node that has refs. */
    method Orphan()
      modifies this
      ensures Value() == old(Value()).(owner := None, localStrong := 0, localWeak := 0, queued := false)
    {
      queued := false;
      owner := None;
      localStrong := 0;
      localWeak := 0;
    }
  }

  /** struct binder_ref. */
  class RefStruct {
    const key: Key
    const node: NodeStruct
    var strong: int
    var weak: int

    constructor (key: Key, node: NodeStruct)
      ensures this.key == key && this.node == node && Value() == Ref(node.id, 0, 0)
    {
      this.key, this.node, strong, weak := key, node, 0, 0;
    }

    ghost function Value(): Ref
      reads this
    {
      Ref(node.id, strong, weak)
    }
  }

  class Driver {
    /** Every node and ref that is allocated, and each process's descriptors in order. */
    var nodes: map<NodeId, NodeStruct>
    var refs: map<Key, RefStruct>
    var byDesc: map<Pid, seq<nat>>
    var ctx: Option<NodeId>
    var lastId: nat
    /** The structs as values, kept up to date with them, and who holds what. */
    ghost var nodeView: map<NodeId, Node>
    ghost var refView: map<Key, Ref>
    ghost var holders: map<Holder, Claim>

    ghost function State(): Sys
      reads this
    {
      Sys(nodeView, refView, holders, ctx, lastId)
    }

    ghost predicate Ordered()
      reads this`byDesc, this`refView
    {
      Indexed(byDesc, refView)
    }

    ghost predicate NodeLinked(n: NodeId)
      requires n in nodes
      reads this`nodes, this`nodeView, this`lastId, nodes[n]
    {
      nodes[n].id == n && n <= lastId && n in nodeView && nodeView[n] == nodes[n].Value()
    }

    /** A pointer to a node that is allocated is to that very struct. */
    ghost predicate RefLinked(k: Key)
      requires k in refs
      reads this`refs, this`refView, this`nodes, this`lastId, refs[k]
    {
      var f := refs[k];
      && f.key == k && k in refView && refView[k] == f.Value()
      && f.node.id <= lastId && (f.node.id in nodes ==> nodes[f.node.id] == f.node)
    }

    ghost predicate Linked()
      reads this`nodes, this`refs, this`nodeView, this`refView, this`lastId, nodes.Values, refs.Values
    {
      && nodeView.Keys == nodes.Keys && (forall n {:trigger NodeLinked(n)} :: n in nodes ==> NodeLinked(n))
      && refView.Keys == refs.Keys && (forall k {:trigger RefLinked(k)} :: k in refs ==> RefLinked(k))
    }

    ghost predicate Has(x: NodeStruct)
      reads this`nodes, this`nodeView, this`lastId, x
    {
      x.id in nodes && nodes[x.id] == x && NodeLinked(x.id)
    }

    ghost predicate HasRefTo(f: RefStruct)
      reads this`refs, this`refView, this`nodes, this`lastId, f
    {
      f.key in refs && refs[f.key] == f && RefLinked(f.key)
    }

    ghost predicate Valid()
      reads this, nodes.Values, refs.Values
    {
      Linked() && Ordered() && Inv(State())
    }

    constructor ()
      ensures Valid() && State() == EMPTY
    {
      nodes, refs, byDesc, ctx, lastId := map[], map[], map[], None, 0;
      nodeView, refView, holders := map[], map[], map[];
    }

    // ---- Single writes --------------------------------------------------------------------

    /** Only one node was written to. */
    twostate lemma NodeWritten(x: NodeStruct)
      requires old(Linked()) && old(Has(x)) && nodes == old(nodes) && refs == old(refs) && lastId == old(lastId)
      requires refView == old(refView) && nodeView == old(nodeView)[x.id := x.Value()]
      requires forall n :: n in nodes && nodes[n] != x ==> unchanged(nodes[n])
      requires forall k :: k in refs ==> unchanged(refs[k])
      ensures Linked()
    {
      forall n | n in nodes ensures NodeLinked(n) { assert old(NodeLinked(n)); }
      forall k | k in refs ensures RefLinked(k) { assert old(RefLinked(k)); }
    }

    method MakeNode(p: Pid) returns (x: NodeStruct)
      requires Linked()
      modifies this`nodes, this`nodeView, this`lastId
      ensures Linked() && fresh(x) && x.id == lastId == old(lastId) + 1 && Has(x)
      ensures nodes == old(nodes)[x.id := x] && nodeView == old(nodeView)[x.id := NodeFor(p)]
    {
      lastId := lastId + 1;
      x := new NodeStruct(lastId, p);
      nodes := nodes[lastId := x];
      nodeView := nodeView[lastId := x.Value()];
      forall n | n in nodes ensures NodeLinked(n) { assert n != x.id ==> old(NodeLinked(n)); }
      forall k | k in refs ensures RefLinked(k) { assert old(RefLinked(k)); }
    }

    /** kfree. */
    method FreeNode(x: NodeStruct)
      requires Linked() && Has(x)
      modifies this`nodes, this`nodeView
      ensures Linked() && nodes == old(nodes) - {x.id} && nodeView == old(nodeView) - {x.id}
    {
      nodes := nodes - {x.id};
      nodeView := nodeView - {x.id};
      forall n | n in nodes ensures NodeLinked(n) { assert old(NodeLinked(n)); }
      forall k | k in refs ensures RefLinked(k) { assert old(RefLinked(k)); }
    }

    method SetRef(f: RefStruct, strong: int, weak: int)
      requires Linked() && Ordered() && HasRefTo(f)
      modifies f`strong, f`weak, this`refView
      ensures Linked() && Ordered() && f.strong == strong && f.weak == weak
      ensures refView == old(refView)[f.key := Ref(f.node.id, strong, weak)]
    {
      f.strong, f.weak := strong, weak;
      refView := refView[f.key := f.Value()];
      SameDescs(old(refView), refView);
      forall n | n in nodes ensures NodeLinked(n) { assert old(NodeLinked(n)); }
      forall k | k in refs ensures RefLinked(k) { assert old(RefLinked(k)); }
    }

    /** The ref is put in both indexes of its process. */
    method MakeRef(k: Key, x: NodeStruct, at: nat) returns (f: RefStruct)
      requires Linked() && Ordered() && Has(x) && k !in refs && at <= |ListOf(byDesc, k.proc)|
      requires forall i :: 0 <= i < at ==> ListOf(byDesc, k.proc)[i] < k.desc
      requires forall i :: at <= i < |ListOf(byDesc, k.proc)| ==> k.desc < ListOf(byDesc, k.proc)[i]
      modifies this`refs, this`refView, this`byDesc
      ensures Linked() && Ordered() && fresh(f) && f.key == k && f.node == x && HasRefTo(f)
      ensures refs == old(refs)[k := f] && refView == old(refView)[k := Ref(x.id, 0, 0)]
    {
      var ds := ListOf(byDesc, k.proc);
      IndexedInsert(byDesc, refView, k, Ref(x.id, 0, 0), at);
      f := new RefStruct(k, x);
      refs := refs[k := f];
      refView := refView[k := f.Value()];
      byDesc := byDesc[k.proc := ds[..at] + [k.desc] + ds[at..]];
      forall n | n in nodes ensures NodeLinked(n) { assert old(NodeLinked(n)); }
      forall j | j in refs ensures RefLinked(j) { assert j != k ==> old(RefLinked(j)); }
    }

    /** The ref comes out of both indexes. */
    method FreeRef(f: RefStruct)
      requires Linked() && Ordered() && HasRefTo(f)
      modifies this`refs, this`refView, this`byDesc
      ensures Linked() && Ordered() && refs == old(refs) - {f.key} && refView == old(refView) - {f.key}
    {
      var k := f.key;
      assert k.desc in Descs(refView, k.proc) && Lists(ListOf(byDesc, k.proc), Descs(refView, k.proc));
      var ds := ListOf(byDesc, k.proc);
      var at :| 0 <= at < |ds| && ds[at] == k.desc;
      IndexedRemove(byDesc, refView, k, at);
      byDesc := byDesc[k.proc := ds[..at] + ds[at + 1..]];
      refs := refs - {k};
      refView := refView - {k};
      forall n | n in nodes ensures NodeLinked(n) { assert old(NodeLinked(n)); }
      forall j | j in refs ensures RefLinked(j) { assert old(RefLinked(j)); }
    }

    // ---- Nodes ------------------------------------------------------------------------------

    /** binder_new_node. */
    method NewNode(p: Pid) returns (x: NodeStruct)
      requires Valid()
      modifies this
      ensures Valid() && State() == Step(old(State()), Op.NewNode(p)).0 && Has(x) && x.id !in old(nodes)
    {
      StepKeeps(State(), Op.NewNode(p));
      assert old(Inv(State()));
      x := MakeNode(p);
    }

    /** BINDER_SET_CONTEXT_MGR: a new node with references of its own, unless there is one. */
    method BecomeContextManager(p: Pid) returns (ok: bool)
      requires Valid()
      modifies this
      ensures Valid() && State() == Step(old(State()), SetContextManager(p)).0 && ok == old(ctx).None?
    {
      StepKeeps(State(), SetContextManager(p));
      ok := ctx.None?;
      if ok { Manage(p); }
    }

    method Manage(p: Pid)
      requires Linked()
      modifies this`nodes, this`nodeView, this`lastId, this`ctx, this`holders
      ensures Linked() && ctx == Some(lastId) && lastId == old(lastId) + 1
      ensures nodeView == old(nodeView)[lastId :=
        NodeFor(p).(localWeak := 1, localStrong := 1, hasStrong := true, hasWeak := true)]
      ensures holders == old(holders)[Manager(true) := Claim(lastId, true)][Manager(false) := Claim(lastId, false)]
    {
      var x := MakeNode(p);
      HoldNew(x);
      Rewritten(old(nodeView), x.id, NodeFor(p));
      ctx := Some(x.id);
      holders := holders[Manager(true) := Claim(x.id, true)][Manager(false) := Claim(x.id, false)];
    }

    method HoldNew(x: NodeStruct)
      requires Linked() && Has(x)
      modifies x, this`nodeView
      ensures Linked()
      ensures var v := old(x.Value());
        nodeView == old(nodeView)[x.id :=
          v.(localWeak := v.localWeak + 1, localStrong := v.localStrong + 1, hasStrong := true, hasWeak := true)]
    {
      x.HoldFirst();
      nodeView := nodeView[x.id := x.Value()];
      NodeWritten(x);
    }

    method IncNode(x: NodeStruct, strong: bool, internal: bool, list: bool) returns (ok: bool)
      requires Linked() && Has(x)
      modifies x, this`nodeView
      ensures Linked() && Has(x)
      ensures var r := NodeRefs.IncNode(old(x.Value()), strong, internal, list, ctx == Some(x.id));
        nodeView == old(nodeView)[x.id := r.0] && ok == r.1
    {
      ok := x.Inc(strong, internal, list, ctx == Some(x.id));
      nodeView := nodeView[x.id := x.Value()];
      NodeWritten(x);
    }

    method DecNode(x: NodeStruct, strong: bool, internal: bool)
      requires Linked() && Has(x)
      modifies x, this`nodes, this`nodeView
      ensures Linked() && (x.id in nodes ==> Has(x))
      ensures State() == Put(old(State()), x.id, NodeRefs.DecNode(old(x.Value()), strong, internal))
    {
      var freed := x.Dec(strong, internal);
      Rewritten(nodeView, x.id, x.Value());
      nodeView := nodeView[x.id := x.Value()];
      NodeWritten(x);
      if freed { FreeNode(x); }
    }

    /** The local references of buffers: taken and given back through binder_inc_node and
        binder_dec_node with internal 0. */
    method Hold(h: Holder, x: NodeStruct, strong: bool)
      requires Valid() && Has(x) && x.owner.Some? && h !in holders && !h.Manager?
      modifies this, x
      ensures Valid() && State() == Step(old(State()), Op.Hold(h, x.id, strong)).0
    {
      StepKeeps(State(), Op.Hold(h, x.id, strong));
      TakeCount(h, x, strong);
    }

    method TakeCount(h: Holder, x: NodeStruct, strong: bool)
      requires Linked() && Has(x)
      modifies x, this`nodeView, this`holders
      ensures Linked() && holders == old(holders)[h := Claim(x.id, strong)]
      ensures nodeView ==
        old(nodeView)[x.id := NodeRefs.IncNode(old(x.Value()), strong, false, false, ctx == Some(x.id)).0]
    {
      var _ := IncNode(x, strong, false, false);
      holders := holders[h := Claim(x.id, strong)];
    }

    /** A buffer gives back its count on `x`, the node it points at, which is still there. */
    method Drop(h: Holder, x: NodeStruct, strong: bool)
      requires Valid() && h in holders && !h.Manager? && holders[h] == Claim(x.id, strong)
      requires x.id in nodes ==> nodes[x.id] == x
      modifies this, x
      ensures Valid() && Step(old(State()), Op.Drop(h)) == (State(), Quiet) && x.id in old(nodes)
    {
      StepKeeps(State(), Op.Drop(h));
      OwnerHolds(State(), h);
      assert NodeLinked(x.id);
      GiveCount(h, x, strong);
    }

    method GiveCount(h: Holder, x: NodeStruct, strong: bool)
      requires Linked() && Has(x) && h in holders && holders[h] == Claim(x.id, strong)
      modifies x, this`nodes, this`nodeView, this`holders
      ensures Linked() && (State(), Quiet) == DoDrop(old(State()), h)
    {
      DecNode(x, strong, false);
      holders := holders - {h};
    }

    // ---- Refs -------------------------------------------------------------------------------

    /** binder_get_ref_for_node: the process's ref for the node, made with the least free
        descriptor if it has none; a duplicate descriptor cannot come up. */
    method GetRef(p: Pid, x: NodeStruct) returns (f: RefStruct)
      requires Valid() && Has(x)
      modifies this, x`refs
      ensures Valid() && State() == Step(old(State()), Op.GetRef(p, x.id)).0
      ensures HasRefTo(f) && f.key.proc == p && f.node == x && f.key in x.refs
    {
      StepKeeps(State(), Op.GetRef(p, x.id));
      assert NodeOk(State(), x.id);
      f := FindRef(p, x);
    }

    method FindRef(p: Pid, x: NodeStruct) returns (f: RefStruct)
      requires Linked() && Ordered() && Has(x) && x.refs == RefsOf(refView, x.id)
      modifies x`refs, this`refs, this`refView, this`nodeView, this`byDesc
      ensures Linked() && Ordered() && State() == DoGetRef(old(State()), p, x.id)
      ensures HasRefTo(f) && f.key.proc == p && f.node == x && f.key in x.refs
    {
      var have := set j | j in x.refs && j.proc == p;
      assert forall j :: j in x.refs && j.proc == p ==> j in have;
      if have != {} {
        var k :| k in have;
        f := refs[k];
        assert RefLinked(k);
      } else {
        f := AddRef(p, x);
      }
    }

    method AddRef(p: Pid, x: NodeStruct) returns (f: RefStruct)
      requires Linked() && Ordered() && Has(x) && !NodeRefs.HasRef(State(), p, x.id)
      modifies x`refs, this`refs, this`refView, this`nodeView, this`byDesc
      ensures Linked() && Ordered() && State() == DoGetRef(old(State()), p, x.id)
      ensures HasRefTo(f) && f.key == NewKey(old(State()), p, x.id) && f.node == x && f.key in x.refs
    {
      NewKeyUnused(State(), p, x.id);
      assert Lists(ListOf(byDesc, p), Descs(refView, p));
      var d, at := FreeDesc(ListOf(byDesc, p), if ctx == Some(x.id) then 0 else 1, Descs(refView, p));
      f := MakeRef(Key(p, d), x, at);
      AddToList(x, f.key);
    }

    /** hlist_add_head and hlist_del. */
    method AddToList(x: NodeStruct, k: Key)
      requires Linked() && Has(x)
      modifies x`refs, this`nodeView
      ensures Linked() && Has(x) && x.refs == old(x.refs) + {k}
      ensures nodeView == old(nodeView)[x.id := old(nodeView)[x.id].(refs := old(x.refs) + {k})]
    {
      x.refs := x.refs + {k};
      nodeView := nodeView[x.id := x.Value()];
      NodeWritten(x);
    }

    method DropFromList(x: NodeStruct, k: Key)
      requires Linked() && Has(x)
      modifies x`refs, this`nodeView
      ensures Linked() && Has(x)
      ensures nodeView == old(nodeView)[x.id := old(nodeView)[x.id].(refs := old(x.refs) - {k})]
    {
      x.refs := x.refs - {k};
      nodeView := nodeView[x.id := x.Value()];
      NodeWritten(x);
    }

    /** No ref of a valid driver dangles. */
    lemma NodeIsThere(f: RefStruct)
      requires Valid() && HasRefTo(f)
      ensures Has(f.node)
    {
      assert refView[f.key].node in nodeView && NodeLinked(f.node.id);
    }

    /** binder_inc_ref. */
    method IncRef(f: RefStruct, strong: bool, list: bool) returns (ok: bool)
      requires Valid() && HasRefTo(f) && (list ==> f.node.owner.Some?)
      modifies this, f, f.node
      ensures Valid() && Step(old(State()), Op.IncRef(f.key, strong, list)) == (State(), if ok then Quiet else Refused)
      ensures f.strong == old(f.strong) + One(ok && strong) && f.weak == old(f.weak) + One(ok && !strong)
    {
      NodeIsThere(f);
      StepKeeps(State(), Op.IncRef(f.key, strong, list));
      ok := CountRef(f, strong, list);
    }

    method CountRef(f: RefStruct, strong: bool, list: bool) returns (ok: bool)
      requires Linked() && Ordered() && HasRefTo(f) && Has(f.node)
      modifies this`nodeView, this`refView, f, f.node
      ensures Linked() && Ordered()
      ensures DoIncRef(old(State()), f.key, strong, list) == (State(), if ok then Quiet else Refused)
      ensures f.strong == old(f.strong) + One(ok && strong) && f.weak == old(f.weak) + One(ok && !strong)
    {
      ok := true;
      assert nodeView[f.node.id := nodeView[f.node.id]] == nodeView;
      if (if strong then f.strong == 0 else f.weak == 0) {
        ok := IncNode(f.node, strong, true, list);
      }
      if ok {
        SetRef(f, if strong then f.strong + 1 else f.strong, if strong then f.weak else f.weak + 1);
      }
    }

    /** binder_delete_ref. The node is still there when the ref comes off its list. */
    method DeleteRef(f: RefStruct)
      requires Valid() && HasRefTo(f)
      modifies this, f.node
      ensures Valid() && Step(old(State()), Op.DeleteRef(f.key)) == (State(), Quiet)
    {
      NodeIsThere(f);
      StepKeeps(State(), Op.DeleteRef(f.key));
      Remove(f);
    }

    /** The body of binder_delete_ref, which binder_dec_ref also runs. */
    method Remove(f: RefStruct)
      requires Linked() && Ordered() && HasRefTo(f) && Has(f.node) && DoDeleteRef(State(), f.key).1 == Quiet
      modifies this`nodes, this`nodeView, this`refs, this`refView, this`byDesc, f.node
      ensures Linked() && Ordered() && (State(), Quiet) == DoDeleteRef(old(State()), f.key)
    {
      var x := f.node;
      FreeRef(f);
      if f.strong != 0 { DecNode(x, true, true); }
      Rewritten(nodeView, x.id, x.Value().(refs := x.refs - {f.key}));
      DropFromList(x, f.key);
      DecNode(x, false, true);
    }

    /** binder_dec_ref. */
    method DecRef(f: RefStruct, strong: bool) returns (ok: bool)
      requires Valid() && HasRefTo(f)
      modifies this, f, f.node
      ensures Valid() && Step(old(State()), Op.DecRef(f.key, strong)) == (State(), if ok then Quiet else Refused)
      ensures ok == (if strong then old(f.strong) != 0 else old(f.weak) != 0)
      ensures f.strong == old(f.strong) - One(ok && strong) && f.weak == old(f.weak) - One(ok && !strong)
    {
      NodeIsThere(f);
      StepKeeps(State(), Op.DecRef(f.key, strong));
      ok := UncountRef(f, strong);
    }

    method UncountRef(f: RefStruct, strong: bool) returns (ok: bool)
      requires Linked() && Ordered() && HasRefTo(f) && Has(f.node)
      requires DoDecRef(State(), f.key, strong).1 != UseAfterFree
      modifies this`nodes, this`nodeView, this`refs, this`refView, this`byDesc, f, f.node
      ensures Linked() && Ordered()
      ensures DoDecRef(old(State()), f.key, strong) == (State(), if ok then Quiet else Refused)
      ensures ok == (if strong then old(f.strong) != 0 else old(f.weak) != 0)
      ensures f.strong == old(f.strong) - One(ok && strong) && f.weak == old(f.weak) - One(ok && !strong)
    {
      ok := if strong then f.strong != 0 else f.weak != 0;
      if ok { GiveBack(f, strong); }
    }

    method GiveBack(f: RefStruct, strong: bool)
      requires Linked() && Ordered() && HasRefTo(f) && Has(f.node) && (if strong then f.strong != 0 else f.weak != 0)
      requires DoDecRef(State(), f.key, strong).1 != UseAfterFree
      modifies this`nodes, this`nodeView, this`refs, this`refView, this`byDesc, f, f.node
      ensures Linked() && Ordered() && DoDecRef(old(State()), f.key, strong) == (State(), Quiet)
      ensures f.strong == old(f.strong) - One(strong) && f.weak == old(f.weak) - One(!strong)
    {
      SetRef(f, f.strong - One(strong), f.weak - One(!strong));
      if strong && f.strong == 0 { DecNode(f.node, true, true); }
      if f.strong == 0 && f.weak == 0 { Remove(f); }
    }

    // ---- The owner --------------------------------------------------------------------------

    /** The BINDER_WORK_NODE case of binder_thread_read. */
    method ReadWork(x: NodeStruct) returns (cmd: Option<Cmd>)
      requires Valid() && Has(x) && x.queued
      modifies this, x
      ensures Valid()
      ensures Step(old(State()), Op.ReadWork(x.id)) == (State(), if cmd.Some? then Sent(x.id, cmd.value) else Quiet)
    {
      StepKeeps(State(), Op.ReadWork(x.id));
      cmd := Work(x);
    }

    method Work(x: NodeStruct) returns (cmd: Option<Cmd>)
      requires Linked() && Has(x)
      modifies x, this`nodes, this`nodeView
      ensures var r := ReadNode(old(x.Value()));
        Linked() && State() == Put(old(State()), x.id, (r.0, r.2)) && cmd == r.1
    {
      var freed;
      cmd, freed := x.Tell();
      Rewritten(nodeView, x.id, x.Value());
      nodeView := nodeView[x.id := x.Value()];
      NodeWritten(x);
      if freed { FreeNode(x); }
    }

    /** BC_INCREFS_DONE and BC_ACQUIRE_DONE; one for no node, or that is not due, is refused. */
    method Done(n: NodeId, strong: bool) returns (ok: bool)
      requires Valid()
      modifies this, nodes.Values
      ensures Valid() && Step(old(State()), Op.Done(n, strong)) == (State(), if ok then Quiet else Refused)
    {
      StepKeeps(State(), Op.Done(n, strong));
      if n in nodes { assert NodeLinked(n); }
      ok := n in nodes && nodes[n].owner.Some? && if strong then nodes[n].pendingStrong else nodes[n].pendingWeak;
      if ok { Settle(nodes[n], strong); }
    }

    method Settle(x: NodeStruct, strong: bool)
      requires Linked() && Has(x)
      modifies x, this`nodes, this`nodeView
      ensures Linked()
      ensures var v := old(x.Value());
        State() == Put(old(State()), x.id,
          NodeRefs.DecNode(if strong then v.(pendingStrong := false) else v.(pendingWeak := false), strong, false))
    {
      Acknowledge(x, strong);
      Rewritten(old(nodeView), x.id, x.Value());
      DecNode(x, strong, false);
    }

    method Acknowledge(x: NodeStruct, strong: bool)
      requires Linked() && Has(x)
      modifies x`pendingStrong, x`pendingWeak, this`nodeView
      ensures Linked() && Has(x) && nodeView == old(nodeView)[x.id := x.Value()]
      ensures var v := old(x.Value());
        x.Value() == if strong then v.(pendingStrong := false) else v.(pendingWeak := false)
    {
      if strong { x.pendingStrong := false; } else { x.pendingWeak := false; }
      nodeView := nodeView[x.id := x.Value()];
      NodeWritten(x);
    }

    /** binder_node_release. */
    method OwnerDies(x: NodeStruct)
      requires Valid() && Has(x) && x.owner.Some?
      modifies this, x
      ensures Valid() && State() == Step(old(State()), Op.OwnerDies(x.id)).0
    {
      StepKeeps(State(), Op.OwnerDies(x.id));
      Release(x);
    }

    method Release(x: NodeStruct)
      requires Linked() && Has(x)
      modifies x, this`nodes, this`nodeView, this`ctx, this`holders
      ensures Linked() && State() == DoOwnerDies(old(State()), x.id)
    {
      Disown(x);
      if ctx == Some(x.id) { ctx := None; }
      holders := Without(holders, x.id);
    }

    method Disown(x: NodeStruct)
      requires Linked() && Has(x)
      modifies x, this`nodes, this`nodeView
      ensures Linked()
      ensures nodeView == if old(x.refs) == {} then old(nodeView) - {x.id} else
        old(nodeView)[x.id := old(x.Value()).(owner := None, localStrong := 0, localWeak := 0, queued := false)]
    {
      if x.refs == {} {
        FreeNode(x);
      } else {
        x.Orphan();
        nodeView := nodeView[x.id := x.Value()];
        NodeWritten(x);
      }
    }
  }

  lemma AddDesc(refs: map<Key, Ref>, k: Key, f: Ref)
    ensures Descs(refs[k := f], k.proc) == Descs(refs, k.proc) + {k.desc}
    ensures forall p :: p != k.proc ==> Descs(refs[k := f], p) == Descs(refs, p)
  {
    var after := refs[k := f];
    forall p, d | d in Descs(refs, p) ensures d in Descs(after, p) {
      assert Key(p, d) in after;
    }
    assert k in after;
  }

  lemma DropDesc(refs: map<Key, Ref>, k: Key)
    requires k in refs
    ensures Descs(refs - {k}, k.proc) == Descs(refs, k.proc) - {k.desc}
    ensures forall p :: p != k.proc ==> Descs(refs - {k}, p) == Descs(refs, p)
  {
    var after := refs - {k};
    forall p, d | d in Descs(refs, p) && Key(p, d) != k ensures d in Descs(after, p) {
      assert Key(p, d) in after;
    }
  }

  lemma SameDescs(refs: map<Key, Ref>, refs': map<Key, Ref>)
    requires refs.Keys == refs'.Keys
    ensures forall p :: Descs(refs', p) == Descs(refs, p)
  {
    assert forall k :: k in refs <==> k in refs';
  }

  /** Two writes to one node are as good as the last. */
  lemma Rewritten(m: map<NodeId, Node>, n: NodeId, x: Node)
    ensures m[n := x] - {n} == m - {n} && forall y {:trigger m[n := x][n := y]} :: m[n := x][n := y] == m[n := y]
  {
  }
}
