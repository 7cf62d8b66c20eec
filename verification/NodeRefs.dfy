// Reference counting between processes: a node belongs to one process, refs in others
// point at it, and its owner is told by command when it starts and stops being needed.
// Nodes and refs are C structs linked by pointers; here they are records in maps.
module NodeRefs {
  import opened Base

  type Pid = nat
  type NodeId = nat

  /** A ref is known to its process by descriptor. */
  datatype Key = Key(proc: Pid, desc: nat)

  datatype Ref = Ref(node: NodeId, strong: int, weak: int)

  /** `owner` is None once the owning process is gone; `queued` says whether the node's work
      item is on some list of the owner; `refs` is the node's list of refs. */
  datatype Node = Node(
    owner: Option<Pid>,
    internalStrong: int, localWeak: int, localStrong: int,
    hasStrong: bool, pendingStrong: bool, hasWeak: bool, pendingWeak: bool,
    queued: bool, refs: set<Key>)

  /** What the driver itself can hold a node by: a buffer aimed at it, an object for it in a
      buffer of its owner, or, for the context manager, the references it starts with. */
  datatype Holder = Target(buffer: nat) | Object(buffer: nat, offset: nat) | Manager(strong: bool)

  datatype Claim = Claim(node: NodeId, strong: bool)

  datatype Sys = Sys(
    nodes: map<NodeId, Node>,
    refs: map<Key, Ref>,
    holders: map<Holder, Claim>,
    ctx: Option<NodeId>,
    lastId: nat)

  datatype Cmd = Increfs | Acquire | Release | Decrefs

  datatype Op =
    | NewNode(p: Pid)
    | SetContextManager(p: Pid)
    | GetRef(p: Pid, n: NodeId)
    | IncRef(k: Key, strong: bool, list: bool)
    | DecRef(k: Key, strong: bool)
    | DeleteRef(k: Key)
    | Hold(h: Holder, n: NodeId, strong: bool)
    | Drop(h: Holder)
    | ReadWork(n: NodeId)
    | Done(n: NodeId, strong: bool)
    | OwnerDies(n: NodeId)

  datatype Event = Quiet | Refused | Sent(n: NodeId, cmd: Cmd) | UseAfterFree

  const EMPTY := Sys(map[], map[], map[], None, 0)

  // ---- One node ---------------------------------------------------------------------------

  /** binder_inc_node; false is -EINVAL. */
  function IncNode(x: Node, strong: bool, internal: bool, list: bool, ctx: bool): (Node, bool) {
    if strong then
      if internal && !list && x.internalStrong == 0 && !(ctx && x.hasStrong) then (x, false)
      else
        var y := if internal then x.(internalStrong := x.internalStrong + 1) else x.(localStrong := x.localStrong + 1);
        (y.(queued := y.queued || (!x.hasStrong && list)), true)
    else
      var y := if internal then x else x.(localWeak := x.localWeak + 1);
      if x.hasWeak || x.queued then (y, true) else (y.(queued := list), list)
  }

  /** binder_dec_node; the flag says that the node is freed. */
  function DecNode(x: Node, strong: bool, internal: bool): (Node, bool) {
    var y :=
      if strong && internal then x.(internalStrong := x.internalStrong - 1)
      else if strong then x.(localStrong := x.localStrong - 1)
      else if internal then x
      else x.(localWeak := x.localWeak - 1);
    if strong && (y.localStrong != 0 || y.internalStrong != 0) then (y, false)
    else if !strong && (y.localWeak != 0 || y.refs != {}) then (y, false)
    else if y.owner.Some? && (y.hasStrong || y.hasWeak) then (y.(queued := true), false)
    else (y, y.refs == {} && y.localStrong == 0 && y.localWeak == 0)
  }

  predicate WantsStrong(x: Node) { x.internalStrong != 0 || x.localStrong != 0 }

  predicate WantsWeak(x: Node) { x.refs != {} || x.localWeak != 0 || WantsStrong(x) }

  /** The BINDER_WORK_NODE case of binder_thread_read: one command, or the work item is taken
      off the list, and with it the node if nothing wants it. */
  function ReadNode(x: Node): (Node, Option<Cmd>, bool) {
    if WantsWeak(x) && !x.hasWeak then
      (x.(hasWeak := true, pendingWeak := true, localWeak := x.localWeak + 1), Some(Increfs), false)
    else if WantsStrong(x) && !x.hasStrong then
      (x.(hasStrong := true, pendingStrong := true, localStrong := x.localStrong + 1), Some(Acquire), false)
    else if !WantsStrong(x) && x.hasStrong then (x.(hasStrong := false), Some(Release), false)
    else if !WantsWeak(x) && x.hasWeak then (x.(hasWeak := false), Some(Decrefs), false)
    else (x.(queued := false), None, !WantsWeak(x) && !WantsStrong(x))
  }

  // ---- The system -----------------------------------------------------------------------------

  function Put(s: Sys, n: NodeId, r: (Node, bool)): Sys {
    if r.1 then s.(nodes := s.nodes - {n}) else s.(nodes := s.nodes[n := r.0])
  }

  ghost function UsedFrom(used: set<nat>, d: nat): set<nat> {
    set x | x in used && d <= x
  }

  /** The smallest number from `d` on that is not in `used`. */
  function LeastFree(used: set<nat>, d: nat): (r: nat)
    ensures d <= r && r !in used
    ensures forall x :: d <= x < r ==> x in used
    decreases |UsedFrom(used, d)|
  {
    if d !in used then d
    else
      assert d in UsedFrom(used, d) && UsedFrom(used, d + 1) == UsedFrom(used, d) - {d};
      LeastFree(used, d + 1)
  }

  function Descs(refs: map<Key, Ref>, p: Pid): set<nat> {
    set k | k in refs && k.proc == p :: k.desc
  }

  function NewKey(s: Sys, p: Pid, n: NodeId): Key {
    Key(p, LeastFree(Descs(s.refs, p), if s.ctx == Some(n) then 0 else 1))
  }

  predicate HasRef(s: Sys, p: Pid, n: NodeId)
    requires n in s.nodes
  {
    exists k :: k in s.nodes[n].refs && k.proc == p
  }

  /** binder_get_ref_for_node: the process's ref, made if there is none. */
  function DoGetRef(s: Sys, p: Pid, n: NodeId): Sys
    requires n in s.nodes
  {
    if HasRef(s, p, n) then s
    else
      var k := NewKey(s, p, n);
      s.(refs := s.refs[k := Ref(n, 0, 0)], nodes := s.nodes[n := s.nodes[n].(refs := s.nodes[n].refs + {k})])
  }

  function DoIncRef(s: Sys, k: Key, strong: bool, list: bool): (Sys, Event)
    requires k in s.refs && s.refs[k].node in s.nodes
  {
    var f, n := s.refs[k], s.refs[k].node;
    var first := if strong then f.strong == 0 else f.weak == 0;
    var (y, ok) := if first then IncNode(s.nodes[n], strong, true, list, s.ctx == Some(n)) else (s.nodes[n], true);
    if !ok then (s, Refused)
    else (s.(nodes := s.nodes[n := y],
             refs := s.refs[k := if strong then f.(strong := f.strong + 1) else f.(weak := f.weak + 1)]), Quiet)
  }

  /** binder_delete_ref: the strong count goes while the ref is still on the node's list, the
      weak one after it is off. */
  function DoDeleteRef(s: Sys, k: Key): (Sys, Event)
    requires k in s.refs && s.refs[k].node in s.nodes
  {
    var f, n := s.refs[k], s.refs[k].node;
    var s1 := s.(refs := s.refs - {k});
    var s2 := if f.strong != 0 then Put(s1, n, DecNode(s1.nodes[n], true, true)) else s1;
    if n !in s2.nodes then (s2, UseAfterFree)
    else
      var x := s2.nodes[n].(refs := s2.nodes[n].refs - {k});
      (Put(s2, n, DecNode(x, false, true)), Quiet)
  }

  function DoDecRef(s: Sys, k: Key, strong: bool): (Sys, Event)
    requires k in s.refs && s.refs[k].node in s.nodes
  {
    var f, n := s.refs[k], s.refs[k].node;
    if (if strong then f.strong == 0 else f.weak == 0) then (s, Refused)
    else
      var g := if strong then f.(strong := f.strong - 1) else f.(weak := f.weak - 1);
      var s1 := s.(refs := s.refs[k := g]);
      var s2 := if strong && g.strong == 0 then Put(s1, n, DecNode(s1.nodes[n], true, true)) else s1;
      if n !in s2.nodes then (s2, UseAfterFree)
      else if g.strong == 0 && g.weak == 0 then DoDeleteRef(s2, k)
      else (s2, Quiet)
  }

  function NodeFor(p: Pid): Node {
    Node(Some(p), 0, 0, 0, false, false, false, false, false, {})
  }

  /** binder_node_release: the owner is gone, and with it its buffers, so nothing of the
      driver's holds the node any more; refs to it, if any, keep it. */
  function DoOwnerDies(s: Sys, n: NodeId): Sys
    requires n in s.nodes
  {
    var s1 := s.(ctx := if s.ctx == Some(n) then None else s.ctx, holders := Without(s.holders, n));
    if s.nodes[n].refs == {} then Put(s1, n, (s.nodes[n], true))
    else s1.(nodes := s.nodes[n := s.nodes[n].(owner := None, localStrong := 0, localWeak := 0, queued := false)])
  }

  function Without(holders: map<Holder, Claim>, n: NodeId): map<Holder, Claim> {
    map h | h in holders && holders[h].node != n :: holders[h]
  }

  /** binder_dec_node for a count the driver gives back; the node it is on must be there. */
  function DoDrop(s: Sys, h: Holder): (Sys, Event)
    requires h in s.holders
  {
    var c := s.holders[h];
    if c.node !in s.nodes then (s, UseAfterFree)
    else (Put(s.(holders := s.holders - {h}), c.node, DecNode(s.nodes[c.node], c.strong, false)), Quiet)
  }

  /** Whether the driver would do `op` in this state: a handle or node that does not exist,
      or a count it does not hold, never gets that far. */
  predicate Enabled(s: Sys, op: Op) {
    match op
    case NewNode(p) => true
    case SetContextManager(p) => s.ctx.None?
    case GetRef(p, n) => n in s.nodes
    case IncRef(k, strong, list) =>
      k in s.refs && s.refs[k].node in s.nodes && (list ==> s.nodes[s.refs[k].node].owner.Some?)
    case DecRef(k, strong) => k in s.refs && s.refs[k].node in s.nodes
    case DeleteRef(k) => k in s.refs && s.refs[k].node in s.nodes
    case Hold(h, n, strong) => n in s.nodes && s.nodes[n].owner.Some? && h !in s.holders && !h.Manager?
    case Drop(h) => h in s.holders && !h.Manager?
    case ReadWork(n) => n in s.nodes && s.nodes[n].queued
    case Done(n, strong) =>
      n in s.nodes && s.nodes[n].owner.Some? && (if strong then s.nodes[n].pendingStrong else s.nodes[n].pendingWeak)
    case OwnerDies(n) => n in s.nodes && s.nodes[n].owner.Some?
  }

  function Step(s: Sys, op: Op): (Sys, Event) {
    if !Enabled(s, op) then (s, Refused) else
    match op
    case NewNode(p) => (s.(lastId := s.lastId + 1, nodes := s.nodes[s.lastId + 1 := NodeFor(p)]), Quiet)
    case SetContextManager(p) =>
      var id := s.lastId + 1;
      var x := NodeFor(p).(localWeak := 1, localStrong := 1, hasStrong := true, hasWeak := true);
      (s.(lastId := id, nodes := s.nodes[id := x], ctx := Some(id),
          holders := s.holders[Manager(true) := Claim(id, true)][Manager(false) := Claim(id, false)]), Quiet)
    case GetRef(p, n) => (DoGetRef(s, p, n), Quiet)
    case IncRef(k, strong, list) => DoIncRef(s, k, strong, list)
    case DecRef(k, strong) => DoDecRef(s, k, strong)
    case DeleteRef(k) => DoDeleteRef(s, k)
    case Hold(h, n, strong) =>
      (s.(holders := s.holders[h := Claim(n, strong)],
          nodes := s.nodes[n := IncNode(s.nodes[n], strong, false, false, s.ctx == Some(n)).0]), Quiet)
    case Drop(h) => DoDrop(s, h)
    case ReadWork(n) =>
      var (y, cmd, freed) := ReadNode(s.nodes[n]);
      (Put(s, n, (y, freed)), if cmd.Some? then Sent(n, cmd.value) else Quiet)
    case Done(n, strong) =>
      var x := s.nodes[n];
      var y := if strong then x.(pendingStrong := false) else x.(pendingWeak := false);
      (Put(s, n, DecNode(y, strong, false)), Quiet)
    case OwnerDies(n) => (DoOwnerDies(s, n), Quiet)
  }

  function Run(s: Sys, ops: seq<Op>): Sys
    decreases |ops|
  {
    if ops == [] then s else Run(Step(s, ops[0]).0, ops[1..])
  }

  function Events(s: Sys, ops: seq<Op>): seq<Event>
    decreases |ops|
  {
    if ops == [] then [] else [Step(s, ops[0]).1] + Events(Step(s, ops[0]).0, ops[1..])
  }
}
