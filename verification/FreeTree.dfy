// The tree of free buffers, ordered by size. Red-black rotations keep the order and are
// left out. Sizes are not stored: they are read off the list every time.
module FreeTree {
  import opened Base
  import opened BufferList

  datatype Tree = Leaf | Node(left: Tree, addr: nat, right: Tree)

  function Members(t: Tree): set<nat> {
    match t
    case Leaf => {}
    case Node(l, a, r) => Members(l) + {a} + Members(r)
  }

  /** A search tree for the present sizes of the buffers, each in it once. */
  ghost predicate Ordered(bufs: Bufs, t: Tree) {
    match t
    case Leaf => true
    case Node(l, a, r) =>
      && a in bufs && Ordered(bufs, l) && Ordered(bufs, r)
      && (forall x {:trigger x in Members(l)} :: x in Members(l) ==> x in bufs && Size(bufs, x) <= Size(bufs, a))
      && (forall x {:trigger x in Members(r)} :: x in Members(r) ==> x in bufs && Size(bufs, a) <= Size(bufs, x))
      && Members(l) !! {a} !! Members(r)
  }

  lemma MembersIn(bufs: Bufs, t: Tree)
    requires Ordered(bufs, t)
    ensures forall x :: x in Members(t) ==> x in bufs
  {
  }

  // ---- Search ---------------------------------------------------------------------------

  /** The descent of binder_alloc_buf from subtree `t`: the best buffer met so far, and
      whether the search stopped at an exact fit. */
  function Descend(bufs: Bufs, t: Tree, size: nat, best: Option<nat>): (r: (Option<nat>, bool))
    requires forall x :: x in Members(t) ==> x in bufs
  {
    match t
    case Leaf => (best, false)
    case Node(l, a, r) =>
      if size < Size(bufs, a) then Descend(bufs, l, size, Some(a))
      else if size > Size(bufs, a) then Descend(bufs, r, size, best)
      else (Some(a), true)
  }

  /** `a` is a smallest buffer of `s` with room for `size` bytes. */
  ghost predicate BestFit(bufs: Bufs, s: set<nat>, size: nat, a: nat) {
    && a in s && a in bufs && size <= Size(bufs, a)
    && forall x :: x in s && x in bufs && size <= Size(bufs, x) ==> Size(bufs, a) <= Size(bufs, x)
  }

  /** The descent finds a best fit in the subtree, or keeps the buffer it came with when
      nothing there fits; it stops at an exact fit whenever there is one. */
  lemma {:induction false} DescendFinds(bufs: Bufs, t: Tree, size: nat, best: Option<nat>)
    requires Ordered(bufs, t)
    ensures forall x :: x in Members(t) ==> x in bufs
    ensures var (r, exact) := Descend(bufs, t, size, best);
      && (exact <==> exists x :: x in Members(t) && Size(bufs, x) == size)
      && (exact ==> r.Some? && r.value in Members(t) && Size(bufs, r.value) == size)
      && (if exists x :: x in Members(t) && size <= Size(bufs, x)
          then r.Some? && BestFit(bufs, Members(t), size, r.value) else r == best)
  {
    MembersIn(bufs, t);
    if t.Node? {
      if size < Size(bufs, t.addr) {
        DescendFinds(bufs, t.left, size, Some(t.addr));
      } else if size > Size(bufs, t.addr) {
        DescendFinds(bufs, t.right, size, best);
      }
    }
  }

  // ---- Insertion and removal ---------------------------------------------------------------

  function Insert(bufs: Bufs, t: Tree, a: nat): Tree
    requires a in bufs && forall x :: x in Members(t) ==> x in bufs
  {
    match t
    case Leaf => Node(Leaf, a, Leaf)
    case Node(l, b, r) =>
      if Size(bufs, a) < Size(bufs, b) then Node(Insert(bufs, l, a), b, r) else Node(l, b, Insert(bufs, r, a))
  }

  lemma {:induction false} InsertOrdered(bufs: Bufs, t: Tree, a: nat)
    requires Ordered(bufs, t) && a in bufs && a !in Members(t)
    ensures forall x :: x in Members(t) ==> x in bufs
    ensures Ordered(bufs, Insert(bufs, t, a)) && Members(Insert(bufs, t, a)) == Members(t) + {a}
  {
    MembersIn(bufs, t);
    if t.Node? {
      if Size(bufs, a) < Size(bufs, t.addr) {
        InsertOrdered(bufs, t.left, a);
      } else {
        InsertOrdered(bufs, t.right, a);
      }
    }
  }

  /** Everything in `l` comes before everything in `r`. */
  function Join(l: Tree, r: Tree): Tree {
    match l
    case Leaf => r
    case Node(ll, a, lr) => Node(ll, a, Join(lr, r))
  }

  /** rb_erase: the node is given, its key plays no part. */
  function Remove(t: Tree, a: nat): Tree {
    match t
    case Leaf => Leaf
    case Node(l, b, r) => if a == b then Join(l, r) else Node(Remove(l, a), b, Remove(r, a))
  }

  lemma {:induction false} JoinOrdered(bufs: Bufs, l: Tree, r: Tree)
    requires Ordered(bufs, l) && Ordered(bufs, r) && Members(l) !! Members(r)
    requires forall x, y :: x in Members(l) && y in Members(r) ==>
      x in bufs && y in bufs && Size(bufs, x) <= Size(bufs, y)
    ensures Ordered(bufs, Join(l, r)) && Members(Join(l, r)) == Members(l) + Members(r)
  {
    MembersIn(bufs, r);
    if l.Node? {
      JoinOrdered(bufs, l.right, r);
    }
  }

  lemma {:induction false} RemoveOrdered(bufs: Bufs, t: Tree, a: nat)
    requires Ordered(bufs, t)
    ensures Ordered(bufs, Remove(t, a)) && Members(Remove(t, a)) == Members(t) - {a}
  {
    if t.Node? {
      if a == t.addr {
        JoinOrdered(bufs, t.left, t.right);
      } else {
        RemoveOrdered(bufs, t.left, a);
        RemoveOrdered(bufs, t.right, a);
      }
    }
  }

  /** The order survives any change to the list that spares the buffers in the tree. */
  lemma {:induction false} OrderedFrame(bufs: Bufs, after: Bufs, t: Tree)
    requires Ordered(bufs, t)
    requires forall x :: x in Members(t) && x in bufs ==> x in after && after[x].next == bufs[x].next
    ensures Ordered(after, t)
  {
    MembersIn(bufs, t);
    if t.Node? {
      OrderedFrame(bufs, after, t.left);
      OrderedFrame(bufs, after, t.right);
    }
  }
}
