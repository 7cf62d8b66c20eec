// The buffers of one process: headers in a doubly linked list over the mapped region,
// keyed by their offset from its start, which is page aligned.
module BufferList {
  import opened Base

  const PAGE: nat := 4096
  const HDR: nat := 40   // struct binder_buffer on this 32-bit kernel

  /** `next` is the following header, or the end of the region. */
  datatype Buf = Buf(prev: Option<nat>, next: nat, free: bool, async: bool, dataSize: nat, offsetsSize: nat)

  type Bufs = map<nat, Buf>

  /** binder_buffer_size: what lies between the header and the next one. */
  function Size(bufs: Bufs, a: nat): int
    requires a in bufs
  {
    bufs[a].next - (a + HDR)
  }

  // ---- The list -------------------------------------------------------------------------

  ghost predicate NextOk(bufs: Bufs, total: nat, a: nat)
    requires a in bufs
  {
    var n := bufs[a].next;
    a + HDR <= n <= total && (n == total || (n in bufs && bufs[n].prev == Some(a)))
  }

  ghost predicate PrevOk(bufs: Bufs, a: nat)
    requires a in bufs
  {
    if a == 0 then bufs[a].prev.None?
    else bufs[a].prev.Some? && bufs[a].prev.value in bufs && bufs[bufs[a].prev.value].next == a
  }

  ghost predicate Apart(bufs: Bufs, a: nat, b: nat)
    requires a in bufs && b in bufs
  {
    a < b ==> bufs[a].next <= b
  }

  /** The buffers tile the region from 0 to `total`. */
  ghost predicate Linked(bufs: Bufs, total: nat) {
    && 0 in bufs
    && (forall a {:trigger NextOk(bufs, total, a)} :: a in bufs ==> NextOk(bufs, total, a))
    && (forall a {:trigger PrevOk(bufs, a)} :: a in bufs ==> PrevOk(bufs, a))
    && (forall a, b {:trigger Apart(bufs, a, b)} :: a in bufs && b in bufs ==> Apart(bufs, a, b))
  }

  ghost predicate NotBothFree(bufs: Bufs, a: nat)
    requires a in bufs
  {
    bufs[a].free && bufs[a].next in bufs ==> !bufs[bufs[a].next].free
  }

  /** No two neighbours are both free. */
  ghost predicate Coalesced(bufs: Bufs) {
    forall a {:trigger NotBothFree(bufs, a)} :: a in bufs ==> NotBothFree(bufs, a)
  }

  // ---- Changes to the list -----------------------------------------------------------------

  /** Buffer `a` cut to `size` bytes, with a free buffer made of the rest. */
  function Split(bufs: Bufs, a: nat, size: nat): Bufs
    requires a in bufs
  {
    var b := a + HDR + size;
    var after := bufs[a].next;
    var cut := bufs[b := Buf(Some(a), after, true, false, 0, 0)][a := bufs[a].(next := b)];
    if after in bufs then cut[after := bufs[after].(prev := Some(b))] else cut
  }

  /** Buffer `b` taken out of the list; the one before it grows. */
  function Unlink(bufs: Bufs, b: nat): Bufs
    requires b in bufs && bufs[b].prev.Some? && bufs[b].prev.value in bufs
  {
    var a := bufs[b].prev.value;
    var after := bufs[b].next;
    var cut := bufs[a := bufs[a].(next := after)];
    (if after in bufs then cut[after := cut[after].(prev := Some(a))] else cut) - {b}
  }

  lemma {:induction false} SplitLinked(bufs: Bufs, total: nat, a: nat, size: nat)
    requires Linked(bufs, total) && a in bufs && size + HDR <= Size(bufs, a)
    ensures Linked(Split(bufs, a, size), total)
  {
    var cut := Split(bufs, a, size);
    assert NextOk(bufs, total, a);
    forall x | x in cut ensures NextOk(cut, total, x) && PrevOk(cut, x) {
      SplitNeighbours(bufs, total, a, size, x);
    }
    forall x, y | x in cut && y in cut ensures Apart(cut, x, y) {
      SplitApart(bufs, total, a, size, x, y);
    }
  }

  lemma {:induction false} SplitNeighbours(bufs: Bufs, total: nat, a: nat, size: nat, x: nat)
    requires Linked(bufs, total) && a in bufs && size + HDR <= Size(bufs, a) && x in Split(bufs, a, size)
    ensures NextOk(Split(bufs, a, size), total, x) && PrevOk(Split(bufs, a, size), x)
  {
    var b, after := a + HDR + size, bufs[a].next;
    assert NextOk(bufs, total, a);
    assert b in bufs ==> Apart(bufs, a, b);
    if x != b { assert NextOk(bufs, total, x) && PrevOk(bufs, x); }
    if after in bufs { assert PrevOk(bufs, after); }
  }

  lemma {:induction false} SplitApart(bufs: Bufs, total: nat, a: nat, size: nat, x: nat, y: nat)
    requires Linked(bufs, total) && a in bufs && size + HDR <= Size(bufs, a)
    requires x in Split(bufs, a, size) && y in Split(bufs, a, size)
    ensures Apart(Split(bufs, a, size), x, y)
  {
    var b := a + HDR + size;
    assert NextOk(bufs, total, a);
    if x != b && y != b { assert Apart(bufs, x, y); }
    if x == b && y != b { assert Apart(bufs, a, y); }
    if y == b && x != b { assert Apart(bufs, x, a) && Apart(bufs, a, x); }
  }

  lemma {:induction false} UnlinkLinked(bufs: Bufs, total: nat, b: nat)
    requires Linked(bufs, total) && b in bufs && b != 0
    ensures bufs[b].prev.Some? && bufs[b].prev.value in bufs && Linked(Unlink(bufs, b), total)
  {
    assert PrevOk(bufs, b);
    var cut := Unlink(bufs, b);
    forall x | x in cut ensures NextOk(cut, total, x) && PrevOk(cut, x) {
      UnlinkNeighbours(bufs, total, b, x);
    }
    forall x, y | x in cut && y in cut ensures Apart(cut, x, y) {
      UnlinkApart(bufs, total, b, x, y);
    }
  }

  lemma {:induction false} UnlinkNeighbours(bufs: Bufs, total: nat, b: nat, x: nat)
    requires Linked(bufs, total) && b in bufs && b != 0 && PrevOk(bufs, b) && x in Unlink(bufs, b)
    ensures NextOk(Unlink(bufs, b), total, x) && PrevOk(Unlink(bufs, b), x)
  {
    var a, after := bufs[b].prev.value, bufs[b].next;
    assert NextOk(bufs, total, a) && NextOk(bufs, total, b);
    assert NextOk(bufs, total, x) && PrevOk(bufs, x);
    if after in bufs { assert PrevOk(bufs, after); }
  }

  lemma {:induction false} UnlinkApart(bufs: Bufs, total: nat, b: nat, x: nat, y: nat)
    requires Linked(bufs, total) && b in bufs && b != 0 && PrevOk(bufs, b)
    requires x in Unlink(bufs, b) && y in Unlink(bufs, b)
    ensures Apart(Unlink(bufs, b), x, y)
  {
    assert NextOk(bufs, total, bufs[b].prev.value) && NextOk(bufs, total, b);
    assert Apart(bufs, x, y) && Apart(bufs, b, y);
  }

  // ---- Pages ------------------------------------------------------------------------------

  /** Page `p` has a byte in common with [lo, hi). */
  predicate Meets(p: nat, lo: nat, hi: nat) {
    lo < hi && lo < (p + 1) * PAGE && p * PAGE < hi
  }

  /** Buffer `a` needs page `p`: for its header, or while allocated for its whole extent. */
  predicate Uses(bufs: Bufs, a: nat, p: nat)
    requires a in bufs
  {
    Meets(p, a, a + HDR) || (!bufs[a].free && Meets(p, a, bufs[a].next))
  }

  ghost predicate Needed(bufs: Bufs, p: nat) {
    exists a {:trigger Uses(bufs, a, p)} :: a in bufs && Uses(bufs, a, p)
  }

  /** A page is mapped exactly when some buffer needs it. */
  ghost predicate PagesOk(bufs: Bufs, pages: seq<bool>) {
    forall p {:trigger pages[p]} :: 0 <= p < |pages| ==> (pages[p] <==> Needed(bufs, p))
  }

  function PageUp(x: nat): nat { (x + PAGE - 1) / PAGE }

  function PageDown(x: nat): nat { x / PAGE }

  /** Pages between the header of `a` and the next header hold nothing but its data. */
  lemma {:induction false} InsideOnly(bufs: Bufs, total: nat, a: nat, p: nat, b: nat)
    requires Linked(bufs, total) && a in bufs && b in bufs
    requires PageUp(a + HDR) <= p < PageDown(bufs[a].next)
    ensures Uses(bufs, b, p) ==> a == b && !bufs[a].free
    ensures Meets(p, a, bufs[a].next)
  {
    assert NextOk(bufs, total, a) && NextOk(bufs, total, b);
    assert Apart(bufs, a, b) && Apart(bufs, b, a);
  }

  function Taken(bufs: Bufs, a: nat): Bufs
    requires a in bufs
  {
    bufs[a := bufs[a].(free := false)]
  }

  function Freed(bufs: Bufs, a: nat): Bufs
    requires a in bufs
  {
    bufs[a := bufs[a].(free := true)]
  }

  lemma {:induction false} SameLinks(bufs: Bufs, total: nat, a: nat, x: Buf)
    requires Linked(bufs, total) && a in bufs && x.prev == bufs[a].prev && x.next == bufs[a].next
    ensures Linked(bufs[a := x], total)
  {
    var after := bufs[a := x];
    forall y | y in after ensures NextOk(after, total, y) {
      assert NextOk(bufs, total, y);
    }
    forall y | y in after ensures PrevOk(after, y) {
      assert PrevOk(bufs, y);
    }
    forall y, z | y in after && z in after ensures Apart(after, y, z) {
      assert Apart(bufs, y, z);
    }
  }

  /** Whether buffer `a` is allocated or free makes a difference to exactly the whole pages
      between its header and the next one. */
  lemma {:induction false} WholePages(bufs: Bufs, total: nat, a: nat, p: nat)
    requires Linked(bufs, total) && total % PAGE == 0 && a in bufs
    ensures var inside := PageUp(a + HDR) <= p < PageDown(bufs[a].next);
      && (Needed(Taken(bufs, a), p) <==> Needed(Freed(bufs, a), p) || inside)
      && !(Needed(Freed(bufs, a), p) && inside)
  {
    var taken, freed := Taken(bufs, a), Freed(bufs, a);
    assert NextOk(bufs, total, a);
    var n := bufs[a].next;
    var inside := PageUp(a + HDR) <= p < PageDown(n);
    if Needed(freed, p) {
      var b :| b in freed && Uses(freed, b, p);
      assert b in taken && Uses(taken, b, p);
      SameLinks(bufs, total, a, freed[a]);
      if inside { InsideOnly(freed, total, a, p, b); }
    }
    if inside { assert Uses(taken, a, p); }
    if Needed(taken, p) && !inside {
      var b :| b in taken && Uses(taken, b, p);
      var c := if b != a || Uses(freed, a, p) then b else n;
      assert c in freed && Uses(freed, c, p);
    }
  }

  /** Splitting an allocated buffer leaves exactly the pages of its first part and of the
      new header in use. */
  lemma {:induction false} SplitPages(bufs: Bufs, total: nat, a: nat, size: nat, p: nat)
    requires Linked(bufs, total) && total % PAGE == 0 && a in bufs && bufs[a].free
    requires size + HDR <= Size(bufs, a)
    ensures var hi := Min(PageUp(a + HDR + size + HDR), PageDown(bufs[a].next));
      Needed(Split(Taken(bufs, a), a, size), p) <==> Needed(bufs, p) || PageUp(a + HDR) <= p < hi
  {
    var taken := Taken(bufs, a);
    var cut := Split(taken, a, size);
    var b, n := a + HDR + size, bufs[a].next;
    assert NextOk(bufs, total, a);
    assert b in bufs ==> Apart(bufs, a, b);
    if Needed(bufs, p) {
      var x :| x in bufs && Uses(bufs, x, p);
      assert x in cut && Uses(cut, x, p);
    }
    if PageUp(a + HDR) <= p < PageUp(b + HDR) && p < PageDown(n) {
      assert Uses(cut, a, p) || Uses(cut, b, p);
    }
    if Needed(cut, p) && !Needed(bufs, p) {
      var x :| x in cut && Uses(cut, x, p);
      assert x != a && x != b ==> x in bufs && Uses(bufs, x, p);
      assert !Uses(bufs, a, p);
      assert n in bufs ==> !Uses(bufs, n, p);
    }
  }

  // ---- Dropping a header --------------------------------------------------------------------

  function StartPage(a: nat): nat { PageDown(a) }

  function EndPage(a: nat): nat { PageDown(a + HDR - 1) }

  /** The pages binder_delete_free_buffer gives back along with header `b`: those of its one
      or two pages that neither the header before nor the header after shares. */
  function DropFrom(bufs: Bufs, b: nat): (r: (nat, nat))
    requires b in bufs && bufs[b].prev.Some?
  {
    var prev, next := bufs[b].prev.value, bufs[b].next;
    var shareStart := EndPage(prev) == StartPage(b) ||
      (next in bufs && StartPage(next) == EndPage(b) && StartPage(next) == StartPage(b));
    var shareEnd := (EndPage(prev) == StartPage(b) && EndPage(prev) == EndPage(b)) ||
      (next in bufs && StartPage(next) == EndPage(b));
    if shareStart && shareEnd then (0, 0)
    else (if shareStart then EndPage(b) else StartPage(b), (if shareEnd then StartPage(b) else EndPage(b)) + 1)
  }

  lemma {:induction false} UnlinkPages(bufs: Bufs, total: nat, b: nat, p: nat)
    requires Linked(bufs, total) && total % PAGE == 0 && b in bufs && b != 0
    requires bufs[b].prev.Some? && bufs[b].prev.value in bufs && bufs[b].free && bufs[bufs[b].prev.value].free
    ensures var (lo, hi) := DropFrom(bufs, b);
      && (lo <= p < hi ==> Needed(bufs, p) && p * PAGE < total)
      && (Needed(Unlink(bufs, b), p) <==> Needed(bufs, p) && !(lo <= p < hi))
  {
    var a, n := bufs[b].prev.value, bufs[b].next;
    var cut := Unlink(bufs, b);
    var (lo, hi) := DropFrom(bufs, b);
    assert PrevOk(bufs, b) && NextOk(bufs, total, b) && NextOk(bufs, total, a);
    if lo <= p < hi { assert Uses(bufs, b, p); }
    if Needed(cut, p) {
      var x :| x in cut && Uses(cut, x, p);
      assert Uses(bufs, x, p);
      DroppedAlone(bufs, total, b, p, x);
    }
    if Needed(bufs, p) && !(lo <= p < hi) {
      var x :| x in bufs && Uses(bufs, x, p);
      var y := if x != b then x else if Uses(cut, a, p) then a else n;
      assert y in cut && Uses(cut, y, p);
    }
  }

  lemma {:induction false} DroppedAlone(bufs: Bufs, total: nat, b: nat, p: nat, x: nat)
    requires Linked(bufs, total) && b in bufs && b != 0 && x in bufs && x != b
    requires bufs[b].prev.Some? && bufs[b].prev.value in bufs && bufs[b].free && bufs[bufs[b].prev.value].free
    requires Uses(bufs, x, p)
    ensures var (lo, hi) := DropFrom(bufs, b); !(lo <= p < hi)
  {
    var a, n := bufs[b].prev.value, bufs[b].next;
    assert PrevOk(bufs, b) && NextOk(bufs, total, b) && NextOk(bufs, total, a) && NextOk(bufs, total, x);
    assert Apart(bufs, x, a) && Apart(bufs, a, x) && Apart(bufs, b, x) && Apart(bufs, x, b);
    if n in bufs { assert Apart(bufs, x, n); }
  }
}
