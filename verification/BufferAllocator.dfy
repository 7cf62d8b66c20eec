// The allocator itself: list, tree, page array and quota changed in place, with the
// BUG_ONs as assertions.
module BufferAllocator {
  import opened Base
  import opened BufferList
  import opened FreeTree
  import opened BufferSpec

  /** What the environment does to a request for pages: nothing, refuse it outright because
      the user mapping is gone, or fail at one page, where no page can be had or where it
      cannot be mapped for the kernel or for the user. */
  datatype Stage = NoPage | NoKernelMapping | NoUserMapping
  datatype Fault = NoFault | NoVma | FailAt(page: nat, stage: Stage)

  class Allocator {
    const total: nat
    const pages: array<bool>
    var vma: bool
    var bufs: Bufs
    var freeBuffers: Tree
    var freeAsync: nat

    ghost predicate Valid()
      reads this, pages
    {
      && pages.Length * PAGE == total && ListOk(bufs, total) && PagesOk(bufs, pages[..])
      && TreeOk(bufs, freeBuffers) && QuotaOk(bufs, total, freeAsync)
    }

    /** The part of binder_mmap that sets up the space: one free buffer, its page mapped. */
    constructor (n: nat)
      requires 0 < n && n * PAGE <= MAX_TOTAL
      ensures Valid() && fresh(pages) && total == n * PAGE && vma
      ensures bufs == map[0 := Buf(None, total, true, false, 0, 0)] && freeAsync == total / 2
    {
      total := n * PAGE;
      pages := new bool[n](i => i == 0);
      vma := true;
      var first := Buf(None, n * PAGE, true, false, 0, 0);
      bufs := map[0 := first];
      freeBuffers := Leaf;
      freeAsync := n * PAGE / 2;
      new;
      assert Charges(bufs) == map[];
      InsertOrdered(bufs, Leaf, 0);
      freeBuffers := Insert(bufs, Leaf, 0);
      assert FreeSet(bufs) == {0};
      assert NextOk(bufs, total, 0) && PrevOk(bufs, 0) && Apart(bufs, 0, 0) && NotBothFree(bufs, 0) && Holding(bufs, 0);
      forall p | 0 <= p < pages.Length ensures pages[..][p] <==> Needed(bufs, p) {
        assert p == 0 ==> Uses(bufs, 0, p);
      }
    }

    // ---- Pages --------------------------------------------------------------------------

    /** The loop at free_range, from the last page down. */
    method UnmapPages(lo: nat, hi: nat)
      requires lo <= hi <= pages.Length && forall p :: lo <= p < hi ==> pages[p]
      modifies pages
      ensures Updated(old(pages[..]), pages[..], lo, hi, false)
    {
      var p := hi;
      while p > lo
        invariant lo <= p <= hi
        invariant Updated(old(pages[..]), pages[..], p, hi, false)
      {
        p := p - 1;
        assert old(pages[..])[p] == old(pages[p]) && pages[..][p] == old(pages[..])[p];
        assert pages[p];
        pages[p] := false;
      }
    }

    /** binder_update_page_range for allocation. A failure part of the way enters the free
        loop in the middle and gives back what was mapped so far. */
    method MapPages(lo: nat, hi: nat, fault: Fault) returns (ok: bool)
      requires lo <= hi <= pages.Length && forall p :: lo <= p < hi ==> !pages[p]
      modifies pages
      ensures if ok then Updated(old(pages[..]), pages[..], lo, hi, true) else pages[..] == old(pages[..])
      ensures ok <==> !(fault.NoVma? || (fault.FailAt? && lo <= fault.page < hi))
    {
      if fault.NoVma? {
        return false;
      }
      var p := lo;
      while p < hi
        invariant lo <= p <= hi
        invariant Updated(old(pages[..]), pages[..], lo, p, true)
        invariant fault.FailAt? && lo <= fault.page < hi ==> p <= fault.page
      {
        assert pages[..][p] == old(pages[..])[p] == old(pages[p]);
        assert !pages[p];
        pages[p] := fault != FailAt(p, NoPage);
        if fault.FailAt? && fault.page == p {
          if fault.stage != NoPage {
            pages[p] := false;
          }
          assert forall q :: lo <= q < p ==> pages[..][q];
          UnmapPages(lo, p);
          assert pages[..] == old(pages[..]);
          return false;
        }
        p := p + 1;
      }
      ok := true;
    }

    // ---- Allocation -----------------------------------------------------------------------

    /** The descent for the best fit. */
    method FindBestFit(size: nat) returns (best: Option<nat>, exact: bool)
      requires Valid()
      ensures best.None? <==> forall x :: x in FreeSet(bufs) ==> Size(bufs, x) < size
      ensures best.Some? ==> BestFit(bufs, FreeSet(bufs), size, best.value)
      ensures exact <==> best.Some? && Size(bufs, best.value) == size
    {
      DescendFinds(bufs, freeBuffers, size, None);
      var n := freeBuffers;
      best, exact := None, false;
      while n.Node? && !exact
        invariant forall x :: x in Members(n) ==> x in bufs && x in Members(freeBuffers)
        invariant Descend(bufs, freeBuffers, size, None) == if exact then (best, true) else Descend(bufs, n, size, best)
        decreases n, !exact
      {
        assert bufs[n.addr].free;
        if size < Size(bufs, n.addr) {
          best := Some(n.addr);
          n := n.left;
        } else if size > Size(bufs, n.addr) {
          n := n.right;
        } else {
          best, exact := Some(n.addr), true;
        }
      }
    }

    /** binder_alloc_buf. Without a page fault it fails exactly when the region is unmapped,
        the sizes overflow, a one-way call is over quota, or no free buffer is large enough;
        and failing it changes nothing. Otherwise it hands out a best fit. */
    method AllocBuf(dataSize: nat, offsetsSize: nat, isAsync: bool, fault: Fault) returns (r: Option<nat>)
      requires Valid() && dataSize < WRAP && offsetsSize < WRAP
      modifies this, pages
      ensures Valid() && vma == old(vma)
      ensures r.None? ==> bufs == old(bufs) && freeAsync == old(freeAsync) && pages[..] == old(pages[..])
      ensures var size := Rounded(dataSize, offsetsSize);
        && (r.Some? ==>
              && BestFit(old(bufs), FreeSet(old(bufs)), size, r.value)
              && r.value in bufs && RoomFor(bufs, r.value, dataSize, offsetsSize)
              && Size(bufs, r.value) < dataSize + offsetsSize + HDR + 3 * WORD
              && bufs == Carved(old(bufs), r.value, size, dataSize, offsetsSize, isAsync)
              && freeAsync == old(freeAsync) - (if isAsync then size + HDR else 0))
        && (fault.NoFault? ==> (r.None? <==>
              || !vma || size >= WRAP || (isAsync && old(freeAsync) < size + HDR)
              || forall x :: x in FreeSet(old(bufs)) ==> Size(old(bufs), x) < size))
    {
      if !vma {
        return None;
      }
      var size, bad := SpaceFor(dataSize, offsetsSize);
      if bad {
        return None;
      }
      OverQuotaExact(freeAsync, size);
      if isAsync && OverQuota(freeAsync, size) {
        return None;
      }
      var best, exact := FindBestFit(size);
      if best.None? {
        return None;
      }
      SizeBounded(bufs, total, best.value);
      CarvedFits(bufs, total, best.value, size, dataSize, offsetsSize, isAsync);
      r := TakeBuffer(best.value, size, dataSize, offsetsSize, isAsync, exact, fault);
    }

    method SpaceFor(dataSize: nat, offsetsSize: nat) returns (size: nat, bad: bool)
      requires dataSize < WRAP && offsetsSize < WRAP
      ensures bad <==> Rounded(dataSize, offsetsSize) >= WRAP
      ensures !bad ==> size == Rounded(dataSize, offsetsSize)
    {
      OverflowCaught(dataSize, offsetsSize);
      size := Rounded32(dataSize, offsetsSize);
      bad := size < dataSize || size < offsetsSize;
    }

    method TakeBuffer(a: nat, size: nat, dataSize: nat, offsetsSize: nat, isAsync: bool, exact: bool, fault: Fault)
      returns (r: Option<nat>)
      requires Valid() && a in bufs && bufs[a].free && size == Rounded(dataSize, offsetsSize) <= Size(bufs, a)
      requires exact <==> Size(bufs, a) == size
      requires isAsync ==> size + HDR <= freeAsync
      modifies this, pages
      ensures Valid() && vma == old(vma)
      ensures r.None? ==> bufs == old(bufs) && freeAsync == old(freeAsync) && pages[..] == old(pages[..])
      ensures r.Some? ==> r.value == a && bufs == Carved(old(bufs), a, size, dataSize, offsetsSize, isAsync)
                          && freeAsync == old(freeAsync) - (if isAsync then size + HDR else 0)
      ensures fault.NoFault? ==> r.Some?
    {
      var ok, split := MapForBuffer(a, size, exact, fault);
      if !ok {
        return None;
      }
      CarvePagesStep(bufs, total, a, size, dataSize, offsetsSize, isAsync, old(pages[..]), pages[..]);
      CarvedList(bufs, total, a, size, dataSize, offsetsSize, isAsync);
      CarvedTree(bufs, total, freeBuffers, a, size, dataSize, offsetsSize, isAsync);
      CarvedQuota(bufs, total, freeAsync, a, size, dataSize, offsetsSize, isAsync);
      ghost var after := Carved(bufs, a, size, dataSize, offsetsSize, isAsync);
      freeBuffers := Remove(freeBuffers, a);
      bufs := bufs[a := bufs[a].(free := false, async := isAsync, dataSize := dataSize, offsetsSize := offsetsSize)];
      if split {
        bufs := Split(bufs, a, size);
        assert bufs == after;
        freeBuffers := Insert(bufs, freeBuffers, a + HDR + size);
      }
      if isAsync {
        freeAsync := freeAsync - (size + HDR);
      }
      r := Some(a);
    }

    /** Maps what buffer `a` will need and says whether it is to be split. */
    method MapForBuffer(a: nat, size: nat, exact: bool, fault: Fault) returns (ok: bool, split: bool)
      requires pages.Length * PAGE == total && ListOk(bufs, total) && PagesOk(bufs, pages[..])
      requires a in bufs && bufs[a].free && size <= Size(bufs, a) && (exact <==> Size(bufs, a) == size)
      modifies pages
      ensures ok ==> Updated(old(pages[..]), pages[..], CarvePages(bufs, a, size).0, CarvePages(bufs, a, size).1, true)
      ensures !ok ==> pages[..] == old(pages[..])
      ensures split <==> size + HDR + WORD < Size(bufs, a)
      ensures fault.NoFault? ==> ok
    {
      var startPage, endPage;
      startPage, endPage, split := PagesFor(a, size, exact);
      if startPage >= endPage {
        return true, split;
      }
      CarveRange(bufs, total, a, size, pages[..]);
      ok := MapPages(startPage, endPage, fault);
    }

    method PagesFor(a: nat, size: nat, exact: bool) returns (startPage: nat, endPage: nat, split: bool)
      requires ListOk(bufs, total) && a in bufs && bufs[a].free && size <= Size(bufs, a)
      requires exact <==> Size(bufs, a) == size
      ensures (startPage, endPage) == CarvePages(bufs, a, size)
      ensures split <==> size + HDR + WORD < Size(bufs, a)
    {
      assert NextOk(bufs, total, a);
      var bufferSize := Size(bufs, a);
      var hasPage := PageDown(a + HDR + bufferSize);
      if !exact {
        bufferSize := if size + HDR + WORD >= bufferSize then size else size + HDR;
      }
      endPage := PageUp(a + HDR + bufferSize);
      if endPage > hasPage {
        endPage := hasPage;
      }
      startPage := PageUp(a + HDR);
      split := bufferSize != size;
    }

    // ---- Freeing -----------------------------------------------------------------------------

    /** binder_delete_free_buffer: header `b`, behind a free buffer, goes away, and with it
        the pages it shares with no other header. */
    method DeleteFreeBuffer(b: nat)
      requires pages.Length * PAGE == total && total % PAGE == 0 && Linked(bufs, total) && PagesOk(bufs, pages[..])
      requires b in bufs && b != 0 && bufs[b].free
      requires bufs[b].prev.Some? && bufs[b].prev.value in bufs && bufs[bufs[b].prev.value].free
      modifies this`bufs, pages
      ensures bufs == Unlink(old(bufs), b) && PagesOk(bufs, pages[..])
    {
      var prev, next := bufs[b].prev.value, bufs[b].next;
      assert bufs[prev].free;
      var freePageStart, freePageEnd := true, true;
      if EndPage(prev) == StartPage(b) {
        freePageStart := false;
        if EndPage(prev) == EndPage(b) {
          freePageEnd := false;
        }
      }
      if next in bufs && StartPage(next) == EndPage(b) {
        freePageEnd := false;
        if StartPage(next) == StartPage(b) {
          freePageStart := false;
        }
      }
      ghost var before := pages[..];
      if freePageStart || freePageEnd {
        var lo := if freePageStart then StartPage(b) else EndPage(b);
        var hi := (if freePageEnd then EndPage(b) else StartPage(b)) + 1;
        DropRange(bufs, total, b, pages[..]);
        if lo < hi {
          UnmapPages(lo, hi);
        }
      }
      DropPagesStep(bufs, total, b, before, pages[..]);
      bufs := Unlink(bufs, b);
    }

    /** binder_free_buf: the whole pages of buffer `a` are given back, and it is merged with
        the free buffers on either side. */
    method FreeBuf(a: nat)
      requires Valid() && a in bufs && !bufs[a].free
      modifies this, pages
      ensures Valid() && vma == old(vma) && bufs == Released(old(bufs), a)
      ensures freeAsync == old(freeAsync) + (if old(bufs)[a].async then Charge(old(bufs)[a]) else 0)
    {
      RefundQuota(a);
      ReleasedList(bufs, total, a);
      ReleasedTree(bufs, total, freeBuffers, a);
      FreedLoose(bufs, total, a);
      FreedSame(bufs, total, freeBuffers, a);
      FreePages(a);
      var start := Merge(a);
      freeBuffers := Insert(bufs, freeBuffers, start);
    }

    method RefundQuota(a: nat)
      requires ListOk(bufs, total) && QuotaOk(bufs, total, freeAsync) && a in bufs && !bufs[a].free
      modifies this`freeAsync
      ensures freeAsync == old(freeAsync) + (if bufs[a].async then Charge(bufs[a]) else 0)
      ensures QuotaOk(Released(bufs, a), total, freeAsync)
    {
      ReleasedQuota(bufs, total, freeAsync, a);
      SizesBounded(bufs, total, a);
      var size, bad := SpaceFor(bufs[a].dataSize, bufs[a].offsetsSize);
      assert size <= Size(bufs, a);
      if bufs[a].async {
        freeAsync := freeAsync + size + HDR;
      }
    }

    method FreePages(a: nat)
      requires pages.Length * PAGE == total && total % PAGE == 0 && Linked(bufs, total) && PagesOk(bufs, pages[..])
      requires a in bufs && !bufs[a].free
      modifies this`bufs, pages
      ensures bufs == Freed(old(bufs), a) && PagesOk(bufs, pages[..])
    {
      ghost var before := pages[..];
      var lo, hi := PageUp(a + HDR), PageDown(bufs[a].next);
      InsideRange(bufs, total, a, pages[..]);
      if lo < hi {
        UnmapPages(lo, hi);
      }
      FreePagesStep(bufs, total, a, before, pages[..]);
      bufs := Freed(bufs, a);
    }

    /** The two merges, with the tree kept in step; returns where the free buffer starts. */
    method Merge(a: nat) returns (start: nat)
      requires pages.Length * PAGE == total && Loose(bufs, total) && CoalescedBut(bufs, a) && PagesOk(bufs, pages[..])
      requires a in bufs && bufs[a].free
      modifies this`bufs, this`freeBuffers, pages
      ensures bufs == Merged(old(bufs), a) && PagesOk(bufs, pages[..])
      ensures start == Start(old(bufs), a)
      ensures freeBuffers == Remaining(old(bufs), old(freeBuffers), a)
    {
      MergeNextKeeps(bufs, total, a);
      var next := bufs[a].next;
      assert NextOk(bufs, total, a);
      if next in bufs && bufs[next].free {
        freeBuffers := Remove(freeBuffers, next);
        DeleteFreeBuffer(next);
      }
      assert bufs == MergeNext(old(bufs), a) && PrevOk(bufs, a) && PrevOk(old(bufs), a);
      start := a;
      if a != 0 {
        var prev := bufs[a].prev.value;
        if bufs[prev].free {
          DeleteFreeBuffer(a);
          freeBuffers := Remove(freeBuffers, prev);
          start := prev;
        }
      }
    }

    /** The loop of binder_deferred_release over the allocated buffers. Whatever the order,
        it ends with one free buffer, one page and the whole quota. */
    method ReleaseAll()
      requires Valid()
      modifies this, pages
      ensures Valid() && bufs.Keys == {0} && bufs[0].free && bufs[0].next == total && freeAsync == total / 2
      ensures forall p :: 0 <= p < pages.Length ==> (pages[p] <==> p == 0)
    {
      var live := set a | a in bufs && !bufs[a].free;
      while live != {}
        invariant Valid() && live == set a | a in bufs && !bufs[a].free
        decreases live
      {
        var a :| a in live;
        ReleasedLive(bufs, total, a);
        FreeBuf(a);
        live := live - {a};
      }
      forall a | a in bufs ensures bufs[a].free {
        assert a !in live;
      }
      AllFreeIsOne(bufs, total, pages[..], freeAsync);
      assert forall p :: 0 <= p < pages.Length ==> pages[p] == pages[..][p];
    }
  }
}
