// The state of one process's buffer space, what allocating and freeing do to it, and the
// invariant both keep.
module BufferSpec {
  import opened Base
  import opened BufferList
  import opened FreeTree

  const WORD: nat := 4
  const MAX_TOTAL: nat := 0x40_0000
  const WRAP: nat := 0x1_0000_0000

  // ---- Sizes ------------------------------------------------------------------------------

  function Align(x: nat): nat { (x + WORD - 1) / WORD * WORD }

  predicate OnWord(x: nat) { x % WORD == 0 }

  /** Rounding up goes to the first multiple of the word size. */
  lemma AlignIsFirst(x: nat)
    ensures OnWord(Align(x)) && x <= Align(x) < x + WORD
    ensures forall o :: x <= o < x + WORD && OnWord(o) ==> o == Align(x)
  {
  }

  lemma OnWordAdd(x: nat, y: nat)
    requires OnWord(x) && OnWord(y)
    ensures OnWord(x + y) && OnWord(x + y + HDR)
  {
    var i, j := x / WORD, y / WORD;
    assert x == WORD * i && y == WORD * j;
    Multiple(i + j);
    Multiple(i + j + HDR / WORD);
  }

  lemma Multiple(i: nat)
    ensures OnWord(WORD * i)
  {
  }

  /** The space for data and offsets, with no bound on the numbers. */
  function Rounded(dataSize: nat, offsetsSize: nat): nat {
    Align(dataSize) + Align(offsetsSize)
  }

  /** The same as the 32-bit kernel computes it. */
  function Rounded32(dataSize: nat, offsetsSize: nat): nat {
    (Align(dataSize) % WRAP + Align(offsetsSize) % WRAP) % WRAP
  }

  /** The check for a sum smaller than one of its parts catches exactly the overflows. */
  lemma OverflowCaught(dataSize: nat, offsetsSize: nat)
    requires dataSize < WRAP && offsetsSize < WRAP
    ensures var size := Rounded32(dataSize, offsetsSize);
      (size < dataSize || size < offsetsSize) <==> Rounded(dataSize, offsetsSize) >= WRAP
    ensures Rounded(dataSize, offsetsSize) < WRAP ==> Rounded32(dataSize, offsetsSize) == Rounded(dataSize, offsetsSize)
  {
    var a, b := Align(dataSize), Align(offsetsSize);
    assert dataSize <= a < dataSize + WORD && offsetsSize <= b < offsetsSize + WORD;
    assert a <= WRAP && b <= WRAP;
    assert a % WRAP == if a == WRAP then 0 else a;
    assert b % WRAP == if b == WRAP then 0 else b;
  }

  /** The quota check, in 32-bit arithmetic. */
  predicate OverQuota(freeAsync: nat, size: nat) {
    freeAsync < (size + HDR) % WRAP
  }

  lemma OverQuotaExact(freeAsync: nat, size: nat)
    ensures OverQuota(freeAsync, size) ==> freeAsync < size + HDR
    ensures size < MAX_TOTAL ==> (OverQuota(freeAsync, size) <==> freeAsync < size + HDR)
  {
    assert (size + HDR) % WRAP <= size + HDR;
  }

  // ---- Sums over live buffers -----------------------------------------------------------------

  ghost function Sum(m: map<nat, nat>): nat {
    if m == map[] then 0 else var k :| k in m; m[k] + Sum(m - {k})
  }

  lemma {:induction false} SumRemove(m: map<nat, nat>, k: nat)
    requires k in m
    ensures Sum(m) == m[k] + Sum(m - {k})
    decreases |m|
  {
    var j :| j in m && Sum(m) == m[j] + Sum(m - {j});
    if j != k {
      SumRemove(m - {j}, k);
      SumRemove(m - {k}, j);
      assert m - {j} - {k} == m - {k} - {j};
    }
  }

  /** What an allocated buffer counts against the space for one-way calls. */
  function Charge(b: Buf): nat {
    Rounded(b.dataSize, b.offsetsSize) + HDR
  }

  ghost function Charges(bufs: Bufs): map<nat, nat> {
    map a | a in bufs && !bufs[a].free && bufs[a].async :: Charge(bufs[a])
  }

  // ---- The invariant -----------------------------------------------------------------------------

  ghost function FreeSet(bufs: Bufs): set<nat> {
    set a | a in bufs && bufs[a].free
  }

  ghost predicate Holding(bufs: Bufs, a: nat)
    requires a in bufs
  {
    !bufs[a].free ==> Rounded(bufs[a].dataSize, bufs[a].offsetsSize) <= Size(bufs, a)
  }

  /** Headers lie on word boundaries, and so do the bytes after them. */
  ghost predicate AllOnWord(bufs: Bufs) {
    forall a {:trigger OnWord(a)} :: a in bufs ==> OnWord(a)
  }

  /** Buffer `a` has room for its data, and for its offsets where the kernel looks for them: at
      the first word boundary after the data. */
  ghost predicate RoomFor(bufs: Bufs, a: nat, dataSize: nat, offsetsSize: nat)
    requires a in bufs
  {
    && dataSize <= Size(bufs, a)
    && forall o :: dataSize <= o < dataSize + WORD && OnWord(o) ==>
         OnWord(a + HDR + o) && o + offsetsSize <= Size(bufs, a)
  }

  lemma RoundedIsRoom(bufs: Bufs, a: nat, dataSize: nat, offsetsSize: nat)
    requires a in bufs && OnWord(a) && Rounded(dataSize, offsetsSize) <= Size(bufs, a)
    ensures RoomFor(bufs, a, dataSize, offsetsSize)
  {
    AlignIsFirst(dataSize);
    AlignIsFirst(offsetsSize);
    forall o | dataSize <= o < dataSize + WORD && OnWord(o)
      ensures OnWord(a + HDR + o) && o + offsetsSize <= Size(bufs, a)
    {
      OnWordAdd(a, o);
    }
  }

  /** An allocated buffer is at least as large as what was asked for. */
  ghost predicate AllHold(bufs: Bufs) {
    forall a {:trigger Holding(bufs, a)} :: a in bufs ==> Holding(bufs, a)
  }

  ghost predicate ListOk(bufs: Bufs, total: nat) {
    && PAGE <= total <= MAX_TOTAL && total % PAGE == 0 && Linked(bufs, total) && Coalesced(bufs)
    && AllHold(bufs) && AllOnWord(bufs)
  }

  ghost predicate TreeOk(bufs: Bufs, tree: Tree) {
    Ordered(bufs, tree) && Members(tree) == FreeSet(bufs)
  }

  ghost predicate QuotaOk(bufs: Bufs, total: nat, freeAsync: nat) {
    freeAsync + Sum(Charges(bufs)) == total / 2
  }

  // ---- Allocating ---------------------------------------------------------------------------------

  /** Buffer `a` handed out for `size` bytes; what is left over becomes a buffer if there is
      room for a header and more than four bytes. */
  function Carved(bufs: Bufs, a: nat, size: nat, dataSize: nat, offsetsSize: nat, async: bool): Bufs
    requires a in bufs
  {
    var taken := bufs[a := bufs[a].(free := false, async := async, dataSize := dataSize, offsetsSize := offsetsSize)];
    if size + HDR + WORD >= Size(bufs, a) then taken else Split(taken, a, size)
  }

  /** The pages that have to be mapped for that. */
  function CarvePages(bufs: Bufs, a: nat, size: nat): (nat, nat)
    requires a in bufs && size <= Size(bufs, a)
  {
    var want := if size + HDR + WORD >= Size(bufs, a) then size else size + HDR;
    var end := PageUp(a + HDR + want);
    (PageUp(a + HDR), if end > PageDown(bufs[a].next) then PageDown(bufs[a].next) else end)
  }

  lemma {:induction false} CarvePagesOk(bufs: Bufs, total: nat, a: nat, size: nat, dataSize: nat, offsetsSize: nat,
                                        async: bool, p: nat)
    requires ListOk(bufs, total) && a in bufs && bufs[a].free && size <= Size(bufs, a)
    ensures var (lo, hi) := CarvePages(bufs, a, size);
      && (lo <= p < hi ==> !Needed(bufs, p) && p * PAGE < total)
      && (Needed(Carved(bufs, a, size, dataSize, offsetsSize, async), p) <==> Needed(bufs, p) || lo <= p < hi)
  {
    assert NextOk(bufs, total, a);
    var x := bufs[a].(async := async, dataSize := dataSize, offsetsSize := offsetsSize);
    var renamed := bufs[a := x];
    SameLinks(bufs, total, a, x);
    SameUse(bufs, renamed, a, p);
    WholePages(renamed, total, a, p);
    assert Freed(renamed, a) == renamed;
    if size + HDR + WORD >= Size(bufs, a) {
      assert Carved(bufs, a, size, dataSize, offsetsSize, async) == Taken(renamed, a);
    } else {
      SplitPages(renamed, total, a, size, p);
      assert Carved(bufs, a, size, dataSize, offsetsSize, async) == Split(Taken(renamed, a), a, size);
    }
  }

  lemma SameUse(bufs: Bufs, after: Bufs, a: nat, p: nat)
    requires a in bufs && a in after && after == bufs[a := after[a]]
    requires after[a].free == bufs[a].free && after[a].next == bufs[a].next
    ensures Needed(after, p) <==> Needed(bufs, p)
  {
    if Needed(bufs, p) {
      var b :| b in bufs && Uses(bufs, b, p);
      assert Uses(after, b, p);
    }
    if Needed(after, p) {
      var b :| b in after && Uses(after, b, p);
      assert b in bufs && Uses(bufs, b, p);
    }
  }

  lemma {:induction false} CarvedOnWord(bufs: Bufs, a: nat, size: nat, dataSize: nat, offsetsSize: nat, async: bool)
    requires AllOnWord(bufs) && a in bufs && size == Rounded(dataSize, offsetsSize)
    ensures AllOnWord(Carved(bufs, a, size, dataSize, offsetsSize, async))
  {
    AlignIsFirst(dataSize);
    AlignIsFirst(offsetsSize);
    OnWordAdd(Align(dataSize), Align(offsetsSize));
    assert OnWord(a);
    OnWordAdd(a, size);
  }

  /** What is handed out has room for the request, and exceeds it by less than what would make
      another buffer and the rounding. */
  lemma {:induction false} CarvedFits(bufs: Bufs, total: nat, a: nat, size: nat, dataSize: nat, offsetsSize: nat,
                                      async: bool)
    requires ListOk(bufs, total) && a in bufs && size == Rounded(dataSize, offsetsSize) <= Size(bufs, a)
    ensures var after := Carved(bufs, a, size, dataSize, offsetsSize, async);
      a in after && RoomFor(after, a, dataSize, offsetsSize)
      && Size(after, a) < dataSize + offsetsSize + HDR + 3 * WORD
  {
    var after := Carved(bufs, a, size, dataSize, offsetsSize, async);
    AlignIsFirst(dataSize);
    AlignIsFirst(offsetsSize);
    assert OnWord(a) && NextOk(bufs, total, a);
    RoundedIsRoom(after, a, dataSize, offsetsSize);
  }

  lemma {:induction false} CarvedList(bufs: Bufs, total: nat, a: nat, size: nat, dataSize: nat, offsetsSize: nat,
                                      async: bool)
    requires ListOk(bufs, total) && a in bufs && bufs[a].free && size <= Size(bufs, a)
    requires size == Rounded(dataSize, offsetsSize)
    ensures ListOk(Carved(bufs, a, size, dataSize, offsetsSize, async), total)
  {
    var x := bufs[a].(free := false, async := async, dataSize := dataSize, offsetsSize := offsetsSize);
    var taken := bufs[a := x];
    var after := Carved(bufs, a, size, dataSize, offsetsSize, async);
    SameLinks(bufs, total, a, x);
    assert NextOk(bufs, total, a);
    var b := a + HDR + size;
    assert b in bufs ==> Apart(bufs, a, b);
    CarvedOnWord(bufs, a, size, dataSize, offsetsSize, async);
    if size + HDR + WORD < Size(bufs, a) { SplitLinked(taken, total, a, size); }
    assert NotBothFree(bufs, a);
    forall y | y in after ensures Holding(after, y) && NotBothFree(after, y) {
      if y in bufs { assert Holding(bufs, y) && NotBothFree(bufs, y) && NextOk(bufs, total, y); }
    }
  }

  /** `after` differs from `bufs` at `a`, by free buffers that came or went, and by links
      to what comes before. */
  ghost predicate Elsewhere(bufs: Bufs, after: Bufs, a: nat) {
    && (forall x :: x in bufs && x != a && !bufs[x].free ==>
        x in after && after[x].(prev := bufs[x].prev, next := bufs[x].next) == bufs[x])
    && (forall x :: x in after && x != a && !after[x].free ==> x in bufs && !bufs[x].free)
  }

  lemma {:induction false} CarvedElsewhere(bufs: Bufs, total: nat, a: nat, size: nat, dataSize: nat, offsetsSize: nat,
                                           async: bool)
    requires Linked(bufs, total) && a in bufs && bufs[a].free && size <= Size(bufs, a)
    ensures var after := Carved(bufs, a, size, dataSize, offsetsSize, async);
      var b := a + HDR + size;
      var split := size + HDR + WORD < Size(bufs, a);
      && Elsewhere(bufs, after, a)
      && a in after && after[a] ==
           bufs[a].(next := after[a].next, free := false, async := async,
                    dataSize := dataSize, offsetsSize := offsetsSize)
      && (forall x :: x in after <==> x in bufs || (split && x == b))
      && (forall x :: x in bufs && x != a ==> after[x].next == bufs[x].next && after[x].free == bufs[x].free)
      && (split ==> b !in bufs && after[b].free)
  {
    var b := a + HDR + size;
    assert NextOk(bufs, total, a);
    assert b in bufs ==> Apart(bufs, a, b);
  }

  lemma {:induction false} TakenTree(bufs: Bufs, after: Bufs, tree: Tree, a: nat)
    requires TreeOk(bufs, tree) && forall x :: x in bufs && x != a ==> x in after && after[x].next == bufs[x].next
    ensures Ordered(after, Remove(tree, a)) && Members(Remove(tree, a)) == FreeSet(bufs) - {a}
    ensures forall x :: x in Members(Remove(tree, a)) ==> x in after
  {
    var rest := Remove(tree, a);
    RemoveOrdered(bufs, tree, a);
    OrderedFrame(bufs, after, rest);
    MembersIn(after, rest);
  }

  lemma {:induction false} CarvedTree(bufs: Bufs, total: nat, tree: Tree, a: nat, size: nat, dataSize: nat,
                                      offsetsSize: nat, async: bool)
    requires Linked(bufs, total) && TreeOk(bufs, tree) && a in bufs && bufs[a].free && size <= Size(bufs, a)
    ensures var after := Carved(bufs, a, size, dataSize, offsetsSize, async);
      var b := a + HDR + size;
      var rest := Remove(tree, a);
      && (forall x :: x in Members(rest) ==> x in after)
      && if size + HDR + WORD >= Size(bufs, a) then TreeOk(after, rest)
         else b in after && TreeOk(after, Insert(after, rest, b))
  {
    var after := Carved(bufs, a, size, dataSize, offsetsSize, async);
    CarvedElsewhere(bufs, total, a, size, dataSize, offsetsSize, async);
    TakenTree(bufs, after, tree, a);
    CarvedTreeAfter(bufs, after, Remove(tree, a), a, a + HDR + size, size + HDR + WORD < Size(bufs, a));
  }

  lemma {:induction false} CarvedTreeAfter(bufs: Bufs, after: Bufs, rest: Tree, a: nat, b: nat, split: bool)
    requires Ordered(after, rest) && Members(rest) == FreeSet(bufs) - {a} && a in after && !after[a].free
    requires forall x :: x in Members(rest) ==> x in after
    requires forall x :: x in after <==> x in bufs || (split && x == b)
    requires forall x :: x in bufs && x != a ==> x in after && after[x].free == bufs[x].free
    requires split ==> b !in bufs && b in after && after[b].free
    ensures if split then TreeOk(after, Insert(after, rest, b)) else TreeOk(after, rest)
  {
    if split {
      InsertOrdered(after, rest, b);
      assert FreeSet(after) == FreeSet(bufs) - {a} + {b};
    } else {
      assert FreeSet(after) == FreeSet(bufs) - {a};
    }
  }

  /** The space for one-way calls changes by what happens to buffer `a` alone. */
  lemma {:induction false} QuotaMoves(bufs: Bufs, after: Bufs, a: nat)
    requires Elsewhere(bufs, after, a) && a in bufs
    ensures Sum(Charges(after)) - (if a in Charges(after) then Charges(after)[a] else 0)
         == Sum(Charges(bufs)) - (if a in Charges(bufs) then Charges(bufs)[a] else 0)
  {
    var x, y := Charges(bufs), Charges(after);
    assert x - {a} == y - {a};
    if a in x { SumRemove(x, a); } else { assert x - {a} == x; }
    if a in y { SumRemove(y, a); } else { assert y - {a} == y; }
  }

  lemma {:induction false} CarvedQuota(bufs: Bufs, total: nat, freeAsync: nat, a: nat, size: nat, dataSize: nat,
                                       offsetsSize: nat, async: bool)
    requires Linked(bufs, total) && QuotaOk(bufs, total, freeAsync) && a in bufs && bufs[a].free
    requires size == Rounded(dataSize, offsetsSize) <= Size(bufs, a) && (async ==> size + HDR <= freeAsync)
    ensures QuotaOk(Carved(bufs, a, size, dataSize, offsetsSize, async), total,
                    if async then freeAsync - (size + HDR) else freeAsync)
  {
    CarvedElsewhere(bufs, total, a, size, dataSize, offsetsSize, async);
    QuotaMoves(bufs, Carved(bufs, a, size, dataSize, offsetsSize, async), a);
  }

  // ---- Freeing ------------------------------------------------------------------------------------

  /** The free buffer after `a`, if there is one, joined to it. */
  function MergeNext(bufs: Bufs, a: nat): Bufs
    requires a in bufs
  {
    var n := bufs[a].next;
    if n in bufs && bufs[n].free && bufs[n].prev == Some(a) then Unlink(bufs, n) else bufs
  }

  /** Buffer `a` joined to the one before it if that is free. */
  function MergePrev(bufs: Bufs, a: nat): Bufs
    requires a in bufs
  {
    var q := bufs[a].prev;
    if q.Some? && q.value in bufs && bufs[q.value].free then Unlink(bufs, a) else bufs
  }

  function Start(bufs: Bufs, a: nat): nat
    requires a in bufs
  {
    var q := bufs[a].prev;
    if q.Some? && q.value in bufs && bufs[q.value].free then q.value else a
  }

  function Merged(bufs: Bufs, a: nat): Bufs
    requires a in bufs
  {
    var merged := MergeNext(bufs, a);
    if a in merged then MergePrev(merged, a) else merged
  }

  function Released(bufs: Bufs, a: nat): Bufs
    requires a in bufs
  {
    Merged(Freed(bufs, a), a)
  }

  /** Everything but free neighbours, which freeing may leave for a moment. */
  ghost predicate Loose(bufs: Bufs, total: nat) {
    PAGE <= total <= MAX_TOTAL && total % PAGE == 0 && Linked(bufs, total) && AllHold(bufs) && AllOnWord(bufs)
  }

  /** Only around `a` can there be free neighbours. */
  ghost predicate CoalescedBut(bufs: Bufs, a: nat) {
    forall x {:trigger NotBothFree(bufs, x)} :: x in bufs && x != a && bufs[x].next != a ==> NotBothFree(bufs, x)
  }

  lemma {:induction false} FreedLoose(bufs: Bufs, total: nat, a: nat)
    requires ListOk(bufs, total) && a in bufs
    ensures Loose(Freed(bufs, a), total) && CoalescedBut(Freed(bufs, a), a)
  {
    var after := Freed(bufs, a);
    SameLinks(bufs, total, a, after[a]);
    forall x | x in after ensures Holding(after, x) {
      assert Holding(bufs, x);
    }
    forall x | x in after && x != a && after[x].next != a ensures NotBothFree(after, x) {
      assert NotBothFree(bufs, x);
    }
  }

  lemma {:induction false} UnlinkLoose(bufs: Bufs, total: nat, b: nat)
    requires Loose(bufs, total) && b in bufs && b != 0
    requires bufs[b].prev.Some? && bufs[b].prev.value in bufs && bufs[bufs[b].prev.value].free
    ensures Loose(Unlink(bufs, b), total)
  {
    UnlinkLinked(bufs, total, b);
    var after := Unlink(bufs, b);
    forall x | x in after ensures Holding(after, x) {
      assert Holding(bufs, x);
    }
  }

  lemma {:induction false} MergeNextKeeps(bufs: Bufs, total: nat, a: nat)
    requires Loose(bufs, total) && CoalescedBut(bufs, a) && a in bufs && bufs[a].free
    ensures var after := MergeNext(bufs, a);
      && Loose(after, total) && a in after && after[a].free && after[a].prev == bufs[a].prev
      && CoalescedBut(after, a) && NotBothFree(after, a)
  {
    var n := bufs[a].next;
    var after := MergeNext(bufs, a);
    assert NextOk(bufs, total, a);
    if n in bufs && bufs[n].free {
      assert PrevOk(bufs, n) && NextOk(bufs, total, n);
      assert NotBothFree(bufs, n);
      UnlinkLoose(bufs, total, n);
      forall x | x in after && x != a && after[x].next != a ensures NotBothFree(after, x) {
        assert NotBothFree(bufs, x) && NextOk(bufs, total, x) && PrevOk(bufs, x);
        if after[x].next in bufs { assert PrevOk(bufs, after[x].next); }
      }
    }
  }

  lemma {:induction false} MergePrevKeeps(bufs: Bufs, total: nat, a: nat)
    requires Loose(bufs, total) && CoalescedBut(bufs, a) && a in bufs && bufs[a].free && NotBothFree(bufs, a)
    ensures ListOk(MergePrev(bufs, a), total)
  {
    var after := MergePrev(bufs, a);
    assert PrevOk(bufs, a) && NextOk(bufs, total, a);
    if a != 0 && bufs[bufs[a].prev.value].free {
      var q := bufs[a].prev.value;
      UnlinkLoose(bufs, total, a);
      forall x | x in after ensures NotBothFree(after, x) {
        assert NextOk(bufs, total, x) && NextOk(bufs, total, q);
        if x != q && bufs[x].next != a { assert NotBothFree(bufs, x); }
        if bufs[x].next in bufs { assert PrevOk(bufs, bufs[x].next); }
      }
    } else {
      forall x | x in after ensures NotBothFree(after, x) {
        assert NextOk(bufs, total, x);
        if x != a && bufs[x].next != a { assert NotBothFree(bufs, x); }
      }
    }
  }

  lemma {:induction false} ReleasedList(bufs: Bufs, total: nat, a: nat)
    requires ListOk(bufs, total) && a in bufs
    ensures ListOk(Released(bufs, a), total)
  {
    FreedLoose(bufs, total, a);
    MergeNextKeeps(Freed(bufs, a), total, a);
    MergePrevKeeps(MergeNext(Freed(bufs, a), a), total, a);
  }

  lemma {:induction false} UnlinkElsewhere(bufs: Bufs, b: nat, a: nat)
    requires b in bufs && bufs[b].prev.Some? && bufs[b].prev.value in bufs && bufs[b].free && bufs[b].prev.value != b
    requires bufs[bufs[b].prev.value].free
    ensures Elsewhere(bufs, Unlink(bufs, b), a)
  {
  }

  lemma {:induction false} ElsewhereTrans(x: Bufs, y: Bufs, z: Bufs, a: nat)
    requires Elsewhere(x, y, a) && Elsewhere(y, z, a)
    ensures Elsewhere(x, z, a)
  {
    forall k | k in x && k != a && !x[k].free ensures k in z && z[k].(prev := x[k].prev, next := x[k].next) == x[k] {
      assert y[k].(prev := x[k].prev, next := x[k].next) == x[k];
      assert z[k].(prev := y[k].prev, next := y[k].next) == y[k];
    }
  }

  lemma {:induction false} ReleasedQuota(bufs: Bufs, total: nat, freeAsync: nat, a: nat)
    requires ListOk(bufs, total) && QuotaOk(bufs, total, freeAsync) && a in bufs && !bufs[a].free
    ensures QuotaOk(Released(bufs, a), total, if bufs[a].async then freeAsync + Charge(bufs[a]) else freeAsync)
  {
    ReleasedElsewhere(bufs, total, a);
    ReleasedShape(bufs, total, a);
    QuotaMoves(bufs, Released(bufs, a), a);
  }

  /** The tree once the neighbours that are merged have been taken out. */
  function Remaining(bufs: Bufs, tree: Tree, a: nat): Tree
    requires a in bufs
  {
    var n, q := bufs[a].next, bufs[a].prev;
    var t := if n in bufs && bufs[n].free then Remove(tree, n) else tree;
    if q.Some? && q.value in bufs && bufs[q.value].free then Remove(t, q.value) else t
  }

  lemma {:induction false} RemainingOk(bufs: Bufs, total: nat, tree: Tree, a: nat)
    requires Linked(bufs, total) && TreeOk(bufs, tree) && a in bufs && !bufs[a].free
    ensures var n, q := bufs[a].next, bufs[a].prev;
      && Ordered(bufs, Remaining(bufs, tree, a))
      && Members(Remaining(bufs, tree, a)) == FreeSet(bufs) - {n} - (if q.Some? then {q.value} else {})
  {
    var n, q := bufs[a].next, bufs[a].prev;
    var t := if n in bufs && bufs[n].free then Remove(tree, n) else tree;
    assert PrevOk(bufs, a);
    if n in bufs && bufs[n].free { RemoveOrdered(bufs, tree, n); }
    if q.Some? && bufs[q.value].free { RemoveOrdered(bufs, t, q.value); }
  }

  /** `after` is what is left of `bufs` when `a`, with `n` behind it and `q` before it, has
      become part of a free buffer at `s`. */
  ghost predicate Shape(bufs: Bufs, after: Bufs, a: nat, n: nat, q: Option<nat>, s: nat) {
    && s in after && after[s].free && (s == a || q == Some(s))
    && (forall x :: x in after ==> x in bufs)
    && (forall x :: x in bufs && x != a && x != n && q != Some(x) ==>
        x in after && after[x].next == bufs[x].next && after[x].free == bufs[x].free)
    && (n in after && n != s ==> !after[n].free)
    && (q.Some? && q.value in after && q.value != s ==> !after[q.value].free)
    && (s != a ==> a !in after)
  }

  lemma {:induction false} ReleasedShape(bufs: Bufs, total: nat, a: nat)
    requires ListOk(bufs, total) && a in bufs && !bufs[a].free
    ensures Shape(bufs, Released(bufs, a), a, bufs[a].next, bufs[a].prev, Start(bufs, a))
  {
    var freed := Freed(bufs, a);
    var merged := MergeNext(freed, a);
    FreedLoose(bufs, total, a);
    MergeNextKeeps(freed, total, a);
    assert NextOk(bufs, total, a) && PrevOk(bufs, a);
    assert NextOk(freed, total, a) && PrevOk(merged, a);
    if bufs[a].next in bufs { assert NextOk(bufs, total, bufs[a].next); }
  }

  lemma {:induction false} ShapeTree(bufs: Bufs, after: Bufs, t: Tree, a: nat, n: nat, q: Option<nat>, s: nat)
    requires Shape(bufs, after, a, n, q, s) && a in bufs && !bufs[a].free
    requires Ordered(bufs, t) && Members(t) == FreeSet(bufs) - {n} - (if q.Some? then {q.value} else {})
    ensures forall x :: x in Members(t) ==> x in after
    ensures TreeOk(after, Insert(after, t, s))
  {
    OrderedFrame(bufs, after, t);
    MembersIn(after, t);
    InsertOrdered(after, t, s);
    assert FreeSet(after) == Members(t) + {s};
  }

  lemma {:induction false} ReleasedTree(bufs: Bufs, total: nat, tree: Tree, a: nat)
    requires ListOk(bufs, total) && TreeOk(bufs, tree) && a in bufs && !bufs[a].free
    ensures var after := Released(bufs, a);
      var t := Remaining(bufs, tree, a);
      && Start(bufs, a) in after && (forall x :: x in Members(t) ==> x in after)
      && TreeOk(after, Insert(after, t, Start(bufs, a)))
  {
    RemainingOk(bufs, total, tree, a);
    ReleasedShape(bufs, total, a);
    ShapeTree(bufs, Released(bufs, a), Remaining(bufs, tree, a), a, bufs[a].next, bufs[a].prev, Start(bufs, a));
  }

  /** Marking `a` free first makes no difference to what is merged with it. */
  lemma {:induction false} FreedSame(bufs: Bufs, total: nat, tree: Tree, a: nat)
    requires Linked(bufs, total) && a in bufs
    ensures Remaining(Freed(bufs, a), tree, a) == Remaining(bufs, tree, a) && Start(Freed(bufs, a), a) == Start(bufs, a)
  {
    assert NextOk(bufs, total, a) && PrevOk(bufs, a);
  }

  lemma {:induction false} SizesBounded(bufs: Bufs, total: nat, a: nat)
    requires ListOk(bufs, total) && a in bufs && !bufs[a].free
    ensures bufs[a].dataSize < WRAP && bufs[a].offsetsSize < WRAP
    ensures Rounded(bufs[a].dataSize, bufs[a].offsetsSize) <= Size(bufs, a) < WRAP
  {
    assert Holding(bufs, a) && NextOk(bufs, total, a);
  }

  // ---- Pages of each step ------------------------------------------------------------------------

  /** `pages` with the pages from `lo` up to `hi` set to `mapped`. */
  ghost predicate Updated(pages: seq<bool>, after: seq<bool>, lo: nat, hi: nat, mapped: bool) {
    |after| == |pages| && forall p {:trigger after[p]} :: 0 <= p < |pages| ==>
      after[p] == if lo <= p < hi then mapped else pages[p]
  }

  lemma {:induction false} CarvePagesStep(bufs: Bufs, total: nat, a: nat, size: nat, dataSize: nat, offsetsSize: nat,
                                          async: bool, pages: seq<bool>, after: seq<bool>)
    requires ListOk(bufs, total) && a in bufs && bufs[a].free && size <= Size(bufs, a)
    requires PagesOk(bufs, pages)
    requires Updated(pages, after, CarvePages(bufs, a, size).0, CarvePages(bufs, a, size).1, true)
    ensures PagesOk(Carved(bufs, a, size, dataSize, offsetsSize, async), after)
  {
    forall p | 0 <= p < |after| ensures after[p] <==> Needed(Carved(bufs, a, size, dataSize, offsetsSize, async), p) {
      CarvePagesOk(bufs, total, a, size, dataSize, offsetsSize, async, p);
    }
  }

  lemma {:induction false} FreePagesStep(bufs: Bufs, total: nat, a: nat, pages: seq<bool>, after: seq<bool>)
    requires Linked(bufs, total) && total % PAGE == 0 && a in bufs && !bufs[a].free
    requires PagesOk(bufs, pages) && Updated(pages, after, PageUp(a + HDR), PageDown(bufs[a].next), false)
    ensures PagesOk(Freed(bufs, a), after)
  {
    assert Taken(bufs, a) == bufs;
    forall p | 0 <= p < |after| ensures after[p] <==> Needed(Freed(bufs, a), p) {
      WholePages(bufs, total, a, p);
    }
  }

  lemma {:induction false} DropPagesStep(bufs: Bufs, total: nat, b: nat, pages: seq<bool>, after: seq<bool>)
    requires Linked(bufs, total) && total % PAGE == 0 && b in bufs && b != 0
    requires bufs[b].prev.Some? && bufs[b].prev.value in bufs && bufs[b].free && bufs[bufs[b].prev.value].free
    requires PagesOk(bufs, pages) && Updated(pages, after, DropFrom(bufs, b).0, DropFrom(bufs, b).1, false)
    ensures PagesOk(Unlink(bufs, b), after)
  {
    forall p | 0 <= p < |after| ensures after[p] <==> Needed(Unlink(bufs, b), p) {
      UnlinkPages(bufs, total, b, p);
    }
  }

  lemma SizeBounded(bufs: Bufs, total: nat, a: nat)
    requires ListOk(bufs, total) && a in bufs
    ensures Size(bufs, a) < total <= MAX_TOTAL
  {
    assert NextOk(bufs, total, a);
  }

  /** Every page to be mapped is unmapped and inside the region. */
  lemma CarveRange(bufs: Bufs, total: nat, a: nat, size: nat, pages: seq<bool>)
    requires |pages| * PAGE == total && ListOk(bufs, total) && PagesOk(bufs, pages)
    requires a in bufs && bufs[a].free && size <= Size(bufs, a)
    ensures var (lo, hi) := CarvePages(bufs, a, size);
      lo < hi ==> hi <= |pages| && forall p :: lo <= p < hi ==> !pages[p]
  {
    var (lo, hi) := CarvePages(bufs, a, size);
    if lo < hi {
      CarvePagesOk(bufs, total, a, size, 0, 0, false, hi - 1);
      forall p | lo <= p < hi ensures p < |pages| && !pages[p] {
        CarvePagesOk(bufs, total, a, size, 0, 0, false, p);
      }
    }
  }

  /** Every page that goes with header `b` is mapped. */
  lemma DropRange(bufs: Bufs, total: nat, b: nat, pages: seq<bool>)
    requires |pages| * PAGE == total && Linked(bufs, total) && PagesOk(bufs, pages) && b in bufs && b != 0
    requires bufs[b].prev.Some? && bufs[b].prev.value in bufs && bufs[b].free && bufs[bufs[b].prev.value].free
    ensures var (lo, hi) := DropFrom(bufs, b);
      lo < hi ==> hi <= |pages| && forall p :: lo <= p < hi ==> pages[p]
  {
    var (lo, hi) := DropFrom(bufs, b);
    if lo < hi {
      UnlinkPages(bufs, total, b, hi - 1);
      forall p | lo <= p < hi ensures p < |pages| && pages[p] {
        UnlinkPages(bufs, total, b, p);
      }
    }
  }

  /** Every whole page inside an allocated buffer is mapped. */
  lemma InsideRange(bufs: Bufs, total: nat, a: nat, pages: seq<bool>)
    requires |pages| * PAGE == total && Linked(bufs, total) && PagesOk(bufs, pages) && a in bufs && !bufs[a].free
    ensures var lo, hi := PageUp(a + HDR), PageDown(bufs[a].next);
      lo < hi ==> hi <= |pages| && forall p :: lo <= p < hi ==> pages[p]
  {
    assert NextOk(bufs, total, a);
    forall p | PageUp(a + HDR) <= p < PageDown(bufs[a].next) ensures p < |pages| && pages[p] {
      assert Uses(bufs, a, p);
    }
  }

  lemma {:induction false} ReleasedElsewhere(bufs: Bufs, total: nat, a: nat)
    requires ListOk(bufs, total) && a in bufs && !bufs[a].free
    ensures Elsewhere(bufs, Released(bufs, a), a)
  {
    var freed := Freed(bufs, a);
    var merged := MergeNext(freed, a);
    FreedLoose(bufs, total, a);
    MergeNextKeeps(freed, total, a);
    assert NextOk(freed, total, a) && PrevOk(merged, a);
    if merged != freed {
      UnlinkElsewhere(freed, freed[a].next, a);
      ElsewhereTrans(bufs, freed, merged, a);
    }
    if MergePrev(merged, a) != merged {
      UnlinkElsewhere(merged, a, a);
      ElsewhereTrans(bufs, merged, MergePrev(merged, a), a);
    }
  }

  /** Freeing `a` leaves the other allocated buffers allocated. */
  lemma {:induction false} ReleasedLive(bufs: Bufs, total: nat, a: nat)
    requires ListOk(bufs, total) && a in bufs && !bufs[a].free
    ensures (set x | x in Released(bufs, a) && !Released(bufs, a)[x].free) == (set x | x in bufs && !bufs[x].free) - {a}
  {
    var after := Released(bufs, a);
    ReleasedElsewhere(bufs, total, a);
    ReleasedShape(bufs, total, a);
    assert a in after ==> after[a].free;
    forall x ensures (x in after && !after[x].free) <==> (x in bufs && !bufs[x].free && x != a) {
      if x in bufs && !bufs[x].free && x != a {
        assert after[x].(prev := bufs[x].prev, next := bufs[x].next) == bufs[x];
      }
    }
  }

  lemma {:induction false} UnlinkUndoesSplit(bufs: Bufs, total: nat, a: nat, size: nat)
    requires Linked(bufs, total) && a in bufs && size + HDR <= Size(bufs, a)
    ensures var b := a + HDR + size;
      var cut := Split(bufs, a, size);
      && b in cut && cut[a] == bufs[a].(next := b) && cut[b].prev == Some(a) && cut[b].free
      && Unlink(cut, b) == bufs
  {
    var b, n := a + HDR + size, bufs[a].next;
    assert NextOk(bufs, total, a);
    assert b in bufs ==> Apart(bufs, a, b);
    if n in bufs { assert NextOk(bufs, total, n); }
    assert bufs[a].(next := n) == bufs[a];
    assert n in bufs ==> bufs[n].(prev := Some(a)) == bufs[n];
  }

  /** Freeing a buffer undoes its allocation, split and all: only what its header remembers
      of the request stays behind. */
  lemma {:induction false} AllocThenFree(bufs: Bufs, total: nat, a: nat, size: nat, dataSize: nat, offsetsSize: nat,
                                         async: bool)
    requires ListOk(bufs, total) && a in bufs && bufs[a].free && size <= Size(bufs, a)
    requires size == Rounded(dataSize, offsetsSize)
    ensures a in Carved(bufs, a, size, dataSize, offsetsSize, async)
    ensures Released(Carved(bufs, a, size, dataSize, offsetsSize, async), a)
         == bufs[a := bufs[a].(async := async, dataSize := dataSize, offsetsSize := offsetsSize)]
  {
    var after := Carved(bufs, a, size, dataSize, offsetsSize, async);
    var end := bufs[a := bufs[a].(async := async, dataSize := dataSize, offsetsSize := offsetsSize)];
    SameLinks(bufs, total, a, end[a]);
    var taken := bufs[a := bufs[a].(free := false, async := async, dataSize := dataSize, offsetsSize := offsetsSize)];
    assert Freed(taken, a) == end;
    LonelyStays(bufs, total, a, end);
    if size + HDR + WORD < Size(bufs, a) {
      MergeUndoesSplit(taken, end, total, a, size);
    }
  }

  lemma {:induction false} MergeUndoesSplit(taken: Bufs, end: Bufs, total: nat, a: nat, size: nat)
    requires a in taken && end == Freed(taken, a) && Linked(end, total) && size + HDR <= Size(end, a)
    ensures a in Split(taken, a, size) && MergeNext(Freed(Split(taken, a, size), a), a) == end
  {
    UnlinkUndoesSplit(end, total, a, size);
    assert NextOk(end, total, a);
    var x, y := Freed(Split(taken, a, size), a), Split(end, a, size);
    assert x[a] == y[a];
    assert x == y;
  }

  /** A free buffer has no free neighbour to be merged with. */
  lemma {:induction false} LonelyStays(bufs: Bufs, total: nat, a: nat, end: Bufs)
    requires ListOk(bufs, total) && a in bufs && bufs[a].free && a in end && end == bufs[a := end[a]]
    requires end[a].prev == bufs[a].prev && end[a].next == bufs[a].next && end[a].free
    ensures MergeNext(end, a) == end && MergePrev(end, a) == end
  {
    assert NextOk(bufs, total, a) && PrevOk(bufs, a) && NotBothFree(bufs, a);
    if bufs[a].prev.Some? { assert NotBothFree(bufs, bufs[a].prev.value); }
  }

  // ---- Nothing left ---------------------------------------------------------------------------------

  /** Theorem. When every buffer is free there is one buffer, it spans the region, only the
      first page is mapped, and all the space for one-way calls is back. */
  lemma {:induction false} AllFreeIsOne(bufs: Bufs, total: nat, pages: seq<bool>, freeAsync: nat)
    requires ListOk(bufs, total) && PagesOk(bufs, pages) && QuotaOk(bufs, total, freeAsync)
    requires forall a :: a in bufs ==> bufs[a].free
    ensures bufs.Keys == {0} && bufs[0].next == total
    ensures forall p :: 0 <= p < |pages| ==> (pages[p] <==> p == 0)
    ensures freeAsync == total / 2
  {
    assert NextOk(bufs, total, 0) && NotBothFree(bufs, 0);
    forall b | b in bufs ensures b == 0 {
      assert Apart(bufs, 0, b) && NextOk(bufs, total, b);
    }
    assert Charges(bufs) == map[];
    forall p | 0 <= p < |pages| ensures pages[p] <==> p == 0 {
      assert p == 0 ==> Uses(bufs, 0, p);
    }
  }
}
