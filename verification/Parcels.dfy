// The parcel codec of the service manager: what a sequence of puts leaves in memory, and the
// cursor that writes and reads it. Memory is counted in 16-bit units; a word is two.
module Parcels {
  import opened Base

  const NO_STRING: Word := 0xffff_ffff
  const LONGEST := 0x2000_0000
  const HANDLE_TYPE: Word := 0x7368_2a85
  const OBJECT_FLAGS: Word := 0x17f

  datatype Item = U32(n: Word) | Str(s: seq<Unit>) | Handle(h: Word)

  /** What can be put and got back: strings without NUL, not too long, and handles that are
      not null. */
  predicate Sendable(i: Item) {
    match i
    case U32(_) => true
    case Str(s) => 0 !in s && |s| < LONGEST
    case Handle(h) => h != 0
  }

  predicate AllSendable(items: seq<Item>) { forall i :: 0 <= i < |items| ==> Sendable(items[i]) }

  function WordAt(m: seq<Unit>, p: nat): Word
    requires p + 2 <= |m|
  {
    m[p] as int + 0x1_0000 * (m[p + 1] as int)
  }

  function Low(n: Word): Unit { n % 0x1_0000 }
  function High(n: Word): Unit { n / 0x1_0000 }

  /** Words taken by the units of a string and its NUL. */
  function StringWords(len: nat): nat { (len + 2) / 2 }

  /** Units taken by an item. */
  function Size(i: Item): nat {
    match i
    case U32(_) => 2
    case Str(s) => 2 + 2 * StringWords(|s|)
    case Handle(_) => 8
  }

  function Span(items: seq<Item>): nat {
    if items == [] then 0 else Span(items[..|items| - 1]) + Size(items[|items| - 1])
  }

  /** The byte offsets of the objects. */
  function Offsets(items: seq<Item>): seq<int> {
    if items == [] then []
    else
      var rest := items[..|items| - 1];
      Offsets(rest) + if items[|items| - 1].Handle? then [2 * Span(rest)] else []
  }

  /** `m` holds the item at `p`. */
  predicate HoldsAt(m: seq<Unit>, p: nat, i: Item)
    requires p + Size(i) <= |m|
  {
    match i
    case U32(n) => WordAt(m, p) == n
    case Str(s) => WordAt(m, p) == |s| && m[p + 2..p + 2 + |s|] == s && m[p + 2 + |s|] == 0
    case Handle(h) =>
      WordAt(m, p) == HANDLE_TYPE && WordAt(m, p + 2) == OBJECT_FLAGS && WordAt(m, p + 4) == h && WordAt(m, p + 6) == 0
  }

  lemma StringHeld(m: seq<Unit>, p: nat, str: seq<Unit>, s: seq<Unit>)
    requires p + Size(Str(s)) <= |m| && |s| < |str| && str[..|s|] == s && str[|s|] == 0
    requires WordAt(m, p) == |s| && m[p + 2..p + 2 + (|s| + 1)] == str[..|s| + 1]
    ensures HoldsAt(m, p, Str(s))
  {
    assert m[p + 2..p + 2 + |s|] == m[p + 2..p + 2 + (|s| + 1)][..|s|];
    assert m[p + 2..p + 2 + (|s| + 1)][|s|] == 0;
  }

  predicate Holds(m: seq<Unit>, items: seq<Item>) {
    && Span(items) <= |m|
    && (items == [] || (Holds(m, items[..|items| - 1]) && HoldsAt(m, Span(items[..|items| - 1]), items[|items| - 1])))
  }

  lemma PrefixNext(items: seq<Item>, k: nat)
    requires k < |items|
    ensures items[..k] + [items[k]] == items[..k + 1] && items[..k + 1][..k] == items[..k]
  {
  }

  lemma {:induction false} SpanGrows(items: seq<Item>, k: nat)
    requires k < |items|
    ensures Span(items[..k]) + Size(items[k]) == Span(items[..k + 1]) <= Span(items)
    ensures |Offsets(items[..k + 1])| <= |Offsets(items)|
    decreases |items|
  {
    var rest := items[..|items| - 1];
    if k < |rest| {
      assert items[..k] == rest[..k] && items[..k + 1] == rest[..k + 1];
      SpanGrows(rest, k);
    } else {
      assert items[..k + 1] == items;
    }
  }

  lemma {:induction false} HoldsFrame(m: seq<Unit>, m': seq<Unit>, items: seq<Item>)
    requires Holds(m, items) && Span(items) <= |m'| && forall i :: 0 <= i < Span(items) ==> m'[i] == m[i]
    ensures Holds(m', items)
    decreases |items|
  {
    if items != [] {
      HoldsFrame(m, m', items[..|items| - 1]);
      HoldsAtFrame(m, m', Span(items[..|items| - 1]), items[|items| - 1]);
    }
  }

  lemma {:induction false} HoldsAtFrame(m: seq<Unit>, m': seq<Unit>, p: nat, i: Item)
    requires p + Size(i) <= |m| && p + Size(i) <= |m'| && HoldsAt(m, p, i)
    requires forall k :: p <= k < p + Size(i) ==> m'[k] == m[k]
    ensures HoldsAt(m', p, i)
  {
    if i.Str? { assert m'[p + 2..p + 2 + |i.s|] == m[p + 2..p + 2 + |i.s|]; }
  }

  // ---- The bytes on the wire -----------------------------------------------------------------

  /** Byte `k` of memory that is counted in units. */
  function ByteAt(m: seq<Unit>, k: nat): Byte
    requires k < 2 * |m|
  {
    if k % 2 == 0 then m[k / 2] % 0x100 else m[k / 2] / 0x100
  }

  /** The 16-bit number in the two bytes from `k` on, and the 32-bit one in four, the lowest byte
      first. */
  function UnitAt(m: seq<Unit>, k: nat): int
    requires k + 2 <= 2 * |m|
  {
    ByteAt(m, k) + 0x100 * ByteAt(m, k + 1)
  }

  function NumberAt(m: seq<Unit>, k: nat): int
    requires k + 4 <= 2 * |m|
  {
    ByteAt(m, k) + 0x100 * ByteAt(m, k + 1) + 0x1_0000 * ByteAt(m, k + 2) + 0x100_0000 * ByteAt(m, k + 3)
  }

  lemma UnitIs(m: seq<Unit>, q: nat)
    requires q < |m|
    ensures UnitAt(m, 2 * q) == m[q]
  {
    assert (2 * q) / 2 == q && (2 * q + 1) / 2 == q;
    assert m[q] % 0x100 + 0x100 * (m[q] / 0x100) == m[q];
  }

  lemma NumberIsWord(m: seq<Unit>, p: nat)
    requires p + 2 <= |m|
    ensures NumberAt(m, 2 * p) == WordAt(m, p)
  {
    UnitIs(m, p);
    UnitIs(m, p + 1);
    assert NumberAt(m, 2 * p) == UnitAt(m, 2 * p) + 0x1_0000 * UnitAt(m, 2 * (p + 1));
  }

  ghost predicate UnitsAt(m: seq<Unit>, k: nat, us: seq<Unit>)
    requires k + 2 * |us| <= 2 * |m|
  {
    forall j :: 0 <= j < |us| ==> UnitAt(m, k + 2 * j) == us[j]
  }

  /** Item `i` as the wire format has it from byte `k` on: a number; a length, that many units and
      a NUL; or an object, which is its type, flags, handle and a zero cookie. */
  ghost predicate OnWire(m: seq<Unit>, k: nat, i: Item)
    requires k + 2 * Size(i) <= 2 * |m|
  {
    match i
    case U32(n) => NumberAt(m, k) == n
    case Str(s) =>
      NumberAt(m, k) == |s| && UnitsAt(m, k + 4, s + [0])
    case Handle(h) =>
      && NumberAt(m, k) == HANDLE_TYPE && NumberAt(m, k + 4) == OBJECT_FLAGS
      && NumberAt(m, k + 8) == h && NumberAt(m, k + 12) == 0
  }

  lemma {:induction false} HeldIsOnWire(m: seq<Unit>, p: nat, i: Item)
    requires p + Size(i) <= |m| && HoldsAt(m, p, i)
    ensures OnWire(m, 2 * p, i)
  {
    match i
    case U32(_) => NumberIsWord(m, p);
    case Str(s) =>
      NumberIsWord(m, p);
      StringOnWire(m, p, s);
    case Handle(h) => ObjectOnWire(m, p, h);
  }

  lemma {:induction false} ObjectOnWire(m: seq<Unit>, p: nat, h: Word)
    requires p + 8 <= |m| && HoldsAt(m, p, Handle(h))
    ensures OnWire(m, 2 * p, Handle(h))
  {
    NumberIsWord(m, p);
    NumberIsWord(m, p + 2);
    NumberIsWord(m, p + 4);
    NumberIsWord(m, p + 6);
    assert 2 * (p + 2) == 2 * p + 4 && 2 * (p + 4) == 2 * p + 8 && 2 * (p + 6) == 2 * p + 12;
  }

  lemma {:induction false} StringOnWire(m: seq<Unit>, p: nat, s: seq<Unit>)
    requires p + 2 + |s| < |m| && m[p + 2..p + 2 + |s|] == s && m[p + 2 + |s|] == 0
    ensures UnitsAt(m, 2 * p + 4, s + [0])
  {
    var us := s + [0];
    assert m[p + 2..p + 2 + |us|] == us;
    UnitsOnWire(m, p + 2, 2 * p + 4, us);
  }

  lemma {:induction false} UnitsOnWire(m: seq<Unit>, q: nat, k: nat, us: seq<Unit>)
    requires k == 2 * q && q + |us| <= |m| && m[q..q + |us|] == us
    ensures UnitsAt(m, k, us)
  {
    forall j | 0 <= j < |us| ensures UnitAt(m, k + 2 * j) == us[j] {
      assert m[q..q + |us|][j] == m[q + j];
      UnitIs(m, q + j);
      assert 2 * (q + j) == k + 2 * j;
    }
  }

  /** Theorem. Items lie on the wire one after the other, each from a word boundary on, in the
      format of its kind, and an object is where its offset says. */
  lemma {:induction false} WireFormat(m: seq<Unit>, items: seq<Item>, k: nat)
    requires Holds(m, items) && k < |items|
    ensures var at := 2 * Span(items[..k]);
      && at % 4 == 0 && at + 2 * Size(items[k]) == 2 * Span(items[..k + 1]) <= 2 * |m| && OnWire(m, at, items[k])
      && (items[k].Handle? ==>
            var i := |Offsets(items[..k])|;
            i < |Offsets(items)| && Offsets(items)[i] == at)
  {
    HoldsEach(m, items, k);
    SpanGrows(items, k);
    SpanIsEven(items[..k]);
    HeldIsOnWire(m, Span(items[..k]), items[k]);
    OffsetsPrefix(items, k);
  }

  lemma {:induction false} SpanIsEven(items: seq<Item>)
    ensures 2 * Span(items) % 4 == 0
    decreases |items|
  {
    if items != [] {
      SpanIsEven(items[..|items| - 1]);
      assert Size(items[|items| - 1]) % 2 == 0;
    }
  }

  lemma {:induction false} OffsetsPrefix(items: seq<Item>, k: nat)
    requires k < |items|
    ensures Offsets(items[..k]) + (if items[k].Handle? then [2 * Span(items[..k])] else []) <= Offsets(items)
    decreases |items|
  {
    var rest := items[..|items| - 1];
    if k < |rest| {
      assert items[..k] == rest[..k];
      OffsetsPrefix(rest, k);
    }
  }

  lemma {:induction false} HoldsEach(m: seq<Unit>, items: seq<Item>, k: nat)
    requires Holds(m, items) && k < |items|
    ensures Span(items[..k]) + Size(items[k]) <= Span(items) <= |m| && HoldsAt(m, Span(items[..k]), items[k])
    decreases |items|
  {
    var rest := items[..|items| - 1];
    if k < |rest| {
      assert items[..k] == rest[..k];
      HoldsEach(m, rest, k);
    }
  }

  /** Offsets name disjoint objects inside the data, in increasing order. */
  lemma {:induction false} OffsetsOrdered(items: seq<Item>)
    ensures forall i :: 0 <= i < |Offsets(items)| ==>
      0 <= Offsets(items)[i] && Offsets(items)[i] + 16 <= 2 * Span(items)
    ensures forall i, j :: 0 <= i < j < |Offsets(items)| ==> Offsets(items)[i] + 16 <= Offsets(items)[j]
    decreases |items|
  {
    if items != [] {
      var rest := items[..|items| - 1];
      OffsetsOrdered(rest);
      assert Span(items) == Span(rest) + Size(items[|items| - 1]);
      assert Offsets(items) == Offsets(rest) + if items[|items| - 1].Handle? then [2 * Span(rest)] else [];
    }
  }

  lemma {:induction false} OffsetListed(items: seq<Item>, k: nat)
    requires k < |items| && items[k].Handle?
    ensures 2 * Span(items[..k]) in Offsets(items)
    decreases |items|
  {
    var rest := items[..|items| - 1];
    if k < |rest| {
      assert items[..k] == rest[..k];
      OffsetListed(rest, k);
    }
  }

  // ---- The cursor -------------------------------------------------------------------------------

  /** The words a size in bytes is rounded up to, in 32-bit arithmetic. */
  function Words(size: Word): nat {
    (size as int + 3) % 0x1_0000_0000 / 4
  }

  lemma StringRoom(len: nat)
    requires len < LONGEST
    ensures (len + 1) * 2 % 0x1_0000_0000 == (len + 1) * 2 && Words((len + 1) * 2) == StringWords(len)
  {
  }

  class Parcel {
    const mem: array<Unit>
    const offs: array<int>
    /** Units of data behind the cursor, bytes ahead of it; offsets likewise. */
    var pos: nat
    var avail: nat
    var opos: nat
    var oavail: nat
    var overflow: bool

    ghost predicate Valid()
      reads this
    {
      2 * pos + avail <= 2 * mem.Length && opos + oavail <= offs.Length
    }

    /** The memory holds these items, with `n` offsets. */
    ghost predicate Loaded(items: seq<Item>, n: nat)
      reads mem, offs
    {
      Holds(mem[..], items) && n == |Offsets(items)| <= offs.Length && offs[..n] == Offsets(items)
    }

    /** The puts so far are these, and none has failed. */
    ghost predicate Wrote(items: seq<Item>)
      reads this, mem, offs
    {
      Valid() && !overflow && pos == Span(items) && Loaded(items, opos)
    }

    /** Reading the items, with `k` of them behind the cursor. */
    ghost predicate Reading(items: seq<Item>, k: nat)
      reads this, mem, offs
    {
      && k <= |items| && Valid() && !overflow && pos == Span(items[..k]) <= Span(items)
      && 2 * pos + avail == 2 * Span(items) && opos == 0 && Loaded(items, oavail)
    }

    /** bio_init: the offsets come out of the same memory as the data. */
    constructor (maxdata: Word, maxoffs: Word)
      requires 4 * (maxoffs as int) < 0x1_0000_0000
      ensures Valid() && fresh(mem) && fresh(offs)
      ensures if 4 * (maxoffs as int) > maxdata then overflow && avail == 0 && oavail == 0
              else Wrote([]) && avail == maxdata - 4 * maxoffs && oavail == maxoffs
    {
      var n := 4 * (maxoffs as int);
      mem := new Unit[(maxdata as int + 1) / 2];
      offs := new int[maxoffs];
      pos, opos := 0, 0;
      overflow := n > maxdata;
      avail := if n > maxdata then 0 else maxdata - n;
      oavail := if n > maxdata then 0 else maxoffs;
    }

    /** bio_init_from_txn, on what the driver copied across. */
    constructor FromTxn(data: seq<Unit>, offsets: seq<int>)
      ensures Valid() && fresh(mem) && fresh(offs) && mem[..] == data && offs[..] == offsets
      ensures pos == 0 && opos == 0 && avail == 2 * |data| && oavail == |offsets| && !overflow
    {
      var m := new Unit[|data|](i requires 0 <= i < |data| => data[i]);
      var o := new int[|offsets|](i requires 0 <= i < |offsets| => offsets[i]);
      mem, offs := m, o;
      pos, avail, opos, oavail, overflow := 0, 2 * |data|, 0, |offsets|, false;
      new;
      assert mem[..] == data && offs[..] == offsets;
    }

    /** bio_alloc and, but for what it does on failure, bio_get, of a size rounded to words:
        what is used and what is available always add up to the same. */
    method Take(words: nat, reading: bool) returns (p: Option<nat>)
      requires Valid()
      modifies `pos, `avail, `overflow
      ensures Valid()
      ensures if 4 * words <= old(avail)
              then p == Some(old(pos)) && pos == old(pos) + 2 * words && 2 * pos + avail == 2 * old(pos) + old(avail)
                && overflow == old(overflow)
              else p == None && overflow && pos == old(pos) && avail == if reading then 0 else old(avail)
    {
      if 4 * words > avail {
        if reading { avail := 0; }
        overflow := true;
        return None;
      }
      p := Some(pos);
      pos, avail := pos + 2 * words, avail - 4 * words;
    }

    method SetWord(p: nat, n: Word)
      requires p + 2 <= mem.Length
      modifies mem
      ensures WordAt(mem[..], p) == n
      ensures forall i :: 0 <= i < mem.Length && i != p && i != p + 1 ==> mem[i] == old(mem[i])
    {
      mem[p], mem[p + 1] := Low(n), High(n);
    }

    /** bio_put_uint32. */
    method PutUint32(n: Word, ghost items: seq<Item>)
      requires Wrote(items)
      modifies this, mem
      ensures Valid() && (if old(avail) >= 4 then Wrote(items + [U32(n)]) && avail == old(avail) - 4 else overflow)
      ensures oavail == old(oavail)
    {
      var p := Take(1, false);
      if p.Some? {
        ghost var was := mem[..];
        SetWord(p.value, n);
        Appended(was, mem[..], items, U32(n));
      }
    }

    /** bio_put_string16 of a string in memory, up to its NUL; one too long is sent as none. */
    method PutString16(str: seq<Unit>, ghost s: seq<Unit>, ghost items: seq<Item>)
      requires Wrote(items) && 0 !in s && |s| < |str| && str[..|s|] == s && str[|s|] == 0
      modifies this, mem
      ensures Valid() && oavail == old(oavail)
      ensures |s| < LONGEST ==>
        if old(avail) >= 2 * Size(Str(s)) then Wrote(items + [Str(s)]) && avail == old(avail) - 2 * Size(Str(s))
          else overflow
      ensures |s| >= LONGEST && old(avail) >= 4 ==> Wrote(items + [U32(NO_STRING)])
    {
      var len := Length(str, s);
      if len >= LONGEST {
        PutUint32(NO_STRING, items);
        return;
      }
      StringRoom(len);
      var p := Take(1, false);
      if p.None? { return; }
      ghost var was := mem[..];
      SetWord(p.value, len);
      var q := Take(Words((len + 1) * 2), false);
      if q.None? { return; }
      SetUnits(q.value, str[..len + 1]);
      StringHeld(mem[..], p.value, str, s);
      Appended(was, mem[..], items, Str(s));
    }

    method SetUnits(p: nat, us: seq<Unit>)
      requires p + |us| <= mem.Length
      modifies mem
      ensures mem[p..p + |us|] == us
      ensures forall i :: 0 <= i < mem.Length && !(p <= i < p + |us|) ==> mem[i] == old(mem[i])
    {
      forall i | 0 <= i < |us| { mem[p + i] := us[i]; }
    }

    static method Length(str: seq<Unit>, ghost s: seq<Unit>) returns (len: nat)
      requires 0 !in s && |s| < |str| && str[..|s|] == s && str[|s|] == 0
      ensures len == |s|
    {
      len := 0;
      while str[len] != 0
        invariant 0 <= len <= |s| && (len < |s| ==> str[len] in s)
        decreases |s| - len
      {
        len := len + 1;
      }
    }

    method SetHandle(p: nat, h: Word)
      requires p + 8 <= mem.Length
      modifies mem
      ensures HoldsAt(mem[..], p, Handle(h))
      ensures forall i :: 0 <= i < mem.Length && !(p <= i < p + 8) ==> mem[i] == old(mem[i])
    {
      SetWord(p + 2, OBJECT_FLAGS);
      SetWord(p, HANDLE_TYPE);
      SetWord(p + 4, h);
      SetWord(p + 6, 0);
    }

    /** bio_put_ref. A null handle takes the space and has no offset. */
    method PutRef(h: Word, ghost items: seq<Item>)
      requires Wrote(items)
      modifies this, mem, offs
      ensures Valid()
      ensures h != 0 ==>
        if old(avail) >= 16 && old(oavail) >= 1
        then Wrote(items + [Handle(h)]) && avail == old(avail) - 16 && oavail == old(oavail) - 1 else overflow
      ensures h == 0 ==> offs[..] == old(offs[..]) && opos == old(opos) && overflow == (old(avail) < 16)
    {
      var p := Take(4, false);
      if p.None? { return; }
      if h != 0 {
        if oavail == 0 {
          overflow := true;
          return;
        }
        offs[opos] := 2 * p.value;
        oavail, opos := oavail - 1, opos + 1;
      }
      ghost var was := mem[..];
      SetHandle(p.value, h);
      if h != 0 {
        assert offs[..opos] == offs[..opos - 1] + [2 * p.value];
        Appended(was, mem[..], items, Handle(h));
      }
    }

    method Put(i: Item, ghost items: seq<Item>)
      requires Wrote(items) && Sendable(i)
      modifies this, mem, offs
      ensures Valid()
      ensures if old(avail) >= 2 * Size(i) && (i.Handle? ==> old(oavail) >= 1)
              then Wrote(items + [i]) && avail == old(avail) - 2 * Size(i) &&
                   oavail == old(oavail) - if i.Handle? then 1 else 0
              else overflow
    {
      match i {
        case U32(n) => PutUint32(n, items);
        case Str(s) => PutString16(s + [0], s, items);
        case Handle(h) => PutRef(h, items);
      }
    }

    lemma Appended(was: seq<Unit>, now: seq<Unit>, items: seq<Item>, i: Item)
      requires Holds(was, items) && |now| == |was| && Span(items) + Size(i) <= |now|
      requires forall k :: 0 <= k < Span(items) ==> now[k] == was[k]
      requires HoldsAt(now, Span(items), i)
      ensures Holds(now, items + [i]) && Span(items + [i]) == Span(items) + Size(i)
      ensures Offsets(items + [i]) == Offsets(items) + if i.Handle? then [2 * Span(items)] else []
    {
      HoldsFrame(was, now, items);
      assert (items + [i])[..|items|] == items;
    }

    /** bio_get_uint32. */
    method GetUint32(ghost items: seq<Item>, ghost k: nat) returns (n: Word)
      requires Reading(items, k)
      modifies this
      ensures Valid()
      ensures k < |items| && items[k].U32? ==> n == items[k].n && Reading(items, k + 1)
      ensures k == |items| ==> n == 0 && overflow
    {
      if k < |items| { Next(items, k); } else { assert items[..k] == items; }
      var p := Take(1, true);
      n := if p.Some? then WordAt(mem[..], p.value) else 0;
    }

    /** bio_get_string16: its length, and where it is. */
    method GetString16(ghost items: seq<Item>, ghost k: nat) returns (len: Word, at: Option<nat>)
      requires Reading(items, k)
      modifies this
      ensures Valid()
      ensures k < |items| && items[k].Str? && Sendable(items[k]) ==>
        && len == |items[k].s| && at.Some? && at.value + len < mem.Length
        && mem[at.value..at.value + len] == items[k].s && mem[at.value + len] == 0 && Reading(items, k + 1)
    {
      if k < |items| { Next(items, k); }
      var p := Take(1, true);
      len := if p.Some? then WordAt(mem[..], p.value) else 0;
      at := TakeString(len);
    }

    /** Takes the units of a string and its NUL; the size wraps round for a length no string
        has. */
    method TakeString(len: Word) returns (at: Option<nat>)
      requires Valid()
      modifies `pos, `avail, `overflow
      ensures Valid()
      ensures len < LONGEST && 4 * StringWords(len) <= old(avail) ==>
        && at == Some(old(pos)) && pos == old(pos) + 2 * StringWords(len)
        && 2 * pos + avail == 2 * old(pos) + old(avail) && overflow == old(overflow)
    {
      if len < LONGEST { StringRoom(len); }
      at := Take(Words((len as int + 1) * 2 % 0x1_0000_0000), true);
    }

    /** bio_get_ref: the object must be one the offsets name. */
    method GetRef(ghost items: seq<Item>, ghost k: nat) returns (h: Word)
      requires Reading(items, k)
      modifies this
      ensures Valid()
      ensures k < |items| && items[k].Handle? ==> h == items[k].h && Reading(items, k + 1)
      ensures 2 * old(pos) !in Offsets(items) ==> h == 0 && overflow && avail == 0
    {
      if k < |items| {
        Next(items, k);
        if items[k].Handle? { OffsetListed(items, k); }
      }
      var named := IsNamed(2 * pos);
      if !named {
        avail, overflow := 0, true;
        return 0;
      }
      var p := Take(4, true);
      h := if p.Some? && WordAt(mem[..], p.value) == HANDLE_TYPE then WordAt(mem[..], p.value + 4) else 0;
    }

    method IsNamed(off: int) returns (named: bool)
      requires Valid() && opos == 0
      ensures named <==> off in offs[..oavail]
    {
      var n := 0;
      while n < oavail
        invariant 0 <= n <= oavail && off !in offs[..n]
      {
        if offs[opos + n] == off {
          assert offs[..oavail][n] == off;
          return true;
        }
        n := n + 1;
      }
      return false;
    }

    lemma Next(items: seq<Item>, k: nat)
      requires Reading(items, k) && k < |items|
      ensures Span(items[..k + 1]) == pos + Size(items[k]) <= Span(items) <= mem.Length
      ensures HoldsAt(mem[..], pos, items[k])
    {
      HoldsEach(mem[..], items, k);
      SpanGrows(items, k);
    }
  }

  /** Room for the items in a parcel of that size. */
  predicate Fits(items: seq<Item>, maxdata: Word, maxoffs: Word) {
    4 * (maxoffs as int) + 2 * Span(items) <= maxdata && |Offsets(items)| <= maxoffs
  }

  /** Puts the items one by one. */
  method Write(items: seq<Item>, maxdata: Word, maxoffs: Word) returns (b: Parcel)
    requires AllSendable(items) && 4 * (maxoffs as int) < 0x1_0000_0000
    ensures fresh(b) && fresh(b.mem) && fresh(b.offs)
    ensures if Fits(items, maxdata, maxoffs) then b.Wrote(items) else b.overflow
  {
    b := new Parcel(maxdata, maxoffs);
    if b.overflow { return; }
    var k := 0;
    while k < |items|
      invariant 0 <= k <= |items| && fresh(b) && fresh(b.mem) && fresh(b.offs)
      invariant b.Wrote(items[..k])
      invariant b.avail == maxdata - 4 * maxoffs - 2 * Span(items[..k]) && b.oavail == maxoffs - |Offsets(items[..k])|
    {
      var i := items[k];
      PrefixNext(items, k);
      SpanGrows(items, k);
      b.Put(i, items[..k]);
      if b.overflow { return; }
      k := k + 1;
    }
    assert items[..k] == items;
  }

  /** Gets as many items as there are, told only their kinds. */
  method Read(b: Parcel, items: seq<Item>) returns (got: seq<Item>)
    requires AllSendable(items) && b.Reading(items, 0)
    modifies b
    ensures got == items
  {
    got := [];
    var k := 0;
    while k < |items|
      invariant 0 <= k <= |items| && b.Reading(items, k) && got == items[..k]
    {
      match items[k] {
        case U32(_) =>
          var n := b.GetUint32(items, k);
          got := got + [U32(n)];
        case Str(_) =>
          var len, at := b.GetString16(items, k);
          got := got + [Str(b.mem[at.value..at.value + len])];
        case Handle(_) =>
          var h := b.GetRef(items, k);
          got := got + [Handle(h)];
      }
      k := k + 1;
    }
  }

  /** Theorem. Whatever is put, if it fits, is what is got on the other side; and it fits
      exactly when nothing overflows. */
  method SendAndReceive(items: seq<Item>, maxdata: Word, maxoffs: Word) returns (ok: bool, got: seq<Item>)
    requires AllSendable(items) && 4 * (maxoffs as int) < 0x1_0000_0000
    ensures ok == Fits(items, maxdata, maxoffs)
    ensures ok ==> got == items
  {
    var b := Write(items, maxdata, maxoffs);
    ok, got := !b.overflow, [];
    if !ok { return; }
    var data, offsets := b.mem[..b.pos], b.offs[..b.opos];
    HoldsFrame(b.mem[..], data, items);
    var txn := new Parcel.FromTxn(data, offsets);
    assert txn.offs[..txn.oavail] == offsets;
    assert items[..0] == [];
    got := Read(txn, items);
  }
}
