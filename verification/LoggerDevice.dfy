// The log device: the ring, its write head and its readers, updated in place under the
// log's mutex. The ghost field `view` is the log the ring stands for.
module LoggerDevice {
  import opened Base
  import opened LogEntries
  import opened LogRing
  import opened LogSpec
  import opened LogRefinement
  import Spec = LogTheorems

  /** The part of an `n`-byte payload that lies before the end of the ring. */
  function FirstFragment(size: nat, wOff: nat, n: nat): int {
    if size == 0 then 0 else Min(n, size - (wOff + HEADER) % size)
  }

  const EFAULT := 14
  const EINVAL := 22

  class Log {
    const size: nat
    const buffer: array<Byte>
    ghost const order: nat
    var wOff: nat
    var head: nat
    var readers: map<Rid, Reader>
    ghost var view: View

    ghost predicate Valid()
      reads this, buffer
    {
      size == buffer.Length == Pow2(order) && Stands(buffer[..], wOff, head, readers, view)
    }

    constructor (k: nat)
      requires Pow2(k) >= 2 * MAX_ENTRY
      ensures Valid() && fresh(buffer) && size == Pow2(k) && view == View([], 0, map[])
    {
      size := Pow2(k);
      order := k;
      buffer := new Byte[Pow2(k)];
      wOff, head, readers := 0, 0, map[];
      view := View([], 0, map[]);
      new;
    }

    method Offset(n: nat) returns (r: nat)
      requires size == Pow2(order)
      ensures r == n % size
    {
      MaskIsModulus(n, order);
      r := And(n, size - 1);
    }

    /** get_entry_header: a header that spans the end of the ring is put together. */
    method EntryHeader(off: nat) returns (h: seq<Byte>)
      requires size == buffer.Length >= HEADER && off < size
      ensures h == Slice(buffer[..], off, HEADER)
    {
      var len := if HEADER < size - off then HEADER else size - off;
      if len != HEADER {
        h := buffer[off..off + len] + buffer[..HEADER - len];
      } else {
        h := buffer[off..off + HEADER];
      }
    }

    // ---- Writing --------------------------------------------------------------------

    /** get_next_entry. */
    method NextEntryOffset(off: nat, len: nat) returns (r: nat)
      requires size == buffer.Length == Pow2(order) && size >= HEADER && off < size && len > 0
      ensures r == NextEntry(buffer[..], off, len)
    {
      r := off;
      var count := 0;
      ghost var goal := NextEntry(buffer[..], off, len);
      while count < len
        invariant r < size
        invariant if count < len then NextEntry(buffer[..], r, len - count) == goal else r == goal
        decreases len - count
      {
        var h := EntryHeader(r);
        var nr := HEADER + LenField(h);
        r := Offset(r + nr);
        count := count + nr;
      }
    }

    method PullForward(off: nat, new_: nat, len: nat) returns (r: nat)
      requires size == buffer.Length == Pow2(order) && size >= HEADER && off < size && wOff < size
      requires new_ == (wOff + len) % size && len > 0
      ensures r == FixUp(buffer[..], wOff, off, len)
    {
      r := off;
      if IsBetween(wOff, new_, off) {
        r := NextEntryOffset(off, len);
      }
    }

    /** The loop of fix_up_readers over the readers, in no particular order. */
    method PullReaders(new_: nat, len: nat) returns (moved: map<Rid, Reader>)
      requires size == buffer.Length == Pow2(order) && size >= HEADER && wOff < size
      requires forall r :: r in readers ==> readers[r].off < size
      requires new_ == (wOff + len) % size && len > 0
      ensures moved.Keys == readers.Keys
      ensures forall r :: r in readers ==> moved[r] == readers[r].(off := FixUp(buffer[..], wOff, readers[r].off, len))
    {
      var todo := readers.Keys;
      moved := map[];
      while todo != {}
        invariant todo <= readers.Keys && moved.Keys == readers.Keys - todo
        invariant forall r :: r in moved ==>
          moved[r] == readers[r].(off := FixUp(buffer[..], wOff, readers[r].off, len))
        decreases todo
      {
        var r :| r in todo;
        var off := PullForward(readers[r].off, new_, len);
        moved := moved[r := readers[r].(off := off)];
        todo := todo - {r};
      }
    }

    /** fix_up_readers: the head and every reader get out of the way of `len` bytes. */
    method FixUpReaders(len: nat)
      requires Valid() && HEADER < len <= MAX_ENTRY
      modifies this`head, this`readers, this`view
      ensures Valid() && view == Room(size, old(view), len) && AllClear(size, view, len)
    {
      forall r | r in readers ensures readers[r].off < size {
        assert Follows(buffer[..], view.log, readers[r], view.cursors[r]);
      }
      var new_ := Offset(wOff + len);
      var newHead := PullForward(head, new_, len);
      var moved := PullReaders(new_, len);
      FixUpStands(buffer[..], wOff, head, readers, view, len, moved);
      head, readers, view := newHead, moved, Room(size, view, len);
    }

    /** The two memcpy calls that put bytes into the ring. */
    method CopyIn(off: nat, bytes: seq<Byte>)
      requires size == buffer.Length && off < size && |bytes| <= size
      modifies buffer
      ensures Written(old(buffer[..]), buffer[..], off, bytes)
    {
      var len := if |bytes| < size - off then |bytes| else size - off;
      for k := 0 to len
        invariant forall q :: 0 <= q < size ==>
          buffer[q] == if off <= q < off + k then bytes[q - off] else old(buffer[q])
      {
        buffer[off + k] := bytes[k];
      }
      for k := 0 to |bytes| - len
        invariant forall q :: 0 <= q < size ==>
          buffer[q] == if off <= q < off + len then bytes[q - off] else if q < k then bytes[len + q] else old(buffer[q])
      {
        buffer[k] := bytes[len + k];
      }
    }

    /** The payload goes in at `w` in up to two fragments; `copied` bytes of it can be had
        from the user. */
    method CopyPayload(w: nat, payload: seq<Byte>, copied: nat) returns (first: nat)
      requires size == buffer.Length && w < size && |payload| <= size && copied <= |payload|
      modifies buffer
      ensures Written(old(buffer[..]), buffer[..], w, payload[..copied])
      ensures first == Min(|payload|, size - w)
    {
      first := Min(|payload|, size - w);
      if copied < first {
        CopyIn(w, payload[..copied]);
      } else {
        CopyIn(w, payload[..first]);
        ghost var b1 := buffer[..];
        CopyIn(0, payload[first..copied]);
        assert payload[..copied] == payload[..first] + payload[first..copied];
        if first < copied {
          ModUnique(w + first, size, 1, 0);
          WrittenAppend(old(buffer[..]), b1, buffer[..], w, payload[..first], payload[first..copied]);
        }
      }
    }

    /** Header, then payload. */
    method CopyEntry(e: Entry, copied: nat) returns (first: nat)
      requires size == buffer.Length == Pow2(order) && size >= 2 * MAX_ENTRY && wOff < size && Fits(e)
      requires copied <= |e.payload|
      modifies buffer
      ensures Written(old(buffer[..]), buffer[..], wOff, Bytes(e)[..HEADER + copied])
      ensures first == FirstFragment(size, wOff, |e.payload|)
    {
      CopyIn(wOff, Header(e));
      ghost var b1 := buffer[..];
      var w := Offset(wOff + HEADER);
      first := CopyPayload(w, e.payload, copied);
      WrittenAppend(old(buffer[..]), b1, buffer[..], wOff, Header(e), e.payload[..copied]);
      assert Bytes(e)[..HEADER + copied] == Header(e) + e.payload[..copied];
    }

    /** logger_write_iter. On success the log has one entry more, the payload cut to
        MAX_PAYLOAD; on failure it has not, and what readers can still reach is as it was.
        Either way the pointers in the way have moved on. The value returned on success is
        the length of the first fragment. */
    method Write(who: Entry, data: seq<Byte>, copied: nat) returns (ret: int)
      requires Valid() && copied <= |data|
      modifies this, buffer
      ensures Valid()
      ensures var count := if |data| < MAX_PAYLOAD then |data| else MAX_PAYLOAD;
        var e := who.(payload := data[..count]);
        if data == [] then ret == 0 && view == old(view)
        else if copied < count then ret == -EFAULT && view == Room(size, old(view), HEADER + count)
        else ret == FirstFragment(size, old(wOff), count) && view == Append(size, old(view), e)
    {
      var count := if |data| < MAX_PAYLOAD then |data| else MAX_PAYLOAD;
      if count == 0 {
        return 0;
      }
      FixUpReaders(HEADER + count);
      ret := Commit(who.(payload := data[..count]), if copied < count then copied else count);
    }

    method Commit(e: Entry, copied: nat) returns (ret: int)
      requires Valid() && Fits(e) && copied <= |e.payload| && AllClear(size, view, |Bytes(e)|)
      modifies this`wOff, this`view, buffer
      ensures Valid()
      ensures copied < |e.payload| ==> ret == -EFAULT && view == old(view)
      ensures copied == |e.payload| ==>
        ret == FirstFragment(size, old(wOff), |e.payload|) && view == old(view).(log := old(view).log + [e])
    {
      ghost var before := buffer[..];
      var first := CopyEntry(e, copied);
      if copied < |e.payload| {
        AbandonedStands(before, buffer[..], wOff, head, readers, view, |Bytes(e)|, Bytes(e)[..HEADER + copied]);
        return -EFAULT;
      }
      assert Bytes(e)[..HEADER + copied] == Bytes(e);
      CommittedStands(before, buffer[..], wOff, head, readers, view, e);
      wOff := PastEntry(|e.payload|);
      view := view.(log := view.log + [e]);
      ret := first;
    }

    /** Where the write head goes, past header and payload. */
    method PastEntry(n: nat) returns (w: nat)
      requires size == Pow2(order)
      ensures size > 0 && w == (wOff + (HEADER + n)) % size
    {
      w := Offset(wOff + HEADER);
      ModAdd(wOff + HEADER, n, size);
      w := Offset(w + n);
    }

    // ---- Reading --------------------------------------------------------------------

    /** get_next_entry_by_uid. */
    method NextOffsetBy(off: nat, euid: Word, ghost log: seq<Entry>, ghost i: nat) returns (r: nat)
      requires size == buffer.Length == Pow2(order) && size >= MAX_ENTRY && wOff == Total(log) % size
      requires AllFit(log) && Tracks(buffer[..], log, off, i)
      ensures Tracks(buffer[..], log, r, NextBy(log, i, euid))
    {
      r := off;
      ghost var j := i;
      AtEnd(buffer[..], log, r, j);
      while r != wOff
        invariant Tracks(buffer[..], log, r, j) && NextBy(log, j, euid) == NextBy(log, i, euid)
        invariant r == wOff <==> j == |log|
        decreases |log| - j
      {
        var mine, next := Inspect(r, euid, log, j);
        if mine {
          return;
        }
        r := next;
        j := j + 1;
      }
    }

    /** Whether the entry at `off` is by `euid`, and where the next one is. */
    method Inspect(off: nat, euid: Word, ghost log: seq<Entry>, ghost i: nat) returns (mine: bool, next: nat)
      requires size == buffer.Length == Pow2(order) && size >= MAX_ENTRY && wOff == Total(log) % size
      requires AllFit(log) && Tracks(buffer[..], log, off, i) && i < |log|
      ensures mine <==> log[i].euid == euid
      ensures Tracks(buffer[..], log, next, i + 1) && (next == wOff <==> i + 1 == |log|)
    {
      var h := EntryHeader(off);
      TracksHeader(buffer[..], log, off, i);
      TracksNext(buffer[..], log, off, i);
      mine := EuidField(h) == euid;
      next := Offset(off + HEADER + LenField(h));
      AtEnd(buffer[..], log, next, i + 1);
    }

    method MoveReader(r: Rid, off: nat, ghost i: nat)
      requires Valid() && r in readers && Tracks(buffer[..], view.log, off, i)
      modifies this`readers, this`view
      ensures Valid() && readers.Keys == old(readers.Keys) && view == MoveTo(old(view), r, i)
    {
      MovedStands(buffer[..], wOff, head, readers, view, r, off, i);
      readers := readers[r := readers[r].(off := off)];
      view := MoveTo(view, r, i);
    }

    method CaughtUp(r: Rid) returns (b: bool)
      requires Valid() && r in readers
      ensures b <==> view.cursors[r].at == |view.log|
    {
      assert Follows(buffer[..], view.log, readers[r], view.cursors[r]);
      AtEnd(buffer[..], view.log, readers[r].off, view.cursors[r].at);
      b := wOff == readers[r].off;
    }

    /** The reader's own position, or past what it may not see. */
    method Settle(r: Rid, euid: Word)
      requires Valid() && r in readers
      modifies this`readers, this`view
      ensures Valid() && readers.Keys == old(readers.Keys)
      ensures view == MoveTo(old(view), r, Settled(old(view), r, euid))
    {
      assert Follows(buffer[..], view.log, readers[r], view.cursors[r]);
      var off := readers[r].off;
      if !readers[r].all {
        off := NextOffsetBy(off, euid, view.log, view.cursors[r].at);
      }
      MoveReader(r, off, Settled(view, r, euid));
    }

    /** logger_read, once it has the mutex: one whole entry, or nothing. */
    method Read(r: Rid, count: nat, euid: Word) returns (res: ReadResult)
      requires Valid() && r in readers
      modifies this`readers, this`view
      ensures Valid()
      ensures (view, res) == Reading(old(view), r, count, euid)
      ensures Gave(view, r, res, euid)
    {
      ReadingGives(view, r, count, euid);
      res := Deliver(r, count, euid);
    }

    method Deliver(r: Rid, count: nat, euid: Word) returns (res: ReadResult)
      requires Valid() && r in readers
      modifies this`readers, this`view
      ensures Valid()
      ensures (view, res) == Reading(old(view), r, count, euid)
    {
      var end := CaughtUp(r);
      if end {
        return WouldBlock;
      }
      Settle(r, euid);
      ReadingSplits(old(view), view, r, count, euid);
      var off;
      res, off := Peek(r, count);
      if res.Data? {
        MoveReader(r, off, view.cursors[r].at + 1);
      }
    }

    /** The entry a reader is at, and where it goes from there. */
    method Peek(r: Rid, count: nat) returns (res: ReadResult, next: nat)
      requires Valid() && r in readers
      ensures res == ReadingAt(view, r, view.cursors[r].at, count).1
      ensures res.Data? ==> Tracks(buffer[..], view.log, next, view.cursors[r].at + 1)
    {
      var end := CaughtUp(r);
      if end {
        return WouldBlock, 0;
      }
      assert Follows(buffer[..], view.log, readers[r], view.cursors[r]);
      res, next := PeekAt(readers[r], count, view.log, view.cursors[r].at);
    }

    method PeekAt(rd: Reader, count: nat, ghost log: seq<Entry>, ghost i: nat) returns (res: ReadResult, next: nat)
      requires size == buffer.Length == Pow2(order) && size >= MAX_ENTRY && AllFit(log)
      requires Tracks(buffer[..], log, rd.off, i) && i < |log|
      ensures res == if count < UserHeader(rd.ver) + |log[i].payload| then TooSmall else Data(UserBytes(rd.ver, log[i]))
      ensures res.Data? ==> Tracks(buffer[..], log, next, i + 1)
    {
      var n := MessageLen(rd.off, log, i);
      if count < UserHeader(rd.ver) + n {
        return TooSmall, 0;
      }
      var bytes := EntryBytes(rd, n, log, i);
      TracksNext(buffer[..], log, rd.off, i);
      next := Offset(rd.off + HEADER + n);
      res := Data(bytes);
    }

    /** get_entry_msg_len. */
    method MessageLen(off: nat, ghost log: seq<Entry>, ghost i: nat) returns (n: nat)
      requires size == buffer.Length == Pow2(order) && size >= MAX_ENTRY && AllFit(log)
      requires Tracks(buffer[..], log, off, i) && i < |log|
      ensures n == |log[i].payload|
    {
      var h := EntryHeader(off);
      TracksHeader(buffer[..], log, off, i);
      n := LenField(h);
    }

    /** What do_read_log_to_user copies out. */
    method EntryBytes(rd: Reader, n: nat, ghost log: seq<Entry>, ghost i: nat) returns (bytes: seq<Byte>)
      requires size == buffer.Length == Pow2(order) && size >= MAX_ENTRY && AllFit(log)
      requires Tracks(buffer[..], log, rd.off, i) && i < |log| && n == |log[i].payload|
      ensures bytes == UserBytes(rd.ver, log[i]) && Decodes(rd.ver, bytes, log[i])
    {
      UserBytesDecode(rd.ver, log[i]);
      TracksHeader(buffer[..], log, rd.off, i);
      ReadTracks(buffer[..], log, rd.off, i);
      var h := EntryHeader(rd.off);
      var start := Offset(rd.off + HEADER);
      var msg := Copy(start, n);
      bytes := (if rd.ver < 2 then h[0..2] + Le16(0) + h[4..20] else h) + msg;
    }

    /** The one or two copies that get bytes out of the ring. */
    method Copy(start: nat, n: nat) returns (bytes: seq<Byte>)
      requires size == buffer.Length && start < size && n <= size
      ensures bytes == Slice(buffer[..], start, n)
    {
      var len := Min(n, size - start);
      bytes := buffer[start..start + len];
      if n != len {
        bytes := bytes + buffer[..n - len];
      }
    }

    // ---- The rest ---------------------------------------------------------------------

    method Open(r: Rid, all: bool)
      requires Valid() && r !in readers
      modifies this`readers, this`view
      ensures Valid() && view == old(view).(cursors := old(view).cursors[r := Cursor(old(view).head, all, 1)])
    {
      OpenedStands(buffer[..], wOff, head, readers, view, r, all);
      readers := readers[r := Reader(head, all, 1)];
      view := view.(cursors := view.cursors[r := Cursor(view.head, all, 1)]);
    }

    method Release(r: Rid)
      requires Valid() && r in readers
      modifies this`readers, this`view
      ensures Valid() && view == old(view).(cursors := old(view).cursors - {r})
    {
      readers := readers - {r};
      view := view.(cursors := view.cursors - {r});
    }

    /** LOGGER_FLUSH_LOG. */
    method Flush()
      requires Valid()
      modifies this`head, this`readers, this`view
      ensures Valid() && view == Flushed(old(view))
    {
      ghost var was := readers;
      readers := map r | r in readers :: readers[r].(off := wOff);
      FlushedStands(buffer[..], wOff, head, was, view, readers);
      head := wOff;
      view := Flushed(view);
    }

    /** LOGGER_GET_LOG_LEN: the bytes between the reader and the write head. */
    method LogLen(r: Rid) returns (n: nat)
      requires Valid() && r in readers
      ensures n == Total(view.log) - Pos(view.log, view.cursors[r].at)
    {
      var off := readers[r].off;
      assert Follows(buffer[..], view.log, readers[r], view.cursors[r]);
      PosMonotone(view.log, view.cursors[r].at, |view.log|);
      AheadOf(size, Pos(view.log, view.cursors[r].at), Total(view.log));
      n := if wOff >= off then wOff - off else (size - off) + wOff;
    }

    /** LOGGER_SET_VERSION. */
    method SetVersion(r: Rid, ver: int) returns (ret: int)
      requires Valid() && r in readers
      modifies this`readers, this`view
      ensures Valid()
      ensures if 1 <= ver <= 2
        then ret == 0 && view == old(view).(cursors := old(view).cursors[r := old(view).cursors[r].(ver := ver)])
              else ret == -EINVAL && view == old(view)
    {
      if ver < 1 || ver > 2 {
        return -EINVAL;
      }
      assert Follows(buffer[..], view.log, readers[r], view.cursors[r]);
      readers := readers[r := readers[r].(ver := ver)];
      view := view.(cursors := view.cursors[r := view.cursors[r].(ver := ver)]);
      ret := 0;
    }

    /** poll and LOGGER_GET_NEXT_ENTRY_LEN first settle the reader. */
    method NextEntryLen(r: Rid, euid: Word) returns (n: nat)
      requires Valid() && r in readers
      modifies this`readers, this`view
      ensures Valid() && view == MoveTo(old(view), r, Settled(old(view), r, euid))
      ensures var i := Settled(old(view), r, euid);
        n == if i < |view.log| then UserHeader(view.cursors[r].ver) + |view.log[i].payload| else 0
    {
      Settle(r, euid);
      var end := CaughtUp(r);
      if end {
        return 0;
      }
      assert Follows(buffer[..], view.log, readers[r], view.cursors[r]);
      var len := MessageLen(readers[r].off, view.log, view.cursors[r].at);
      n := UserHeader(readers[r].ver) + len;
    }

    // ---- The device refines the log -------------------------------------------------------

    method Perform(op: Spec.Op)
      requires Valid()
      modifies this, buffer
      ensures Valid() && view == Spec.Step(size, old(view), op)
    {
      match op
      case Write(e) =>
        if Fits(e) {
          var _ := Write(e, e.payload, |e.payload|);
          assert e.payload[..|e.payload|] == e.payload;
        }
      case FailedWrite(len) =>
        if HEADER < len <= MAX_ENTRY {
          var _ := Write(Entry(0, 0, 0, 0, 0, []), seq(len - HEADER, _ => 0), 0);
        }
      case Flush => Flush();
      case _ => Serve(op);
    }

    /** What is done for one reader. */
    method Serve(op: Spec.Op)
      requires Valid() && !op.Write? && !op.FailedWrite? && !op.Flush?
      modifies this
      ensures Valid() && view == Spec.Step(size, old(view), op)
    {
      match op
      case Open(r, all) => if r !in readers { Open(r, all); }
      case Release(r) =>
        if r in readers { Release(r); } else { assert view.cursors - {r} == view.cursors; }
      case Read(r, count, euid) => if r in readers { var _ := Read(r, count, euid); }
      case Touch(r, euid) => if r in readers { var _ := NextEntryLen(r, euid); }
      case SetVersion(r, ver) => if r in readers { var _ := SetVersion(r, ver); }
    }

    /** Any interleaving of operations leaves the ring standing for the log that the same
        operations give. */
    method PerformAll(ops: seq<Spec.Op>)
      requires Valid()
      modifies this, buffer
      ensures Valid() && view == Spec.Run(size, old(view), ops)
    {
      for k := 0 to |ops|
        invariant Valid() && Spec.Run(size, view, ops[k..]) == Spec.Run(size, old(view), ops)
      {
        Perform(ops[k]);
        assert ops[k..][1..] == ops[k + 1..];
      }
      assert ops[|ops|..] == [];
    }
  }
}
