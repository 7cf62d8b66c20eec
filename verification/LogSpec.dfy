// The log as its users see it: a sequence that only grows, and for each reader the number
// of the entry it will get next.
module LogSpec {
  import opened Base
  import opened LogEntries
  import opened LogRing

  type Rid = nat

  datatype Cursor = Cursor(at: nat, all: bool, ver: int)

  datatype View = View(log: seq<Entry>, head: nat, cursors: map<Rid, Cursor>)

  ghost predicate Sound(v: View) {
    && AllFit(v.log) && v.head <= |v.log|
    && forall r :: r in v.cursors ==> v.cursors[r].at <= |v.log|
  }

  /** Every pointer that `len` more bytes would overrun is pulled forward. */
  function Room(size: nat, v: View, len: nat): View
    requires v.head <= |v.log| && forall r :: r in v.cursors ==> v.cursors[r].at <= |v.log|
  {
    v.(head := PulledForward(size, v.log, v.head, len),
       cursors := map r | r in v.cursors :: v.cursors[r].(at := PulledForward(size, v.log, v.cursors[r].at, len)))
  }

  function Append(size: nat, v: View, e: Entry): View
    requires v.head <= |v.log| && forall r :: r in v.cursors ==> v.cursors[r].at <= |v.log|
  {
    Room(size, v, |Bytes(e)|).(log := v.log + [e])
  }

  /** The first entry from `i` on that `euid` wrote, or the end. */
  function NextBy(log: seq<Entry>, i: nat, euid: Word): (j: nat)
    requires i <= |log|
    ensures i <= j <= |log|
    ensures j < |log| ==> log[j].euid == euid
    ensures forall k :: i <= k < j ==> log[k].euid != euid
    decreases |log| - i
  {
    if i == |log| || log[i].euid == euid then i else NextBy(log, i + 1, euid)
  }

  /** Where reader `r` stands when a process running as `euid` uses it. */
  function Settled(v: View, r: Rid, euid: Word): (j: nat)
    requires r in v.cursors && v.cursors[r].at <= |v.log|
    ensures v.cursors[r].at <= j <= |v.log|
  {
    if v.cursors[r].all then v.cursors[r].at else NextBy(v.log, v.cursors[r].at, euid)
  }

  function MoveTo(v: View, r: Rid, i: nat): View
    requires r in v.cursors
  {
    v.(cursors := v.cursors[r := v.cursors[r].(at := i)])
  }

  datatype ReadResult = Data(bytes: seq<Byte>) | WouldBlock | TooSmall

  /** What a reader standing at entry `i` gets for a buffer of `count` bytes. */
  function ReadingAt(v: View, r: Rid, i: nat, count: nat): (View, ReadResult)
    requires r in v.cursors && i <= |v.log|
  {
    if i == |v.log| then (MoveTo(v, r, i), WouldBlock)
    else if count < UserHeader(v.cursors[r].ver) + |v.log[i].payload| then (MoveTo(v, r, i), TooSmall)
    else (MoveTo(v, r, i + 1), Data(UserBytes(v.cursors[r].ver, v.log[i])))
  }

  function Reading(v: View, r: Rid, count: nat, euid: Word): (View, ReadResult)
    requires r in v.cursors && v.cursors[r].at <= |v.log|
  {
    if v.cursors[r].at == |v.log| then (v, WouldBlock) else ReadingAt(v, r, Settled(v, r, euid), count)
  }

  /** Reading is settling, then taking the entry found there. */
  lemma ReadingSplits(v: View, w: View, r: Rid, count: nat, euid: Word)
    requires r in v.cursors && v.cursors[r].at < |v.log| && w == MoveTo(v, r, Settled(v, r, euid))
    ensures Reading(v, r, count, euid).1 == ReadingAt(w, r, w.cursors[r].at, count).1
    ensures Reading(v, r, count, euid).0 == if Reading(v, r, count, euid).1.Data?
      then MoveTo(w, r, w.cursors[r].at + 1) else w
  {
    assert MoveTo(w, r, w.cursors[r].at + 1).cursors == MoveTo(v, r, w.cursors[r].at + 1).cursors;
  }

  /** Entry `i` is the next one from `at` on that a reader may see: any, for a reader with full
      access, and otherwise the first that its user wrote. */
  ghost predicate NextFor(v: View, at: nat, i: nat, all: bool, euid: Word) {
    && at <= i < |v.log| && (all ==> i == at)
    && (!all ==> v.log[i].euid == euid && forall k :: at <= k < i ==> v.log[k].euid != euid)
  }

  /** A read gives the next entry the reader may see, if that fits; blocks exactly when there is
      none; and keeps the entry for later exactly when it does not fit. */
  lemma {:induction false} ReadingExactly(v: View, r: Rid, count: nat, euid: Word)
    requires Sound(v) && r in v.cursors
    ensures var (w, res) := Reading(v, r, count, euid);
      var c := v.cursors[r];
      && r in w.cursors && w.log == v.log
      && (res.WouldBlock? <==> forall i :: !NextFor(v, c.at, i, c.all, euid))
      && (res.Data? ==>
            0 < w.cursors[r].at && |res.bytes| <= count && NextFor(v, c.at, w.cursors[r].at - 1, c.all, euid))
      && (res.TooSmall? ==> NextFor(v, c.at, w.cursors[r].at, c.all, euid))
      && (res.TooSmall? ==> forall b :: Decodes(c.ver, b, v.log[w.cursors[r].at]) ==> count < |b|)
  {
    var c, j := v.cursors[r], Settled(v, r, euid);
    if j < |v.log| { assert NextFor(v, c.at, j, c.all, euid); }
  }

  /** After a read as `euid`: what was given is the entry the reader has just moved past, in the
      layout of its version, and one it may see. */
  ghost predicate Gave(w: View, r: Rid, res: ReadResult, euid: Word) {
    res.Data? ==>
      && r in w.cursors && 0 < w.cursors[r].at <= |w.log|
      && Decodes(w.cursors[r].ver, res.bytes, w.log[w.cursors[r].at - 1])
      && (w.cursors[r].all || w.log[w.cursors[r].at - 1].euid == euid)
  }

  lemma {:induction false} ReadingGives(v: View, r: Rid, count: nat, euid: Word)
    requires Sound(v) && r in v.cursors
    ensures Gave(Reading(v, r, count, euid).0, r, Reading(v, r, count, euid).1, euid)
  {
    if Reading(v, r, count, euid).1.Data? {
      ReadingExactly(v, r, count, euid);
      UserBytesDecode(v.cursors[r].ver, v.log[Settled(v, r, euid)]);
    }
  }

  /** Everybody is up to date. */
  function Flushed(v: View): View {
    v.(head := |v.log|, cursors := map r | r in v.cursors :: v.cursors[r].(at := |v.log|))
  }

  function UserHeader(ver: int): nat {
    if ver < 2 then COMPAT_HEADER else HEADER
  }
}

// What ties the ring to the log it stands for, and how each change to the ring keeps it.
module LogRefinement {
  import opened Base
  import opened LogEntries
  import opened LogRing
  import opened LogSpec

  datatype Reader = Reader(off: nat, all: bool, ver: int)

  /** A reader's offset is the start of the entry its cursor names, and that entry and
      everything after it are intact in the ring. */
  ghost predicate Follows(buf: seq<Byte>, log: seq<Entry>, rd: Reader, c: Cursor) {
    Tracks(buf, log, rd.off, c.at) && rd.all == c.all && rd.ver == c.ver
  }

  ghost predicate AllFollow(buf: seq<Byte>, log: seq<Entry>, readers: map<Rid, Reader>, cursors: map<Rid, Cursor>) {
    && readers.Keys == cursors.Keys
    && forall r {:trigger readers[r]} {:trigger cursors[r]} :: r in readers ==>
        Follows(buf, log, readers[r], cursors[r])
  }

  ghost predicate Stands(buf: seq<Byte>, wOff: nat, head: nat, readers: map<Rid, Reader>, v: View) {
    && |buf| >= 2 * MAX_ENTRY && Sound(v) && wOff == Total(v.log) % |buf|
    && Tracks(buf, v.log, head, v.head) && AllFollow(buf, v.log, readers, v.cursors)
  }

  /** Nothing a pointer at `i` can still reach lies in the next `len` bytes. */
  ghost predicate Clear(size: nat, log: seq<Entry>, i: nat, len: nat) {
    i < |log| ==> Total(log) + len - Pos(log, i) < size
  }

  ghost predicate AllClear(size: nat, v: View, len: nat) {
    && Clear(size, v.log, v.head, len)
    && forall r {:trigger v.cursors[r]} :: r in v.cursors ==> Clear(size, v.log, v.cursors[r].at, len)
  }

  lemma {:induction false} FixUpStands(buf: seq<Byte>, wOff: nat, head: nat, readers: map<Rid, Reader>, v: View,
                                       len: nat, moved: map<Rid, Reader>)
    requires Stands(buf, wOff, head, readers, v) && HEADER < len <= MAX_ENTRY
    requires moved.Keys == readers.Keys
    requires forall r :: r in readers ==>
      readers[r].off < |buf| && moved[r] == readers[r].(off := FixUp(buf, wOff, readers[r].off, len))
    ensures head < |buf| && Stands(buf, wOff, FixUp(buf, wOff, head, len), moved, Room(|buf|, v, len))
    ensures AllClear(|buf|, Room(|buf|, v, len), len)
  {
    FixUpLands(buf, v.log, head, v.head, len);
    FixUpAll(buf, v.log, readers, v.cursors, len, moved, Room(|buf|, v, len).cursors);
  }

  lemma {:induction false} FixUpAll(buf: seq<Byte>, log: seq<Entry>, readers: map<Rid, Reader>,
                                    cursors: map<Rid, Cursor>, len: nat,
                                    moved: map<Rid, Reader>, after: map<Rid, Cursor>)
    requires AllFollow(buf, log, readers, cursors) && AllFit(log) && HEADER < len <= MAX_ENTRY && |buf| >= 2 * MAX_ENTRY
    requires moved.Keys == readers.Keys && after.Keys == cursors.Keys
    requires forall r :: r in cursors ==> cursors[r].at <= |log|
    requires forall r :: r in cursors ==> after[r] == cursors[r].(at := PulledForward(|buf|, log, cursors[r].at, len))
    requires forall r :: r in readers ==> readers[r].off < |buf|
    requires forall r :: r in readers ==>
      moved[r] == readers[r].(off := FixUp(buf, Total(log) % |buf|, readers[r].off, len))
    ensures AllFollow(buf, log, moved, after)
    ensures forall r :: r in after ==> Clear(|buf|, log, after[r].at, len)
  {
    forall r | r in readers ensures Follows(buf, log, moved[r], after[r]) && Clear(|buf|, log, after[r].at, len) {
      assert Follows(buf, log, readers[r], cursors[r]);
      FixUpReader(buf, log, readers[r], cursors[r], len);
    }
  }

  lemma {:induction false} FixUpReader(buf: seq<Byte>, log: seq<Entry>, rd: Reader, c: Cursor, len: nat)
    requires Follows(buf, log, rd, c) && AllFit(log) && HEADER < len <= MAX_ENTRY && |buf| >= 2 * MAX_ENTRY
    ensures rd.off < |buf|
    ensures var j := PulledForward(|buf|, log, c.at, len);
      && Follows(buf, log, rd.(off := FixUp(buf, Total(log) % |buf|, rd.off, len)), c.(at := j))
      && Clear(|buf|, log, j, len)
  {
    FixUpLands(buf, log, rd.off, c.at, len);
  }

  /** Bytes written past the end without being committed disturb nothing. */
  lemma {:induction false} AbandonedStands(buf: seq<Byte>, after: seq<Byte>, wOff: nat, head: nat,
                                           readers: map<Rid, Reader>, v: View, len: nat, bytes: seq<Byte>)
    requires Stands(buf, wOff, head, readers, v) && AllClear(|buf|, v, len)
    requires |bytes| <= len && Written(buf, after, wOff, bytes)
    ensures Stands(after, wOff, head, readers, v)
  {
    SparedTracks(buf, after, v.log, head, v.head, len, bytes);
    forall r | r in readers ensures Follows(after, v.log, readers[r], v.cursors[r]) {
      SparedTracks(buf, after, v.log, readers[r].off, v.cursors[r].at, len, bytes);
    }
  }

  lemma {:induction false} SparedTracks(buf: seq<Byte>, after: seq<Byte>, log: seq<Entry>, off: nat, i: nat, len: nat,
                                        bytes: seq<Byte>)
    requires Tracks(buf, log, off, i) && Clear(|buf|, log, i, len) && |bytes| <= len
    requires Written(buf, after, Total(log) % |buf|, bytes)
    ensures Tracks(after, log, off, i)
  {
    assert log[..|log|] == log;
    WriteSpares(buf, after, Stream(log), Pos(log, i), bytes);
  }

  /** A whole entry written past the end and committed is the next entry of the log. */
  lemma {:induction false} CommittedStands(buf: seq<Byte>, after: seq<Byte>, wOff: nat, head: nat,
                                           readers: map<Rid, Reader>, v: View, e: Entry)
    requires Stands(buf, wOff, head, readers, v) && Fits(e) && AllClear(|buf|, v, |Bytes(e)|)
    requires Written(buf, after, wOff, Bytes(e))
    ensures Stands(after, (wOff + |Bytes(e)|) % |buf|, head, readers, v.(log := v.log + [e]))
  {
    var log := v.log + [e];
    AppendPos(v.log, e, 0);
    ModAdd(Total(v.log), |Bytes(e)|, |buf|);
    ExtendedTracks(buf, after, v.log, head, v.head, e);
    forall r | r in readers ensures Follows(after, log, readers[r], v.cursors[r]) {
      assert Follows(buf, v.log, readers[r], v.cursors[r]);
      ExtendedTracks(buf, after, v.log, readers[r].off, v.cursors[r].at, e);
    }
  }

  lemma {:induction false} ExtendedTracks(buf: seq<Byte>, after: seq<Byte>, log: seq<Entry>, off: nat, i: nat, e: Entry)
    requires Tracks(buf, log, off, i) && Clear(|buf|, log, i, |Bytes(e)|) && |Bytes(e)| < |buf|
    requires Written(buf, after, Total(log) % |buf|, Bytes(e))
    ensures Tracks(after, log + [e], off, i)
  {
    AppendPos(log, e, i);
    PosMonotone(log, i, |log|);
    WriteExtends(buf, after, Stream(log), Pos(log, i), Bytes(e));
  }

  /** Two writes in a row are one write of both. */
  lemma {:induction false} WrittenAppend(a: seq<Byte>, b: seq<Byte>, c: seq<Byte>, off: nat, x: seq<Byte>, y: seq<Byte>)
    requires Written(a, b, off, x) && Written(b, c, (off + |x|) % |a|, y) && |x| + |y| <= |a|
    ensures Written(a, c, off, x + y)
  {
    ModShift(off, |x|, |a|);
    ModUnique(off, |a|, 0, off);
    forall q | 0 <= q < |a|
      ensures c[q] == if Ahead(|a|, off, q) < |x + y| then (x + y)[Ahead(|a|, off, q)] else a[q]
    {
      assert b[q] == if Ahead(|a|, off, q) < |x| then x[Ahead(|a|, off, q)] else a[q];
    }
  }

  /** What a reader in this position gets, and where it then stands. */
  lemma {:induction false} ReadTracks(buf: seq<Byte>, log: seq<Entry>, off: nat, i: nat)
    requires Tracks(buf, log, off, i) && i < |log| && AllFit(log) && |buf| >= MAX_ENTRY
    ensures Slice(buf, (off + HEADER) % |buf|, |log[i].payload|) == log[i].payload
  {
    var stream, p, e := Stream(log), Pos(log, i), log[i];
    assert Fits(e);
    EntryAt(log, i);
    ModAdd(p, HEADER, |buf|);
    PayloadAt(stream, p, e);
    PayloadIn(buf, stream, p, off, |e.payload|);
  }

  lemma {:induction false} PayloadIn(buf: seq<Byte>, stream: seq<Byte>, p: nat, off: nat, n: nat)
    requires Holds(buf, stream, p) && p + HEADER + n <= |stream| && n <= |buf|
    requires off < |buf| && (off + HEADER) % |buf| == (p + HEADER) % |buf|
    ensures Slice(buf, (off + HEADER) % |buf|, n) == stream[p + HEADER..p + HEADER + n]
  {
    SliceHolds(buf, stream, p, p + HEADER, n);
  }

  lemma {:induction false} PayloadAt(stream: seq<Byte>, p: nat, e: Entry)
    requires p + |Bytes(e)| <= |stream| && stream[p..p + |Bytes(e)|] == Bytes(e)
    ensures stream[p + HEADER..p + HEADER + |e.payload|] == e.payload
  {
    assert stream[p + HEADER..p + HEADER + |e.payload|] == stream[p..p + |Bytes(e)|][HEADER..];
    assert Bytes(e)[HEADER..] == e.payload;
  }

  /** A reader that moves to another intact entry leaves everything else as it is. */
  lemma {:induction false} MovedStands(buf: seq<Byte>, wOff: nat, head: nat, readers: map<Rid, Reader>, v: View,
                                       r: Rid, off: nat, i: nat)
    requires Stands(buf, wOff, head, readers, v) && r in readers && Tracks(buf, v.log, off, i)
    ensures Stands(buf, wOff, head, readers[r := readers[r].(off := off)], MoveTo(v, r, i))
  {
    forall k | k in readers ensures Follows(buf, v.log, readers[k], v.cursors[k]) {
    }
  }

  lemma {:induction false} OpenedStands(buf: seq<Byte>, wOff: nat, head: nat, readers: map<Rid, Reader>, v: View,
                                        r: Rid, all: bool)
    requires Stands(buf, wOff, head, readers, v) && r !in readers
    ensures Stands(buf, wOff, head, readers[r := Reader(head, all, 1)],
                   v.(cursors := v.cursors[r := Cursor(v.head, all, 1)]))
  {
    assert Follows(buf, v.log, Reader(head, all, 1), Cursor(v.head, all, 1));
    forall k | k in readers ensures Follows(buf, v.log, readers[k], v.cursors[k]) {
    }
  }

  /** A flush brings the head and every reader to the write offset. */
  lemma {:induction false} FlushedStands(buf: seq<Byte>, wOff: nat, head: nat, readers: map<Rid, Reader>, v: View,
                                         moved: map<Rid, Reader>)
    requires Stands(buf, wOff, head, readers, v)
    requires moved == map r | r in readers :: readers[r].(off := wOff)
    ensures Stands(buf, wOff, wOff, moved, Flushed(v))
  {
    assert v.log[..|v.log|] == v.log;
    assert Tracks(buf, v.log, wOff, |v.log|);
    forall k | k in moved ensures Follows(buf, v.log, moved[k], Flushed(v).cursors[k]) {
      assert Follows(buf, v.log, readers[k], v.cursors[k]);
    }
  }
}
