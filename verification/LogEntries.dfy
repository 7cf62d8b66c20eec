// Entries of the Android log as they lie in the ring: a 24-byte header and the payload,
// one after the other in an endless stream of which the ring keeps the end.
module LogEntries {
  import opened Base

  const HEADER: nat := 24
  const COMPAT_HEADER: nat := 20
  const MAX_PAYLOAD: nat := 4076
  const MAX_ENTRY: nat := HEADER + MAX_PAYLOAD

  datatype Entry = Entry(pid: Word, tid: Word, sec: Word, nsec: Word, euid: Word, payload: seq<Byte>)

  predicate Fits(e: Entry) {
    0 < |e.payload| <= MAX_PAYLOAD
  }

  predicate AllFit(log: seq<Entry>) {
    forall i :: 0 <= i < |log| ==> Fits(log[i])
  }

  function Le16(x: nat): (b: seq<Byte>)
    ensures |b| == 2
  {
    [x % 0x100, (x / 0x100) % 0x100]
  }

  function Le32(x: Word): (b: seq<Byte>)
    ensures |b| == 4
  {
    [x % 0x100, (x / 0x100) % 0x100, (x / 0x1_0000) % 0x100, x / 0x100_0000]
  }

  function FromLe16(b: seq<Byte>): nat
    requires |b| == 2
  {
    b[0] as int + 0x100 * (b[1] as int)
  }

  function FromLe32(b: seq<Byte>): nat
    requires |b| == 4
  {
    b[0] as int + 0x100 * (b[1] as int) + 0x1_0000 * (b[2] as int) + 0x100_0000 * (b[3] as int)
  }

  /** struct logger_entry. */
  function Header(e: Entry): (h: seq<Byte>)
    ensures |h| == HEADER
  {
    Le16(|e.payload|) + Le16(HEADER) + Le32(e.pid) + Le32(e.tid) + Le32(e.sec) + Le32(e.nsec) + Le32(e.euid)
  }

  function Bytes(e: Entry): (b: seq<Byte>)
    ensures |b| == HEADER + |e.payload|
  {
    Header(e) + e.payload
  }

  function LenField(h: seq<Byte>): nat
    requires |h| == HEADER
  {
    FromLe16(h[0..2])
  }

  function EuidField(h: seq<Byte>): nat
    requires |h| == HEADER
  {
    FromLe32(h[20..24])
  }

  /** What read() delivers: the header in the layout of the reader's version, then the
      payload. Version 1 has no euid and a zero where version 2 has the header size. */
  function UserBytes(ver: int, e: Entry): seq<Byte> {
    (if ver < 2 then Header(e)[0..2] + Le16(0) + Header(e)[4..20] else Header(e)) + e.payload
  }

  /** `b` is entry `e` in the layout a reader of version `ver` is promised, field by field: the
      payload's length, the size of the header or a zero, then process, thread, seconds and
      nanoseconds, from version 2 on the writer's euid, and the payload. */
  predicate Decodes(ver: int, b: seq<Byte>, e: Entry) {
    var n := if ver < 2 then COMPAT_HEADER else HEADER;
    && |b| == n + |e.payload| && b[n..] == e.payload
    && FromLe16(b[0..2]) == |e.payload| && FromLe16(b[2..4]) == (if ver < 2 then 0 else HEADER)
    && FromLe32(b[4..8]) == e.pid && FromLe32(b[8..12]) == e.tid
    && FromLe32(b[12..16]) == e.sec && FromLe32(b[16..20]) == e.nsec
    && (ver >= 2 ==> FromLe32(b[20..24]) == e.euid)
  }

  /** Which bytes of a header are which field. */
  lemma {:induction false} HeaderSlices(e: Entry)
    ensures var h := Header(e);
      && h[0..2] == Le16(|e.payload|) && h[2..4] == Le16(HEADER) && h[4..8] == Le32(e.pid)
      && h[8..12] == Le32(e.tid) && h[12..16] == Le32(e.sec) && h[16..20] == Le32(e.nsec) && h[20..24] == Le32(e.euid)
  {
  }

  /** What read() delivers is the entry, in the promised layout. */
  lemma {:induction false} UserBytesDecode(ver: int, e: Entry)
    requires Fits(e)
    ensures Decodes(ver, UserBytes(ver, e), e)
  {
    var h, b := Header(e), UserBytes(ver, e);
    HeaderSlices(e);
    Le32RoundTrip(e.pid); Le32RoundTrip(e.tid); Le32RoundTrip(e.sec); Le32RoundTrip(e.nsec); Le32RoundTrip(e.euid);
    assert b[0..2] == h[0..2] && b[4..8] == h[4..8] && b[8..12] == h[8..12];
    assert b[12..16] == h[12..16] && b[16..20] == h[16..20];
    if ver < 2 { assert b[2..4] == Le16(0); } else { assert b[2..4] == h[2..4] && b[20..24] == h[20..24]; }
  }

  lemma HeaderFields(e: Entry)
    requires Fits(e)
    ensures LenField(Header(e)) == |e.payload| && EuidField(Header(e)) == e.euid
  {
    var h := Header(e);
    assert h[0..2] == Le16(|e.payload|);
    assert h[20..24] == Le32(e.euid);
    Le32RoundTrip(e.euid);
  }

  lemma Le32RoundTrip(x: Word)
    ensures FromLe32(Le32(x)) == x
  {
    var a, b, c := x / 0x100, x / 0x1_0000, x / 0x100_0000;
    assert x == a * 0x100 + x % 0x100;
    assert a / 0x100 == b && a == b * 0x100 + a % 0x100;
    assert b / 0x100 == c && b == c * 0x100 + b % 0x100;
  }

  // ---- The stream ---------------------------------------------------------------------

  function Stream(log: seq<Entry>): seq<Byte> {
    if log == [] then [] else Stream(log[..|log| - 1]) + Bytes(log[|log| - 1])
  }

  /** Where entry `i` starts in the stream. */
  function Pos(log: seq<Entry>, i: nat): nat
    requires i <= |log|
  {
    |Stream(log[..i])|
  }

  function Total(log: seq<Entry>): nat {
    |Stream(log)|
  }

  lemma {:induction false} PosNext(log: seq<Entry>, i: nat)
    requires i < |log|
    ensures Pos(log, i + 1) == Pos(log, i) + HEADER + |log[i].payload|
  {
    assert log[..i + 1][..i] == log[..i];
  }

  lemma {:induction false} StreamPrefix(log: seq<Entry>, i: nat)
    requires i <= |log|
    ensures Stream(log[..i]) <= Stream(log)
  {
    if i < |log| {
      StreamPrefix(log[..|log| - 1], i);
      assert log[..|log| - 1][..i] == log[..i];
    } else {
      assert log[..i] == log;
    }
  }

  /** Entry `i` lies in the stream at its position. */
  lemma {:induction false} EntryAt(log: seq<Entry>, i: nat)
    requires i < |log|
    ensures Pos(log, i + 1) == Pos(log, i) + |Bytes(log[i])| <= Total(log)
    ensures Stream(log)[Pos(log, i)..Pos(log, i + 1)] == Bytes(log[i])
  {
    PosNext(log, i);
    StreamPrefix(log, i + 1);
    assert log[..i + 1][..i] == log[..i];
    assert Stream(log[..i + 1]) == Stream(log[..i]) + Bytes(log[i]);
  }

  lemma {:induction false} PosMonotone(log: seq<Entry>, i: nat, j: nat)
    requires i <= j <= |log|
    ensures Pos(log, i) + HEADER * (j - i) <= Pos(log, j) <= Total(log)
    decreases j - i
  {
    if i < j {
      PosNext(log, i);
      PosMonotone(log, i + 1, j);
    } else {
      StreamPrefix(log, i);
    }
  }

  lemma {:induction false} AppendPos(log: seq<Entry>, e: Entry, i: nat)
    requires i <= |log|
    ensures Pos(log + [e], i) == Pos(log, i)
    ensures Stream(log + [e]) == Stream(log) + Bytes(e)
    ensures Total(log + [e]) == Total(log) + HEADER + |e.payload|
    ensures Pos(log, |log|) == Total(log)
  {
    assert (log + [e])[..|log|] == log;
    assert (log + [e])[..i] == log[..i];
    assert log[..|log|] == log;
  }

  /** The first entry boundary at least `len` bytes past entry `i`, or the end. */
  function Skip(log: seq<Entry>, i: nat, len: int): (j: nat)
    requires i < |log|
    ensures i < j <= |log|
    decreases |log| - i
  {
    if HEADER + |log[i].payload| >= len || i + 1 == |log| then i + 1
    else Skip(log, i + 1, len - HEADER - |log[i].payload|)
  }

  /** Skip drops at least `len` bytes if there are that many, and never an entry more. */
  lemma {:induction false} SkipIsFirst(log: seq<Entry>, i: nat, len: int)
    requires i < |log|
    ensures var j := Skip(log, i, len);
      && (j < |log| || len <= Total(log) - Pos(log, i) ==> len <= Pos(log, j) - Pos(log, i))
      && (forall k :: i < k < j ==> Pos(log, k) - Pos(log, i) < len)
    decreases |log| - i
  {
    PosNext(log, i);
    assert log[..|log|] == log;
    if !(HEADER + |log[i].payload| >= len || i + 1 == |log|) {
      SkipIsFirst(log, i + 1, len - HEADER - |log[i].payload|);
    }
  }
}
