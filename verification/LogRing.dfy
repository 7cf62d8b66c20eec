// The ring: where in it a position of the stream lies, what a write disturbs, and how the
// walk from entry to entry finds its way.
module LogRing {
  import opened Base
  import opened LogEntries

  // ---- Offsets ------------------------------------------------------------------------

  function Pow2(k: nat): (r: nat)
    ensures r > 0
  {
    if k == 0 then 1 else 2 * Pow2(k - 1)
  }

  /** Bitwise and. */
  function And(a: nat, b: nat): nat
    decreases a
  {
    if a == 0 || b == 0 then 0 else (if a % 2 == 1 && b % 2 == 1 then 1 else 0) + 2 * And(a / 2, b / 2)
  }

  /** logger_offset is a modulus because the size is a power of two. */
  lemma {:induction false} MaskIsModulus(n: nat, k: nat)
    ensures And(n, Pow2(k) - 1) == n % Pow2(k)
    decreases k
  {
    if k == 0 {
      ModUnique(n, 1, n, 0);
    } else {
      MaskIsModulus(n / 2, k - 1);
      MaskStep(n, Pow2(k - 1));
    }
  }

  lemma MaskStep(n: nat, m: nat)
    requires m > 0 && And(n / 2, m - 1) == (n / 2) % m
    ensures And(n, 2 * (m - 1) + 1) == n % (2 * m)
  {
    AndOdd(n, m - 1);
    HalfModulus(n, m);
  }

  lemma AndOdd(n: nat, b: nat)
    ensures And(n, 2 * b + 1) == n % 2 + 2 * And(n / 2, b)
  {
    assert (2 * b + 1) / 2 == b && (2 * b + 1) % 2 == 1;
  }

  lemma HalfModulus(n: nat, m: nat)
    requires m > 0
    ensures n % (2 * m) == n % 2 + 2 * ((n / 2) % m)
  {
    var h := n / 2;
    var q := h / m;
    assert h == q * m + h % m;
    assert n == q * (2 * m) + (n % 2 + 2 * (h % m));
    ModUnique(n, 2 * m, q, n % 2 + 2 * (h % m));
  }

  lemma ModUnique(a: int, n: int, q: int, r: int)
    requires n > 0 && 0 <= r < n && a == q * n + r
    ensures a % n == r
  {
    var d := q - a / n;
    assert d * n == a % n - r;
    assert d >= 1 ==> d * n >= n;
    assert d <= -1 ==> d * n <= -n;
  }

  /** Moving `k` bytes on from position `p`, less than once around. */
  lemma ModShift(p: nat, k: nat, n: nat)
    requires 0 < n && k <= n
    ensures (p + k) % n == if p % n + k < n then p % n + k else p % n + k - n
  {
    var q := p / n;
    assert p == q * n + p % n;
    if p % n + k < n {
      ModUnique(p + k, n, q, p % n + k);
    } else {
      assert p + k == (q + 1) * n + (p % n + k - n);
      ModUnique(p + k, n, q + 1, p % n + k - n);
    }
  }

  lemma ModAdd(p: nat, k: nat, n: nat)
    requires 0 < n
    ensures (p % n + k) % n == (p + k) % n
  {
    var q, m := p / n, (p % n + k) / n;
    assert p + k == (q + m) * n + (p % n + k) % n;
    ModUnique(p + k, n, q + m, (p % n + k) % n);
  }

  /** How far ahead of `from` the offset `to` is, going around. */
  function Ahead(size: nat, from: nat, to: nat): (d: nat)
    requires from < size && to < size
    ensures d < size
  {
    if from <= to then to - from else to + size - from
  }

  lemma AheadOf(size: nat, a: nat, b: nat)
    requires a <= b < a + size
    ensures Ahead(size, a % size, b % size) == b - a
  {
    ModShift(a, b - a, size);
  }

  /** A position less than once around behind. */
  lemma AheadBehind(size: nat, a: nat, b: nat)
    requires b < a < b + size
    ensures Ahead(size, a % size, b % size) == size - (a - b)
  {
    ModShift(b, a - b, size);
  }

  predicate IsBetween(a: nat, b: nat, c: nat) {
    if a < b then a < c && c <= b else c <= b || a < c
  }

  /** is_between, for the stretch of `len` bytes after `old`, means what it should: the
      distance around the ring from `old` to `c` is more than 0 and at most `len`. */
  lemma IsBetweenExactly(size: nat, old_: nat, len: nat, c: nat)
    requires old_ < size && c < size && 0 < len < size
    ensures IsBetween(old_, (old_ + len) % size, c) <==> 0 < Ahead(size, old_, c) <= len
  {
    ModShift(old_, len, size);
    ModUnique(old_, size, 0, old_);
  }

  // ---- Bytes in the ring ------------------------------------------------------------------

  /** The `n` bytes at `off`, copied in one piece or, past the end, in two. */
  function Slice(buf: seq<Byte>, off: nat, n: nat): (r: seq<Byte>)
    requires off < |buf| && n <= |buf|
    ensures |r| == n
  {
    if off + n <= |buf| then buf[off..off + n] else buf[off..] + buf[..off + n - |buf|]
  }

  /** From position `from` to its end, the stream is in the ring. */
  ghost predicate Holds(buf: seq<Byte>, stream: seq<Byte>, from: nat) {
    0 < |buf| && forall p {:trigger stream[p]} :: from <= p < |stream| ==> buf[p % |buf|] == stream[p]
  }

  lemma {:induction false} SliceHolds(buf: seq<Byte>, stream: seq<Byte>, from: nat, p: nat, n: nat)
    requires Holds(buf, stream, from) && from <= p && p + n <= |stream| && n <= |buf|
    ensures Slice(buf, p % |buf|, n) == stream[p..p + n]
  {
    var r := Slice(buf, p % |buf|, n);
    forall k | 0 <= k < n ensures r[k] == stream[p..p + n][k] {
      ModShift(p, k, |buf|);
      assert stream[p + k] == buf[(p + k) % |buf|];
    }
  }

  /** `after` is `buf` with `bytes` written at `off`, going around at the end. */
  ghost predicate Written(buf: seq<Byte>, after: seq<Byte>, off: nat, bytes: seq<Byte>) {
    && off < |buf| == |after|
    && forall q {:trigger after[q]} :: 0 <= q < |buf| ==>
         after[q] == if Ahead(|buf|, off, q) < |bytes| then bytes[Ahead(|buf|, off, q)] else buf[q]
  }

  /** Writing past the end of the stream spares everything less than a ring away. */
  lemma {:induction false} WriteSpares(buf: seq<Byte>, after: seq<Byte>, stream: seq<Byte>, from: nat, bytes: seq<Byte>)
    requires Holds(buf, stream, from) && Written(buf, after, |stream| % |buf|, bytes)
    requires from < |stream| ==> |stream| + |bytes| - from < |buf|
    ensures Holds(after, stream, from)
  {
    forall p | from <= p < |stream| ensures after[p % |after|] == stream[p] {
      AheadBehind(|buf|, |stream|, p);
    }
  }

  lemma {:induction false} WriteExtends(buf: seq<Byte>, after: seq<Byte>, stream: seq<Byte>, from: nat,
                                        bytes: seq<Byte>)
    requires Holds(buf, stream, from) && Written(buf, after, |stream| % |buf|, bytes) && |bytes| <= |buf|
    requires from <= |stream| && (from < |stream| ==> |stream| + |bytes| - from < |buf|)
    ensures Holds(after, stream + bytes, from)
  {
    WriteSpares(buf, after, stream, from, bytes);
    forall p | from <= p < |stream + bytes| ensures after[p % |after|] == (stream + bytes)[p] {
      if |stream| <= p {
        AheadOf(|buf|, |stream|, p);
      } else {
        assert (stream + bytes)[p] == stream[p];
      }
    }
  }

  // ---- Pointers into the ring -----------------------------------------------------------------

  /** Offset `off` is the start of entry `i`, and that entry and all later ones are intact. */
  ghost predicate Tracks(buf: seq<Byte>, log: seq<Entry>, off: nat, i: nat) {
    && |buf| > 0 && i <= |log| && off == Pos(log, i) % |buf|
    && Total(log) - Pos(log, i) < |buf|
    && Holds(buf, Stream(log), Pos(log, i))
  }

  lemma {:induction false} TracksHeader(buf: seq<Byte>, log: seq<Entry>, off: nat, i: nat)
    requires Tracks(buf, log, off, i) && i < |log| && AllFit(log) && |buf| >= MAX_ENTRY
    ensures Slice(buf, off, HEADER) == Header(log[i])
    ensures LenField(Slice(buf, off, HEADER)) == |log[i].payload| && EuidField(Slice(buf, off, HEADER)) == log[i].euid
  {
    EntryAt(log, i);
    var p := Pos(log, i);
    SliceHolds(buf, Stream(log), p, p, HEADER);
    assert Stream(log)[p..p + HEADER] == Stream(log)[p..Pos(log, i + 1)][..HEADER];
    assert Bytes(log[i])[..HEADER] == Header(log[i]);
    HeaderFields(log[i]);
  }

  /** One entry on. */
  lemma {:induction false} TracksNext(buf: seq<Byte>, log: seq<Entry>, off: nat, i: nat)
    requires Tracks(buf, log, off, i) && i < |log| && AllFit(log) && |buf| >= MAX_ENTRY
    ensures Tracks(buf, log, (off + HEADER + |log[i].payload|) % |buf|, i + 1)
  {
    EntryAt(log, i);
    var n := HEADER + |log[i].payload|;
    ModShift(Pos(log, i), n, |buf|);
    ModShift(off, n, |buf|);
    ModUnique(off, |buf|, 0, off);
  }

  /** A pointer is at the write head just when it has no entries left. */
  lemma {:induction false} AtEnd(buf: seq<Byte>, log: seq<Entry>, off: nat, i: nat)
    requires Tracks(buf, log, off, i)
    ensures off == Total(log) % |buf| <==> i == |log|
  {
    PosMonotone(log, i, |log|);
    assert log[..|log|] == log;
    if i < |log| {
      AheadOf(|buf|, Pos(log, i), Total(log));
    }
  }

  /** get_next_entry on raw bytes, whatever they are. */
  function NextEntry(buf: seq<Byte>, off: nat, len: int): (r: nat)
    requires off < |buf| && |buf| >= HEADER
    ensures r < |buf|
    decreases len
  {
    var nr := HEADER + LenField(Slice(buf, off, HEADER));
    var next := (off + nr) % |buf|;
    if nr >= len then next else NextEntry(buf, next, len - nr)
  }

  /** With enough entries left, the walk over the raw bytes lands on the entry that
      counting entries gives. */
  lemma {:induction false} NextEntryLands(buf: seq<Byte>, log: seq<Entry>, off: nat, i: nat, len: int)
    requires Tracks(buf, log, off, i) && i < |log| && AllFit(log) && |buf| >= MAX_ENTRY
    requires len <= Total(log) - Pos(log, i)
    ensures Tracks(buf, log, NextEntry(buf, off, len), Skip(log, i, len))
    decreases |log| - i
  {
    TracksHeader(buf, log, off, i);
    TracksNext(buf, log, off, i);
    PosNext(log, i);
    var nr := HEADER + |log[i].payload|;
    if nr < len {
      assert log[..|log|] == log;
      NextEntryLands(buf, log, (off + nr) % |buf|, i + 1, len - nr);
    }
  }

  // ---- Being lapped -----------------------------------------------------------------------------

  /** Writing `len` more bytes would reach the entries from `i` on. */
  predicate Lapped(size: nat, log: seq<Entry>, i: nat, len: nat)
    requires i <= |log|
  {
    i < |log| && Total(log) - Pos(log, i) + len >= size
  }

  /** Where a pointer at entry `i` stands once room for `len` bytes has been made. */
  function PulledForward(size: nat, log: seq<Entry>, i: nat, len: nat): (j: nat)
    requires i <= |log|
    ensures i <= j <= |log|
  {
    if Lapped(size, log, i, len) then Skip(log, i, len) else i
  }

  function FixUp(buf: seq<Byte>, wOff: nat, off: nat, len: nat): (r: nat)
    requires wOff < |buf| && off < |buf| && |buf| >= HEADER
    ensures r < |buf|
  {
    if IsBetween(wOff, (wOff + len) % |buf|, off) then NextEntry(buf, off, len) else off
  }

  /** fix_up_readers moves a pointer exactly when it would be lapped; the pointer lands on
      an entry boundary past the new write head and not past the old one. */
  lemma {:induction false} FixUpLands(buf: seq<Byte>, log: seq<Entry>, off: nat, i: nat, len: nat)
    requires Tracks(buf, log, off, i) && AllFit(log)
    requires HEADER < len <= MAX_ENTRY && |buf| >= 2 * MAX_ENTRY
    ensures var j := PulledForward(|buf|, log, i, len);
      && Tracks(buf, log, FixUp(buf, Total(log) % |buf|, off, len), j)
      && (j < |log| ==> Total(log) + len - Pos(log, j) < |buf|)
  {
    var w := Total(log);
    PosMonotone(log, i, |log|);
    assert log[..|log|] == log;
    IsBetweenExactly(|buf|, w % |buf|, len, off);
    if i == |log| {
      AheadOf(|buf|, w, w);
    } else {
      AheadBehind(|buf|, w, Pos(log, i));
      if Lapped(|buf|, log, i, len) {
        NextEntryLands(buf, log, off, i, len);
        SkipIsFirst(log, i, len);
      }
    }
  }
}
