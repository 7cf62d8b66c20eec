// What a reader of the log sees over a whole run.
module LogTheorems {
  import opened Base
  import opened LogEntries
  import opened LogRing
  import opened LogSpec

  datatype Op =
    | Write(e: Entry)
    | FailedWrite(len: nat)
    | Open(r: Rid, all: bool)
    | Release(r: Rid)
    | Flush
    | Read(r: Rid, count: nat, euid: Word)
    | Touch(r: Rid, euid: Word)
    | SetVersion(r: Rid, ver: int)

  /** One operation on the log. Each is a method of the device; Touch is what poll and the
      next-entry-length query do to a reader that may not see everything. */
  function Step(size: nat, v: View, op: Op): View
    requires v.head <= |v.log| && forall r :: r in v.cursors ==> v.cursors[r].at <= |v.log|
  {
    match op
    case Write(e) => if Fits(e) then Append(size, v, e) else v
    case FailedWrite(len) => if HEADER < len <= MAX_ENTRY then Room(size, v, len) else v
    case Open(r, all) => if r in v.cursors then v else v.(cursors := v.cursors[r := Cursor(v.head, all, 1)])
    case Release(r) => v.(cursors := v.cursors - {r})
    case Flush => Flushed(v)
    case Read(r, count, euid) => if r in v.cursors then Reading(v, r, count, euid).0 else v
    case Touch(r, euid) => if r in v.cursors then MoveTo(v, r, Settled(v, r, euid)) else v
    case SetVersion(r, ver) =>
      if r in v.cursors && 1 <= ver <= 2 then v.(cursors := v.cursors[r := v.cursors[r].(ver := ver)]) else v
  }

  lemma {:induction false} StepSound(size: nat, v: View, op: Op)
    requires Sound(v)
    ensures Sound(Step(size, v, op)) && v.log <= Step(size, v, op).log
  {
  }

  function Run(size: nat, v: View, ops: seq<Op>): (w: View)
    requires Sound(v)
    ensures Sound(w) && v.log <= w.log
    decreases |ops|
  {
    if ops == [] then v
    else
      StepSound(size, v, ops[0]);
      Run(size, Step(size, v, ops[0]), ops[1..])
  }

  /** What happened to the cursor of one reader: it took entry `i`, or it passed over the
      entries from `i` up to `j`, because they were overrun by a write of `len` bytes when
      the log had `n` entries, because the log was flushed, or because they belonged to
      others. */
  datatype Note =
    | Took(i: nat, ver: int, bytes: seq<Byte>)
    | Overrun(i: nat, j: nat, n: nat, len: nat)
    | Discarded(i: nat, j: nat)
    | Foreign(i: nat, j: nat, euid: Word)

  function From(x: Note): nat { x.i }

  function To(x: Note): nat { if x.Took? then x.i + 1 else x.j }

  function Overruns(size: nat, v: View, i: nat, len: nat): seq<Note>
    requires i <= |v.log|
  {
    if Lapped(size, v.log, i, len) then [Overrun(i, PulledForward(size, v.log, i, len), |v.log|, len)] else []
  }

  function SettleNotes(v: View, r: Rid, euid: Word): seq<Note>
    requires r in v.cursors && v.cursors[r].at <= |v.log|
  {
    if Settled(v, r, euid) > v.cursors[r].at then [Foreign(v.cursors[r].at, Settled(v, r, euid), euid)] else []
  }

  function StepNotes(size: nat, v: View, op: Op, r: Rid): seq<Note>
    requires r in v.cursors && v.cursors[r].at <= |v.log|
  {
    var i := v.cursors[r].at;
    match op
    case Write(e) => if Fits(e) then Overruns(size, v, i, |Bytes(e)|) else []
    case FailedWrite(len) => if HEADER < len <= MAX_ENTRY then Overruns(size, v, i, len) else []
    case Flush => if i < |v.log| then [Discarded(i, |v.log|)] else []
    case Read(q, count, euid) =>
      if q != r || i == |v.log| then [] else
      var res := Reading(v, r, count, euid).1;
      SettleNotes(v, r, euid) +
      (if res.Data? then [Took(Settled(v, r, euid), v.cursors[r].ver, res.bytes)] else [])
    case Touch(q, euid) => if q == r then SettleNotes(v, r, euid) else []
    case _ => []
  }

  function Notes(size: nat, v: View, ops: seq<Op>, r: Rid): seq<Note>
    requires Sound(v) && r in v.cursors && Release(r) !in ops
    decreases |ops|
  {
    if ops == [] then []
    else
      StepSound(size, v, ops[0]);
      StepKeepsReader(size, v, ops[0], r);
      StepNotes(size, v, ops[0], r) + Notes(size, Step(size, v, ops[0]), ops[1..], r)
  }

  lemma {:induction false} StepKeepsReader(size: nat, v: View, op: Op, r: Rid)
    requires Sound(v) && r in v.cursors && op != Release(r)
    ensures r in Step(size, v, op).cursors && Step(size, v, op).cursors[r].all == v.cursors[r].all
  {
  }

  /** The notes lead from entry `a` to entry `b` without gap or overlap. */
  predicate Tiles(notes: seq<Note>, a: nat, b: nat) {
    if notes == [] then a == b
    else From(notes[0]) == a && a < To(notes[0]) && Tiles(notes[1..], To(notes[0]), b)
  }

  /** What a note says is so of the log: an entry taken was delivered as it was written,
      entries overrun were in the way of a write, foreign ones were written by others. */
  predicate Justified(size: nat, log: seq<Entry>, x: Note) {
    match x
    case Took(i, ver, bytes) => i < |log| && Decodes(ver, bytes, log[i])
    case Overrun(i, j, n, len) =>
      i < n <= |log| && len <= MAX_ENTRY && Lapped(size, log[..n], i, len) && j == Skip(log[..n], i, len)
    case Discarded(i, j) => i < j <= |log|
    case Foreign(i, j, euid) => i < j <= |log| && forall k :: i <= k < j ==> log[k].euid != euid
  }

  lemma {:induction false} TilesAppend(x: seq<Note>, y: seq<Note>, a: nat, b: nat, c: nat)
    requires Tiles(x, a, b) && Tiles(y, b, c)
    ensures Tiles(x + y, a, c)
  {
    if x == [] {
      assert x + y == y;
    } else {
      TilesAppend(x[1..], y, To(x[0]), b, c);
      assert (x + y)[1..] == x[1..] + y;
    }
  }

  lemma {:induction false} SettleTiles(v: View, r: Rid, euid: Word)
    requires Sound(v) && r in v.cursors
    ensures Tiles(SettleNotes(v, r, euid), v.cursors[r].at, Settled(v, r, euid))
  {
  }

  lemma {:induction false} StepTiles(size: nat, v: View, op: Op, r: Rid)
    requires Sound(v) && r in v.cursors && op != Release(r)
    ensures r in Step(size, v, op).cursors
    ensures Tiles(StepNotes(size, v, op, r), v.cursors[r].at, Step(size, v, op).cursors[r].at)
  {
    if op.Read? && op.r == r && v.cursors[r].at < |v.log| { ReadTiles(size, v, r, op.count, op.euid); }
  }

  lemma {:induction false} ReadTiles(size: nat, v: View, r: Rid, count: nat, euid: Word)
    requires Sound(v) && r in v.cursors && v.cursors[r].at < |v.log|
    ensures Tiles(StepNotes(size, v, Read(r, count, euid), r), v.cursors[r].at,
                  Reading(v, r, count, euid).0.cursors[r].at)
  {
    SettleTiles(v, r, euid);
    var res := Reading(v, r, count, euid).1;
    var j := Settled(v, r, euid);
    if res.Data? {
      TilesAppend(SettleNotes(v, r, euid), [Took(j, v.cursors[r].ver, res.bytes)], v.cursors[r].at, j, j + 1);
    } else {
      assert SettleNotes(v, r, euid) + [] == SettleNotes(v, r, euid);
    }
  }

  lemma {:induction false} StepJustified(size: nat, v: View, op: Op, r: Rid)
    requires Sound(v) && r in v.cursors
    ensures forall x :: x in StepNotes(size, v, op, r) ==>
      Justified(size, v.log, x) && (v.cursors[r].all ==> !x.Foreign?)
  {
    assert v.log[..|v.log|] == v.log;
    if op.Read? && op.r == r && Reading(v, r, op.count, op.euid).1.Data? {
      UserBytesDecode(v.cursors[r].ver, v.log[Settled(v, r, op.euid)]);
    }
  }

  lemma JustifiedGrows(size: nat, a: seq<Entry>, b: seq<Entry>, x: Note)
    requires Justified(size, a, x) && a <= b
    ensures Justified(size, b, x)
  {
    if x.Overrun? { assert a[..x.n] == b[..x.n]; }
  }

  /** Theorem. Over any run, from any state, the cursor of a reader that stays open moves
      only forward, over every entry once: each is delivered whole and exactly as written,
      or was overrun, or flushed away. Only a reader without full access passes over
      entries because of who wrote them. */
  lemma {:induction false} ReaderSeesLog(size: nat, v: View, ops: seq<Op>, r: Rid)
    requires Sound(v) && r in v.cursors && Release(r) !in ops
    ensures r in Run(size, v, ops).cursors
    ensures Tiles(Notes(size, v, ops, r), v.cursors[r].at, Run(size, v, ops).cursors[r].at)
    ensures forall x :: x in Notes(size, v, ops, r) ==>
      Justified(size, Run(size, v, ops).log, x) && (v.cursors[r].all ==> !x.Foreign?)
    decreases |ops|
  {
    if ops != [] {
      var op, w := ops[0], Step(size, v, ops[0]);
      StepSound(size, v, op);
      StepKeepsReader(size, v, op, r);
      StepTiles(size, v, op, r);
      StepJustified(size, v, op, r);
      ReaderSeesLog(size, w, ops[1..], r);
      TilesAppend(StepNotes(size, v, op, r), Notes(size, w, ops[1..], r),
                  v.cursors[r].at, w.cursors[r].at, Run(size, w, ops[1..]).cursors[r].at);
      forall x | x in StepNotes(size, v, op, r) ensures Justified(size, Run(size, w, ops[1..]).log, x) {
        JustifiedGrows(size, v.log, Run(size, w, ops[1..]).log, x);
      }
    }
  }

  /** So entries come in the order they were written, and none twice. */
  lemma {:induction false} TakenInOrder(notes: seq<Note>, a: nat, b: nat, k: nat, l: nat)
    requires Tiles(notes, a, b) && k < l < |notes|
    ensures a <= From(notes[k]) < To(notes[k]) <= From(notes[l]) < b
  {
    TilesBounds(notes[1..], To(notes[0]), b);
    if k == 0 {
      TilesAt(notes[1..], To(notes[0]), b, l - 1);
    } else {
      TakenInOrder(notes[1..], To(notes[0]), b, k - 1, l - 1);
    }
  }

  lemma {:induction false} TilesBounds(notes: seq<Note>, a: nat, b: nat)
    requires Tiles(notes, a, b)
    ensures a <= b
  {
    if notes != [] { TilesBounds(notes[1..], To(notes[0]), b); }
  }

  lemma {:induction false} TilesAt(notes: seq<Note>, a: nat, b: nat, k: nat)
    requires Tiles(notes, a, b) && k < |notes|
    ensures a <= From(notes[k]) < To(notes[k]) <= b
  {
    TilesBounds(notes[1..], To(notes[0]), b);
    if k > 0 { TilesAt(notes[1..], To(notes[0]), b, k - 1); }
  }

  // ---- Where a new reader starts ------------------------------------------------------------

  /** What happened to the head of the log in one step. */
  function HeadNotes(size: nat, v: View, op: Op): seq<Note>
    requires v.head <= |v.log|
  {
    match op
    case Write(e) => if Fits(e) then Overruns(size, v, v.head, |Bytes(e)|) else []
    case FailedWrite(len) => if HEADER < len <= MAX_ENTRY then Overruns(size, v, v.head, len) else []
    case Flush => if v.head < |v.log| then [Discarded(v.head, |v.log|)] else []
    case _ => []
  }

  function AllHeadNotes(size: nat, v: View, ops: seq<Op>): seq<Note>
    requires Sound(v)
    decreases |ops|
  {
    if ops == [] then []
    else
      StepSound(size, v, ops[0]);
      HeadNotes(size, v, ops[0]) + AllHeadNotes(size, Step(size, v, ops[0]), ops[1..])
  }

  lemma {:induction false} StepHead(size: nat, v: View, op: Op)
    requires Sound(v)
    ensures Tiles(HeadNotes(size, v, op), v.head, Step(size, v, op).head)
    ensures forall x :: x in HeadNotes(size, v, op) ==> Justified(size, v.log, x) && (x.Overrun? || x.Discarded?)
  {
    assert v.log[..|v.log|] == v.log;
  }

  /** Theorem. Over any run the head of the log moves only forward, past entries that were
      overrun by a write or flushed away. */
  lemma {:induction false} HeadLosesOnly(size: nat, v: View, ops: seq<Op>)
    requires Sound(v)
    ensures Tiles(AllHeadNotes(size, v, ops), v.head, Run(size, v, ops).head)
    ensures forall x :: x in AllHeadNotes(size, v, ops) ==>
      Justified(size, Run(size, v, ops).log, x) && (x.Overrun? || x.Discarded?)
    decreases |ops|
  {
    if ops != [] {
      var op, w := ops[0], Step(size, v, ops[0]);
      StepSound(size, v, op);
      StepHead(size, v, op);
      HeadLosesOnly(size, w, ops[1..]);
      TilesAppend(HeadNotes(size, v, op), AllHeadNotes(size, w, ops[1..]), v.head, w.head, Run(size, w, ops[1..]).head);
      forall x | x in HeadNotes(size, v, op) ensures Justified(size, Run(size, w, ops[1..]).log, x) {
        JustifiedGrows(size, v.log, Run(size, w, ops[1..]).log, x);
      }
    }
  }

  /** Theorem. A reader that opens a log, whatever happened to it since it was made, gets the
      first entry that has been neither overrun nor flushed, and all after it in their turn. */
  lemma {:induction false} NewReaderMisses(size: nat, ops: seq<Op>, r: Rid, all: bool)
    requires r !in Run(size, View([], 0, map[]), ops).cursors
    ensures var v := Run(size, View([], 0, map[]), ops);
      var lost := AllHeadNotes(size, View([], 0, map[]), ops);
      var c := Step(size, v, Open(r, all)).cursors;
      && r in c && c[r].ver == 1 && c[r].all == all && Tiles(lost, 0, c[r].at)
      && forall x :: x in lost ==> Justified(size, v.log, x) && (x.Overrun? || x.Discarded?)
  {
    HeadLosesOnly(size, View([], 0, map[]), ops);
  }
}
