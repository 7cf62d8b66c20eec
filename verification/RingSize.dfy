// How large the ring has to be.
module RingSize {
  import opened Base
  import opened LogEntries
  import opened LogRing

  /** Making room for `len` bytes leaves the pointer at an entry that will survive the
      write, or at the end. */
  ghost predicate Lands(buf: seq<Byte>, log: seq<Entry>, off: nat, i: nat, len: nat)
    requires Tracks(buf, log, off, i) && |buf| >= HEADER
  {
    exists j: nat :: i <= j <= |log| && FixUp(buf, Total(log) % |buf|, off, len) == Pos(log, j) % |buf|
                     && (j < |log| ==> Total(log) + len - Pos(log, j) < |buf|)
  }

  ghost predicate AlwaysLands(size: nat)
    requires size >= HEADER
  {
    forall buf: seq<Byte>, log: seq<Entry>, off: nat, i: nat, len: nat ::
      |buf| == size && AllFit(log) && HEADER < len <= MAX_ENTRY && Tracks(buf, log, off, i) ==>
        Lands(buf, log, off, i, len)
  }

  lemma Pow2Gap(k: nat)
    requires Pow2(k) > MAX_ENTRY
    ensures Pow2(k) >= 8192
  {
    Pow2Monotone(12, k);
    assert Pow2(12) == 4096 by {
      assert Pow2(4) == 16;
      assert Pow2(8) == 256;
    }
  }

  lemma {:induction false} Pow2Monotone(a: nat, k: nat)
    ensures k <= a ==> Pow2(k) <= Pow2(a)
    ensures k > a ==> Pow2(k) >= 2 * Pow2(a)
    decreases if k <= a then a - k else k - a
  {
    if k < a {
      Pow2Monotone(a, k + 1);
    } else if k > a + 1 {
      Pow2Monotone(a, k - 1);
    }
  }

  lemma {:induction false} LargeIsEnough(size: nat)
    requires size >= 2 * MAX_ENTRY
    ensures AlwaysLands(size)
  {
    forall buf: seq<Byte>, log: seq<Entry>, off: nat, i: nat, len: nat
      | |buf| == size && AllFit(log) && HEADER < len <= MAX_ENTRY && Tracks(buf, log, off, i)
      ensures Lands(buf, log, off, i, len)
    {
      FixUpLands(buf, log, off, i, len);
    }
  }

  // An entry of 4092 bytes in a ring of 8192, followed by an entry of 4100.
  const FIRST := Entry(0, 0, 0, 0, 0, seq(4068, _ => 0))
  const RING: seq<Byte> := Bytes(FIRST) + seq(4100, _ => 0)

  lemma FirstTracks()
    ensures Tracks(RING, [FIRST], 0, 0) && Total([FIRST]) == 4092 && |RING| == 8192 && AllFit([FIRST])
    ensures Pos([FIRST], 0) == 0 && Pos([FIRST], 1) == 4092
  {
    assert [FIRST][..0] == [];
    assert [FIRST][..1] == [FIRST];
    assert Stream([FIRST]) == Stream([]) + Bytes(FIRST) == Bytes(FIRST);
    forall p | 0 <= p < |Bytes(FIRST)| ensures RING[p % |RING|] == Stream([FIRST])[p] {
      ModUnique(p, 8192, 0, p);
    }
  }

  /** The walk finds too little to skip, takes the bytes beyond the write head for a
      header, and stops in the middle of the entry about to be written. */
  lemma FirstOverrun()
    ensures FixUp(RING, 4092, 0, MAX_ENTRY) == 4116
  {
    FirstTracks();
    TracksHeader(RING, [FIRST], 0, 0);
    var h := Slice(RING, 4092, HEADER);
    assert h == RING[4092..4116];
    assert forall k :: 0 <= k < HEADER ==> h[k] == 0;
    assert LenField(h) == 0;
    assert NextEntry(RING, 4092, 8) == 4116;
  }

  lemma SmallIsNot()
    ensures !AlwaysLands(8192)
  {
    FirstTracks();
    FirstOverrun();
    forall j: nat | j <= 1 ensures Pos([FIRST], j) % 8192 != 4116 {
      assert j == 0 || j == 1;
    }
    assert !Lands(RING, [FIRST], 0, 0, MAX_ENTRY);
  }

  /** Theorem. A power of two above the largest entry, which is all create_log asks for, is
      enough exactly when it is at least twice the largest entry. 8192 is not. */
  lemma {:induction false} RingSizeExactly(k: nat)
    requires Pow2(k) > MAX_ENTRY
    ensures AlwaysLands(Pow2(k)) <==> Pow2(k) >= 2 * MAX_ENTRY
  {
    Pow2Gap(k);
    if Pow2(k) >= 2 * MAX_ENTRY {
      LargeIsEnough(Pow2(k));
    } else {
      assert Pow2(13) == 2 * Pow2(12) && Pow2(12) == 4096;
      Pow2Monotone(13, k);
      SmallIsNot();
    }
  }
}
