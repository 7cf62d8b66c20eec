// What the panel shows over a run of frames: an image, brought up to date only inside the
// rectangle remembered from frame to frame, except when a frame is a full one.
module Screens {
  import opened Base
  import opened Pixels
  import opened Composition

  const FULL_EVERY := 60

  /** The visible pixels, by column and row. */
  type Image = map<(int, int), Px>

  datatype Call = Set(layers: seq<Layer>) | SetBlank(blank: bool)

  /** `shown` is the last frame that painted anything. */
  datatype Screen = Screen(
    image: Image,
    past: Rect,
    updates: nat,
    force: bool,
    blanked: bool,
    shown: Option<seq<Layer>>)

  ghost predicate IsImage(m: Image, w: nat, h: nat) {
    forall x, y :: (x, y) in m <==> OnPanel(x, y, w, h)
  }

  predicate Full(s: Screen) { s.updates % FULL_EVERY == 0 || s.force }

  function Painted(m: Image, r: Rect, ls: seq<Layer>): Image
    requires IsLayers(ls)
  {
    map k | k in m :: if In(r, k.0, k.1) then Stack(ls, k.0, k.1) else m[k]
  }

  /** A frame that paints something while the display is on. */
  function Frame(s: Screen, ls: seq<Layer>, w: nat, h: nat): Screen
    requires IsLayers(ls)
  {
    var m := Painted(s.image, Region(s.past, ls, Full(s), w, h), ls);
    Screen(m, Accumulated(s.past, ls, w, h), s.updates + if m == s.image then 0 else 1, false, s.blanked, Some(ls))
  }

  lemma FrameIs(s: Screen, s': Screen, ls: seq<Layer>, w: nat, h: nat)
    requires IsLayers(ls) && s'.image == Painted(s.image, Region(s.past, ls, Full(s), w, h), ls)
    requires s'.past == Accumulated(s.past, ls, w, h) && s'.blanked == s.blanked && !s'.force && s'.shown == Some(ls)
    requires s'.updates == if s'.image == s.image then s.updates else s.updates + 1
    ensures s' == Frame(s, ls, w, h)
  {
  }

  function Next(s: Screen, c: Call, w: nat, h: nat): Screen
    requires c.Set? ==> IsLayers(c.layers)
  {
    match c
    case SetBlank(b) => s.(blanked := b, force := s.force || !b)
    case Set(ls) => if s.blanked || !Dirty(ls) then s else Frame(s, ls, w, h)
  }

  predicate AreCalls(cs: seq<Call>) { forall i :: 0 <= i < |cs| && cs[i].Set? ==> IsLayers(cs[i].layers) }

  function Run(s: Screen, cs: seq<Call>, w: nat, h: nat): Screen
    requires AreCalls(cs)
    decreases |cs|
  {
    if cs == [] then s else Run(Next(s, cs[0], w, h), cs[1..], w, h)
  }

  lemma {:induction false} RunNext(s: Screen, cs: seq<Call>, i: nat, w: nat, h: nat)
    requires AreCalls(cs) && i < |cs|
    ensures AreCalls(cs[..i]) && AreCalls(cs[..i + 1])
    ensures Run(s, cs[..i + 1], w, h) == Next(Run(s, cs[..i], w, h), cs[i], w, h)
    decreases i
  {
    if i == 0 {
      assert cs[..1][1..] == [];
    } else {
      RunNext(Next(s, cs[0], w, h), cs[1..], i - 1, w, h);
      assert cs[..i + 1][1..] == cs[1..][..i] && cs[..i][1..] == cs[1..][..i - 1];
    }
  }

  // ---- When the panel shows the last frame ----------------------------------------------------

  /** Every visible pixel is that of the whole stack. */
  ghost predicate Right(s: Screen) {
    s.shown.Some? ==>
      IsLayers(s.shown.value) && forall x, y :: (x, y) in s.image ==> s.image[(x, y)] == Stack(s.shown.value, x, y)
  }

  /** What holds whatever is drawn: the rectangle is on the panel, and empty only before the
      first frame, which is a full one. */
  ghost predicate Kept(s: Screen, w: nat, h: nat) {
    && IsImage(s.image, w, h)
    && 0 <= s.past.left && 0 <= s.past.top && s.past.right <= w && s.past.bottom <= h
    && (s.shown.None? ==> s.updates == 0 && Empty(s.past))
    && (s.shown.Some? ==> IsLayers(s.shown.value) && (w > 0 && h > 0 ==> !Empty(s.past)))
  }

  /** The panel shows the last frame, and that is white outside the rectangle. */
  ghost predicate Sound(s: Screen, w: nat, h: nat) {
    Kept(s, w, h) && Right(s) && (s.shown.Some? ==> WhiteOutside(s.shown.value, s.past, w, h))
  }

  /** A call that, if it paints, paints nothing outside the rectangle it leaves behind. */
  ghost predicate Tidy(s: Screen, c: Call, w: nat, h: nat) {
    c.Set? && !s.blanked && Dirty(c.layers) ==> Contained(c.layers, Accumulated(s.past, c.layers, w, h), w, h)
  }

  ghost predicate AllTidy(s: Screen, cs: seq<Call>, w: nat, h: nat)
    requires AreCalls(cs)
    decreases |cs|
  {
    cs == [] || (Tidy(s, cs[0], w, h) && AllTidy(Next(s, cs[0], w, h), cs[1..], w, h))
  }

  lemma AccumulatedOnPanel(past: Rect, ls: seq<Layer>, w: nat, h: nat)
    requires 0 <= past.left && 0 <= past.top && past.right <= w && past.bottom <= h
    ensures var r := Accumulated(past, ls, w, h);
      && 0 <= r.left <= r.right <= w && 0 <= r.top <= r.bottom <= h
      && (w > 0 && h > 0 ==> !Empty(r))
      && (!Empty(past) ==> forall x, y :: In(past, x, y) ==> In(r, x, y))
  {
  }

  lemma {:induction false} FrameKept(s: Screen, ls: seq<Layer>, w: nat, h: nat)
    requires Kept(s, w, h) && IsLayers(ls)
    ensures Kept(Frame(s, ls, w, h), w, h)
  {
    AccumulatedOnPanel(s.past, ls, w, h);
  }

  /** After a full frame the panel shows it. */
  lemma {:induction false} FullIsRight(s: Screen, ls: seq<Layer>, w: nat, h: nat)
    requires Kept(s, w, h) && IsLayers(ls) && Full(s)
    ensures Right(Frame(s, ls, w, h))
  {
  }

  /** Outside the rectangle the panel was white and is to stay white. */
  lemma {:induction false} WhiteBeyond(s: Screen, ls: seq<Layer>, w: nat, h: nat, x: int, y: int)
    requires Sound(s, w, h) && s.shown.Some? && (x, y) in s.image && !In(Accumulated(s.past, ls, w, h), x, y)
    ensures s.image[(x, y)] == WHITE
  {
    AccumulatedOnPanel(s.past, ls, w, h);
    assert OnPanel(x, y, w, h) && !In(s.past, x, y);
    assert Stack(s.shown.value, x, y) == WHITE;
  }

  lemma {:induction false} FrameSound(s: Screen, ls: seq<Layer>, w: nat, h: nat)
    requires Sound(s, w, h) && IsLayers(ls) && Contained(ls, Accumulated(s.past, ls, w, h), w, h)
    ensures Sound(Frame(s, ls, w, h), w, h)
  {
    var s' := Frame(s, ls, w, h);
    FrameKept(s, ls, w, h);
    ContainedIsWhite(s.past, ls, false, w, h);
    if Full(s) {
      FullIsRight(s, ls, w, h);
    } else {
      forall x, y | (x, y) in s'.image ensures s'.image[(x, y)] == Stack(ls, x, y) {
        if !In(Accumulated(s.past, ls, w, h), x, y) {
          WhiteBeyond(s, ls, w, h, x, y);
          assert OnPanel(x, y, w, h);
        }
      }
    }
  }

  lemma {:induction false} RunSound(s: Screen, cs: seq<Call>, w: nat, h: nat)
    requires Sound(s, w, h) && AreCalls(cs) && AllTidy(s, cs, w, h)
    ensures Sound(Run(s, cs, w, h), w, h)
    decreases |cs|
  {
    if cs != [] {
      var c := cs[0];
      if c.Set? && !s.blanked && Dirty(c.layers) { FrameSound(s, c.layers, w, h); }
      RunSound(Next(s, c, w, h), cs[1..], w, h);
    }
  }

  predicate FitsCall(c: Call) { c.Set? ==> AllFit(c.layers) }

  /** Layers that fit their display frames never leave the rectangle. */
  lemma {:induction false} FitsAreTidy(s: Screen, cs: seq<Call>, w: nat, h: nat)
    requires AreCalls(cs) && forall i :: 0 <= i < |cs| ==> FitsCall(cs[i])
    ensures AllTidy(s, cs, w, h)
    decreases |cs|
  {
    if cs != [] {
      assert FitsCall(cs[0]);
      if cs[0].Set? { FitIsContained(s.past, cs[0].layers, false, w, h); }
      FitsAreTidy(Next(s, cs[0], w, h), cs[1..], w, h);
    }
  }

  // ---- Blanking and waking ------------------------------------------------------------------

  /** While the display is blanked no frame changes anything. */
  lemma {:induction false} BlankIsStill(s: Screen, cs: seq<Call>, w: nat, h: nat)
    requires AreCalls(cs) && forall i :: 0 <= i < |cs| ==> cs[i].Set?
    ensures Run(Next(s, SetBlank(true), w, h), cs, w, h) == Next(s, SetBlank(true), w, h)
    ensures Next(s, SetBlank(true), w, h).(blanked := s.blanked) == s
    decreases |cs|
  {
    if cs != [] { BlankIsStill(s, cs[1..], w, h); }
  }

  /** Theorem. However wrong the panel is, the first frame that paints after the display is woken
      is a full one and puts it right. */
  lemma {:induction false} WakeIsFull(s: Screen, idle: seq<Call>, ls: seq<Layer>, w: nat, h: nat)
    requires Kept(s, w, h) && IsLayers(ls) && Dirty(ls)
    requires AreCalls(idle) && forall i :: 0 <= i < |idle| ==> idle[i].Set? && !Dirty(idle[i].layers)
    ensures var s1 := Run(Next(s, SetBlank(false), w, h), idle, w, h);
      Full(s1) && Right(Next(s1, Set(ls), w, h)) && Next(s1, Set(ls), w, h).shown == Some(ls)
  {
    var s0 := Next(s, SetBlank(false), w, h);
    Idles(s0, idle, w, h);
    FullIsRight(s0, ls, w, h);
  }

  lemma {:induction false} Idles(s: Screen, idle: seq<Call>, w: nat, h: nat)
    requires AreCalls(idle) && forall i :: 0 <= i < |idle| ==> idle[i].Set? && !Dirty(idle[i].layers)
    ensures Run(s, idle, w, h) == s
    decreases |idle|
  {
    if idle != [] { Idles(s, idle[1..], w, h); }
  }

  // ---- The exact condition ----------------------------------------------------------------------

  /** Whatever its buffers hold, the frame is shown, and so is every tidy frame after it. */
  ghost predicate Harmless(s: Screen, ls: seq<Layer>, w: nat, h: nat)
    requires IsLayers(ls)
  {
    forall ks, cs :: SameShapes(ks, ls) && IsLayers(ks) && AreCalls(cs) && AllTidy(Frame(s, ks, w, h), cs, w, h) ==>
      Right(Run(Frame(s, ks, w, h), cs, w, h))
  }

  /** The frame is full, and so is the next one that changes anything. */
  predicate FullTwice(s: Screen) { s.force && s.updates % FULL_EVERY == FULL_EVERY - 1 }

  /** Right, and the next frame to paint is a full one. */
  ghost predicate Pending(s: Screen, w: nat, h: nat) {
    Kept(s, w, h) && Right(s) && s.shown.Some? && s.updates % FULL_EVERY == 0
  }

  lemma {:induction false} PendingSound(s: Screen, ls: seq<Layer>, w: nat, h: nat)
    requires Pending(s, w, h) && IsLayers(ls) && Contained(ls, Accumulated(s.past, ls, w, h), w, h)
    ensures Sound(Frame(s, ls, w, h), w, h)
  {
    FrameKept(s, ls, w, h);
    FullIsRight(s, ls, w, h);
    ContainedIsWhite(s.past, ls, false, w, h);
  }

  lemma {:induction false} RunPending(s: Screen, cs: seq<Call>, w: nat, h: nat)
    requires Pending(s, w, h) && AreCalls(cs) && AllTidy(s, cs, w, h)
    ensures Right(Run(s, cs, w, h))
    decreases |cs|
  {
    if cs != [] {
      var c := cs[0];
      if c.Set? && !s.blanked && Dirty(c.layers) {
        PendingSound(s, c.layers, w, h);
        RunSound(Next(s, c, w, h), cs[1..], w, h);
      } else {
        RunPending(Next(s, c, w, h), cs[1..], w, h);
      }
    }
  }

  /** A full frame that changes nothing leaves a sound screen. */
  lemma {:induction false} UnchangedSound(s: Screen, ls: seq<Layer>, w: nat, h: nat)
    requires Sound(s, w, h) && s.shown.Some? && IsLayers(ls) && Full(s) && Frame(s, ls, w, h).image == s.image
    ensures Sound(Frame(s, ls, w, h), w, h)
  {
    var s' := Frame(s, ls, w, h);
    FrameKept(s, ls, w, h);
    FullIsRight(s, ls, w, h);
    forall x, y | OnPanel(x, y, w, h) && !In(s'.past, x, y) ensures Stack(ls, x, y) == WHITE {
      WhiteBeyond(s, ls, w, h, x, y);
      assert s'.image[(x, y)] == Stack(ls, x, y);
    }
  }

  lemma {:induction false} FullTwiceHarmless(s: Screen, ls: seq<Layer>, cs: seq<Call>, w: nat, h: nat)
    requires Sound(s, w, h) && s.shown.Some? && IsLayers(ls) && FullTwice(s)
    requires AreCalls(cs) && AllTidy(Frame(s, ls, w, h), cs, w, h)
    ensures Right(Run(Frame(s, ls, w, h), cs, w, h))
  {
    var s' := Frame(s, ls, w, h);
    if s'.image == s.image {
      UnchangedSound(s, ls, w, h);
      RunSound(s', cs, w, h);
    } else {
      FrameKept(s, ls, w, h);
      FullIsRight(s, ls, w, h);
      assert s'.updates % FULL_EVERY == 0;
      RunPending(s', cs, w, h);
    }
  }

  lemma {:induction false} ContainedHarmless(s: Screen, ls: seq<Layer>, ks: seq<Layer>, cs: seq<Call>, w: nat, h: nat)
    requires Sound(s, w, h) && IsLayers(ls) && SameShapes(ks, ls) && IsLayers(ks)
    requires Contained(ls, Accumulated(s.past, ls, w, h), w, h)
    requires AreCalls(cs) && AllTidy(Frame(s, ks, w, h), cs, w, h)
    ensures Right(Run(Frame(s, ks, w, h), cs, w, h))
  {
    ShapeDecides(ks, ls, w, h);
    assert Contained(ks, Accumulated(s.past, ks, w, h), w, h);
    FrameSound(s, ks, w, h);
    RunSound(Frame(s, ks, w, h), cs, w, h);
  }

  /** A black pixel at (x, y). */
  function Dot(x: int, y: int): Layer {
    Overlay(Some(Buffer(1, 1, 1, Rgb565, [0, 0])), Rect(x, y, x + 1, y + 1), Rect(0, 0, 1, 1), 0, NoBlending)
  }

  lemma {:induction false} DotTouches(x: int, y: int, w: nat, h: nat)
    requires OnPanel(x, y, w, h)
    ensures IsLayers([Dot(x, y)]) && Dirty([Dot(x, y)]) && AllFit([Dot(x, y)])
    ensures Clip(Touched([Dot(x, y)], w, h), w, h) == Rect(x, y, x + 1, y + 1)
  {
    var ls := [Dot(x, y)];
    assert Composable(ls[0]) && Paints(ls[0]);
    assert ls[..0] == [] && Touched([], w, h) == Rect(w, h, 0, 0);
    assert Touched(ls, w, h) == Union(Rect(w, h, 0, 0), Rect(x, y, x + 1, y + 1));
  }

  lemma {:induction false} DotIsWhiteElsewhere(x: int, y: int, i: int, j: int)
    requires (i, j) != (x, y) && IsLayers([Dot(x, y)])
    ensures Stack([Dot(x, y)], i, j) == WHITE
  {
    var ls := [Dot(x, y)];
    assert !Covers(ls[0], i, j);
    UncoveredIsWhite(ls, i, j);
  }

  /** A pixel drawn outside the rectangle outlasts the next frame that is not a full one. */
  lemma {:induction false} DotLeavesStale(s: Screen, x: int, y: int, w: nat, h: nat)
    requires Kept(s, w, h) && !s.blanked && !Full(s) && !Empty(s.past)
    requires (x, y) in s.image && !In(s.past, x, y) && s.image[(x, y)] != WHITE
    ensures var c := Set([Dot(s.past.left, s.past.top)]);
      && AreCalls([c]) && AllTidy(s, [c], w, h) && !Right(Run(s, [c], w, h))
      && Run(s, [c], w, h) == Next(s, c, w, h) && Next(s, c, w, h).shown == Some(c.layers)
      && (x, y) in Next(s, c, w, h).image && Next(s, c, w, h).image[(x, y)] != WHITE == Stack(c.layers, x, y)
  {
    var dot := [Dot(s.past.left, s.past.top)];
    var c := Set(dot);
    DotTouches(s.past.left, s.past.top, w, h);
    assert Accumulated(s.past, dot, w, h) == s.past;
    FitIsContained(s.past, dot, false, w, h);
    assert AreCalls([c]) && [c][1..] == [];
    assert AllTidy(Next(s, c, w, h), [], w, h);
    DotIsWhiteElsewhere(s.past.left, s.past.top, x, y);
    var s' := Frame(s, dot, w, h);
    assert s'.image[(x, y)] == s.image[(x, y)];
    assert Run(s, [c], w, h) == Run(s', [], w, h) == s';
  }

  /** A frame that spills, with its buffers black, is stale at once or at the next frame. */
  lemma {:induction false} SpillHarms(s: Screen, ls: seq<Layer>, w: nat, h: nat)
    requires Sound(s, w, h) && s.shown.Some? && !s.blanked && IsLayers(ls)
    requires !Contained(ls, Accumulated(s.past, ls, w, h), w, h) && !FullTwice(s)
    ensures !Harmless(s, ls, w, h)
  {
    var i, x, y :| 0 <= i < |ls| && Composable(ls[i]) && OnPanel(x, y, w, h) && Covers(ls[i], x, y)
      && !In(Accumulated(s.past, ls, w, h), x, y);
    SpillShows(s.past, ls, false, w, h, i, x, y);
    var ks := seq(|ls|, j requires 0 <= j < |ls| => BlackLayer(ls[j]));
    ShapeDecides(ks, ls, w, h);
    SpillStale(s, ks, w, h, x, y);
  }

  /** What a full frame that spills leaves behind. */
  lemma {:induction false} FullSpill(s: Screen, ks: seq<Layer>, w: nat, h: nat, x: int, y: int)
    requires Kept(s, w, h) && IsLayers(ks) && Full(s) && !FullTwice(s) && OnPanel(x, y, w, h)
    requires s.image[(x, y)] == WHITE && Stack(ks, x, y) == 0
    ensures var s' := Frame(s, ks, w, h);
      Kept(s', w, h) && !Full(s') && !Empty(s'.past) && (x, y) in s'.image && s'.image[(x, y)] == 0
  {
    FrameKept(s, ks, w, h);
    PaintedWhole(s.image, ks, w, h, x, y);
    OnceFull(s.updates, s.force);
  }

  lemma PaintedWhole(m: Image, ks: seq<Layer>, w: nat, h: nat, x: int, y: int)
    requires IsLayers(ks) && OnPanel(x, y, w, h) && (x, y) in m && m[(x, y)] != Stack(ks, x, y)
    ensures var m' := Painted(m, Whole(w, h), ks);
      (x, y) in m' && m'[(x, y)] == Stack(ks, x, y) && m' != m
  {
  }

  lemma OnceFull(updates: nat, force: bool)
    requires updates % FULL_EVERY == 0 || force
    requires !(force && updates % FULL_EVERY == FULL_EVERY - 1)
    ensures (updates + 1) % FULL_EVERY != 0
  {
  }

  lemma {:induction false} SpillStale(s: Screen, ks: seq<Layer>, w: nat, h: nat, x: int, y: int)
    requires Sound(s, w, h) && s.shown.Some? && !s.blanked && IsLayers(ks) && !FullTwice(s)
    requires OnPanel(x, y, w, h) && !In(Accumulated(s.past, ks, w, h), x, y) && Stack(ks, x, y) == 0
    ensures exists cs ::
      AreCalls(cs) && AllTidy(Frame(s, ks, w, h), cs, w, h) && !Right(Run(Frame(s, ks, w, h), cs, w, h))
  {
    var s' := Frame(s, ks, w, h);
    WhiteBeyond(s, ks, w, h, x, y);
    if Full(s) {
      FullSpill(s, ks, w, h, x, y);
      DotLeavesStale(s', x, y, w, h);
    } else {
      assert s'.image[(x, y)] == WHITE;
      assert AreCalls([]) && Run(s', [], w, h) == s';
      assert AllTidy(s', [], w, h);
    }
  }

  /** Theorem. Whatever its buffers hold, a frame is shown on every visible pixel, and so is
      every tidy frame after it, if and only if it draws nothing on the panel outside the
      rectangle it leaves behind, or is a full frame just before the periodic full one. */
  lemma {:induction false} HarmlessExactly(s: Screen, ls: seq<Layer>, w: nat, h: nat)
    requires Sound(s, w, h) && s.shown.Some? && !s.blanked && IsLayers(ls)
    ensures Harmless(s, ls, w, h) <==> Contained(ls, Accumulated(s.past, ls, w, h), w, h) || FullTwice(s)
  {
    if Contained(ls, Accumulated(s.past, ls, w, h), w, h) || FullTwice(s) {
      forall ks, cs | SameShapes(ks, ls) && IsLayers(ks) && AreCalls(cs) && AllTidy(Frame(s, ks, w, h), cs, w, h)
        ensures Right(Run(Frame(s, ks, w, h), cs, w, h))
      {
        if FullTwice(s) { FullTwiceHarmless(s, ks, cs, w, h); } else { ContainedHarmless(s, ls, ks, cs, w, h); }
      }
    } else {
      SpillHarms(s, ls, w, h);
    }
  }
}
