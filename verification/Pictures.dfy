// What the picture looks like, told from the source's side: which way a transform turns a
// layer, where each of its pixels goes, which layer is seen, and what colour a mix has.
module Pictures {
  import opened Base
  import opened Pixels
  import opened Composition

  // ---- Turning and mirroring -----------------------------------------------------------------

  /** Where the first pixel of a crop goes, and where one step right and one step down in the
      crop lead, for a crop of size w by h. */
  ghost predicate Lies(xform: nat, w: int, h: int, first: (int, int), right: (int, int), down: (int, int)) {
    forall sx, sy ::
      Place(xform, w, h, sx, sy) == (first.0 + sx * right.0 + sy * down.0, first.1 + sx * right.1 + sy * down.1)
  }

  const EAST := (1, 0)
  const SOUTH := (0, 1)
  const WEST := (-1, 0)
  const NORTH := (0, -1)

  /** A quarter turn is clockwise: what was to the right is below, what was below is to the
      left. A mirror image reverses columns only, or rows only. Anything that is none of the
      five transforms leaves the crop as it is. */
  lemma Orientation(xform: nat, w: int, h: int)
    ensures Lies(ROT_90, w, h, (h - 1, 0), SOUTH, WEST)
    ensures Lies(ROT_180, w, h, (w - 1, h - 1), WEST, NORTH)
    ensures Lies(ROT_270, w, h, (0, w - 1), NORTH, EAST)
    ensures Lies(FLIP_H, w, h, (w - 1, 0), WEST, SOUTH)
    ensures Lies(FLIP_V, w, h, (0, h - 1), EAST, NORTH)
    ensures xform !in {FLIP_H, FLIP_V, ROT_180, ROT_90, ROT_270} ==> Lies(xform, w, h, (0, 0), EAST, SOUTH)
  {
  }

  /** Placing a crop that has been placed already. */
  function Again(xform: nat, w: int, h: int, p: (int, int)): (int, int) { Place(xform, w, h, p.0, p.1) }

  /** Two quarter turns are the half turn, three the other quarter turn, four nothing; and the
      half turn is both mirror images, in either order. */
  lemma QuarterTurns(w: int, h: int, sx: int, sy: int)
    ensures var once := Place(ROT_90, w, h, sx, sy);
      var twice := Again(ROT_90, h, w, once);
      var thrice := Again(ROT_90, w, h, twice);
      && twice == Place(ROT_180, w, h, sx, sy) && thrice == Place(ROT_270, w, h, sx, sy)
      && Again(ROT_90, h, w, thrice) == (sx, sy)
    ensures Again(FLIP_V, w, h, Place(FLIP_H, w, h, sx, sy)) == Place(ROT_180, w, h, sx, sy)
      == Again(FLIP_H, w, h, Place(FLIP_V, w, h, sx, sy))
  {
  }

  // ---- Where a pixel of a layer is seen ----------------------------------------------------------

  /** The pixel at column `x` and row `y` of a buffer is so many whole rows, strides long, and so
      many pixels in. */
  lemma TexelAt(b: Buffer, x: int, y: int, k: nat)
    requires Mapped(b) && !b.format.Unsupported? && 0 <= x < b.w && 0 <= y < b.h && k < BytesPerPixel(b.format)
    ensures 0 <= (y * b.stride + x) * BytesPerPixel(b.format) + k < |b.bytes|
    ensures Texel(b, x, y)[k] == b.bytes[(y * b.stride + x) * BytesPerPixel(b.format) + k]
  {
    OffsetInside(b, x, y);
    assert (y * b.stride + x) * BytesPerPixel(b.format) == Offset(b, x, y) by {
      Spread(y, b.stride, x, BytesPerPixel(b.format));
    }
  }

  lemma Spread(y: int, stride: int, x: int, n: int)
    ensures (y * stride + x) * n == y * (stride * n) + x * n
  {
    assert y * stride * n == y * (stride * n);
  }

  /** Nothing of what is under the layer shows at this pixel of it. */
  predicate Solid(l: Layer, sx: int, sy: int)
    requires IsLayer(l) && Composable(l) && Backed(l, sx, sy)
  {
    var b := l.buffer.value;
    AlphaOf(Texel(b, l.crop.left + sx, l.crop.top + sy), b.format, l.blending) == 255
  }

  /** Pixel (sx, sy) of a layer's crop, and no other, decides the panel pixel it is placed at,
      counted from the corner of the display frame; if it is solid that shows its colour. */
  lemma PixelGoes(l: Layer, sx: int, sy: int, d: Px)
    requires IsLayer(l) && Composable(l) && Backed(l, sx, sy)
    ensures var b := l.buffer.value;
      var at := Place(l.xform, CropWidth(l), CropHeight(l), sx, sy);
      var x, y := l.frame.left + at.0, l.frame.top + at.1;
      var p := Texel(b, l.crop.left + sx, l.crop.top + sy);
      && Covers(l, x, y) && Over(l, x, y, d) == Blend(d, p, b.format, l.blending, 255)
      && (Solid(l, sx, sy) ==> Over(l, x, y, d) == ToRgb565(p, b.format))
  {
    var at := Place(l.xform, CropWidth(l), CropHeight(l), sx, sy);
    PlaceIsBijection(l.xform, CropWidth(l), CropHeight(l), sx, sy, at.0, at.1);
  }

  /** A layer changes nothing anywhere else. */
  lemma ElsewhereStays(l: Layer, x: int, y: int, d: Px)
    requires IsLayer(l) && !l.Background?
    requires !Composable(l) || forall sx, sy :: Backed(l, sx, sy) ==>
      (x - l.frame.left, y - l.frame.top) != Place(l.xform, CropWidth(l), CropHeight(l), sx, sy)
    ensures Over(l, x, y, d) == d
  {
    if Composable(l) && Covers(l, x, y) {
      var s := Behind(l, x, y);
      PlaceIsBijection(l.xform, CropWidth(l), CropHeight(l), s.0, s.1, x - l.frame.left, y - l.frame.top);
    }
  }

  // ---- Which layer is seen -------------------------------------------------------------------------

  /** Layer `l` leaves pixel (x, y) alone. */
  predicate Clear(l: Layer, x: int, y: int)
    requires IsLayer(l)
  {
    !l.Background? && !(Composable(l) && Covers(l, x, y))
  }

  /** Theorem. The later in the list the nearer: where a layer is solid, it is seen, whatever is
      before it in the list, unless one after it draws there; and what is behind everything is
      the last background, or white. */
  lemma {:induction false} TopmostShows(ls: seq<Layer>, i: nat, x: int, y: int)
    requires IsLayers(ls) && i < |ls| && forall j :: i < j < |ls| ==> Clear(ls[j], x, y)
    ensures Composable(ls[i]) && Covers(ls[i], x, y) && Solid(ls[i], Behind(ls[i], x, y).0, Behind(ls[i], x, y).1) ==>
      var l, s := ls[i], Behind(ls[i], x, y);
      var b := l.buffer.value;
      Stack(ls, x, y) == ToRgb565(Texel(b, l.crop.left + s.0, l.crop.top + s.1), b.format)
    ensures ls[i].Background? ==> Stack(ls, x, y) == Grey(ls[i])
    decreases |ls|
  {
    var rest := ls[..|ls| - 1];
    if i < |rest| {
      assert Clear(ls[|ls| - 1], x, y);
      TopmostShows(rest, i, x, y);
    } else if ls[i].Background? {
      BackgroundIsGrey(ls[i], x, y, Stack(rest, x, y));
    }
  }

  /** A colour with every channel at `v`, to the panel's precision: both bytes of the pixel are
      the mean of red, green and blue. */
  function Grey(l: Layer): Px
    requires l.Background?
  {
    var v := (l.r + l.g + l.b) / 3;
    LittleEndian([v, v])
  }

  lemma BackgroundIsGrey(l: Layer, x: int, y: int, d: Px)
    requires l.Background?
    ensures Over(l, x, y, d) == Grey(l)
  {
  }

  // ---- How much is refreshed ---------------------------------------------------------------------------

  /** Rectangle `q` has all of `r` in it. */
  predicate Inside(r: Rect, q: Rect) {
    q.left <= r.left && q.top <= r.top && r.right <= q.right && r.bottom <= q.bottom
  }

  /** Without a background what a frame touches is the least rectangle around the display frames
      of the layers it draws. */
  lemma {:induction false} TouchedIsHull(ls: seq<Layer>, w: nat, h: nat, q: Rect)
    requires forall i :: 0 <= i < |ls| ==> !ls[i].Background?
    ensures forall i :: 0 <= i < |ls| && Composable(ls[i]) ==> Inside(ls[i].frame, Touched(ls, w, h))
    ensures Inside(Rect(w, h, 0, 0), q) && (forall i :: 0 <= i < |ls| && Composable(ls[i]) ==> Inside(ls[i].frame, q))
      ==> Inside(Touched(ls, w, h), q)
    decreases |ls|
  {
    if ls != [] { TouchedIsHull(ls[..|ls| - 1], w, h, q); }
  }

  /** What is refreshed is the least rectangle around what this frame touches of the panel and
      what was refreshed before. */
  lemma AccumulatedIsHull(past: Rect, ls: seq<Layer>, w: nat, h: nat, q: Rect)
    requires !Empty(past)
    ensures Inside(past, Accumulated(past, ls, w, h))
    ensures Inside(Clip(Touched(ls, w, h), w, h), Accumulated(past, ls, w, h))
    ensures Inside(past, q) && Inside(Clip(Touched(ls, w, h), w, h), q) ==> Inside(Accumulated(past, ls, w, h), q)
  {
  }

  // ---- What colour a mix has --------------------------------------------------------------------------

  /** Without blending, and for formats without alpha, a layer replaces what is under it. */
  lemma Replaces(d: Px, p: seq<Byte>, f: Format, bl: Blending)
    requires IsTexel(p, f) && (bl.NoBlending? || f.Rgbx8888? || f.Rgb888? || f.Rgb565?)
    ensures Blend(d, p, f, bl, 255) == ToRgb565(p, f)
  {
  }

  /** With blending, formats with alpha mix by their fourth byte, and none of what is transparent
      is seen. */
  lemma MixesByAlpha(d: Px, p: seq<Byte>, f: Format, bl: Blending)
    requires IsTexel(p, f) && (f.Rgba8888? || f.Bgra8888?) && !bl.NoBlending?
    ensures Blend(d, p, f, bl, 255) == if p[3] == 0 then d else Mix(d, ColourOf(p, f), p[3], bl)
  {
    if p[3] == 255 { OpaqueShortcut(d, p, f, bl); }
  }

  /** `m` is channel `c` in the proportion `a` to 255 over channel `u`, off by less than one. */
  ghost predicate Weighed(m: int, c: int, u: int, a: int) {
    -255 < 255 * m - (c * a + u * (255 - a)) < 255
  }

  /** `m` is channel `c`, weighed already, with what `a` of 255 leaves of channel `u`, off by
      at most one half, and no more than a channel can be. */
  ghost predicate Added(m: int, c: int, u: int, a: int) {
    exists e :: m == Min(255, e) && -255 < 2 * (255 * e - (255 * c + u * (255 - a))) < 255
  }

  /** Theorem. With coverage blending each channel is the average of source and panel, weighed
      by the source's alpha, to within one; with premultiplied blending it is the source's plus
      what the alpha leaves of the panel's, to within one half. */
  lemma {:induction false} MixIsAverage(d: Px, c: Colour, a: Byte, bl: Blending)
    ensures exists m: Colour :: Mix(d, c, a, bl) == Pack(m) && var u := Unpack(d);
      if bl.Coverage? then Weighed(m.r, c.r, u.r, a) && Weighed(m.g, c.g, u.g, a) && Weighed(m.b, c.b, u.b, a)
      else Added(m.r, c.r, u.r, a) && Added(m.g, c.g, u.g, a) && Added(m.b, c.b, u.b, a)
  {
    var u := Unpack(d);
    var s := if bl.Coverage? then ScaleColour(c, a) else c;
    var v := ScaleColour(u, 255 - a);
    var m := Colour(Saturate(s.r + v.r), Saturate(s.g + v.g), Saturate(s.b + v.b));
    assert Mix(d, c, a, bl) == Pack(m);
    if bl.Coverage? {
      ChannelWeighed(c.r, u.r, a); ChannelWeighed(c.g, u.g, a); ChannelWeighed(c.b, u.b, a);
    } else {
      ChannelAdded(c.r, u.r, a); ChannelAdded(c.g, u.g, a); ChannelAdded(c.b, u.b, a);
    }
  }

  lemma {:induction false} ChannelWeighed(c: Byte, u: Byte, a: Byte)
    ensures Scale(c, a) >= 0 && Scale(u, 255 - a) >= 0
    ensures Weighed(Saturate(Scale(c, a) + Scale(u, 255 - a)), c, u, a)
  {
    ScaleBounds(c, a);
    ScaleBounds(u, 255 - a);
    ScaleNearest(c, a);
    ScaleNearest(u, 255 - a);
  }

  lemma {:induction false} ChannelAdded(c: Byte, u: Byte, a: Byte)
    ensures Scale(u, 255 - a) >= 0 && Added(Saturate(c + Scale(u, 255 - a)), c, u, a)
  {
    ScaleBounds(u, 255 - a);
    ScaleNearest(u, 255 - a);
    var e := c + Scale(u, 255 - a);
    assert Saturate(e) == Min(255, e);
  }
}
