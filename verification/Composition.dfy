// What a frame should look like: every pixel of the panel pulled, one by one, through the
// layer stack. Layers are given in list order; coordinates are panel coordinates.
module Composition {
  import opened Base
  import opened Pixels

  datatype Rect = Rect(left: int, top: int, right: int, bottom: int)

  predicate In(r: Rect, x: int, y: int) {
    r.left <= x < r.right && r.top <= y < r.bottom
  }

  /** A locked graphics buffer; `stride` is in pixels. */
  datatype Buffer = Buffer(w: nat, h: nat, stride: nat, format: Format, bytes: seq<Byte>)

  function Offset(b: Buffer, x: int, y: int): int {
    y * (b.stride * BytesPerPixel(b.format)) + x * BytesPerPixel(b.format)
  }

  predicate Mapped(b: Buffer) {
    b.w <= b.stride && |b.bytes| == b.h * (b.stride * BytesPerPixel(b.format))
  }

  lemma OffsetInside(b: Buffer, x: int, y: int)
    requires Mapped(b) && 0 <= x < b.w && 0 <= y < b.h
    ensures 0 <= Offset(b, x, y) && Offset(b, x, y) + BytesPerPixel(b.format) <= |b.bytes|
  {
    var row := b.stride * BytesPerPixel(b.format);
    assert x * BytesPerPixel(b.format) + BytesPerPixel(b.format) <= row by {
      assert (x + 1) * BytesPerPixel(b.format) <= b.stride * BytesPerPixel(b.format);
    }
    Rows(y, b.h, row);
  }

  lemma Rows(y: nat, h: nat, row: nat)
    requires y < h
    ensures 0 <= y * row && y * row + row <= h * row
  {
    assert (y + 1) * row <= h * row;
  }

  function Texel(b: Buffer, x: int, y: int): (p: seq<Byte>)
    requires Mapped(b) && !b.format.Unsupported? && 0 <= x < b.w && 0 <= y < b.h
    ensures IsTexel(p, b.format)
  {
    OffsetInside(b, x, y);
    b.bytes[Offset(b, x, y)..Offset(b, x, y) + BytesPerPixel(b.format)]
  }

  const FLIP_H := 1
  const FLIP_V := 2
  const ROT_180 := 3
  const ROT_90 := 4
  const ROT_270 := 7

  /** `buffer` is None when there is no handle, its geometry is unknown or it cannot be
      locked. */
  datatype Layer =
    | Target
    | Background(r: Byte, g: Byte, b: Byte)
    | Overlay(buffer: Option<Buffer>, frame: Rect, crop: Rect, xform: nat, blending: Blending)

  predicate IsLayer(l: Layer) {
    l.Overlay? && l.buffer.Some? ==> Mapped(l.buffer.value)
  }

  /** The layers that compose_layer accepts. */
  predicate Composable(l: Layer) {
    && l.Overlay? && l.buffer.Some? && !l.buffer.value.format.Unsupported?
    && l.frame.left < l.frame.right && l.frame.top < l.frame.bottom
    && l.crop.left < l.crop.right && l.crop.top < l.crop.bottom
  }

  // ---- Where a crop pixel goes -----------------------------------------------------------------

  /** The place in the frame of crop pixel (sx, sy), for a crop of size w by h. */
  function Place(xform: nat, w: int, h: int, sx: int, sy: int): (int, int) {
    if xform == ROT_90 then (h - 1 - sy, sx)
    else if xform == ROT_180 then (w - 1 - sx, h - 1 - sy)
    else if xform == ROT_270 then (sy, w - 1 - sx)
    else if xform == FLIP_H then (w - 1 - sx, sy)
    else if xform == FLIP_V then (sx, h - 1 - sy)
    else (sx, sy)
  }

  /** Which crop pixel goes to (i, j). */
  function Unplace(xform: nat, w: int, h: int, i: int, j: int): (int, int) {
    if xform == ROT_90 then (j, h - 1 - i)
    else if xform == ROT_180 then (w - 1 - i, h - 1 - j)
    else if xform == ROT_270 then (w - 1 - j, i)
    else if xform == FLIP_H then (w - 1 - i, j)
    else if xform == FLIP_V then (i, h - 1 - j)
    else (i, j)
  }

  predicate Turned(xform: nat) { xform == ROT_90 || xform == ROT_270 }

  /** The size of the crop once placed. */
  function PlacedWidth(xform: nat, w: int, h: int): int { if Turned(xform) then h else w }
  function PlacedHeight(xform: nat, w: int, h: int): int { if Turned(xform) then w else h }

  /** Placing is a bijection from the crop onto the rectangle of its placed size. */
  lemma PlaceIsBijection(xform: nat, w: int, h: int, sx: int, sy: int, i: int, j: int)
    ensures (i, j) == Place(xform, w, h, sx, sy) <==> (sx, sy) == Unplace(xform, w, h, i, j)
    ensures (sx, sy) == Unplace(xform, w, h, i, j) ==>
      ((0 <= sx < w && 0 <= sy < h) <==> (0 <= i < PlacedWidth(xform, w, h) && 0 <= j < PlacedHeight(xform, w, h)))
  {
  }

  function CropWidth(l: Layer): int
    requires l.Overlay?
  {
    l.crop.right - l.crop.left
  }

  function CropHeight(l: Layer): int
    requires l.Overlay?
  {
    l.crop.bottom - l.crop.top
  }

  /** The crop pixel behind panel pixel (x, y). */
  function Behind(l: Layer, x: int, y: int): (int, int)
    requires l.Overlay?
  {
    Unplace(l.xform, CropWidth(l), CropHeight(l), x - l.frame.left, y - l.frame.top)
  }

  /** Whether crop pixel (sx, sy) exists, in the crop and in the buffer. */
  predicate Backed(l: Layer, sx: int, sy: int)
    requires Composable(l)
  {
    && 0 <= sx < CropWidth(l) && 0 <= sy < CropHeight(l)
    && 0 <= l.crop.left + sx < l.buffer.value.w && 0 <= l.crop.top + sy < l.buffer.value.h
  }

  predicate Covers(l: Layer, x: int, y: int)
    requires Composable(l)
  {
    Backed(l, Behind(l, x, y).0, Behind(l, x, y).1)
  }

  /** Crop pixel (sx, sy) over `d`. */
  function Drawn(l: Layer, sx: int, sy: int, d: Px): Px
    requires IsLayer(l) && Composable(l) && Backed(l, sx, sy)
  {
    var b := l.buffer.value;
    Blend(d, Texel(b, l.crop.left + sx, l.crop.top + sy), b.format, l.blending, 255)
  }

  /** Panel pixel (x, y), showing `d` so far, with one more layer over it. */
  function Over(l: Layer, x: int, y: int, d: Px): Px
    requires IsLayer(l)
  {
    if l.Background? then (l.r + l.g + l.b) / 3 * 257
    else if !Composable(l) || !Covers(l, x, y) then d
    else Drawn(l, Behind(l, x, y).0, Behind(l, x, y).1, d)
  }

  predicate IsLayers(ls: seq<Layer>) { forall i :: 0 <= i < |ls| ==> IsLayer(ls[i]) }

  /** The whole stack at (x, y), on white. */
  function Stack(ls: seq<Layer>, x: int, y: int): Px
    requires IsLayers(ls)
  {
    if ls == [] then WHITE else Over(ls[|ls| - 1], x, y, Stack(ls[..|ls| - 1], x, y))
  }

  predicate Paints(l: Layer) { l.Background? || Composable(l) }

  /** Whether the frame shows anything. */
  predicate Dirty(ls: seq<Layer>) { exists i :: 0 <= i < |ls| && Paints(ls[i]) }

  // ---- The rectangle a frame touches ---------------------------------------------------------------

  function Union(a: Rect, b: Rect): Rect {
    Rect(Min(a.left, b.left), Min(a.top, b.top), Max(a.right, b.right), Max(a.bottom, b.bottom))
  }

  function Whole(w: nat, h: nat): Rect { Rect(0, 0, w, h) }

  predicate Empty(r: Rect) { r.right <= r.left || r.bottom <= r.top }

  function Touched(ls: seq<Layer>, w: nat, h: nat): Rect {
    if ls == [] then Rect(w, h, 0, 0)
    else
      var l, r := ls[|ls| - 1], Touched(ls[..|ls| - 1], w, h);
      if l.Background? then Whole(w, h) else if Composable(l) then Union(r, l.frame) else r
  }

  /** Clipped to the panel; all of it if nothing is left. */
  function Clip(r: Rect, w: nat, h: nat): Rect {
    var c := Rect(Max(r.left, 0), Max(r.top, 0), Min(r.right, w), Min(r.bottom, h));
    if Empty(c) then Whole(w, h) else c
  }

  /** The rectangle remembered from frame to frame, after a dirty frame `ls`. */
  function Accumulated(past: Rect, ls: seq<Layer>, w: nat, h: nat): Rect {
    var r := Clip(Touched(ls, w, h), w, h);
    if Empty(past) then r else Union(r, past)
  }

  /** The part of the panel a dirty frame copies. */
  function Region(past: Rect, ls: seq<Layer>, full: bool, w: nat, h: nat): Rect {
    if full then Whole(w, h) else Accumulated(past, ls, w, h)
  }

  predicate OnPanel(x: int, y: int, w: nat, h: nat) { 0 <= x < w && 0 <= y < h }

  // ---- When the rectangle is enough -------------------------------------------------------------------

  /** No layer draws on the panel outside `r`. */
  ghost predicate Contained(ls: seq<Layer>, r: Rect, w: nat, h: nat) {
    forall i, x, y :: 0 <= i < |ls| && Composable(ls[i]) && OnPanel(x, y, w, h) && Covers(ls[i], x, y) ==> In(r, x, y)
  }

  /** The placed crop is no bigger than the display frame. */
  predicate Fits(l: Layer) {
    Composable(l) ==>
      && PlacedWidth(l.xform, CropWidth(l), CropHeight(l)) <= l.frame.right - l.frame.left
      && PlacedHeight(l.xform, CropWidth(l), CropHeight(l)) <= l.frame.bottom - l.frame.top
  }

  predicate AllFit(ls: seq<Layer>) { forall i :: 0 <= i < |ls| ==> Fits(ls[i]) }

  lemma CoversInFrame(l: Layer, x: int, y: int)
    requires Composable(l) && Fits(l) && Covers(l, x, y)
    ensures In(l.frame, x, y)
  {
    var (sx, sy) := Behind(l, x, y);
    PlaceIsBijection(l.xform, CropWidth(l), CropHeight(l), sx, sy, x - l.frame.left, y - l.frame.top);
  }

  lemma {:induction false} FramesTouched(ls: seq<Layer>, i: nat, x: int, y: int, w: nat, h: nat)
    requires i < |ls| && OnPanel(x, y, w, h)
    requires ls[i].Background? || (Composable(ls[i]) && In(ls[i].frame, x, y))
    ensures In(Touched(ls, w, h), x, y)
    decreases |ls|
  {
    if i < |ls| - 1 { FramesTouched(ls[..|ls| - 1], i, x, y, w, h); }
  }

  lemma InClip(r: Rect, x: int, y: int, w: nat, h: nat)
    requires OnPanel(x, y, w, h) && In(r, x, y)
    ensures In(Clip(r, w, h), x, y)
  {
  }

  lemma InRegion(past: Rect, ls: seq<Layer>, full: bool, x: int, y: int, w: nat, h: nat)
    requires OnPanel(x, y, w, h) && In(Touched(ls, w, h), x, y)
    ensures In(Region(past, ls, full, w, h), x, y)
  {
    InClip(Touched(ls, w, h), x, y, w, h);
  }

  /** If every layer fits its frame, nothing is drawn outside the region. */
  lemma {:induction false} FitIsContained(past: Rect, ls: seq<Layer>, full: bool, w: nat, h: nat)
    requires AllFit(ls)
    ensures Contained(ls, Region(past, ls, full, w, h), w, h)
  {
    forall i, x, y | 0 <= i < |ls| && Composable(ls[i]) && OnPanel(x, y, w, h) && Covers(ls[i], x, y)
      ensures In(Region(past, ls, full, w, h), x, y)
    {
      CoversInFrame(ls[i], x, y);
      FramesTouched(ls, i, x, y, w, h);
      InRegion(past, ls, full, x, y, w, h);
    }
  }

  ghost predicate WhiteOutside(ls: seq<Layer>, r: Rect, w: nat, h: nat)
    requires IsLayers(ls)
  {
    forall x, y :: OnPanel(x, y, w, h) && !In(r, x, y) ==> Stack(ls, x, y) == WHITE
  }

  /** A pixel under no layer and no background stays white. */
  lemma {:induction false} UncoveredIsWhite(ls: seq<Layer>, x: int, y: int)
    requires IsLayers(ls)
    requires forall i :: 0 <= i < |ls| ==> !ls[i].Background? && !(Composable(ls[i]) && Covers(ls[i], x, y))
    ensures Stack(ls, x, y) == WHITE
    decreases |ls|
  {
    if ls != [] { UncoveredIsWhite(ls[..|ls| - 1], x, y); }
  }

  lemma {:induction false} ContainedIsWhite(past: Rect, ls: seq<Layer>, full: bool, w: nat, h: nat)
    requires IsLayers(ls) && Contained(ls, Region(past, ls, full, w, h), w, h)
    ensures WhiteOutside(ls, Region(past, ls, full, w, h), w, h)
  {
    var r := Region(past, ls, full, w, h);
    forall x, y | OnPanel(x, y, w, h) && !In(r, x, y) ensures Stack(ls, x, y) == WHITE {
      forall i | 0 <= i < |ls| ensures !ls[i].Background? {
        if ls[i].Background? {
          FramesTouched(ls, i, x, y, w, h);
          InRegion(past, ls, full, x, y, w, h);
        }
      }
      UncoveredIsWhite(ls, x, y);
    }
  }

  // ---- And only then ---------------------------------------------------------------------------------------

  /** The same layers with other pixels in their buffers. */
  predicate SameShape(k: Layer, l: Layer) {
    if l.Overlay? && l.buffer.Some?
    then
      && k.Overlay? && k.buffer.Some? && IsLayer(k)
      && k == l.(buffer := Some(l.buffer.value.(bytes := k.buffer.value.bytes)))
    else k == l
  }

  predicate SameShapes(ks: seq<Layer>, ls: seq<Layer>) {
    |ks| == |ls| && forall i :: 0 <= i < |ls| ==> SameShape(ks[i], ls[i])
  }

  /** A buffer of opaque black. */
  function Black(b: Buffer): Buffer {
    b.(bytes := seq(|b.bytes|, k requires 0 <= k => BlackByte(b.format, k)))
  }

  function BlackByte(f: Format, k: nat): Byte { if BytesPerPixel(f) == 4 && k % 4 == 3 then 255 else 0 }

  ghost predicate IsBlack(l: Layer) {
    l.Overlay? && l.buffer.Some? ==>
      var b := l.buffer.value;
      forall k :: 0 <= k < |b.bytes| ==> b.bytes[k] == BlackByte(b.format, k)
  }

  function BlackLayer(l: Layer): Layer {
    if l.Overlay? && l.buffer.Some? then l.(buffer := Some(Black(l.buffer.value))) else l
  }

  /** The pixel of an opaque black buffer. */
  predicate IsBlackTexel(p: seq<Byte>, f: Format) {
    IsTexel(p, f) && p[0] == 0 && p[1] == 0 && (|p| > 2 ==> p[2] == 0) && (|p| == 4 ==> p[3] == 255)
  }

  lemma BlackOpaque(p: seq<Byte>, f: Format, bl: Blending)
    requires IsBlackTexel(p, f)
    ensures AlphaOf(p, f, bl) == 255 && ToRgb565(p, f) == 0
  {
  }

  lemma BlackBlend(p: seq<Byte>, f: Format, bl: Blending, d: Px)
    requires IsTexel(p, f) && AlphaOf(p, f, bl) == 255 && ToRgb565(p, f) == 0
    ensures Blend(d, p, f, bl, 255) == 0
  {
    OpaqueBlend(d, p, f, bl);
  }

  lemma BlackTexel(b: Buffer, x: int, y: int)
    requires Mapped(b) && !b.format.Unsupported? && 0 <= x < b.w && 0 <= y < b.h
    requires forall k :: 0 <= k < |b.bytes| ==> b.bytes[k] == BlackByte(b.format, k)
    ensures IsBlackTexel(Texel(b, x, y), b.format)
  {
    OffsetInside(b, x, y);
    var k := Offset(b, x, y);
    if BytesPerPixel(b.format) == 4 { FourAligned(b, x, y); }
    BlackBytes(b.format, b.bytes, k);
  }

  lemma BlackBytes(f: Format, bytes: seq<Byte>, k: nat)
    requires forall i :: 0 <= i < |bytes| ==> bytes[i] == BlackByte(f, i)
    requires !f.Unsupported? && k + BytesPerPixel(f) <= |bytes| && (BytesPerPixel(f) == 4 ==> k % 4 == 0)
    ensures IsBlackTexel(bytes[k..k + BytesPerPixel(f)], f)
  {
    assert (k + 1) % 4 != 3 || BytesPerPixel(f) != 4;
  }

  lemma FourAligned(b: Buffer, x: int, y: int)
    requires BytesPerPixel(b.format) == 4
    ensures Offset(b, x, y) % 4 == 0
  {
    assert Offset(b, x, y) == (y * b.stride + x) * 4;
  }

  lemma BlackOver(l: Layer, x: int, y: int, d: Px)
    requires IsLayer(l) && Composable(l) && Covers(l, x, y) && IsBlack(l)
    ensures Over(l, x, y, d) == 0
  {
    var (sx, sy) := Behind(l, x, y);
    var b := l.buffer.value;
    BlackTexel(b, l.crop.left + sx, l.crop.top + sy);
    var p := Texel(b, l.crop.left + sx, l.crop.top + sy);
    BlackOpaque(p, b.format, l.blending);
    BlackBlend(p, b.format, l.blending, d);
  }

  lemma {:induction false} BlackShows(ls: seq<Layer>, i: nat, x: int, y: int)
    requires IsLayers(ls) && i < |ls| && Composable(ls[i]) && Covers(ls[i], x, y)
    requires forall j :: 0 <= j < |ls| ==> !ls[j].Background? && IsBlack(ls[j])
    ensures Stack(ls, x, y) == 0
    decreases |ls|
  {
    var l, rest := ls[|ls| - 1], ls[..|ls| - 1];
    if i < |rest| { BlackShows(rest, i, x, y); }
    if Composable(l) && Covers(l, x, y) { BlackOver(l, x, y, Stack(rest, x, y)); }
  }

  lemma {:induction false} SpillShows(past: Rect, ls: seq<Layer>, full: bool, w: nat, h: nat, i: nat, x: int, y: int)
    requires IsLayers(ls) && i < |ls| && Composable(ls[i]) && Covers(ls[i], x, y)
    requires OnPanel(x, y, w, h) && !In(Region(past, ls, full, w, h), x, y)
    ensures var ks := seq(|ls|, j requires 0 <= j < |ls| => BlackLayer(ls[j]));
      IsLayers(ks) && SameShapes(ks, ls) && Stack(ks, x, y) == 0
  {
    var ks := seq(|ls|, j requires 0 <= j < |ls| => BlackLayer(ls[j]));
    forall j | 0 <= j < |ls| ensures SameShape(ks[j], ls[j]) && IsLayer(ks[j]) && !ks[j].Background? && IsBlack(ks[j]) {
      assert IsLayer(ls[j]);
      if ls[j].Background? {
        FramesTouched(ls, j, x, y, w, h);
        InRegion(past, ls, full, x, y, w, h);
      }
    }
    BlackShows(ks, i, x, y);
  }

  /** A black layer two pixels wide in a display frame of one. */
  ghost predicate IsTooWide(l: Layer) {
    && IsLayer(l) && Composable(l) && IsBlack(l) && l.xform == 0
    && l.frame == Rect(0, 0, 1, 1) && l.crop == Rect(0, 0, 2, 1) && l.buffer.value.w == 2 && l.buffer.value.h == 1
  }

  lemma SomethingIsTooWide()
    ensures exists l :: IsTooWide(l)
  {
    var bytes: seq<Byte> := [0, 0, 0, 0];
    var b := Buffer(2, 1, 2, Rgb565, bytes);
    assert Mapped(b);
    assert IsTooWide(Overlay(Some(b), Rect(0, 0, 1, 1), Rect(0, 0, 2, 1), 0, NoBlending));
  }

  /** A crop wider than its display frame is drawn past it. */
  lemma {:induction false} TooWideSpills(l: Layer)
    requires IsTooWide(l)
    ensures IsLayers([l]) && !AllFit([l]) && Dirty([l])
    ensures Touched([l], 2, 1) == Rect(0, 0, 1, 1) && Stack([l], 1, 0) == 0
  {
    var ls := [l];
    assert ls[0] == l && Paints(ls[0]) && !Fits(ls[0]);
    assert ls[..0] == [];
    assert Touched([], 2, 1) == Rect(2, 1, 0, 0);
    BlackShows(ls, 0, 1, 0);
  }

  lemma {:induction false} ShapeDecides(ks: seq<Layer>, ls: seq<Layer>, w: nat, h: nat)
    requires IsLayers(ls) && SameShapes(ks, ls)
    ensures IsLayers(ks) && Touched(ks, w, h) == Touched(ls, w, h)
    ensures forall i :: 0 <= i < |ls| ==> (Composable(ks[i]) <==> Composable(ls[i]))
    ensures forall i, x, y :: 0 <= i < |ls| && Composable(ls[i]) ==> (Covers(ks[i], x, y) <==> Covers(ls[i], x, y))
    decreases |ls|
  {
    forall i | 0 <= i < |ls| ensures IsLayer(ks[i]) && (Composable(ks[i]) <==> Composable(ls[i])) {
      assert SameShape(ks[i], ls[i]) && IsLayer(ls[i]);
    }
    if ls != [] { ShapeDecides(ks[..|ks| - 1], ls[..|ls| - 1], w, h); }
  }

  // ---- The region handed to the display controller ----------------------------------------------------------

  /** eink_send_update: the region widened to multiples of 8 columns, or None if it does not
      ask for an update. */
  function SendRegion(w: int, r: Rect): Option<Rect> {
    if Empty(r) then None
    else
      var left := r.left - r.left % 8;
      var up := r.right - left + 7;
      var width := up - up % 8;
      var width' := if left + width > w then w - left else width;
      if width' <= 0 then None else Some(Rect(left, r.top, left + width', r.bottom))
  }

  /** Inside the panel the region sent is the least one that covers what was asked for,
      starts on a multiple of 8 and ends on one or at the edge. */
  lemma SendRegionCovers(w: nat, h: nat, r: Rect)
    requires !Empty(r) && 0 <= r.left && 0 <= r.top && r.right <= w && r.bottom <= h
    ensures SendRegion(w, r).Some?
    ensures var s := SendRegion(w, r).value;
      && s.top == r.top && s.bottom == r.bottom && 0 <= s.left <= r.left && r.right <= s.right <= w
      && s.left % 8 == 0 && (s.right % 8 == 0 || s.right == w)
      && r.left < s.left + 8 && s.right < r.right + 8
  {
  }
}
