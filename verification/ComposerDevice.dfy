// The e-ink composer as it works: it draws source pixels where they land, remembers which
// rectangle it has painted, and copies only rows that differ.
module ComposerDevice {
  import opened Base
  import opened Pixels
  import opened Composition
  import opened Screens

  datatype Update = Update(region: Rect, full: bool)

  /** Neither turned nor translucent: whole rows can be copied. */
  predicate Plain(l: Layer)
    requires Composable(l)
  {
    l.xform == 0 && (l.blending.NoBlending? || !HasAlpha(l.buffer.value.format))
  }

  // The crop columns and rows of a plain layer that lie in the buffer and on the panel.
  function FirstCol(l: Layer): int
    requires Composable(l)
  {
    Max(Max(0, -l.crop.left), -l.frame.left)
  }

  function EndCol(l: Layer, w: nat): int
    requires Composable(l)
  {
    Min(Min(CropWidth(l), l.buffer.value.w - l.crop.left), w - l.frame.left)
  }

  function FirstRow(l: Layer): int
    requires Composable(l)
  {
    Max(Max(0, -l.crop.top), -l.frame.top)
  }

  function EndRow(l: Layer, h: nat): int
    requires Composable(l)
  {
    Min(Min(CropHeight(l), l.buffer.value.h - l.crop.top), h - l.frame.top)
  }

  /** A row of 16-bit pixels is copied in one call, whose length must not be negative. */
  predicate RowsRunForward(l: Layer, w: nat, h: nat) {
    Composable(l) && Plain(l) && l.buffer.value.format.Rgb565? ==>
      FirstCol(l) <= EndCol(l, w) || EndRow(l, h) <= FirstRow(l)
  }

  /** Clipping once picks the same pixels as checking each one, and copying them is blending
      them. */
  lemma ClippedOnce(l: Layer, x: int, y: int, w: nat, h: nat, d: Px)
    requires IsLayer(l) && Composable(l) && Plain(l) && OnPanel(x, y, w, h)
    ensures var sx, sy := x - l.frame.left, y - l.frame.top;
      var b := l.buffer.value;
      && (Covers(l, x, y) <==> FirstCol(l) <= sx < EndCol(l, w) && FirstRow(l) <= sy < EndRow(l, h))
      && (Covers(l, x, y) ==> Over(l, x, y, d) == ToRgb565(Texel(b, l.crop.left + sx, l.crop.top + sy), b.format))
  {
    if Covers(l, x, y) {
      var b := l.buffer.value;
      OpaqueBlend(d, Texel(b, l.crop.left + x - l.frame.left, l.crop.top + y - l.frame.top), b.format, l.blending);
    }
  }

  class Composer {
    const width: nat
    const height: nat
    const shadow: array2<Px>
    const panel: array2<Px>
    const fb: array2<Px>
    var blanked: bool
    var forceFull: bool
    var updates: nat
    var past: Rect

    /** The last frame that painted anything, and the updates sent. */
    ghost var shown: Option<seq<Layer>>
    ghost var sentLog: seq<Update>

    ghost predicate Shaped() {
      && shadow != panel && panel != fb && shadow != fb
      && shadow.Length0 == panel.Length0 == fb.Length0 >= height
      && shadow.Length1 == panel.Length1 == fb.Length1 >= width
    }

    /** What is kept beside the framebuffer is what is in it. */
    ghost predicate Mirrored()
      requires Shaped()
      reads panel, fb
    {
      forall y, x :: 0 <= y < panel.Length0 && 0 <= x < panel.Length1 ==> panel[y, x] == fb[y, x]
    }

    /** The visible pixels. */
    ghost function Picture(): Image
      requires Shaped()
      reads panel
    {
      map k | k in Grid(width, height) :: panel[k.1, k.0]
    }

    /** The state of the screen. */
    ghost function Now(): Screen
      requires Shaped()
      reads this, panel
    {
      Screen(Picture(), past, updates, forceFull, blanked, shown)
    }

    /** Every sixtieth update clears the whole panel, and every region sent is one the
        controller takes. */
    ghost predicate Logged()
      reads this
    {
      && |sentLog| == updates
      && (forall i :: 0 <= i < |sentLog| && i % FULL_EVERY == 0 ==> sentLog[i] == Update(Whole(width, height), true))
      && (forall i :: 0 <= i < |sentLog| ==> Acceptable(sentLog[i].region))
    }

    ghost predicate Acceptable(r: Rect) {
      && 0 <= r.left < r.right <= width && 0 <= r.top < r.bottom <= height
      && r.left % 8 == 0 && (r.right % 8 == 0 || r.right == width)
    }

    /** The invariant of every run: the mirror is exact. */
    ghost predicate Valid()
      reads this, panel, fb
    {
      Shaped() && Mirrored() && Logged() && Kept(Now(), width, height)
    }

    constructor (width: nat, height: nat, fb: array2<Px>)
      requires fb.Length0 >= height && fb.Length1 >= width
      ensures Valid() && this.width == width && this.height == height && this.fb == fb && fresh(panel) && fresh(shadow)
      ensures Now() == Screen(Picture(), Rect(0, 0, 0, 0), 0, false, false, None)
      ensures forall y, x :: 0 <= y < height && 0 <= x < width ==> Picture()[(x, y)] == fb[y, x]
    {
      this.width, this.height, this.fb := width, height, fb;
      var seen := new Px[fb.Length0, fb.Length1];
      forall y, x | 0 <= y < fb.Length0 && 0 <= x < fb.Length1 { seen[y, x] := fb[y, x]; }
      panel := seen;
      shadow := new Px[fb.Length0, fb.Length1];
      blanked, forceFull, updates, past := false, false, 0, Rect(0, 0, 0, 0);
      shown, sentLog := None, [];
    }

    /** memset of the shadow with one byte, twice to the pixel. */
    method Fill(v: Byte)
      modifies shadow
      ensures forall y, x :: 0 <= y < shadow.Length0 && 0 <= x < shadow.Length1 ==> shadow[y, x] == v as int * 257
    {
      forall y, x | 0 <= y < shadow.Length0 && 0 <= x < shadow.Length1 { shadow[y, x] := v as int * 257; }
    }

    /** Clips the crop once for the whole layer. */
    method ClipOnce(l: Layer) returns (sx0: int, sx1: int, sy0: int, sy1: int)
      requires Composable(l)
      ensures sx0 == FirstCol(l) && sx1 == EndCol(l, width) && sy0 == FirstRow(l) && sy1 == EndRow(l, height)
    {
      sx0, sx1, sy0, sy1 := 0, CropWidth(l), 0, CropHeight(l);
      if l.crop.left + sx0 < 0 { sx0 := -l.crop.left; }
      if l.frame.left + sx0 < 0 { sx0 := -l.frame.left; }
      if l.crop.left + sx1 > l.buffer.value.w { sx1 := l.buffer.value.w - l.crop.left; }
      if l.frame.left + sx1 > width { sx1 := width - l.frame.left; }
      if l.crop.top + sy0 < 0 { sy0 := -l.crop.top; }
      if l.frame.top + sy0 < 0 { sy0 := -l.frame.top; }
      if l.crop.top + sy1 > l.buffer.value.h { sy1 := l.buffer.value.h - l.crop.top; }
      if l.frame.top + sy1 > height { sy1 := height - l.frame.top; }
    }

    /** The row copy for plain layers. */
    method Blit(l: Layer)
      requires Shaped() && IsLayer(l) && Composable(l) && Plain(l) && RowsRunForward(l, width, height)
      modifies shadow
      ensures forall y, x :: 0 <= y < height && 0 <= x < width ==> shadow[y, x] == Over(l, x, y, old(shadow[y, x]))
      ensures forall y, x :: 0 <= y < shadow.Length0 && 0 <= x < shadow.Length1 && !OnPanel(x, y, width, height) ==>
        shadow[y, x] == old(shadow[y, x])
    {
      var sx0, sx1, sy0, sy1 := ClipOnce(l);
      var sy := sy0;
      while sy < sy1
        invariant sy0 <= sy && (sy <= sy1 || sy == sy0)
        invariant forall y, x :: 0 <= y < shadow.Length0 && 0 <= x < shadow.Length1 ==>
          shadow[y, x] == if sy0 <= y - l.frame.top < sy then BlitPixel(l, sx0, sx1, x, y, old(shadow[y, x]))
            else old(shadow[y, x])
      {
        BlitRow(l, sx0, sx1, sy);
        sy := sy + 1;
      }
      forall y, x | 0 <= y < height && 0 <= x < width ensures shadow[y, x] == Over(l, x, y, old(shadow[y, x])) {
        ClippedOnce(l, x, y, width, height, old(shadow[y, x]));
      }
    }

    /** Row `y - frame.top` of the crop, columns sx0 to sx1, over the panel. */
    ghost function BlitPixel(l: Layer, sx0: int, sx1: int, x: int, y: int, d: Px): Px
      requires IsLayer(l) && Composable(l)
    {
      var b, cx, cy := l.buffer.value, l.crop.left + x - l.frame.left, l.crop.top + y - l.frame.top;
      if sx0 <= x - l.frame.left < sx1 && 0 <= cx < b.w && 0 <= cy < b.h then ToRgb565(Texel(b, cx, cy), b.format)
      else d
    }

    /** memcpy of `n` 16-bit pixels. */
    method CopyWords(dy: int, dcol: int, bytes: seq<Byte>, srow: int, n: nat)
      requires 0 <= dy < shadow.Length0 && 0 <= dcol <= dcol + n <= shadow.Length1
      requires n > 0 ==> 0 <= srow <= srow + 2 * n <= |bytes|
      modifies shadow
      ensures forall y, x :: 0 <= y < shadow.Length0 && 0 <= x < shadow.Length1 ==>
        shadow[y, x] == if y == dy && dcol <= x < dcol + n
          then LittleEndian(bytes[srow + 2 * (x - dcol)..srow + 2 * (x - dcol) + 2])
                        else old(shadow[y, x])
    {
      forall x | dcol <= x < dcol + n {
        shadow[dy, x] := LittleEndian(bytes[srow + 2 * (x - dcol)..srow + 2 * (x - dcol) + 2]);
      }
    }

    method BlitWords(l: Layer, sx0: int, sx1: int, sy: int)
      requires Shaped() && IsLayer(l) && Composable(l) && l.buffer.value.format.Rgb565? && sx0 <= sx1
      requires 0 <= l.crop.top + sy < l.buffer.value.h && 0 <= l.frame.top + sy < height
      requires 0 <= l.crop.left + sx0 && l.crop.left + sx1 <= l.buffer.value.w
      requires 0 <= l.frame.left + sx0 && l.frame.left + sx1 <= width
      modifies shadow
      ensures forall y, x :: 0 <= y < shadow.Length0 && 0 <= x < shadow.Length1 ==>
        shadow[y, x] == if y == l.frame.top + sy then BlitPixel(l, sx0, sx1, x, y, old(shadow[y, x]))
          else old(shadow[y, x])
    {
      var b := l.buffer.value;
      var srow, dcol, dy := Offset(b, l.crop.left + sx0, l.crop.top + sy), l.frame.left + sx0, l.frame.top + sy;
      if sx0 < sx1 {
        OffsetInside(b, l.crop.left + sx0, l.crop.top + sy);
        OffsetInside(b, l.crop.left + sx1 - 1, l.crop.top + sy);
      }
      CopyWords(dy, dcol, b.bytes, srow, sx1 - sx0);
      forall x | dcol <= x < dcol + (sx1 - sx0)
        ensures shadow[dy, x] == BlitPixel(l, sx0, sx1, x, dy, old(shadow[dy, x]))
      {
        OffsetInside(b, l.crop.left + x - l.frame.left, l.crop.top + sy);
      }
    }

    /** One pixel of a row, read at `srow`. */
    method BlitAt(l: Layer, sx0: int, sx1: int, sx: int, sy: int, srow: int)
      requires Shaped() && IsLayer(l) && Composable(l) && sx0 <= sx < sx1
      requires 0 <= l.crop.left + sx < l.buffer.value.w && 0 <= l.crop.top + sy < l.buffer.value.h
      requires 0 <= l.frame.left + sx < width && 0 <= l.frame.top + sy < height
      requires srow == Offset(l.buffer.value, l.crop.left + sx, l.crop.top + sy)
      modifies shadow
      ensures forall y, x :: 0 <= y < shadow.Length0 && 0 <= x < shadow.Length1 ==>
        shadow[y, x] == if y == l.frame.top + sy && x == l.frame.left + sx
                        then BlitPixel(l, sx0, sx1, x, y, old(shadow[y, x])) else old(shadow[y, x])
    {
      var b := l.buffer.value;
      OffsetInside(b, l.crop.left + sx, l.crop.top + sy);
      shadow[l.frame.top + sy, l.frame.left + sx] := ToRgb565(b.bytes[srow..srow + BytesPerPixel(b.format)], b.format);
    }

    method BlitRow(l: Layer, sx0: int, sx1: int, sy: int)
      requires Shaped() && IsLayer(l) && Composable(l) && (l.buffer.value.format.Rgb565? ==> sx0 <= sx1)
      requires 0 <= l.crop.top + sy < l.buffer.value.h && 0 <= l.frame.top + sy < height
      requires 0 <= l.crop.left + sx0 && l.crop.left + sx1 <= l.buffer.value.w
      requires 0 <= l.frame.left + sx0 && l.frame.left + sx1 <= width
      modifies shadow
      ensures forall y, x :: 0 <= y < shadow.Length0 && 0 <= x < shadow.Length1 ==>
        shadow[y, x] == if y == l.frame.top + sy then BlitPixel(l, sx0, sx1, x, y, old(shadow[y, x]))
          else old(shadow[y, x])
    {
      var b := l.buffer.value;
      var bpp := BytesPerPixel(b.format);
      var srow, dcol, dy := Offset(b, l.crop.left + sx0, l.crop.top + sy), l.frame.left + sx0, l.frame.top + sy;
      if b.format.Rgb565? {
        BlitWords(l, sx0, sx1, sy);
        return;
      }
      var n := sx1 - sx0;
      while n > 0
        invariant sx1 - sx0 >= 0 ==> 0 <= n <= sx1 - sx0
        invariant sx1 - sx0 < 0 ==> n == sx1 - sx0
        invariant dcol == l.frame.left + sx1 - n
        invariant srow == Offset(b, l.crop.left + sx1 - n, l.crop.top + sy)
        invariant forall y, x :: 0 <= y < shadow.Length0 && 0 <= x < shadow.Length1 ==>
          shadow[y, x] == if y == dy && x < dcol then BlitPixel(l, sx0, sx1, x, y, old(shadow[y, x]))
            else old(shadow[y, x])
      {
        BlitAt(l, sx0, sx1, sx1 - n, sy, srow);
        srow, dcol, n := srow + bpp, dcol + 1, n - 1;
      }
    }

    /** The general loop: source rows in order, each walked from where it starts on the panel
        in the direction the transform gives it. */
    method BlendRows(l: Layer)
      requires Shaped() && IsLayer(l) && Composable(l)
      modifies shadow
      ensures forall y, x :: 0 <= y < height && 0 <= x < width ==> shadow[y, x] == Over(l, x, y, old(shadow[y, x]))
      ensures forall y, x :: 0 <= y < shadow.Length0 && 0 <= x < shadow.Length1 && !OnPanel(x, y, width, height) ==>
        shadow[y, x] == old(shadow[y, x])
    {
      var sy := 0;
      while sy < CropHeight(l)
        invariant 0 <= sy <= CropHeight(l)
        invariant forall y, x :: 0 <= y < shadow.Length0 && 0 <= x < shadow.Length1 ==>
          shadow[y, x] == if OnPanel(x, y, width, height) && Behind(l, x, y).1 < sy
            then Over(l, x, y, old(shadow[y, x])) else old(shadow[y, x])
      {
        var srcy := l.crop.top + sy;
        if 0 <= srcy < l.buffer.value.h { BlendRow(l, sy); }
        sy := sy + 1;
      }
    }

    /** Where a crop row starts and which way it goes. */
    static method RowWalk(xform: nat, cw: int, ch: int, sy: int) returns (i0: int, j0: int, di: int, dj: int)
      ensures Place(xform, cw, ch, 0, sy) == (i0, j0)
      ensures forall sx ::
        Place(xform, cw, ch, sx + 1, sy) == (Place(xform, cw, ch, sx, sy).0 + di, Place(xform, cw, ch, sx, sy).1 + dj)
    {
      i0, j0, di, dj := 0, sy, 1, 0;
      if xform == ROT_90 { i0, j0, di, dj := ch - 1 - sy, 0, 0, 1; }
      else if xform == ROT_180 { i0, j0, di, dj := cw - 1, ch - 1 - sy, -1, 0; }
      else if xform == ROT_270 { i0, j0, di, dj := sy, cw - 1, 0, -1; }
      else if xform == FLIP_H { i0, j0, di, dj := cw - 1, sy, -1, 0; }
      else if xform == FLIP_V { i0, j0, di, dj := 0, ch - 1 - sy, 1, 0; }
    }

    /** One crop pixel, if it is in the buffer and lands on the panel. */
    method BlendAt(l: Layer, sx: int, sy: int, dx: int, dy: int)
      requires Shaped() && IsLayer(l) && Composable(l) && Behind(l, dx, dy) == (sx, sy)
      requires 0 <= sx < CropWidth(l) && 0 <= sy < CropHeight(l) && 0 <= l.crop.top + sy < l.buffer.value.h
      modifies shadow
      ensures forall y, x :: 0 <= y < shadow.Length0 && 0 <= x < shadow.Length1 ==>
        shadow[y, x] == if y == dy && x == dx && OnPanel(x, y, width, height) then Over(l, x, y, old(shadow[y, x]))
          else old(shadow[y, x])
    {
      var b, srcx := l.buffer.value, l.crop.left + sx;
      if 0 <= srcx < b.w && 0 <= dx < width && 0 <= dy < height {
        shadow[dy, dx] := Blend(shadow[dy, dx], Texel(b, srcx, l.crop.top + sy), b.format, l.blending, 255);
      }
    }

    method BlendRow(l: Layer, sy: int)
      requires Shaped() && IsLayer(l) && Composable(l)
      requires 0 <= sy < CropHeight(l) && 0 <= l.crop.top + sy < l.buffer.value.h
      modifies shadow
      ensures forall y, x :: 0 <= y < shadow.Length0 && 0 <= x < shadow.Length1 ==>
        shadow[y, x] == if OnPanel(x, y, width, height) && Behind(l, x, y).1 == sy
          then Over(l, x, y, old(shadow[y, x])) else old(shadow[y, x])
    {
      var cw, ch := CropWidth(l), CropHeight(l);
      var i0, j0, di, dj := RowWalk(l.xform, cw, ch, sy);
      var dx, dy, sx := l.frame.left + i0, l.frame.top + j0, 0;
      while sx < cw
        invariant 0 <= sx <= cw
        invariant (dx - l.frame.left, dy - l.frame.top) == Place(l.xform, cw, ch, sx, sy)
        invariant forall y, x :: 0 <= y < shadow.Length0 && 0 <= x < shadow.Length1 ==>
          shadow[y, x] == if OnPanel(x, y, width, height) && Behind(l, x, y).1 == sy && Behind(l, x, y).0 < sx
                          then Over(l, x, y, old(shadow[y, x])) else old(shadow[y, x])
      {
        PlaceIsBijection(l.xform, cw, ch, sx, sy, dx - l.frame.left, dy - l.frame.top);
        BlendAt(l, sx, sy, dx, dy);
        sx, dx, dy := sx + 1, dx + di, dy + dj;
      }
    }

    /** compose_layer; false for a layer it cannot draw, which changes nothing. */
    method ComposeLayer(l: Layer) returns (ok: bool)
      requires Shaped() && IsLayer(l) && l.Overlay? && RowsRunForward(l, width, height)
      modifies shadow
      ensures ok == Composable(l)
      ensures forall y, x :: 0 <= y < height && 0 <= x < width ==> shadow[y, x] == Over(l, x, y, old(shadow[y, x]))
      ensures forall y, x :: 0 <= y < shadow.Length0 && 0 <= x < shadow.Length1 && !OnPanel(x, y, width, height) ==>
        shadow[y, x] == old(shadow[y, x])
    {
      ok := Composable(l);
      if !ok { return; }
      if Plain(l) { Blit(l); } else { BlendRows(l); }
    }

    /** Draws the stack on white, and works out the rectangle it touches. */
    method ComposeAll(ls: seq<Layer>) returns (dirty: bool, r: Rect)
      requires Shaped() && IsLayers(ls) && forall i :: 0 <= i < |ls| ==> RowsRunForward(ls[i], width, height)
      modifies shadow
      ensures forall y, x :: 0 <= y < height && 0 <= x < width ==> shadow[y, x] == Stack(ls, x, y)
      ensures dirty == Dirty(ls) && r == Touched(ls, width, height)
    {
      dirty, r := false, Rect(width, height, 0, 0);
      Fill(255);
      var i := 0;
      while i < |ls|
        invariant 0 <= i <= |ls|
        invariant dirty == Dirty(ls[..i]) && r == Touched(ls[..i], width, height)
        invariant forall y, x :: 0 <= y < height && 0 <= x < width ==> shadow[y, x] == Stack(ls[..i], x, y)
      {
        var l := ls[i];
        assert ls[..i + 1][..i] == ls[..i] && ls[..i + 1][i] == l;
        DirtyNext(ls, i);
        if l.Background? {
          Fill((l.r as int + l.g as int + l.b as int) / 3);
          dirty, r := true, Whole(width, height);
        } else if l.Overlay? {
          var ok := ComposeLayer(l);
          if ok {
            dirty := true;
            if l.frame.left < r.left { r := r.(left := l.frame.left); }
            if l.frame.top < r.top { r := r.(top := l.frame.top); }
            if l.frame.right > r.right { r := r.(right := l.frame.right); }
            if l.frame.bottom > r.bottom { r := r.(bottom := l.frame.bottom); }
          }
        }
        i := i + 1;
      }
      assert ls[..|ls|] == ls;
    }

    /** memcmp of one row of the panel's copy with the shadow. */
    method RowSame(y: int, x0: int, x1: int) returns (same: bool)
      requires Shaped() && 0 <= y < height && 0 <= x0 <= x1 <= width
      ensures same <==> forall x :: x0 <= x < x1 ==> panel[y, x] == shadow[y, x]
    {
      var x := x0;
      while x < x1
        invariant x0 <= x <= x1 && forall k :: x0 <= k < x ==> panel[y, k] == shadow[y, k]
      {
        if panel[y, x] != shadow[y, x] { return false; }
        x := x + 1;
      }
      return true;
    }

    /** Copies the rows of the rectangle that differ, to the framebuffer and its mirror. */
    method CopyDiffering(r: Rect) returns (changed: bool)
      requires Shaped() && Mirrored() && 0 <= r.left <= r.right <= width && 0 <= r.top <= r.bottom <= height
      modifies panel, fb
      ensures Mirrored()
      ensures forall y, x :: 0 <= y < panel.Length0 && 0 <= x < panel.Length1 ==>
        panel[y, x] == if In(r, x, y) then shadow[y, x] else old(panel[y, x])
      ensures changed <==> exists y, x ::
        r.top <= y < r.bottom && r.left <= x < r.right && old(panel[y, x]) != shadow[y, x]
    {
      changed := false;
      var y := r.top;
      while y < r.bottom
        invariant r.top <= y <= r.bottom && Mirrored()
        invariant forall j, x :: 0 <= j < panel.Length0 && 0 <= x < panel.Length1 ==>
          panel[j, x] == if In(r, x, j) && j < y then shadow[j, x] else old(panel[j, x])
        invariant changed <==> exists j, x ::
          r.top <= j < y && r.left <= x < r.right && old(panel[j, x]) != shadow[j, x]
      {
        var same := RowSame(y, r.left, r.right);
        if !same {
          forall x | r.left <= x < r.right { panel[y, x] := shadow[y, x]; }
          forall x | r.left <= x < r.right { fb[y, x] := shadow[y, x]; }
          changed := true;
        }
        y := y + 1;
      }
    }

    /** hwc_compose for the primary display: the screen makes its next step, and an update is
        sent exactly when a visible pixel changed, covering all that did. */
    method Compose(ls: seq<Layer>) returns (sent: Option<Update>)
      requires Valid() && IsLayers(ls) && forall i :: 0 <= i < |ls| ==> RowsRunForward(ls[i], width, height)
      modifies this, shadow, panel, fb
      ensures Valid() && Now() == Next(old(Now()), Set(ls), width, height)
      ensures sentLog == old(sentLog) + if sent.Some? then [sent.value] else []
      ensures sent.Some? <==> Picture() != old(Picture())
      ensures sent.Some? ==> sent.value.full == Full(old(Now()))
      ensures sent.Some? ==>
        SendRegion(width, Region(old(past), ls, Full(old(Now())), width, height)) == Some(sent.value.region)
      ensures sent.Some? ==> forall k :: k in Picture() && Picture()[k] != old(Picture())[k] ==>
        In(sent.value.region, k.0, k.1)
    {
      sent := None;
      if blanked { return; }
      var dirty, d := ComposeAll(ls);
      if !dirty { return; }
      sent := Refresh(ls, d);
    }

    /** Copies the drawn frame to the rectangle. */
    method Show(ls: seq<Layer>, r: Rect) returns (changed: bool)
      requires Shaped() && Mirrored() && IsLayers(ls)
      requires 0 <= r.left <= r.right <= width && 0 <= r.top <= r.bottom <= height
      requires forall y, x :: 0 <= y < height && 0 <= x < width ==> shadow[y, x] == Stack(ls, x, y)
      modifies panel, fb
      ensures Mirrored() && Picture() == Painted(old(Picture()), r, ls)
      ensures changed <==> Picture() != old(Picture())
      ensures forall k :: k in Picture() && Picture()[k] != old(Picture())[k] ==> In(r, k.0, k.1)
      ensures changed ==> !Empty(r)
    {
      changed := CopyDiffering(r);
      assert Picture() == Painted(old(Picture()), r, ls);
      if changed {
        ghost var y, x :| r.top <= y < r.bottom && r.left <= x < r.right && old(panel[y, x]) != shadow[y, x];
        assert (x, y) in Picture() && Picture()[(x, y)] != old(Picture())[(x, y)];
      } else {
        assert Picture() == old(Picture());
      }
    }

    /** A dirty frame, drawn: brings the panel up to date with it. */
    method Refresh(ls: seq<Layer>, touched: Rect) returns (sent: Option<Update>)
      requires Valid() && IsLayers(ls) && touched == Touched(ls, width, height)
      requires forall y, x :: 0 <= y < height && 0 <= x < width ==> shadow[y, x] == Stack(ls, x, y)
      modifies this, panel, fb
      ensures Valid() && Now() == Frame(old(Now()), ls, width, height)
      ensures sentLog == old(sentLog) + if sent.Some? then [sent.value] else []
      ensures sent.Some? <==> Picture() != old(Picture())
      ensures sent.Some? ==> sent.value.full == Full(old(Now()))
      ensures sent.Some? ==>
        SendRegion(width, Region(old(past), ls, Full(old(Now())), width, height)) == Some(sent.value.region)
      ensures sent.Some? ==> forall k :: k in Picture() && Picture()[k] != old(Picture())[k] ==>
        In(sent.value.region, k.0, k.1)
    {
      ghost var was := Now();
      FrameKept(was, ls, width, height);
      var d, full := NextRegion(ls, touched);
      var changed := Show(ls, d);
      shown := Some(ls);
      sent := None;
      if changed { sent := Send(d, full); }
      FrameIs(was, Now(), ls, width, height);
    }

    /** Decides what to copy, and remembers it. */
    method NextRegion(ls: seq<Layer>, touched: Rect) returns (d: Rect, full: bool)
      requires Valid() && touched == Touched(ls, width, height)
      modifies `past, `forceFull
      ensures full == (updates % FULL_EVERY == 0 || old(forceFull)) && !forceFull
      ensures past == Accumulated(old(past), ls, width, height) && d == Region(old(past), ls, full, width, height)
      ensures 0 <= d.left <= d.right <= width && 0 <= d.top <= d.bottom <= height
    {
      AccumulatedOnPanel(past, ls, width, height);
      d := ClipAndAccumulate(ls, touched);
      past := d;
      full := updates % FULL_EVERY == 0 || forceFull;
      forceFull := false;
      if full { d := Whole(width, height); }
    }

    method Send(d: Rect, full: bool) returns (sent: Option<Update>)
      requires Logged() && !Empty(d) && 0 <= d.left && 0 <= d.top && d.right <= width && d.bottom <= height
      requires updates % FULL_EVERY == 0 ==> full
      requires full ==> d == Whole(width, height)
      modifies `updates, `sentLog
      ensures Logged() && updates == old(updates) + 1
      ensures sent.Some? && sent.value.full == full && sentLog == old(sentLog) + [sent.value]
      ensures forall x, y :: In(d, x, y) ==> In(sent.value.region, x, y)
      ensures SendRegion(width, d) == Some(sent.value.region)
    {
      SendRegionCovers(width, height, d);
      var s := SendRegion(width, d);
      updates := updates + 1;
      sent := Some(Update(s.value, full));
      sentLog := sentLog + [sent.value];
    }

    method ClipAndAccumulate(ls: seq<Layer>, touched: Rect) returns (d: Rect)
      requires touched == Touched(ls, width, height)
      ensures d == Accumulated(past, ls, width, height)
    {
      d := ClipToPanel(touched);
      if past.right > past.left && past.bottom > past.top {
        if past.left < d.left { d := d.(left := past.left); }
        if past.top < d.top { d := d.(top := past.top); }
        if past.right > d.right { d := d.(right := past.right); }
        if past.bottom > d.bottom { d := d.(bottom := past.bottom); }
      }
    }

    method ClipToPanel(touched: Rect) returns (d: Rect)
      ensures d == Clip(touched, width, height)
    {
      d := touched;
      if d.left < 0 { d := d.(left := 0); }
      if d.top < 0 { d := d.(top := 0); }
      if d.right > width { d := d.(right := width); }
      if d.bottom > height { d := d.(bottom := height); }
      if d.right <= d.left || d.bottom <= d.top { d := Rect(0, 0, width, height); }
    }

    /** hwc_blank: waking asks for one whole-panel frame. */
    method Blank(blank: bool)
      requires Valid()
      modifies `blanked, `forceFull
      ensures Valid() && Now() == Next(old(Now()), SetBlank(blank), width, height)
    {
      blanked := blank;
      if !blank { forceFull := true; }
    }

    /** Theorem. After any calls the screen is what the same calls make of it; so, if layers
        fit their display frames, or at least no frame draws outside its rectangle, the
        framebuffer shows the whole stack of the last frame that painted while awake. */
    method Perform(calls: seq<Call>)
      requires Valid() && AreCalls(calls) && forall i :: 0 <= i < |calls| ==> Callable(calls[i])
      modifies this, shadow, panel, fb
      ensures Valid() && Now() == Run(old(Now()), calls, width, height) && old(sentLog) <= sentLog
      ensures Sound(old(Now()), width, height) && AllTidy(old(Now()), calls, width, height) ==>
        Sound(Now(), width, height) && ShowsLast()
      ensures Sound(old(Now()), width, height) && (forall i :: 0 <= i < |calls| ==> FitsCall(calls[i])) ==>
        Sound(Now(), width, height) && ShowsLast()
    {
      ghost var was := Now();
      var i := 0;
      while i < |calls|
        invariant 0 <= i <= |calls| && Valid() && old(sentLog) <= sentLog
        invariant AreCalls(calls[..i]) && Now() == Run(was, calls[..i], width, height)
      {
        RunNext(was, calls, i, width, height);
        match calls[i] {
          case Set(ls) => var _ := Compose(ls);
          case SetBlank(b) => Blank(b);
        }
        i := i + 1;
      }
      assert calls[..i] == calls;
      if forall i :: 0 <= i < |calls| ==> FitsCall(calls[i]) { FitsAreTidy(was, calls, width, height); }
      if Sound(was, width, height) && AllTidy(was, calls, width, height) {
        RunSound(was, calls, width, height);
        Seen();
      }
    }

    /** A visible pixel of the framebuffer is that of the picture. */
    lemma Pixel(x: int, y: int)
      requires Valid() && OnPanel(x, y, width, height)
      ensures (x, y) in Picture() && fb[y, x] == Picture()[(x, y)]
    {
    }

    /** The framebuffer holds the whole stack of the last frame that painted. */
    ghost predicate ShowsLast()
      requires Shaped()
      reads this, fb
    {
      shown.Some? ==>
        && IsLayers(shown.value)
        && forall y, x :: 0 <= y < height && 0 <= x < width ==> fb[y, x] == Stack(shown.value, x, y)
    }

    lemma Seen()
      requires Valid() && Right(Now())
      ensures ShowsLast()
    {
      forall y, x | shown.Some? && 0 <= y < height && 0 <= x < width ensures fb[y, x] == Stack(shown.value, x, y) {
        Pixel(x, y);
      }
    }

    predicate Callable(c: Call) {
      c.Set? ==> IsLayers(c.layers) && forall i :: 0 <= i < |c.layers| ==> RowsRunForward(c.layers[i], width, height)
    }

    /** Among any sixty updates in a row one clears the whole panel. */
    lemma FullAmongSixty(k: nat)
      requires Valid() && k + FULL_EVERY <= |sentLog|
      ensures exists i :: k <= i < k + FULL_EVERY && sentLog[i] == Update(Whole(width, height), true)
    {
      var i := k + (FULL_EVERY - k % FULL_EVERY) % FULL_EVERY;
      assert i % FULL_EVERY == 0;
      assert sentLog[i] == Update(Whole(width, height), true);
    }
  }

  lemma DirtyNext(ls: seq<Layer>, i: nat)
    requires i < |ls|
    ensures Dirty(ls[..i + 1]) <==> Dirty(ls[..i]) || Paints(ls[i])
  {
    var next := ls[..i + 1];
    assert next[i] == ls[i];
    if Dirty(ls[..i]) {
      var k :| 0 <= k < i && Paints(ls[..i][k]);
      assert next[k] == ls[..i][k];
    }
    if Dirty(next) {
      var k :| 0 <= k <= i && Paints(next[k]);
      assert k < i ==> ls[..i][k] == next[k];
    }
  }

  function Grid(w: nat, h: nat): set<(int, int)> {
    set x: int, y: int | 0 <= x < w && 0 <= y < h :: (x, y)
  }

  /** Theorem. Drawing past a display frame leaves a picture that is wrong: on a white panel
      of two pixels, a frame too wide paints both, and the next frame, which fits, does not
      bring the second one up to date. */
  method TooWideIsStale(l: Layer) returns (c: Composer)
    requires IsTooWide(l)
    ensures c.Shaped() && c.width == 2 && c.height == 1 && c.shown == Some([Dot(0, 0)])
    ensures IsLayers([Dot(0, 0)]) && c.fb[0, 1] != Stack([Dot(0, 0)], 1, 0)
  {
    TooWideSpills(l);
    DotTouches(0, 0, 2, 1);
    RunsForward(l, 2, 1);
    RunsForward(Dot(0, 0), 2, 1);
    ghost var s;
    c, s := ShowTwo([l], [Dot(0, 0)]);
    TooWideFirst(s, l);
    TooWideNext(s, l);
    c.Pixel(1, 0);
  }

  /** Two frames on a fresh white panel of two pixels. */
  method ShowTwo(first: seq<Layer>, second: seq<Layer>) returns (c: Composer, ghost s: Screen)
    requires IsLayers(first) && forall i :: 0 <= i < |first| ==> RowsRunForward(first[i], 2, 1)
    requires IsLayers(second) && forall i :: 0 <= i < |second| ==> RowsRunForward(second[i], 2, 1)
    ensures c.Valid() && c.width == 2 && c.height == 1
    ensures IsImage(s.image, 2, 1) && s.past == Rect(0, 0, 0, 0) && s.updates == 0 && !s.blanked && s.shown.None?
    ensures s.image[(1, 0)] == WHITE && c.Now() == Next(Next(s, Set(first), 2, 1), Set(second), 2, 1)
  {
    var fb := new Px[1, 2];
    fb[0, 0], fb[0, 1] := WHITE, WHITE;
    c := new Composer(2, 1, fb);
    s := c.Now();
    var _ := c.Compose(first);
    var _ := c.Compose(second);
  }

  lemma RunsForward(l: Layer, w: nat, h: nat)
    requires Composable(l) && l.crop.left == 0 && l.frame.left == 0
    ensures RowsRunForward(l, w, h)
  {
  }

  /** A layer to the right of the panel has columns that end before they begin: its rows are
      copied with a negative length. */
  lemma BesideThePanel(l: Layer, w: nat, h: nat)
    requires Composable(l) && Plain(l) && l.buffer.value.format.Rgb565?
    requires l.crop.left >= 0 && l.frame.left > w && FirstRow(l) < EndRow(l, h)
    ensures !RowsRunForward(l, w, h)
  {
  }

  lemma {:induction false} TooWideFirst(s: Screen, l: Layer)
    requires IsImage(s.image, 2, 1) && s.past == Rect(0, 0, 0, 0) && s.updates == 0 && !s.blanked && s.shown.None?
    requires s.image[(1, 0)] == WHITE && IsTooWide(l)
    ensures IsLayers([l])
    ensures var s1 := Next(s, Set([l]), 2, 1);
      && Kept(s1, 2, 1) && !s1.blanked && s1.past == Rect(0, 0, 1, 1) && !Full(s1)
      && (1, 0) in s1.image && s1.image[(1, 0)] == 0
  {
    TooWideSpills(l);
    FrameKept(s, [l], 2, 1);
    var s1 := Next(s, Set([l]), 2, 1);
    assert (1, 0) in s1.image && s1.image[(1, 0)] == 0;
    assert s1.image != s.image;
  }

  lemma {:induction false} TooWideNext(s: Screen, l: Layer)
    requires IsLayers([l])
    requires var s1 := Next(s, Set([l]), 2, 1);
      && Kept(s1, 2, 1) && !s1.blanked && s1.past == Rect(0, 0, 1, 1) && !Full(s1)
      && (1, 0) in s1.image && s1.image[(1, 0)] == 0
    ensures IsLayers([Dot(0, 0)])
    ensures var s2 := Next(Next(s, Set([l]), 2, 1), Set([Dot(0, 0)]), 2, 1);
      s2.shown == Some([Dot(0, 0)]) && (1, 0) in s2.image && s2.image[(1, 0)] != Stack([Dot(0, 0)], 1, 0)
  {
    DotTouches(0, 0, 2, 1);
    DotLeavesStale(Next(s, Set([l]), 2, 1), 1, 0, 2, 1);
  }
}
