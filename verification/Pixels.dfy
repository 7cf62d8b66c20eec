// Pixels: reading a source pixel of any supported format, and blending it into the 16-bit
// RGB565 image.
module Pixels {
  import opened Base

  /** A 16-bit pixel. */
  type Px = Unit

  const WHITE: Px := 65535

  datatype Format = Rgba8888 | Rgbx8888 | Bgra8888 | Rgb888 | Rgb565 | Unsupported
  datatype Blending = NoBlending | Premult | Coverage

  function BytesPerPixel(f: Format): nat {
    match f
    case Rgba8888 | Rgbx8888 | Bgra8888 => 4
    case Rgb888 => 3
    case Rgb565 => 2
    case Unsupported => 0
  }

  predicate HasAlpha(f: Format) { f.Rgba8888? || f.Bgra8888? }

  /** One source pixel, as the bytes it has in its buffer. */
  predicate IsTexel(p: seq<Byte>, f: Format) { !f.Unsupported? && |p| == BytesPerPixel(f) }

  datatype Colour = Colour(r: Byte, g: Byte, b: Byte)

  function Pack(c: Colour): Px {
    c.r / 8 * 2048 + c.g / 4 * 32 + c.b / 8
  }

  function Unpack(v: Px): Colour {
    Colour(v / 2048 * 8, v / 32 % 64 * 4, v % 32 * 8)
  }

  function LittleEndian(p: seq<Byte>): Px
    requires |p| == 2
  {
    p[0] as int + 256 * (p[1] as int)
  }

  /** to_rgb565. */
  function ToRgb565(p: seq<Byte>, f: Format): Px
    requires IsTexel(p, f)
  {
    if f.Rgb565? then LittleEndian(p) else Pack(ColourOf(p, f))
  }

  function ColourOf(p: seq<Byte>, f: Format): Colour
    requires IsTexel(p, f)
  {
    if f.Rgb565? then Unpack(LittleEndian(p))
    else if f.Bgra8888? then Colour(p[2], p[1], p[0])
    else Colour(p[0], p[1], p[2])
  }

  /** x * k / 255, rounded. */
  function Scale(x: int, k: int): int { (x * k + 127) / 255 }

  lemma ScaleBounds(x: Byte, k: Byte)
    ensures 0 <= Scale(x, k) <= x && Scale(x, k) <= k
  {
    Products(x, 255, k);
    Products(k, 255, x);
    Divided(x * k + 127, 255 * k + 127, k);
    Divided(x * k + 127, 255 * x + 127, x);
  }

  lemma Products(a: nat, b: nat, k: nat)
    requires a <= b
    ensures a * k <= b * k && 0 <= a * k && a * k == k * a
  {
  }

  lemma Divided(n: int, m: int, k: nat)
    requires 0 <= n <= m && m == 255 * k + 127
    ensures 0 <= n / 255 <= k
  {
  }

  function ScaleColour(c: Colour, k: Byte): Colour {
    ScaleBounds(c.r, k); ScaleBounds(c.g, k); ScaleBounds(c.b, k);
    Colour(Scale(c.r, k), Scale(c.g, k), Scale(c.b, k))
  }

  function Saturate(x: int): Byte
    requires x >= 0
  {
    if x > 255 then 255 else x
  }

  /** The blending formula of blend_px, with no shortcut taken. */
  function Mix(d: Px, c: Colour, a: Byte, bl: Blending): Px {
    var s := if bl.Coverage? then ScaleColour(c, a) else c;
    var u := ScaleColour(Unpack(d), 255 - a);
    Pack(Colour(Saturate(s.r + u.r), Saturate(s.g + u.g), Saturate(s.b + u.b)))
  }

  function AlphaOf(p: seq<Byte>, f: Format, bl: Blending): Byte
    requires IsTexel(p, f)
  {
    if bl.NoBlending? || !HasAlpha(f) then 255 else p[3]
  }

  /** blend_px. */
  function Blend(d: Px, p: seq<Byte>, f: Format, bl: Blending, plane: Byte): Px
    requires IsTexel(p, f)
  {
    var a0 := AlphaOf(p, f, bl);
    ScaleBounds(a0, plane);
    var a := if plane < 255 then Scale(a0, plane) else a0;
    if a == 0 then d
    else if a == 255 && plane == 255 then ToRgb565(p, f)
    else
      var c := ColourOf(p, f);
      Mix(d, if plane < 255 then ScaleColour(c, plane) else c, a, bl)
  }

  // ---- The shortcuts agree with the formula ------------------------------------------------------

  lemma PackUnpack(v: Px)
    ensures Pack(Unpack(v)) == v
  {
    var hi, mid := v / 2048, v / 32 % 64;
    assert v / 32 == hi * 64 + mid;
  }

  /** The same colour in any byte order gives the same pixel, with its top bits in place. */
  lemma ByteOrder(r: Byte, g: Byte, b: Byte, a: Byte)
    ensures var v := ToRgb565([r, g, b, a], Rgba8888);
      && v == ToRgb565([r, g, b, a], Rgbx8888) == ToRgb565([r, g, b], Rgb888) == ToRgb565([b, g, r, a], Bgra8888)
      && v / 2048 == r / 8 && v / 32 % 64 == g / 4 && v % 32 == b / 8
  {
    var v := ToRgb565([r, g, b, a], Rgba8888);
    assert v == (r / 8 * 64 + g / 4) * 32 + b / 8;
    assert v / 32 == r / 8 * 64 + g / 4;
  }

  /** Scaling rounds to nearest. */
  lemma ScaleNearest(x: Byte, k: Byte)
    ensures -255 < 2 * (255 * Scale(x, k) - x * k) < 255
  {
    var n := x * k + 127;
    assert n == 255 * (n / 255) + n % 255;
  }

  /** Two colours look alike on the panel when they agree in the bits it keeps. */
  predicate SameOnPanel(c: Colour, e: Colour) {
    c.r / 8 == e.r / 8 && c.g / 4 == e.g / 4 && c.b / 8 == e.b / 8
  }

  lemma ScaleByAll(c: Colour)
    ensures ScaleColour(c, 255) == c && ScaleColour(c, 0) == Colour(0, 0, 0)
  {
  }

  /** The opaque shortcut computes what the formula does, in every blending mode. */
  lemma OpaqueShortcut(d: Px, p: seq<Byte>, f: Format, bl: Blending)
    requires IsTexel(p, f)
    ensures Mix(d, ColourOf(p, f), 255, bl) == ToRgb565(p, f)
  {
    MixOpaque(d, ColourOf(p, f), bl);
    if f.Rgb565? { PackUnpack(LittleEndian(p)); }
  }

  lemma MixOpaque(d: Px, c: Colour, bl: Blending)
    ensures Mix(d, c, 255, bl) == Pack(c)
  {
    ScaleByAll(c);
    ScaleByAll(Unpack(d));
  }

  /** The formula for a transparent pixel. */
  lemma MixClear(d: Px, c: Colour, bl: Blending)
    ensures var s, u := if bl.Coverage? then Colour(0, 0, 0) else c, Unpack(d);
      Mix(d, c, 0, bl) == Pack(Colour(Saturate(s.r + u.r), Saturate(s.g + u.g), Saturate(s.b + u.b)))
  {
    ScaleByAll(c);
    ScaleByAll(Unpack(d));
  }

  lemma PackIs(c: Colour, d: Px)
    requires c.r / 8 == d / 2048 && c.g / 4 == d / 32 % 64 && c.b / 8 == d % 32
    ensures Pack(c) == d
  {
    assert d / 32 == d / 2048 * 64 + d / 32 % 64;
  }

  lemma ClearAt(d: Px, c: Colour, bl: Blending)
    requires bl.Coverage? || SameOnPanel(c, Colour(0, 0, 0))
    ensures Mix(d, c, 0, bl) == d
  {
    var s, u := if bl.Coverage? then Colour(0, 0, 0) else c, Unpack(d);
    MixClear(d, c, bl);
    Dark(d / 2048, 8, s.r);
    Dark(d / 32 % 64, 4, s.g);
    Dark(d % 32, 8, s.b);
    PackIs(Colour(Saturate(s.r + u.r), Saturate(s.g + u.g), Saturate(s.b + u.b)), d);
  }

  lemma Dark(q: nat, k: nat, x: nat)
    requires (k == 8 && q < 32) || (k == 4 && q < 64)
    requires x < k
    ensures Saturate(x + q * k) / k == q
  {
  }

  lemma ClearShows(c: Colour, bl: Blending)
    requires !bl.Coverage? && !SameOnPanel(c, Colour(0, 0, 0))
    ensures Mix(0, c, 0, bl) != 0
  {
    MixClear(0, c, bl);
    ByteStays(c);
    PackShows(c);
  }

  lemma ByteStays(c: Colour)
    ensures var u := Unpack(0);
      Colour(Saturate(c.r + u.r), Saturate(c.g + u.g), Saturate(c.b + u.b)) == c
  {
  }

  lemma PackShows(c: Colour)
    requires !SameOnPanel(c, Colour(0, 0, 0))
    ensures Pack(c) > 0
  {
  }

  /** The transparent shortcut leaves out what the formula would add, and that is nothing for
      every destination exactly when blending by coverage, or when the colour is too dark to
      register, as a premultiplied transparent one is. */
  lemma ClearShortcut(c: Colour, bl: Blending)
    ensures (forall d :: Mix(d, c, 0, bl) == d) <==> bl.Coverage? || SameOnPanel(c, Colour(0, 0, 0))
  {
    if bl.Coverage? || SameOnPanel(c, Colour(0, 0, 0)) {
      forall d ensures Mix(d, c, 0, bl) == d { ClearAt(d, c, bl); }
    } else {
      ClearShows(c, bl);
    }
  }

  /** Premultiplied colours never saturate. */
  lemma NeverSaturates(d: Px, c: Colour, a: Byte)
    requires c.r <= a && c.g <= a && c.b <= a
    ensures var u := ScaleColour(Unpack(d), 255 - a);
      c.r + u.r <= 255 && c.g + u.g <= 255 && c.b + u.b <= 255
  {
    var u := Unpack(d);
    ScaleBounds(u.r, 255 - a); ScaleBounds(u.g, 255 - a); ScaleBounds(u.b, 255 - a);
  }

  /** A layer with no alpha of its own replaces what is under it. */
  lemma OpaqueBlend(d: Px, p: seq<Byte>, f: Format, bl: Blending)
    requires IsTexel(p, f) && AlphaOf(p, f, bl) == 255
    ensures Blend(d, p, f, bl, 255) == ToRgb565(p, f)
  {
  }
}
