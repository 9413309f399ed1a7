/** Colours, and the three framebuffer pixel formats (src/ftk_bitmap.c, src/ftk_typedef.h). */
module Pixels {
  import opened Bytes

  datatype Color = Color(b: byte, g: byte, r: byte, a: byte)

  /**
   How a framebuffer stores pixels of type `P`: `get` turns a pixel into a colour, `put` draws a
   colour over a pixel.  `solid` picks out the pixels that carry no transparency of their own.
   */
  datatype Format<!P> = Format(get: P -> Color, put: (Color, P) -> P, solid: P -> bool)

  /** A saved pixel can be put back, and drawing leaves nothing but solid pixels. */
  ghost predicate Lawful<P(!new)>(format: Format<P>) {
    && (forall p, q :: format.solid(p) ==> format.put(format.get(p), q) == p)
    && (forall c, q :: format.solid(format.put(c, q)))
  }

  lemma TimesByte(x: byte, k: nat)
    ensures 0 <= x * k <= 0xFF * k
  {
  }

  lemma BlendInRange(s: byte, d: byte, a: byte)
    ensures 0 <= d * (0xFF - a) + s * a + 0xFF < 0x1_0000
  {
    TimesByte(d, 0xFF - a);
    TimesByte(s, a);
    assert 0xFF * (0xFF - a) + 0xFF * a == 0xFF * 0xFF;
  }

  /** FTK_ALPHA_1: the new value of `d` when `s` is drawn over it with alpha `a`. */
  function Blend(s: byte, d: byte, a: byte): byte {
    BlendInRange(s, d, a);
    (d * (0xFF - a) + s * a + 0xFF) / 0x100
  }

  lemma Times(x: int, k: int, l: int)
    ensures k <= l && x >= 0 ==> x * k <= x * l
  {
  }

  /** The new value lies between the two, and is one of them if nothing or everything is covered. */
  lemma BlendBetween(s: byte, d: byte, a: byte)
    ensures if s <= d then s <= Blend(s, d, a) <= d else d <= Blend(s, d, a) <= s
    ensures Blend(s, d, 0) == d && Blend(s, d, 0xFF) == s && Blend(s, s, a) == s
  {
    BlendMoves(s, d, 0, a);
    BlendMoves(s, d, a, 0xFF);
    BlendInRange(s, s, a);
    assert s * (0xFF - a) + s * a == s * 0xFF;
  }

  /** It moves from `d` towards `s` as alpha grows. */
  lemma BlendMoves(s: byte, d: byte, a: byte, b: byte)
    requires a <= b
    ensures if s <= d then Blend(s, d, b) <= Blend(s, d, a) else Blend(s, d, a) <= Blend(s, d, b)
  {
    assert d * (0xFF - a) + s * a == 0xFF * d + (s - d) * a;
    assert d * (0xFF - b) + s * b == 0xFF * d + (s - d) * b;
    if s <= d {
      Times(d - s, a, b);
      assert (s - d) * a == -((d - s) * a) && (s - d) * b == -((d - s) * b);
    } else {
      Times(s - d, a, b);
    }
  }

  // ---------------------------------------------------------------- RGB565

  function Get565(p: uint16): Color {
    Color(p % 32 * 8, p / 32 % 64 * 4, p / 2048 * 8, 0xFF)
  }

  function Pack565(r: byte, g: byte, b: byte): uint16 {
    r / 8 * 2048 + g / 4 * 32 + b / 8
  }

  function Put565(c: Color, p: uint16): uint16 {
    if c.a == 0xFF then Pack565(c.r, c.g, c.b)
    else
      var d := Get565(p);
      Pack565(Blend(c.r, d.r, c.a), Blend(c.g, d.g, c.a), Blend(c.b, d.b, c.a))
  }

  /** Red is in the upper five bits, green in the six below, blue in the lower five. */
  lemma Bits565(p: uint16)
    ensures var c := Get565(p);
            && p == (c.r / 8) * 0x800 + (c.g / 4) * 0x20 + c.b / 8
            && c.r % 8 == 0 && c.g % 4 == 0 && c.b % 8 == 0 && c.a == 0xFF
  {
    var b, g, r := p % 32, p / 32 % 64, p / 2048;
    assert p == r * 2048 + g * 32 + b;
    assert r * 8 / 8 == r && g * 4 / 4 == g && b * 8 / 8 == b;
  }

  lemma Fields(r: nat, g: nat, b: nat)
    requires r < 0x20 && g < 0x40 && b < 0x20
    ensures var q := r * 0x800 + g * 0x20 + b;
            q / 0x800 == r && q / 0x20 % 0x40 == g && q % 0x20 == b
  {
    var q := r * 0x800 + g * 0x20 + b;
    assert q / 0x20 == r * 0x40 + g;
  }

  lemma PackedFields(r: byte, g: byte, b: byte)
    ensures var q := Pack565(r, g, b);
            q / 0x800 == r / 8 && q / 0x20 % 0x40 == g / 4 && q % 0x20 == b / 8
  {
    Fields(r / 8, g / 4, b / 8);
  }

  /** And so they are written: the colour, or its mixture with what is there, channel by channel. */
  lemma Written565(c: Color, p: uint16)
    ensures var q, d := Put565(c, p), Get565(p);
            && q / 0x800 == (if c.a == 0xFF then c.r else Blend(c.r, d.r, c.a)) / 8
            && q / 0x20 % 0x40 == (if c.a == 0xFF then c.g else Blend(c.g, d.g, c.a)) / 4
            && q % 0x20 == (if c.a == 0xFF then c.b else Blend(c.b, d.b, c.a)) / 8
  {
    hide Blend, Pack565, Get565;
    var d := Get565(p);
    PackedFields(c.r, c.g, c.b);
    PackedFields(Blend(c.r, d.r, c.a), Blend(c.g, d.g, c.a), Blend(c.b, d.b, c.a));
  }

  const RGB565: Format<uint16> := Format(p => Get565(p), (c, p) => Put565(c, p), p => true)

  // ---------------------------------------------------------------- BGR24

  /** Three bytes of a BGR24 framebuffer. */
  datatype Bgr = Bgr(b: byte, g: byte, r: byte)

  function Get24(p: Bgr): Color {
    Color(p.b, p.g, p.r, 0xFF)
  }

  function Put24(c: Color, p: Bgr): Bgr {
    if c.a == 0xFF then Bgr(c.b, c.g, c.r)
    else Bgr(Blend(c.b, p.b, c.a), Blend(c.g, p.g, c.a), Blend(c.r, p.r, c.a))
  }

  const BGR24: Format<Bgr> := Format(p => Get24(p), (c, p) => Put24(c, p), p => true)

  // ---------------------------------------------------------------- BGRA32

  function Put32(c: Color, p: Color): Color {
    if c.a == 0xFF then c
    else Color(Blend(c.b, p.b, c.a), Blend(c.g, p.g, c.a), Blend(c.r, p.r, c.a), 0xFF)
  }

  /** Here a pixel keeps its alpha when it is read, so only opaque pixels survive a round trip. */
  const BGRA32: Format<Color> := Format((p: Color) => p, (c, p) => Put32(c, p), (p: Color) => p.a == 0xFF)

  /** The mixture of the other two formats, channel by channel; what is written is opaque. */
  lemma WrittenChannels(c: Color, p: Bgr, q: Color)
    ensures Put24(c, p).b == Blend(c.b, p.b, c.a) && Put24(c, p).g == Blend(c.g, p.g, c.a)
    ensures Put24(c, p).r == Blend(c.r, p.r, c.a)
    ensures Put32(c, q).b == Blend(c.b, q.b, c.a) && Put32(c, q).g == Blend(c.g, q.g, c.a)
    ensures Put32(c, q).r == Blend(c.r, q.r, c.a) && Put32(c, q).a == 0xFF
  {
    hide Blend;
    if c.a == 0xFF {
      BlendBetween(c.b, p.b, c.a);
      BlendBetween(c.g, p.g, c.a);
      BlendBetween(c.r, p.r, c.a);
      BlendBetween(c.b, q.b, c.a);
      BlendBetween(c.g, q.g, c.a);
      BlendBetween(c.r, q.r, c.a);
    }
  }

  // ---------------------------------------------------------------- round trips

  /** Reading an RGB565 pixel and storing it again restores all 16 bits. */
  lemma RoundTrip565(p: uint16, q: uint16)
    ensures Put565(Get565(p), q) == p
  {
    var b, g, r := p % 32, p / 32 % 64, p / 2048;
    assert p == r * 2048 + g * 32 + b;
    Unscale(b, g, r);
    assert Put565(Get565(p), q) == Pack565(r * 8, g * 4, b * 8);
  }

  lemma Unscale(b: nat, g: nat, r: nat)
    requires b < 32 && g < 64 && r < 32
    ensures Pack565(r * 8, g * 4, b * 8) == r * 2048 + g * 32 + b
  {
  }

  lemma Rgb565Lawful()
    ensures Lawful(RGB565)
  {
    forall p, q: uint16
      ensures RGB565.put(RGB565.get(p), q) == p
    {
      RoundTrip565(p, q);
    }
  }

  lemma Bgr24Lawful()
    ensures Lawful(BGR24)
  {
  }

  lemma Bgra32Lawful()
    ensures Lawful(BGRA32)
  {
  }

  /** A translucent BGRA32 pixel is not restored: this is what `solid` is for. */
  lemma Bgra32RestoresIff(p: Color)
    ensures (forall q :: BGRA32.put(BGRA32.get(p), q) == p) <==> BGRA32.solid(p)
  {
    if p.a != 0xFF {
      assert BGRA32.put(BGRA32.get(p), p).a == 0xFF;
    }
  }
}
