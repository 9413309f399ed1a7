/** Bitmaps and the copies between a bitmap and a framebuffer (src/ftk_bitmap.c). */
module Bitmaps {
  import opened Bytes
  import opened Pixels
  import opened Raster

  datatype Ret = Ok | Fail

  datatype Rect = Rect(x: int, y: int, width: int, height: int)

  class Bitmap {
    const width: nat
    const height: nat
    const data: array<Color>

    constructor (w: nat, h: nat, clear: Color)
      ensures Valid() && width == w && height == h && fresh(data)
      ensures forall x, y :: View().Inside(x, y) ==> View().At(x, y) == clear
    {
      width, height := w, h;
      data := new Color[w * h](_ => clear);
      new;
      forall x, y | View().Inside(x, y)
        ensures View().At(x, y) == clear
      {
        ReadPixel(data[..], w, h, x, y);
      }
    }

    ghost predicate Valid() {
      data.Length == width * height
    }

    /** The pixels as an image. */
    ghost function View(): (img: Image<Color>)
      requires Valid()
      reads data
      ensures img.Valid() && img.width == width && img.height == height
    {
      Layout(data[..], width, height)
    }
  }

  // ---------------------------------------------------------------- clipping

  /** COPY_FROM_DECL: what is copied from a `dw` by `dh` framebuffer to the corner of a bitmap. */
  function FromArea(rect: Option<Rect>, bw: nat, bh: nat, dw: nat, dh: nat): (r: Option<Area>)
    ensures r.Some? ==> r.value.Fits(dw, dh, bw, bh)
  {
    var x := if rect.Some? then Max(rect.value.x, 0) else 0;
    var y := if rect.Some? then Max(rect.value.y, 0) else 0;
    if !(x < dw && y < dh) then None
    else
      var w := Min(if rect.Some? then rect.value.width else bw, bw);
      var h := Min(if rect.Some? then rect.value.height else bh, bh);
      Some(Area(x, y, if x + w < dw then w else dw - x, if y + h < dh then h else dh - y, 0, 0))
  }

  /** COPY_TO_DECL: what is copied from a bitmap to (ox, oy) of a `dw` by `dh` framebuffer. */
  function ToArea(rect: Option<Rect>, bw: nat, bh: nat, ox: nat, oy: nat, dw: nat, dh: nat): (r: Option<Area>)
    ensures r.Some? ==> r.value.Fits(bw, bh, dw, dh)
  {
    var rx := if rect.Some? then rect.value.x else 0;
    var ry := if rect.Some? then rect.value.y else 0;
    if !(ox < dw && oy < dh && rx < bw && ry < bh) then None
    else
      var x, y := Max(rx, 0), Max(ry, 0);
      var w0 := if rect.Some? then rect.value.width else bw;
      var h0 := if rect.Some? then rect.value.height else bh;
      var w1 := if x + w0 < bw then w0 else bw - x;
      var h1 := if y + h0 < bh then h0 else bh - y;
      Some(Area(x, y, if ox + w1 < dw then w1 else dw - ox, if oy + h1 < dh then h1 else dh - oy, ox, oy))
  }

  // ---------------------------------------------------------------- what the copies do

  /** The pixel function of a copy into a bitmap: the old colour does not matter. */
  function Reading<P>(get: P -> Color): (P, Color) -> Color {
    (p, c) => get(p)
  }

  function CopiedFrom<P>(get: P -> Color, bmp: Image<Color>, screen: Image<P>, rect: Option<Rect>): (r: Image<Color>)
    requires bmp.Valid() && screen.Valid()
    ensures r.Valid() && r.width == bmp.width && r.height == bmp.height
  {
    match FromArea(rect, bmp.width, bmp.height, screen.width, screen.height)
    case None => bmp
    case Some(a) => Blit(Reading(get), bmp, screen, a)
  }

  function CopiedTo<P>(put: (Color, P) -> P, screen: Image<P>, bmp: Image<Color>, rect: Option<Rect>,
                       ox: nat, oy: nat): (r: Image<P>)
    requires bmp.Valid() && screen.Valid()
    ensures r.Valid() && r.width == screen.width && r.height == screen.height
  {
    match ToArea(rect, bmp.width, bmp.height, ox, oy, screen.width, screen.height)
    case None => screen
    case Some(a) => Blit(put, screen, bmp, a)
  }

  /** The framebuffer pixels that a copy draws: under the rectangle, and under the bitmap. */
  predicate Drawn(rect: Rect, bw: nat, bh: nat, ox: nat, oy: nat, px: int, py: int) {
    && 0 <= px - ox < rect.width && px - ox + Max(rect.x, 0) < bw
    && 0 <= py - oy < rect.height && py - oy + Max(rect.y, 0) < bh
  }

  /** A copy draws exactly those pixels, each with its own source pixel, and no other. */
  lemma CopiedToAt<P>(put: (Color, P) -> P, screen: Image<P>, bmp: Image<Color>, rect: Rect,
                      ox: nat, oy: nat, px: int, py: int)
    requires bmp.Valid() && screen.Valid() && screen.Inside(px, py)
    ensures CopiedTo(put, screen, bmp, Some(rect), ox, oy).At(px, py)
         == if Drawn(rect, bmp.width, bmp.height, ox, oy, px, py)
            then put(bmp.At(px - ox + Max(rect.x, 0), py - oy + Max(rect.y, 0)), screen.At(px, py))
            else screen.At(px, py)
  {
    var area := ToArea(Some(rect), bmp.width, bmp.height, ox, oy, screen.width, screen.height);
    if area.Some? {
      assert Blit(put, screen, bmp, area.value).Inside(px, py);
    }
  }

  /** The bitmap pixels that are filled: inside the rectangle, and on the framebuffer. */
  predicate Filled(rect: Rect, dw: nat, dh: nat, px: int, py: int) {
    && px < rect.width && px + Max(rect.x, 0) < dw
    && py < rect.height && py + Max(rect.y, 0) < dh
  }

  lemma CopiedFromAt<P>(get: P -> Color, bmp: Image<Color>, screen: Image<P>, rect: Rect, px: int, py: int)
    requires bmp.Valid() && screen.Valid() && bmp.Inside(px, py)
    ensures CopiedFrom(get, bmp, screen, Some(rect)).At(px, py)
         == if Filled(rect, screen.width, screen.height, px, py)
            then get(screen.At(px + Max(rect.x, 0), py + Max(rect.y, 0)))
            else bmp.At(px, py)
  {
    var area := FromArea(Some(rect), bmp.width, bmp.height, screen.width, screen.height);
    if area.Some? {
      assert Blit(Reading(get), bmp, screen, area.value).Inside(px, py);
    }
  }

  /** ftk_bitmap_copy_from_data_*, for one array element per pixel. */
  method CopyFromData<P>(get: P -> Color, bitmap: Bitmap, data: array<P>, dw: nat, dh: nat, rect: Option<Rect>)
    returns (ret: Ret)
    requires bitmap.Valid() && data.Length == dw * dh && data as object != bitmap.data
    modifies bitmap.data
    ensures bitmap.View() == CopiedFrom(get, old(bitmap.View()), Layout(data[..], dw, dh), rect)
    ensures ret == if FromArea(rect, bitmap.width, bitmap.height, dw, dh).Some? then Ok else Fail
  {
    hide FromArea;
    var area := FromArea(rect, bitmap.width, bitmap.height, dw, dh);
    if area.None? {
      return Fail;
    }
    CopyArea(Reading(get), data, dw, dh, bitmap.data, bitmap.width, bitmap.height, area.value);
    ret := Ok;
  }

  /** ftk_bitmap_copy_to_data_*, for one array element per pixel. */
  method CopyToData<P>(put: (Color, P) -> P, bitmap: Bitmap, rect: Option<Rect>, data: array<P>,
                       ox: nat, oy: nat, dw: nat, dh: nat)
    returns (ret: Ret)
    requires bitmap.Valid() && data.Length == dw * dh && bitmap.data as object != data
    modifies data
    ensures Layout(data[..], dw, dh) == CopiedTo(put, old(Layout(data[..], dw, dh)), bitmap.View(), rect, ox, oy)
    ensures ret == if ToArea(rect, bitmap.width, bitmap.height, ox, oy, dw, dh).Some? then Ok else Fail
  {
    hide ToArea;
    var area := ToArea(rect, bitmap.width, bitmap.height, ox, oy, dw, dh);
    if area.None? {
      return Fail;
    }
    CopyArea(put, bitmap.data, bitmap.width, bitmap.height, data, dw, dh, area.value);
    ret := Ok;
  }

  // ---------------------------------------------------------------- three bytes per pixel

  /** A BGR24 framebuffer, pixel by pixel. */
  function Triples(s: seq<byte>, n: nat): (r: seq<Bgr>)
    requires |s| == 3 * n
    ensures |r| == n
  {
    seq(n, k requires 0 <= k < n => Bgr(s[3 * k], s[3 * k + 1], s[3 * k + 2]))
  }

  function SetTriple(s: seq<byte>, k: nat, p: Bgr): seq<byte>
    requires 3 * k + 2 < |s|
  {
    s[..3 * k] + [p.b, p.g, p.r] + s[3 * k + 3..]
  }

  lemma WriteTriple(s: seq<byte>, n: nat, k: nat, p: Bgr)
    requires |s| == 3 * n && k < n
    ensures Triples(SetTriple(s, k, p), n) == Triples(s, n)[k := p]
  {
  }

  lemma TripleAt(s: seq<byte>, n: nat, k: nat)
    requires |s| == 3 * n && k < n
    ensures Triples(s, n)[k] == Bgr(s[3 * k], s[3 * k + 1], s[3 * k + 2])
  {
  }

  /** The inner body of ftk_bitmap_copy_to_data_bgr24: draws one colour over three bytes. */
  method DrawTriple(c: Color, data: array<byte>, pdst: nat, ghost n: nat, ghost k: nat)
    requires data.Length == 3 * n && k < n && pdst == 3 * k
    modifies data
    ensures Triples(data[..], n) == old(Triples(data[..], n)[k := Put24(c, Triples(data[..], n)[k])])
  {
    ghost var before := data[..];
    ghost var p := Put24(c, Triples(before, n)[k]);
    hide Blend;
    TripleAt(before, n, k);
    WriteTriple(before, n, k, p);
    hide Triples;
    if c.a == 0xFF {
      data[pdst] := c.b;
      data[pdst + 1] := c.g;
      data[pdst + 2] := c.r;
    } else {
      data[pdst] := Blend(c.b, data[pdst], c.a);
      data[pdst + 1] := Blend(c.g, data[pdst + 1], c.a);
      data[pdst + 2] := Blend(c.r, data[pdst + 2], c.a);
    }
    assert data[..] == SetTriple(before, k, p);
  }

  /** The double loop of ftk_bitmap_copy_to_data_bgr24; `n` is the number of pixels. */
  method CopyAreaToTriples(ghost f: (Color, Bgr) -> Bgr, src: array<Color>, sw: nat, sh: nat,
                           dst: array<byte>, dw: nat, dh: nat, a: Area, ghost n: nat)
    requires forall c, p :: f(c, p) == Put24(c, p)
    requires src.Length == sw * sh && n == dw * dh && dst.Length == 3 * n
    requires a.Fits(sw, sh, dw, dh)
    modifies dst
    ensures Layout(Triples(dst[..], n), dw, dh)
         == Blit(f, old(Layout(Triples(dst[..], n), dw, dh)), Layout(src[..], sw, sh), a)
  {
    hide Layout, Blit, BlitProgress, RowStart, Triples, Put24;
    ghost var img0, srcImg := Layout(Triples(dst[..], n), dw, dh), Layout(src[..], sw, sh);
    var s, d := RowStart(a.y, sw), 3 * RowStart(a.oy, dw);
    var i := 0;
    BlitStart(f, img0, srcImg, a);
    while i < a.h
      invariant 0 <= i && (i <= a.h || i == 0)
      invariant s == RowStart(a.y + i, sw) && d == 3 * RowStart(a.oy + i, dw)
      invariant BlitProgress(f, Layout(Triples(dst[..], n), dw, dh), img0, srcImg, a, i, 0)
    {
      var pdst := d + 3 * a.ox;
      var j := 0;
      while j < a.w
        invariant 0 <= j && (j <= a.w || j == 0)
        invariant pdst == d + 3 * (a.ox + j)
        invariant BlitProgress(f, Layout(Triples(dst[..], n), dw, dh), img0, srcImg, a, i, j)
      {
        ghost var before := Triples(dst[..], n);
        BlitStep(f, Layout(before, dw, dh), img0, srcImg, a, i, j);
        ReadPixel(src[..], sw, sh, a.x + j, a.y + i);
        ReadPixel(before, dw, dh, a.ox + j, a.oy + i);
        ghost var k := Offset(a.ox + j, a.oy + i, dw);
        var psrc := src[s + a.x + j];
        WritePixel(before, dw, dh, a.ox + j, a.oy + i, Put24(psrc, before[k]));
        DrawTriple(psrc, dst, pdst, n, k);
        j := j + 1;
        pdst := pdst + 3;
      }
      BlitNextRow(f, Layout(Triples(dst[..], n), dw, dh), img0, srcImg, a, i, j);
      NextRow(a.y + i, sw);
      NextRow(a.oy + i, dw);
      s := s + sw;
      d := d + 3 * dw;
      i := i + 1;
    }
    BlitDone(f, Layout(Triples(dst[..], n), dw, dh), img0, srcImg, a, i);
  }

  /** ftk_bitmap_copy_to_data_bgr24 */
  method CopyToBgr24(bitmap: Bitmap, rect: Option<Rect>, data: array<byte>, ox: nat, oy: nat, dw: nat, dh: nat)
    returns (ret: Ret)
    requires bitmap.Valid() && data.Length == 3 * (dw * dh)
    modifies data
    ensures Layout(Triples(data[..], dw * dh), dw, dh)
         == CopiedTo(BGR24.put, old(Layout(Triples(data[..], dw * dh), dw, dh)), bitmap.View(), rect, ox, oy)
    ensures ret == if ToArea(rect, bitmap.width, bitmap.height, ox, oy, dw, dh).Some? then Ok else Fail
  {
    hide ToArea;
    var area := ToArea(rect, bitmap.width, bitmap.height, ox, oy, dw, dh);
    if area.None? {
      return Fail;
    }
    CopyAreaToTriples(BGR24.put, bitmap.data, bitmap.width, bitmap.height, data, dw, dh, area.value, dw * dh);
    ret := Ok;
  }

  /** The double loop of ftk_bitmap_copy_from_data_bgr24; `n` is the number of pixels. */
  method CopyAreaFromTriples(ghost f: (Bgr, Color) -> Color, src: array<byte>, sw: nat, sh: nat,
                             dst: array<Color>, dw: nat, dh: nat, a: Area, ghost n: nat)
    requires forall p, c :: f(p, c) == Get24(p)
    requires n == sw * sh && src.Length == 3 * n && dst.Length == dw * dh
    requires a.Fits(sw, sh, dw, dh)
    modifies dst
    ensures Layout(dst[..], dw, dh)
         == Blit(f, old(Layout(dst[..], dw, dh)), Layout(Triples(src[..], n), sw, sh), a)
  {
    hide Layout, Blit, BlitProgress, RowStart, Triples;
    ghost var pixels := Triples(src[..], n);
    ghost var img0, srcImg := Layout(dst[..], dw, dh), Layout(pixels, sw, sh);
    var s, d := 3 * (RowStart(a.y, sw) + a.x), RowStart(a.oy, dw);
    var i := 0;
    BlitStart(f, img0, srcImg, a);
    while i < a.h
      invariant 0 <= i && (i <= a.h || i == 0)
      invariant s == 3 * (RowStart(a.y + i, sw) + a.x) && d == RowStart(a.oy + i, dw)
      invariant BlitProgress(f, Layout(dst[..], dw, dh), img0, srcImg, a, i, 0)
    {
      var psrc := s;
      var j := 0;
      while j < a.w
        invariant 0 <= j && (j <= a.w || j == 0)
        invariant psrc == s + 3 * j
        invariant BlitProgress(f, Layout(dst[..], dw, dh), img0, srcImg, a, i, j)
      {
        ghost var before := dst[..];
        BlitStep(f, Layout(before, dw, dh), img0, srcImg, a, i, j);
        ReadPixel(pixels, sw, sh, a.x + j, a.y + i);
        ReadPixel(before, dw, dh, a.ox + j, a.oy + i);
        TripleAt(src[..], n, Offset(a.x + j, a.y + i, sw));
        var p := Color(src[psrc], src[psrc + 1], src[psrc + 2], 0xFF);
        WritePixel(before, dw, dh, a.ox + j, a.oy + i, p);
        dst[d + a.ox + j] := p;
        assert dst[..] == before[d + a.ox + j := p];
        j := j + 1;
        psrc := psrc + 3;
      }
      BlitNextRow(f, Layout(dst[..], dw, dh), img0, srcImg, a, i, j);
      NextRow(a.y + i, sw);
      NextRow(a.oy + i, dw);
      s := s + 3 * sw;
      d := d + dw;
      i := i + 1;
    }
    BlitDone(f, Layout(dst[..], dw, dh), img0, srcImg, a, i);
  }

  /** ftk_bitmap_copy_from_data_bgr24 */
  method CopyFromBgr24(bitmap: Bitmap, data: array<byte>, dw: nat, dh: nat, rect: Option<Rect>)
    returns (ret: Ret)
    requires bitmap.Valid() && data.Length == 3 * (dw * dh)
    modifies bitmap.data
    ensures bitmap.View()
         == CopiedFrom(BGR24.get, old(bitmap.View()), Layout(Triples(data[..], dw * dh), dw, dh), rect)
    ensures ret == if FromArea(rect, bitmap.width, bitmap.height, dw, dh).Some? then Ok else Fail
  {
    hide FromArea;
    var area := FromArea(rect, bitmap.width, bitmap.height, dw, dh);
    if area.None? {
      return Fail;
    }
    CopyAreaFromTriples(Reading(BGR24.get), data, dw, dh, bitmap.data, bitmap.width, bitmap.height,
                        area.value, dw * dh);
    ret := Ok;
  }

  // ---------------------------------------------------------------- save and restore

  /** A framebuffer without transparent pixels. */
  ghost predicate Solid<P>(format: Format<P>, screen: Image<P>)
    requires screen.Valid()
  {
    forall x, y :: screen.Inside(x, y) ==> format.solid(screen.At(x, y))
  }

  /** Reading a rectangle of the framebuffer into a bitmap and drawing it back changes nothing. */
  lemma SaveThenRestore<P(!new)>(format: Format<P>, screen: Image<P>, bmp: Image<Color>, rect: Rect)
    requires Lawful(format) && screen.Valid() && bmp.Valid() && Solid(format, screen)
    requires rect.x >= 0 && rect.y >= 0
    ensures var saved := CopiedFrom(format.get, bmp, screen, Some(rect));
            CopiedTo(format.put, screen, saved, Some(Rect(0, 0, rect.width, rect.height)), rect.x, rect.y)
            == screen
  {
    hide CopiedFrom, CopiedTo;
    var saved := CopiedFrom(format.get, bmp, screen, Some(rect));
    var whole := Rect(0, 0, rect.width, rect.height);
    var back := CopiedTo(format.put, screen, saved, Some(whole), rect.x, rect.y);
    forall px, py | screen.Inside(px, py)
      ensures back.At(px, py) == screen.At(px, py)
    {
      CopiedToAt(format.put, screen, saved, whole, rect.x, rect.y, px, py);
      if Drawn(whole, bmp.width, bmp.height, rect.x, rect.y, px, py) {
        CopiedFromAt(format.get, bmp, screen, rect, px - rect.x, py - rect.y);
      }
    }
    SameImage(back, screen);
  }

  /** Drawing keeps a framebuffer solid. */
  lemma DrawingIsSolid<P(!new)>(format: Format<P>, screen: Image<P>, bmp: Image<Color>, rect: Rect, ox: nat, oy: nat)
    requires Lawful(format) && screen.Valid() && bmp.Valid() && Solid(format, screen)
    ensures Solid(format, CopiedTo(format.put, screen, bmp, Some(rect), ox, oy))
  {
    var drawn := CopiedTo(format.put, screen, bmp, Some(rect), ox, oy);
    hide CopiedTo;
    forall x, y | drawn.Inside(x, y)
      ensures format.solid(drawn.At(x, y))
    {
      CopiedToAt(format.put, screen, bmp, rect, ox, oy, x, y);
    }
  }
}
