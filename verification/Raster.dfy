/** Rectangular images, and their row-by-row layout in memory. */
module Raster {

  datatype Image<P> = Image(width: nat, height: nat, rows: seq<seq<P>>) {

    predicate Valid() {
      |rows| == height && forall y :: 0 <= y < height ==> |rows[y]| == width
    }

    predicate Inside(x: int, y: int) {
      0 <= x < width && 0 <= y < height
    }

    /** The pixel in column `x` of row `y`. */
    function At(x: int, y: int): P
      requires Valid() && Inside(x, y)
    {
      rows[y][x]
    }

    function Set(x: int, y: int, p: P): (r: Image<P>)
      requires Valid() && Inside(x, y)
      ensures r.Valid() && r.width == width && r.height == height
      ensures forall i, j :: Inside(i, j) ==> r.At(i, j) == if i == x && j == y then p else At(i, j)
    {
      Image(width, height, rows[y := rows[y][x := p]])
    }
  }

  /** The image whose pixels are given by `f`. */
  function Tabulate<P>(w: nat, h: nat, f: (int, int) --> P): (img: Image<P>)
    requires forall x, y :: 0 <= x < w && 0 <= y < h ==> f.requires(x, y)
    ensures img.Valid() && img.width == w && img.height == h
    ensures forall x, y :: img.Inside(x, y) ==> img.At(x, y) == f(x, y)
  {
    Image(w, h, seq(h, y requires 0 <= y < h => seq(w, x requires 0 <= x < w => f(x, y))))
  }

  lemma SameImage<P>(a: Image<P>, b: Image<P>)
    requires a.Valid() && b.Valid() && a.width == b.width && a.height == b.height
    requires forall x, y :: a.Inside(x, y) ==> a.At(x, y) == b.At(x, y)
    ensures a == b
  {
    forall y | 0 <= y < a.height
      ensures a.rows[y] == b.rows[y]
    {
      forall x | 0 <= x < a.width
        ensures a.rows[y][x] == b.rows[y][x]
      {
        assert a.At(x, y) == b.At(x, y);
      }
    }
  }

  // ---------------------------------------------------------------- memory layout

  /** Where row `y` starts. */
  function RowStart(y: int, w: nat): int {
    y * w
  }

  lemma NextRow(y: int, w: nat)
    ensures RowStart(y + 1, w) == RowStart(y, w) + w
  {
  }

  /** Where the pixel in column `x` of row `y` is stored. */
  function Offset(x: int, y: int, w: nat): int {
    RowStart(y, w) + x
  }

  lemma OffsetInside(x: int, y: int, w: nat, h: nat)
    requires 0 <= x < w && 0 <= y < h
    ensures 0 <= Offset(x, y, w) < w * h
  {
    assert (y + 1) * w <= h * w;
  }

  lemma OffsetOrder(x: int, y: int, i: int, j: int, w: nat)
    requires 0 <= x < w && 0 <= i < w && y < j
    ensures Offset(x, y, w) < Offset(i, j, w)
  {
    assert (y + 1) * w <= j * w;
  }

  lemma OffsetInjective(x: int, y: int, i: int, j: int, w: nat)
    requires 0 <= x < w && 0 <= i < w
    ensures Offset(x, y, w) == Offset(i, j, w) ==> x == i && y == j
  {
    if y < j {
      OffsetOrder(x, y, i, j, w);
    } else if j < y {
      OffsetOrder(i, j, x, y, w);
    }
  }

  /** A block of memory read as an image. */
  function Layout<P>(s: seq<P>, w: nat, h: nat): (img: Image<P>)
    requires |s| == w * h
    ensures img.Valid() && img.width == w && img.height == h
  {
    Tabulate(w, h, (x, y) requires 0 <= x < w && 0 <= y < h => OffsetInside(x, y, w, h); s[Offset(x, y, w)])
  }

  lemma ReadPixel<P>(s: seq<P>, w: nat, h: nat, x: int, y: int)
    requires |s| == w * h && 0 <= x < w && 0 <= y < h
    ensures 0 <= Offset(x, y, w) < |s|
    ensures Layout(s, w, h).At(x, y) == s[Offset(x, y, w)]
  {
    OffsetInside(x, y, w, h);
  }

  /** Storing one element of the block sets one pixel and leaves every other one alone. */
  lemma WritePixel<P>(s: seq<P>, w: nat, h: nat, x: int, y: int, p: P)
    requires |s| == w * h && 0 <= x < w && 0 <= y < h
    ensures 0 <= Offset(x, y, w) < |s|
    ensures Layout(s[Offset(x, y, w) := p], w, h) == Layout(s, w, h).Set(x, y, p)
  {
    OffsetInside(x, y, w, h);
    var t := s[Offset(x, y, w) := p];
    var a, b := Layout(t, w, h), Layout(s, w, h).Set(x, y, p);
    forall i, j | a.Inside(i, j)
      ensures a.At(i, j) == b.At(i, j)
    {
      OffsetInside(i, j, w, h);
      OffsetInjective(i, j, x, y, w);
    }
    SameImage(a, b);
  }

  // ---------------------------------------------------------------- copying a rectangle

  /** Source and destination of a copy; a negative width or height copies nothing. */
  datatype Area = Area(x: nat, y: nat, w: int, h: int, ox: nat, oy: nat) {

    predicate Fits(sw: nat, sh: nat, dw: nat, dh: nat) {
      x + w <= sw && y + h <= sh && ox + w <= dw && oy + h <= dh
    }

    /** The destination pixels that are written. */
    predicate Covers(px: int, py: int) {
      ox <= px < ox + w && oy <= py < oy + h
    }
  }

  /** `dst` after every pixel p under the area has become f(s, p), s being the pixel copied onto it. */
  function Blit<S, D>(f: (S, D) -> D, dst: Image<D>, src: Image<S>, a: Area): (r: Image<D>)
    requires dst.Valid() && src.Valid() && a.Fits(src.width, src.height, dst.width, dst.height)
    ensures r.Valid() && r.width == dst.width && r.height == dst.height
  {
    Tabulate(dst.width, dst.height, (px, py) requires dst.Inside(px, py) =>
      if a.Covers(px, py) then f(src.At(px - a.ox + a.x, py - a.oy + a.y), dst.At(px, py))
      else dst.At(px, py))
  }

  /** `Blit` with `i` whole rows and `j` pixels of the next one done. */
  ghost predicate BlitProgress<S, D>(f: (S, D) -> D, img: Image<D>, dst: Image<D>, src: Image<S>,
                                     a: Area, i: int, j: int)
    requires dst.Valid() && src.Valid() && a.Fits(src.width, src.height, dst.width, dst.height)
    requires img.Valid() && img.width == dst.width && img.height == dst.height
  {
    forall px, py :: dst.Inside(px, py) ==>
      img.At(px, py) ==
        if a.Covers(px, py) && (py - a.oy < i || (py - a.oy == i && px - a.ox < j))
        then f(src.At(px - a.ox + a.x, py - a.oy + a.y), dst.At(px, py))
        else dst.At(px, py)
  }

  lemma BlitStep<S, D>(f: (S, D) -> D, img: Image<D>, dst: Image<D>, src: Image<S>, a: Area, i: int, j: int)
    requires dst.Valid() && src.Valid() && a.Fits(src.width, src.height, dst.width, dst.height)
    requires img.Valid() && img.width == dst.width && img.height == dst.height
    requires 0 <= i < a.h && 0 <= j < a.w
    requires BlitProgress(f, img, dst, src, a, i, j)
    ensures img.At(a.ox + j, a.oy + i) == dst.At(a.ox + j, a.oy + i)
    ensures var p := f(src.At(a.x + j, a.y + i), dst.At(a.ox + j, a.oy + i));
            BlitProgress(f, img.Set(a.ox + j, a.oy + i, p), dst, src, a, i, j + 1)
  {
    assert dst.Inside(a.ox + j, a.oy + i);
  }

  lemma BlitDone<S, D>(f: (S, D) -> D, img: Image<D>, dst: Image<D>, src: Image<S>, a: Area, i: int)
    requires dst.Valid() && src.Valid() && a.Fits(src.width, src.height, dst.width, dst.height)
    requires img.Valid() && img.width == dst.width && img.height == dst.height
    requires BlitProgress(f, img, dst, src, a, i, 0) && i >= a.h
    ensures img == Blit(f, dst, src, a)
  {
    SameImage(img, Blit(f, dst, src, a));
  }

  /** The double loop over moving source and destination pointers. */
  method CopyArea<S, D>(f: (S, D) -> D, src: array<S>, sw: nat, sh: nat,
                        dst: array<D>, dw: nat, dh: nat, a: Area)
    requires src.Length == sw * sh && dst.Length == dw * dh && src as object != dst
    requires a.Fits(sw, sh, dw, dh)
    modifies dst
    ensures Layout(dst[..], dw, dh)
         == Blit(f, old(Layout(dst[..], dw, dh)), Layout(src[..], sw, sh), a)
  {
    hide Layout, Blit, BlitProgress, RowStart;
    ghost var img0, srcImg := Layout(dst[..], dw, dh), Layout(src[..], sw, sh);
    var s, d := RowStart(a.y, sw), RowStart(a.oy, dw);
    var i := 0;
    BlitStart(f, img0, srcImg, a);
    while i < a.h
      invariant 0 <= i && (i <= a.h || i == 0)
      invariant s == RowStart(a.y + i, sw) && d == RowStart(a.oy + i, dw)
      invariant BlitProgress(f, Layout(dst[..], dw, dh), img0, srcImg, a, i, 0)
    {
      var j := 0;
      while j < a.w
        invariant 0 <= j && (j <= a.w || j == 0)
        invariant BlitProgress(f, Layout(dst[..], dw, dh), img0, srcImg, a, i, j)
      {
        ghost var before := dst[..];
        BlitStep(f, Layout(before, dw, dh), img0, srcImg, a, i, j);
        ReadPixel(src[..], sw, sh, a.x + j, a.y + i);
        ReadPixel(before, dw, dh, a.ox + j, a.oy + i);
        var p := f(src[s + a.x + j], dst[d + a.ox + j]);
        WritePixel(before, dw, dh, a.ox + j, a.oy + i, p);
        dst[d + a.ox + j] := p;
        assert dst[..] == before[d + a.ox + j := p];
        j := j + 1;
      }
      BlitNextRow(f, Layout(dst[..], dw, dh), img0, srcImg, a, i, j);
      NextRow(a.y + i, sw);
      NextRow(a.oy + i, dw);
      s := s + sw;
      d := d + dw;
      i := i + 1;
    }
    BlitDone(f, Layout(dst[..], dw, dh), img0, srcImg, a, i);
  }

  lemma BlitStart<S, D>(f: (S, D) -> D, dst: Image<D>, src: Image<S>, a: Area)
    requires dst.Valid() && src.Valid() && a.Fits(src.width, src.height, dst.width, dst.height)
    ensures BlitProgress(f, dst, dst, src, a, 0, 0)
  {
  }

  lemma BlitNextRow<S, D>(f: (S, D) -> D, img: Image<D>, dst: Image<D>, src: Image<S>, a: Area, i: int, j: int)
    requires dst.Valid() && src.Valid() && a.Fits(src.width, src.height, dst.width, dst.height)
    requires img.Valid() && img.width == dst.width && img.height == dst.height
    requires BlitProgress(f, img, dst, src, a, i, j) && j >= a.w
    ensures BlitProgress(f, img, dst, src, a, i + 1, 0)
  {
  }
}
