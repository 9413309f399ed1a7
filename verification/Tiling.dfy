/** Filling a background with copies of a bitmap (src/ftk_canvas.c). */
module Tiling {
  import opened Bytes

  function Wrap(a: nat, b: nat): (r: nat)
    requires b > 0
    ensures r < b
  {
    a % b
  }

  /** Inside a tile that begins at a multiple of the tile size. */
  lemma WrapInTile(tile: nat, b: nat, u: nat)
    requires b > 0 && Wrap(tile, b) == 0 && u < b
    ensures Wrap(tile + u, b) == u && Wrap(tile + b, b) == 0
  {
    var q := tile / b;
    assert tile == q * b;
    WrapMultiple(q, b, u);
    WrapMultiple(q + 1, b, 0);
    assert (q + 1) * b == tile + b;
  }

  lemma WrapMultiple(q: nat, b: nat, u: nat)
    requires u < b
    ensures q * b + u >= 0 && Wrap(q * b + u, b) == u
  {
    var t := q * b + u;
    var d, r := t / b - q, t % b;
    assert t == t / b * b + r;
    assert t / b * b == q * b + d * b;
    Grows(d, b);
    Grows(-d, b);
    assert d == 0;
  }

  lemma Grows(k: int, b: nat)
    ensures k >= 1 ==> k * b >= b
    ensures (-k) * b == -(k * b)
  {
  }

  /** The rectangle (x, y, w, h) contains (i, j). */
  predicate Inside(x: nat, y: nat, w: nat, h: nat, i: int, j: int) {
    x <= i < x + w && y <= j < y + h
  }

  /** ftk_canvas_draw_bitmap_simple from the bitmap's upper left corner */
  method DrawBitmapSimple<T>(canvas: array2<T>, bitmap: array2<T>, w: nat, h: nat, ox: nat, oy: nat)
    requires canvas != bitmap && ox + w <= canvas.Length0 && oy + h <= canvas.Length1
    requires w <= bitmap.Length0 && h <= bitmap.Length1
    modifies canvas
    ensures forall i, j :: 0 <= i < canvas.Length0 && 0 <= j < canvas.Length1 ==>
              canvas[i, j] == if Inside(ox, oy, w, h, i, j) then bitmap[i - ox, j - oy] else old(canvas[i, j])
  {
    forall i, j | 0 <= i < w && 0 <= j < h {
      canvas[ox + i, oy + j] := bitmap[i, j];
    }
  }

  /** The pixel of the pattern that belongs at (i, j). */
  function Pattern<T>(bitmap: array2<T>, x: nat, y: nat, i: nat, j: nat): T
    requires bitmap.Length0 > 0 && bitmap.Length1 > 0 && x <= i && y <= j
    reads bitmap
  {
    bitmap[Wrap(i - x, bitmap.Length0), Wrap(j - y, bitmap.Length1)]
  }

  /** One row of tiles. */
  method FillRow<T>(canvas: array2<T>, x: nat, y: nat, w: nat, h: nat, bitmap: array2<T>, dy: nat)
    requires canvas != bitmap && bitmap.Length0 > 0 && bitmap.Length1 > 0
    requires x + w <= canvas.Length0 && y + h <= canvas.Length1 && dy < h && Wrap(dy, bitmap.Length1) == 0
    modifies canvas
    ensures forall i, j :: 0 <= i < canvas.Length0 && 0 <= j < canvas.Length1 ==>
              canvas[i, j] == if Inside(x, y + dy, w, Min(bitmap.Length1, h - dy), i, j)
                              then Pattern(bitmap, x, y, i, j) else old(canvas[i, j])
  {
    hide Wrap;
    var bw, bh := bitmap.Length0, bitmap.Length1;
    var dx: nat := 0;
    WrapZero(bw);
    while dx < w
      invariant Wrap(dx, bw) == 0
      invariant forall i, j :: 0 <= i < canvas.Length0 && 0 <= j < canvas.Length1 ==>
                  canvas[i, j] == if Inside(x, y + dy, Min(dx, w), Min(bh, h - dy), i, j)
                                  then Pattern(bitmap, x, y, i, j) else old(canvas[i, j])
      decreases w - dx
    {
      var drawW := if dx + bw < w then bw else w - dx;
      var drawH := if dy + bh < h then bh else h - dy;
      DrawBitmapSimple(canvas, bitmap, drawW, drawH, x + dx, y + dy);
      forall i: nat, j: nat | Inside(x + dx, y + dy, drawW, drawH, i, j)
        ensures bitmap[i - (x + dx), j - (y + dy)] == Pattern(bitmap, x, y, i, j)
      {
        WrapInTile(dx, bw, i - (x + dx));
        WrapInTile(dy, bh, j - (y + dy));
      }
      WrapInTile(dx, bw, 0);
      dx := dx + bw;
    }
  }

  lemma WrapZero(b: nat)
    requires b > 0
    ensures Wrap(0, b) == 0
  {
  }

  /**
   ftk_canvas_fill_background_tile: every pixel of the area, and no other, gets the pixel of the
   bitmap that lies at its position modulo the size of the bitmap.
   */
  method FillBackgroundTile<T>(canvas: array2<T>, x: nat, y: nat, w: nat, h: nat, bitmap: array2<T>)
    requires canvas != bitmap && bitmap.Length0 > 0 && bitmap.Length1 > 0
    requires x + w <= canvas.Length0 && y + h <= canvas.Length1
    modifies canvas
    ensures forall i, j :: 0 <= i < canvas.Length0 && 0 <= j < canvas.Length1 ==>
              canvas[i, j] == if Inside(x, y, w, h, i, j) then Pattern(bitmap, x, y, i, j) else old(canvas[i, j])
  {
    hide Wrap;
    var bw, bh := bitmap.Length0, bitmap.Length1;
    WrapZero(bw);
    WrapZero(bh);
    if bw > w && bh > h {
      DrawBitmapSimple(canvas, bitmap, Min(bw, w), Min(bh, h), x, y);
      forall i: nat, j: nat | Inside(x, y, w, h, i, j)
        ensures bitmap[i - x, j - y] == Pattern(bitmap, x, y, i, j)
      {
        WrapInTile(0, bw, i - x);
        WrapInTile(0, bh, j - y);
      }
      return;
    }
    var dy: nat := 0;
    while dy < h
      invariant Wrap(dy, bh) == 0
      invariant forall i, j :: 0 <= i < canvas.Length0 && 0 <= j < canvas.Length1 ==>
                  canvas[i, j] == if Inside(x, y, w, Min(dy, h), i, j)
                                  then Pattern(bitmap, x, y, i, j) else old(canvas[i, j])
      decreases h - dy
    {
      FillRow(canvas, x, y, w, h, bitmap, dy);
      WrapInTile(dy, bh, 0);
      dy := dy + bh;
    }
  }
}
