/**
 A display decorator that makes a display look turned (src/ftk_display_rotate.c).  Every update is
 first drawn, turned, into a shadow bitmap of the size of the real display, and every snapshot is
 first taken into that bitmap.
 */
module DisplayRotate {
  import opened Pixels
  import opened Raster

  datatype Rotate = Rotate0 | Rotate90 | Rotate180 | Rotate270

  // ---------------------------------------------------------------- turned loops

  /** How a double loop over rows `i` and columns `j` walks through its destination. */
  datatype Turn = NoTurn | Quarter | Half

  /** The iteration that reaches the destination pixel (px, py), as (column, row). */
  function Back(turn: Turn, ox: int, oy: int, px: int, py: int): (int, int) {
    match turn
    case NoTurn => (px - ox, py - oy)
    case Quarter => (py - oy, ox - px)
    case Half => (ox - px, oy - py)
  }

  function DestX(turn: Turn, ox: int, oy: int, j: int, i: int): int {
    match turn
    case NoTurn => ox + j
    case Quarter => ox - i
    case Half => ox - j
  }

  function DestY(turn: Turn, ox: int, oy: int, j: int, i: int): int {
    match turn
    case NoTurn => oy + i
    case Quarter => oy + j
    case Half => oy - i
  }

  /** A `w` by `h` part of `src` at (x, y), copied into `dst` from (ox, oy) on in the order of `turn`. */
  datatype Stamp = Stamp(turn: Turn, x: int, y: int, w: int, h: int, ox: int, oy: int) {

    predicate Covers(px: int, py: int) {
      var b := Back(turn, ox, oy, px, py);
      0 <= b.0 < w && 0 <= b.1 < h
    }

    predicate Fits(sw: nat, sh: nat, dw: nat, dh: nat) {
      w > 0 && h > 0 ==>
        && 0 <= x && x + w <= sw && 0 <= y && y + h <= sh
        && 0 <= DestX(turn, ox, oy, 0, 0) < dw && 0 <= DestY(turn, ox, oy, 0, 0) < dh
        && 0 <= DestX(turn, ox, oy, w - 1, h - 1) < dw && 0 <= DestY(turn, ox, oy, w - 1, h - 1) < dh
    }
  }

  function Stamped(dst: Image<Color>, src: Image<Color>, s: Stamp): (r: Image<Color>)
    requires dst.Valid() && src.Valid() && s.Fits(src.width, src.height, dst.width, dst.height)
    ensures r.Valid() && r.width == dst.width && r.height == dst.height
  {
    Tabulate(dst.width, dst.height, (px, py) requires dst.Inside(px, py) =>
      if s.Covers(px, py) then
        var b := Back(s.turn, s.ox, s.oy, px, py);
        src.At(s.x + b.0, s.y + b.1)
      else dst.At(px, py))
  }

  /** `target` up to iteration (i, j), and `dst` elsewhere. */
  ghost predicate Reached(img: Image<Color>, dst: Image<Color>, target: Image<Color>, s: Stamp, i: int, j: int)
    requires img.Valid() && dst.Valid() && target.Valid()
    requires img.width == dst.width == target.width && img.height == dst.height == target.height
  {
    forall px, py :: img.Inside(px, py) ==>
      var b := Back(s.turn, s.ox, s.oy, px, py);
      img.At(px, py) ==
        if s.Covers(px, py) && (b.1 < i || (b.1 == i && b.0 < j)) then target.At(px, py) else dst.At(px, py)
  }

  lemma ReachStart(dst: Image<Color>, target: Image<Color>, s: Stamp)
    requires dst.Valid() && target.Valid() && dst.width == target.width && dst.height == target.height
    ensures Reached(dst, dst, target, s, 0, 0)
  {
  }

  lemma ReachStep(img: Image<Color>, dst: Image<Color>, target: Image<Color>, s: Stamp, i: int, j: int)
    requires img.Valid() && dst.Valid() && target.Valid()
    requires img.width == dst.width == target.width && img.height == dst.height == target.height
    requires 0 <= i < s.h && 0 <= j < s.w
    requires img.Inside(DestX(s.turn, s.ox, s.oy, j, i), DestY(s.turn, s.ox, s.oy, j, i))
    requires Reached(img, dst, target, s, i, j)
    ensures var px, py := DestX(s.turn, s.ox, s.oy, j, i), DestY(s.turn, s.ox, s.oy, j, i);
            Reached(img.Set(px, py, target.At(px, py)), dst, target, s, i, j + 1)
  {
    var px, py := DestX(s.turn, s.ox, s.oy, j, i), DestY(s.turn, s.ox, s.oy, j, i);
    assert Back(s.turn, s.ox, s.oy, px, py) == (j, i);
  }

  lemma StampedPoint(dst: Image<Color>, src: Image<Color>, s: Stamp, px: int, py: int)
    requires dst.Valid() && src.Valid() && s.Fits(src.width, src.height, dst.width, dst.height)
    requires dst.Inside(px, py)
    ensures var b := Back(s.turn, s.ox, s.oy, px, py);
            && (s.Covers(px, py) ==> src.Inside(s.x + b.0, s.y + b.1))
            && Stamped(dst, src, s).At(px, py)
               == if s.Covers(px, py) then src.At(s.x + b.0, s.y + b.1) else dst.At(px, py)
  {
    assert Stamped(dst, src, s).Inside(px, py);
  }

  lemma StampedAt(dst: Image<Color>, src: Image<Color>, s: Stamp, i: int, j: int)
    requires dst.Valid() && src.Valid() && s.Fits(src.width, src.height, dst.width, dst.height)
    requires 0 <= i < s.h && 0 <= j < s.w
    ensures var px, py := DestX(s.turn, s.ox, s.oy, j, i), DestY(s.turn, s.ox, s.oy, j, i);
            && dst.Inside(px, py) && src.Inside(s.x + j, s.y + i)
            && Stamped(dst, src, s).At(px, py) == src.At(s.x + j, s.y + i)
  {
    var px, py := DestX(s.turn, s.ox, s.oy, j, i), DestY(s.turn, s.ox, s.oy, j, i);
    assert Back(s.turn, s.ox, s.oy, px, py) == (j, i);
    StampedPoint(dst, src, s, px, py);
    hide Stamped;
  }

  lemma ReachNextRow(img: Image<Color>, dst: Image<Color>, target: Image<Color>, s: Stamp, i: int, j: int)
    requires img.Valid() && dst.Valid() && target.Valid()
    requires img.width == dst.width == target.width && img.height == dst.height == target.height
    requires Reached(img, dst, target, s, i, j) && j >= s.w
    ensures Reached(img, dst, target, s, i + 1, 0)
  {
  }

  lemma ReachEnd(img: Image<Color>, dst: Image<Color>, target: Image<Color>, s: Stamp, i: int)
    requires img.Valid() && dst.Valid() && target.Valid()
    requires img.width == dst.width == target.width && img.height == dst.height == target.height
    requires forall px, py :: target.Inside(px, py) && !s.Covers(px, py) ==> target.At(px, py) == dst.At(px, py)
    requires Reached(img, dst, target, s, i, 0) && i >= s.h
    ensures img == target
  {
    SameImage(img, target);
  }

  lemma StampedElsewhere(dst: Image<Color>, src: Image<Color>, s: Stamp)
    requires dst.Valid() && src.Valid() && s.Fits(src.width, src.height, dst.width, dst.height)
    ensures var r := Stamped(dst, src, s);
            forall px, py :: r.Inside(px, py) && !s.Covers(px, py) ==> r.At(px, py) == dst.At(px, py)
  {
  }

  lemma RowStartAdd(y: int, x: int, w: nat)
    ensures RowStart(y + x, w) == RowStart(y, w) + RowStart(x, w)
  {
  }

  /** The loop of update_180: `d--` along the row, `dst -= display_w` from row to row. */
  method StampHalf(dst: array<Color>, dw: nat, dh: nat, src: array<Color>, sw: nat, sh: nat, s: Stamp)
    requires dst.Length == dw * dh && src.Length == sw * sh && src != dst
    requires s.turn == Half && s.Fits(sw, sh, dw, dh)
    modifies dst
    ensures Layout(dst[..], dw, dh) == Stamped(old(Layout(dst[..], dw, dh)), Layout(src[..], sw, sh), s)
  {
    hide Layout, Stamped, Reached, RowStart;
    ghost var img0, srcImg := Layout(dst[..], dw, dh), Layout(src[..], sw, sh);
    ghost var target := Stamped(img0, srcImg, s);
    ReachStart(img0, target, s);
    var srow, drow := RowStart(s.y, sw) + s.x, RowStart(s.oy, dw) + s.ox;
    var y := 0;
    while y < s.h
      invariant 0 <= y && (y <= s.h || y == 0)
      invariant srow == RowStart(s.y + y, sw) + s.x && drow == RowStart(s.oy - y, dw) + s.ox
      invariant Reached(Layout(dst[..], dw, dh), img0, target, s, y, 0)
    {
      var sp, dp := srow, drow;
      var x := 0;
      while x < s.w
        invariant 0 <= x && (x <= s.w || x == 0)
        invariant sp == srow + x && dp == drow - x
        invariant Reached(Layout(dst[..], dw, dh), img0, target, s, y, x)
      {
        ghost var before := dst[..];
        StampedAt(img0, srcImg, s, y, x);
        ReachStep(Layout(before, dw, dh), img0, target, s, y, x);
        ReadPixel(src[..], sw, sh, s.x + x, s.y + y);
        WritePixel(before, dw, dh, s.ox - x, s.oy - y, src[sp]);
        dst[dp] := src[sp];
        assert dst[..] == before[dp := src[sp]];
        x, sp, dp := x + 1, sp + 1, dp - 1;
      }
      ReachNextRow(Layout(dst[..], dw, dh), img0, target, s, y, x);
      NextRow(s.y + y, sw);
      NextRow(s.oy - y - 1, dw);
      srow := srow + sw;
      drow := drow - dw;
      y := y + 1;
    }
    StampedElsewhere(img0, srcImg, s);
    ReachEnd(Layout(dst[..], dw, dh), img0, target, s, y);
  }

  /** The loop of update_90: `d[x * display_w]` down a column, `dst -= 1` from column to column. */
  method StampQuarter(dst: array<Color>, dw: nat, dh: nat, src: array<Color>, sw: nat, sh: nat, s: Stamp)
    requires dst.Length == dw * dh && src.Length == sw * sh && src != dst
    requires s.turn == Quarter && s.Fits(sw, sh, dw, dh)
    modifies dst
    ensures Layout(dst[..], dw, dh) == Stamped(old(Layout(dst[..], dw, dh)), Layout(src[..], sw, sh), s)
  {
    hide Layout, Stamped, Reached, RowStart;
    ghost var img0, srcImg := Layout(dst[..], dw, dh), Layout(src[..], sw, sh);
    ghost var target := Stamped(img0, srcImg, s);
    ReachStart(img0, target, s);
    var srow, d := RowStart(s.y, sw) + s.x, RowStart(s.oy, dw) + s.ox;
    var y := 0;
    while y < s.h
      invariant 0 <= y && (y <= s.h || y == 0)
      invariant srow == RowStart(s.y + y, sw) + s.x && d == RowStart(s.oy, dw) + s.ox - y
      invariant Reached(Layout(dst[..], dw, dh), img0, target, s, y, 0)
    {
      var sp := srow;
      var x := 0;
      while x < s.w
        invariant 0 <= x && (x <= s.w || x == 0)
        invariant sp == srow + x
        invariant Reached(Layout(dst[..], dw, dh), img0, target, s, y, x)
      {
        ghost var before := dst[..];
        StampedAt(img0, srcImg, s, y, x);
        ReachStep(Layout(before, dw, dh), img0, target, s, y, x);
        ReadPixel(src[..], sw, sh, s.x + x, s.y + y);
        WritePixel(before, dw, dh, s.ox - y, s.oy + x, src[sp]);
        RowStartAdd(s.oy, x, dw);
        var dp := d + RowStart(x, dw);
        dst[dp] := src[sp];
        assert dst[..] == before[dp := src[sp]];
        x, sp := x + 1, sp + 1;
      }
      ReachNextRow(Layout(dst[..], dw, dh), img0, target, s, y, x);
      NextRow(s.y + y, sw);
      srow := srow + sw;
      d := d - 1;
      y := y + 1;
    }
    StampedElsewhere(img0, srcImg, s);
    ReachEnd(Layout(dst[..], dw, dh), img0, target, s, y);
  }

  // ---------------------------------------------------------------- turned back loops

  /** The source pixel for destination (px, py) when a turned `w` by `h` picture is read upright. */
  function UprightX(turn: Turn, w: int, h: int, px: int, py: int): int {
    match turn
    case NoTurn => px
    case Quarter => h - 1 - py
    case Half => w - 1 - px
  }

  function UprightY(turn: Turn, w: int, h: int, px: int, py: int): int {
    match turn
    case NoTurn => py
    case Quarter => px
    case Half => h - 1 - py
  }

  predicate UprightFits(turn: Turn, w: int, h: int, sw: nat, sh: nat, dw: nat, dh: nat) {
    w > 0 && h > 0 ==>
      w <= dw && h <= dh && if turn == Quarter then h <= sw && w <= sh else w <= sw && h <= sh
  }

  /** The `w` by `h` corner of `dst` replaced by the turned picture in the corner of `src`. */
  function Upright(dst: Image<Color>, src: Image<Color>, turn: Turn, w: int, h: int): (r: Image<Color>)
    requires dst.Valid() && src.Valid() && UprightFits(turn, w, h, src.width, src.height, dst.width, dst.height)
    ensures r.Valid() && r.width == dst.width && r.height == dst.height
  {
    Tabulate(dst.width, dst.height, (px, py) requires dst.Inside(px, py) =>
      if px < w && py < h then src.At(UprightX(turn, w, h, px, py), UprightY(turn, w, h, px, py))
      else dst.At(px, py))
  }

  lemma UprightAt(dst: Image<Color>, src: Image<Color>, turn: Turn, w: int, h: int, px: int, py: int)
    requires dst.Valid() && src.Valid() && UprightFits(turn, w, h, src.width, src.height, dst.width, dst.height)
    requires dst.Inside(px, py)
    ensures Upright(dst, src, turn, w, h).At(px, py)
         == if px < w && py < h then src.At(UprightX(turn, w, h, px, py), UprightY(turn, w, h, px, py))
            else dst.At(px, py)
  {
    assert Upright(dst, src, turn, w, h).Inside(px, py);
  }

  /** The loop of snap_180: `s--` along the row, `src -= display_w` from row to row. */
  method UprightHalf(dst: array<Color>, dw: nat, dh: nat, src: array<Color>, sw: nat, sh: nat, w: int, h: int)
    requires dst.Length == dw * dh && src.Length == sw * sh && src != dst
    requires UprightFits(Half, w, h, sw, sh, dw, dh)
    modifies dst
    ensures Layout(dst[..], dw, dh) == Upright(old(Layout(dst[..], dw, dh)), Layout(src[..], sw, sh), Half, w, h)
  {
    hide Layout, Upright, Reached, RowStart;
    ghost var s := Stamp(NoTurn, 0, 0, w, h, 0, 0);
    ghost var img0, srcImg := Layout(dst[..], dw, dh), Layout(src[..], sw, sh);
    ghost var target := Upright(img0, srcImg, Half, w, h);
    ReachStart(img0, target, s);
    var srow, drow := RowStart(h - 1, sw), RowStart(0, dw);
    assert drow == 0 by { RowStartZero(dw); }
    var y := 0;
    while y < h
      invariant 0 <= y && (y <= h || y == 0)
      invariant srow == RowStart(h - 1 - y, sw) && drow == RowStart(y, dw)
      invariant Reached(Layout(dst[..], dw, dh), img0, target, s, y, 0)
    {
      var dp, sp := drow, srow + w - 1;
      var x := 0;
      while x < w
        invariant 0 <= x && (x <= w || x == 0)
        invariant dp == drow + x && sp == srow + w - 1 - x
        invariant Reached(Layout(dst[..], dw, dh), img0, target, s, y, x)
      {
        ghost var before := dst[..];
        UprightAt(img0, srcImg, Half, w, h, x, y);
        ReachStep(Layout(before, dw, dh), img0, target, s, y, x);
        ReadPixel(src[..], sw, sh, w - 1 - x, h - 1 - y);
        WritePixel(before, dw, dh, x, y, src[sp]);
        dst[dp] := src[sp];
        assert dst[..] == before[dp := src[sp]];
        x, dp, sp := x + 1, dp + 1, sp - 1;
      }
      ReachNextRow(Layout(dst[..], dw, dh), img0, target, s, y, x);
      NextRow(h - 1 - y - 1, sw);
      NextRow(y, dw);
      srow := srow - sw;
      drow := drow + dw;
      y := y + 1;
    }
    UprightElsewhere(img0, srcImg, Half, w, h);
    ReachEnd(Layout(dst[..], dw, dh), img0, target, s, y);
  }

  /** The loop of snap_90: `src[x * display_w]` down a column, `src--` from column to column. */
  method UprightQuarter(dst: array<Color>, dw: nat, dh: nat, src: array<Color>, sw: nat, sh: nat, w: int, h: int)
    requires dst.Length == dw * dh && src.Length == sw * sh && src != dst
    requires UprightFits(Quarter, w, h, sw, sh, dw, dh)
    modifies dst
    ensures Layout(dst[..], dw, dh) == Upright(old(Layout(dst[..], dw, dh)), Layout(src[..], sw, sh), Quarter, w, h)
  {
    hide Layout, Upright, Reached, RowStart;
    ghost var s := Stamp(NoTurn, 0, 0, w, h, 0, 0);
    ghost var img0, srcImg := Layout(dst[..], dw, dh), Layout(src[..], sw, sh);
    ghost var target := Upright(img0, srcImg, Quarter, w, h);
    ReachStart(img0, target, s);
    var sp, drow := h - 1, 0;
    RowStartZero(dw);
    var y := 0;
    while y < h
      invariant 0 <= y && (y <= h || y == 0)
      invariant sp == h - 1 - y && drow == RowStart(y, dw)
      invariant Reached(Layout(dst[..], dw, dh), img0, target, s, y, 0)
    {
      var x := 0;
      while x < w
        invariant 0 <= x && (x <= w || x == 0)
        invariant Reached(Layout(dst[..], dw, dh), img0, target, s, y, x)
      {
        ghost var before := dst[..];
        UprightAt(img0, srcImg, Quarter, w, h, x, y);
        ReachStep(Layout(before, dw, dh), img0, target, s, y, x);
        ReadPixel(src[..], sw, sh, h - 1 - y, x);
        var p := src[sp + RowStart(x, sw)];
        WritePixel(before, dw, dh, x, y, p);
        dst[drow + x] := p;
        assert dst[..] == before[drow + x := p];
        x := x + 1;
      }
      ReachNextRow(Layout(dst[..], dw, dh), img0, target, s, y, x);
      NextRow(y, dw);
      drow := drow + dw;
      sp := sp - 1;
      y := y + 1;
    }
    UprightElsewhere(img0, srcImg, Quarter, w, h);
    ReachEnd(Layout(dst[..], dw, dh), img0, target, s, y);
  }

  lemma RowStartZero(w: nat)
    ensures RowStart(0, w) == 0
  {
  }

  lemma UprightElsewhere(dst: Image<Color>, src: Image<Color>, turn: Turn, w: int, h: int)
    requires dst.Valid() && src.Valid() && UprightFits(turn, w, h, src.width, src.height, dst.width, dst.height)
    ensures var r, s := Upright(dst, src, turn, w, h), Stamp(NoTurn, 0, 0, w, h, 0, 0);
            forall px, py :: r.Inside(px, py) && !s.Covers(px, py) ==> r.At(px, py) == dst.At(px, py)
  {
  }
}
