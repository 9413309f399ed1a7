/**
 What the turned display (src/ftk_display_rotate.c) computes, and the proof that it behaves like a
 plain framebuffer of the logical size.
 */
module RotatedScreen {
  import opened Bytes
  import opened Pixels
  import opened Raster
  import opened Bitmaps
  import opened DisplayMem
  import opened DisplayRotate

  // ---------------------------------------------------------------- the logical screen

  function LogicalWidth(rotate: Rotate, w: nat, h: nat): nat {
    if rotate == Rotate0 || rotate == Rotate180 then w else h
  }

  function LogicalHeight(rotate: Rotate, w: nat, h: nat): nat {
    if rotate != Rotate0 && rotate != Rotate180 then w else h
  }

  /** Where the logical pixel (x, y) is on a real screen of `w` by `h` pixels. */
  function RealX(rotate: Rotate, w: nat, h: nat, x: int, y: int): int {
    match rotate
    case Rotate0 => x
    case Rotate90 => w - 1 - y
    case Rotate180 => w - 1 - x
    case Rotate270 => y
  }

  function RealY(rotate: Rotate, w: nat, h: nat, x: int, y: int): int {
    match rotate
    case Rotate0 => y
    case Rotate90 => x
    case Rotate180 => h - 1 - y
    case Rotate270 => h - 1 - x
  }

  /** The screen as its user sees it. */
  function Logical<P>(rotate: Rotate, screen: Image<P>): (r: Image<P>)
    requires screen.Valid()
    ensures r.Valid() && r.width == LogicalWidth(rotate, screen.width, screen.height)
    ensures r.height == LogicalHeight(rotate, screen.width, screen.height)
  {
    Tabulate(LogicalWidth(rotate, screen.width, screen.height), LogicalHeight(rotate, screen.width, screen.height),
      (x, y) requires 0 <= x < LogicalWidth(rotate, screen.width, screen.height)
                   && 0 <= y < LogicalHeight(rotate, screen.width, screen.height) =>
        screen.At(RealX(rotate, screen.width, screen.height, x, y), RealY(rotate, screen.width, screen.height, x, y)))
  }

  lemma LogicalAt<P>(rotate: Rotate, screen: Image<P>, x: int, y: int)
    requires screen.Valid() && Logical(rotate, screen).Inside(x, y)
    ensures var w, h := screen.width, screen.height;
            && screen.Inside(RealX(rotate, w, h, x, y), RealY(rotate, w, h, x, y))
            && Logical(rotate, screen).At(x, y) == screen.At(RealX(rotate, w, h, x, y), RealY(rotate, w, h, x, y))
  {
  }

  /** A quarter and half a turn, written out. */
  lemma TurnedViews<P>(screen: Image<P>, x: int, y: int)
    requires screen.Valid() && screen.Inside(x, y)
    ensures var w, h := screen.width, screen.height;
            && Logical(Rotate0, screen).At(x, y) == screen.At(x, y)
            && Logical(Rotate90, screen).At(y, w - 1 - x) == screen.At(x, y)
            && Logical(Rotate180, screen).At(w - 1 - x, h - 1 - y) == screen.At(x, y)
            && Logical(Rotate270, screen).At(h - 1 - y, x) == screen.At(x, y)
  {
    hide Image.At, Logical;
    LogicalAt(Rotate0, screen, x, y);
    LogicalAt(Rotate90, screen, y, screen.width - 1 - x);
    LogicalAt(Rotate180, screen, screen.width - 1 - x, screen.height - 1 - y);
    LogicalAt(Rotate270, screen, screen.height - 1 - y, x);
  }

  // ---------------------------------------------------------------- updates

  /** UPDATE_DECL: the rectangle's width (or height) cut off at the end of the bitmap. */
  function Cut(start: int, size: int, limit: int): int {
    if start + size < limit then size else limit - start
  }

  /** The two tests before anything is drawn. */
  predicate UpdateAccepted(rotate: Rotate, dw: nat, dh: nat, bw: nat, bh: nat, rect: Rect, xo: nat, yo: nat) {
    && rect.x < bw && rect.y < bh
    && xo < LogicalWidth(rotate, dw, dh) && yo < LogicalHeight(rotate, dw, dh)
  }

  /**
   The callers' duty: the rectangle starts inside the bitmap, and for a quarter turn it does not
   reach below the logical screen.  (There the real column would be negative.)
   */
  predicate UpdateFits(rotate: Rotate, dw: nat, dh: nat, bh: nat, rect: Rect, yo: nat) {
    && rect.x >= 0 && rect.y >= 0
    && (rotate == Rotate90 ==> yo + Cut(rect.y, rect.height, bh) <= LogicalHeight(rotate, dw, dh))
  }

  /** How the bitmap is drawn into the shadow bitmap by update_180. */
  function HalfStamp(dw: nat, dh: nat, bw: nat, bh: nat, rect: Rect, xo: nat, yo: nat): Stamp {
    var xoffset, yoffset := dw - xo, dh - yo;
    var w := if xoffset - rect.width >= 0 then rect.width else xoffset;
    var h := if yoffset - rect.height >= 0 then rect.height else yoffset;
    Stamp(Half, rect.x, rect.y, Cut(rect.x, w, bw), Cut(rect.y, h, bh), xoffset - 1, yoffset - 1)
  }

  /** The part of the shadow bitmap that update_180 passes on. */
  function HalfRect(s: Stamp): Rect {
    Rect(s.ox + 1 - s.w, s.oy + 1 - s.h, s.w, s.h)
  }

  /** The same for update_90. */
  function QuarterStamp(dw: nat, dh: nat, bw: nat, bh: nat, rect: Rect, xo: nat, yo: nat): Stamp {
    var w, h := Cut(rect.x, rect.width, bw), Cut(rect.y, rect.height, bh);
    var xoffset, yoffset := dw - h - yo, xo;
    var w' := if yoffset + w < dh then w else dh - yoffset;
    var h' := if xoffset + h < dw then h else dw - xoffset;
    Stamp(Quarter, rect.x, rect.y, w', h', xoffset + h' - 1, yoffset)
  }

  function QuarterRect(s: Stamp): Rect {
    Rect(s.ox + 1 - s.h, s.oy, s.h, s.w)
  }

  function StampFor(rotate: Rotate, dw: nat, dh: nat, bw: nat, bh: nat, rect: Rect, xo: nat, yo: nat): Stamp {
    if rotate == Rotate90 then QuarterStamp(dw, dh, bw, bh, rect, xo, yo)
    else HalfStamp(dw, dh, bw, bh, rect, xo, yo)
  }

  function RectFor(s: Stamp): Rect {
    if s.turn == Quarter then QuarterRect(s) else HalfRect(s)
  }

  lemma StampFits(rotate: Rotate, dw: nat, dh: nat, bw: nat, bh: nat, rect: Rect, xo: nat, yo: nat)
    requires rotate == Rotate90 || rotate == Rotate180
    requires UpdateAccepted(rotate, dw, dh, bw, bh, rect, xo, yo) && UpdateFits(rotate, dw, dh, bh, rect, yo)
    ensures var s := StampFor(rotate, dw, dh, bw, bh, rect, xo, yo);
            s.Fits(bw, bh, dw, dh) && RectFor(s).x >= 0 && RectFor(s).y >= 0
  {
  }

  /** Without that duty the quarter turn computes a real column left of the screen, and only then. */
  lemma QuarterNeedsRoom(dw: nat, dh: nat, bw: nat, bh: nat, rect: Rect, xo: nat, yo: nat)
    requires UpdateAccepted(Rotate90, dw, dh, bw, bh, rect, xo, yo)
    ensures QuarterRect(QuarterStamp(dw, dh, bw, bh, rect, xo, yo)).x >= 0
       <==> yo + Cut(rect.y, rect.height, bh) <= LogicalHeight(Rotate90, dw, dh)
  {
  }

  /** An example: three rows drawn at row 2 of a logical screen of four. */
  lemma QuarterLeavesScreen()
    ensures UpdateAccepted(Rotate90, 4, 6, 3, 3, Rect(0, 0, 3, 3), 0, 2)
    ensures QuarterRect(QuarterStamp(4, 6, 3, 3, Rect(0, 0, 3, 3), 0, 2)).x == -1
  {
  }

  /** The two tests are those of the plain display. */
  lemma AcceptedIff(rotate: Rotate, dw: nat, dh: nat, bw: nat, bh: nat, rect: Rect, xo: nat, yo: nat)
    ensures UpdateAccepted(rotate, dw, dh, bw, bh, rect, xo, yo) <==>
              ToArea(Some(rect), bw, bh, xo, yo, LogicalWidth(rotate, dw, dh), LogicalHeight(rotate, dw, dh)).Some?
  {
  }

  /** A rectangle that is not empty is passed on to the real display in full. */
  lemma PassedOn(rotate: Rotate, dw: nat, dh: nat, bw: nat, bh: nat, rect: Rect, xo: nat, yo: nat)
    requires rotate == Rotate90 || rotate == Rotate180
    requires UpdateAccepted(rotate, dw, dh, bw, bh, rect, xo, yo) && UpdateFits(rotate, dw, dh, bh, rect, yo)
    requires rect.width > 0 && rect.height > 0
    ensures var r := RectFor(StampFor(rotate, dw, dh, bw, bh, rect, xo, yo));
            r.x >= 0 && r.y >= 0 && ToArea(Some(r), dw, dh, r.x, r.y, dw, dh).Some?
  {
  }

  /** The real screen and the shadow bitmap. */
  datatype State<P> = State(screen: Image<P>, shadow: Image<Color>) {
    predicate Valid() {
      screen.Valid() && shadow.Valid() && shadow.width == screen.width && shadow.height == screen.height
    }
  }

  /** update_90 and update_180 */
  function TurnedUpdate<P>(rotate: Rotate, format: Format<P>, st: State<P>, bmp: Image<Color>, rect: Rect,
                           xo: nat, yo: nat): (r: (State<P>, Ret))
    requires rotate == Rotate90 || rotate == Rotate180
    requires st.Valid() && bmp.Valid()
    requires UpdateFits(rotate, st.screen.width, st.screen.height, bmp.height, rect, yo)
    ensures r.0.Valid() && r.0.screen.width == st.screen.width && r.0.screen.height == st.screen.height
  {
    var dw, dh := st.screen.width, st.screen.height;
    if !UpdateAccepted(rotate, dw, dh, bmp.width, bmp.height, rect, xo, yo) then (st, Fail)
    else
      StampFits(rotate, dw, dh, bmp.width, bmp.height, rect, xo, yo);
      var s := StampFor(rotate, dw, dh, bmp.width, bmp.height, rect, xo, yo);
      var r := RectFor(s);
      var shadow := Stamped(st.shadow, bmp, s);
      (State(Updated(format, st.screen, shadow, r, r.x, r.y), shadow),
       UpdateRet(st.screen, shadow, r, r.x, r.y))
  }

  /** The arithmetic of the turn: a real pixel is drawn exactly when its logical pixel is due. */
  lemma TurnedPixel(rotate: Rotate, dw: nat, dh: nat, bw: nat, bh: nat, rect: Rect, xo: nat, yo: nat, x: int, y: int)
    requires rotate == Rotate90 || rotate == Rotate180
    requires UpdateAccepted(rotate, dw, dh, bw, bh, rect, xo, yo) && UpdateFits(rotate, dw, dh, bh, rect, yo)
    requires 0 <= x < LogicalWidth(rotate, dw, dh) && 0 <= y < LogicalHeight(rotate, dw, dh)
    ensures var s := StampFor(rotate, dw, dh, bw, bh, rect, xo, yo);
            var px, py := RealX(rotate, dw, dh, x, y), RealY(rotate, dw, dh, x, y);
            && (Drawn(RectFor(s), dw, dh, RectFor(s).x, RectFor(s).y, px, py)
                <==> Drawn(rect, bw, bh, xo, yo, x, y))
            && (Drawn(rect, bw, bh, xo, yo, x, y) ==>
                  && s.Covers(px, py)
                  && s.x + Back(s.turn, s.ox, s.oy, px, py).0 == x - xo + Max(rect.x, 0)
                  && s.y + Back(s.turn, s.ox, s.oy, px, py).1 == y - yo + Max(rect.y, 0))
  {
  }

  /** The real pixel under the logical pixel (x, y) after a turned update. */
  lemma TurnedPixelAt<P>(rotate: Rotate, format: Format<P>, st: State<P>, bmp: Image<Color>, rect: Rect,
                         xo: nat, yo: nat, x: int, y: int)
    requires rotate == Rotate90 || rotate == Rotate180
    requires st.Valid() && bmp.Valid()
    requires UpdateFits(rotate, st.screen.width, st.screen.height, bmp.height, rect, yo)
    requires UpdateAccepted(rotate, st.screen.width, st.screen.height, bmp.width, bmp.height, rect, xo, yo)
    requires 0 <= x < LogicalWidth(rotate, st.screen.width, st.screen.height)
    requires 0 <= y < LogicalHeight(rotate, st.screen.width, st.screen.height)
    ensures st.screen.Inside(RealX(rotate, st.screen.width, st.screen.height, x, y),
                             RealY(rotate, st.screen.width, st.screen.height, x, y))
    ensures Drawn(rect, bmp.width, bmp.height, xo, yo, x, y) ==>
              bmp.Inside(x - xo + Max(rect.x, 0), y - yo + Max(rect.y, 0))
    ensures var dw, dh := st.screen.width, st.screen.height;
            var px, py := RealX(rotate, dw, dh, x, y), RealY(rotate, dw, dh, x, y);
            TurnedUpdate(rotate, format, st, bmp, rect, xo, yo).0.screen.At(px, py)
              == if Drawn(rect, bmp.width, bmp.height, xo, yo, x, y)
                 then format.put(bmp.At(x - xo + Max(rect.x, 0), y - yo + Max(rect.y, 0)), st.screen.At(px, py))
                 else st.screen.At(px, py)
  {
    hide Image.At, Updated, Stamped, StampFor, RectFor, CopiedTo;
    var dw, dh := st.screen.width, st.screen.height;
    var px, py := RealX(rotate, dw, dh, x, y), RealY(rotate, dw, dh, x, y);
    StampFits(rotate, dw, dh, bmp.width, bmp.height, rect, xo, yo);
    var s := StampFor(rotate, dw, dh, bmp.width, bmp.height, rect, xo, yo);
    var r := RectFor(s);
    var shadow := Stamped(st.shadow, bmp, s);
    TurnedPixel(rotate, dw, dh, bmp.width, bmp.height, rect, xo, yo, x, y);
    UpdatedAt(format, st.screen, shadow, r, r.x, r.y, px, py);
    StampedPoint(st.shadow, bmp, s, px, py);
    hide Drawn, UpdateAccepted, UpdateFits;
  }

  lemma UpdateRefinesAt<P>(rotate: Rotate, format: Format<P>, st: State<P>, bmp: Image<Color>, rect: Rect,
                           xo: nat, yo: nat, x: int, y: int)
    requires rotate == Rotate90 || rotate == Rotate180
    requires st.Valid() && bmp.Valid()
    requires UpdateFits(rotate, st.screen.width, st.screen.height, bmp.height, rect, yo)
    requires UpdateAccepted(rotate, st.screen.width, st.screen.height, bmp.width, bmp.height, rect, xo, yo)
    requires Logical(rotate, st.screen).Inside(x, y)
    ensures Logical(rotate, TurnedUpdate(rotate, format, st, bmp, rect, xo, yo).0.screen).At(x, y)
         == Updated(format, Logical(rotate, st.screen), bmp, rect, xo, yo).At(x, y)
  {
    hide Image.At, Updated, TurnedUpdate, Logical, RealX, RealY, Drawn;
    TurnedPixelAt(rotate, format, st, bmp, rect, xo, yo, x, y);
    LogicalAt(rotate, TurnedUpdate(rotate, format, st, bmp, rect, xo, yo).0.screen, x, y);
    LogicalAt(rotate, st.screen, x, y);
    UpdatedAt(format, Logical(rotate, st.screen), bmp, rect, xo, yo, x, y);
  }

  /** A turned update is a plain update of the logical screen, whatever the shadow bitmap held. */
  lemma UpdateRefines<P>(rotate: Rotate, format: Format<P>, st: State<P>, bmp: Image<Color>, rect: Rect,
                         xo: nat, yo: nat)
    requires rotate == Rotate90 || rotate == Rotate180
    requires st.Valid() && bmp.Valid()
    requires UpdateFits(rotate, st.screen.width, st.screen.height, bmp.height, rect, yo)
    ensures Logical(rotate, TurnedUpdate(rotate, format, st, bmp, rect, xo, yo).0.screen)
         == Updated(format, Logical(rotate, st.screen), bmp, rect, xo, yo)
  {
    if UpdateAccepted(rotate, st.screen.width, st.screen.height, bmp.width, bmp.height, rect, xo, yo) {
      AcceptedRefines(rotate, format, st, bmp, rect, xo, yo);
    } else {
      RejectedRefines(rotate, format, st, bmp, rect, xo, yo);
    }
    hide *;
  }

  lemma RejectedRefines<P>(rotate: Rotate, format: Format<P>, st: State<P>, bmp: Image<Color>, rect: Rect,
                           xo: nat, yo: nat)
    requires rotate == Rotate90 || rotate == Rotate180
    requires st.Valid() && bmp.Valid()
    requires UpdateFits(rotate, st.screen.width, st.screen.height, bmp.height, rect, yo)
    requires !UpdateAccepted(rotate, st.screen.width, st.screen.height, bmp.width, bmp.height, rect, xo, yo)
    ensures TurnedUpdate(rotate, format, st, bmp, rect, xo, yo).0 == st
    ensures Updated(format, Logical(rotate, st.screen), bmp, rect, xo, yo) == Logical(rotate, st.screen)
  {
    hide Logical, UpdateAccepted, UpdateFits, ToArea;
    AcceptedIff(rotate, st.screen.width, st.screen.height, bmp.width, bmp.height, rect, xo, yo);
  }

  lemma AcceptedRefines<P>(rotate: Rotate, format: Format<P>, st: State<P>, bmp: Image<Color>, rect: Rect,
                           xo: nat, yo: nat)
    requires rotate == Rotate90 || rotate == Rotate180
    requires st.Valid() && bmp.Valid()
    requires UpdateFits(rotate, st.screen.width, st.screen.height, bmp.height, rect, yo)
    requires UpdateAccepted(rotate, st.screen.width, st.screen.height, bmp.width, bmp.height, rect, xo, yo)
    ensures Logical(rotate, TurnedUpdate(rotate, format, st, bmp, rect, xo, yo).0.screen)
         == Updated(format, Logical(rotate, st.screen), bmp, rect, xo, yo)
  {
    hide Logical, TurnedUpdate, Updated, Image.At, UpdateAccepted, UpdateFits;
    var got := Logical(rotate, TurnedUpdate(rotate, format, st, bmp, rect, xo, yo).0.screen);
    var plain := Updated(format, Logical(rotate, st.screen), bmp, rect, xo, yo);
    forall x, y | got.Inside(x, y)
      ensures got.At(x, y) == plain.At(x, y)
    {
      UpdateRefinesAt(rotate, format, st, bmp, rect, xo, yo, x, y);
    }
    SameImage(got, plain);
  }

  /** It also reports what the plain update reports, unless the rectangle is empty. */
  lemma UpdateReports<P>(rotate: Rotate, format: Format<P>, st: State<P>, bmp: Image<Color>, rect: Rect,
                         xo: nat, yo: nat)
    requires rotate == Rotate90 || rotate == Rotate180
    requires st.Valid() && bmp.Valid() && rect.width > 0 && rect.height > 0
    requires UpdateFits(rotate, st.screen.width, st.screen.height, bmp.height, rect, yo)
    ensures TurnedUpdate(rotate, format, st, bmp, rect, xo, yo).1
         == UpdateRet(Logical(rotate, st.screen), bmp, rect, xo, yo)
  {
    hide Updated, Stamped, Logical, UpdateAccepted, UpdateFits, StampFor, RectFor, ToArea;
    var dw, dh := st.screen.width, st.screen.height;
    AcceptedIff(rotate, dw, dh, bmp.width, bmp.height, rect, xo, yo);
    if UpdateAccepted(rotate, dw, dh, bmp.width, bmp.height, rect, xo, yo) {
      PassedOn(rotate, dw, dh, bmp.width, bmp.height, rect, xo, yo);
    }
  }

  // ---------------------------------------------------------------- snapshots

  /** The callers' duty: what is read lies on the logical screen. */
  predicate SnapFits(rotate: Rotate, dw: nat, dh: nat, bw: nat, bh: nat, rect: Rect) {
    && rect.x >= 0 && rect.y >= 0
    && rect.x + Min(rect.width, bw) <= LogicalWidth(rotate, dw, dh)
    && rect.y + Min(rect.height, bh) <= LogicalHeight(rotate, dw, dh)
  }

  function TurnOf(rotate: Rotate): Turn {
    if rotate == Rotate90 then Quarter else Half
  }

  /** What the loops need: the shadow bitmap is large enough for the turned picture. */
  predicate SnapReads(rotate: Rotate, dw: nat, dh: nat, bw: nat, bh: nat, rect: Rect) {
    UprightFits(TurnOf(rotate), Min(rect.width, bw), Min(rect.height, bh), dw, dh, bw, bh)
  }

  /** The rectangle of the real screen that is read. */
  function RealSnapRect(rotate: Rotate, dw: nat, dh: nat, rect: Rect, w: int, h: int): Rect {
    if rotate == Rotate90 then Rect(dw - rect.y - h, rect.x, h, w)
    else Rect(dw - rect.x - w, dh - rect.y - h, w, h)
  }

  /** snap_90 and snap_180: the bitmap, and the shadow bitmap they overwrite on the way. */
  function TurnedSnap<P>(rotate: Rotate, format: Format<P>, st: State<P>, rect: Rect, bmp: Image<Color>):
    (r: (Image<Color>, State<P>))
    requires rotate == Rotate90 || rotate == Rotate180
    requires st.Valid() && bmp.Valid()
    requires SnapReads(rotate, st.screen.width, st.screen.height, bmp.width, bmp.height, rect)
    ensures r.0.Valid() && r.0.width == bmp.width && r.0.height == bmp.height
    ensures r.1.Valid() && r.1.screen == st.screen
  {
    var w, h := Min(rect.width, bmp.width), Min(rect.height, bmp.height);
    var r := RealSnapRect(rotate, st.screen.width, st.screen.height, rect, w, h);
    var shadow := Snapped(format, st.screen, r, st.shadow);
    (Upright(bmp, shadow, TurnOf(rotate), w, h), st.(shadow := shadow))
  }

  lemma SnapRefinesAt<P>(rotate: Rotate, format: Format<P>, st: State<P>, rect: Rect, bmp: Image<Color>,
                         px: int, py: int)
    requires rotate == Rotate90 || rotate == Rotate180
    requires st.Valid() && bmp.Valid() && bmp.Inside(px, py)
    requires SnapFits(rotate, st.screen.width, st.screen.height, bmp.width, bmp.height, rect)
    ensures TurnedSnap(rotate, format, st, rect, bmp).0.At(px, py)
         == Snapped(format, Logical(rotate, st.screen), rect, bmp).At(px, py)
  {
    hide Image.At, Snapped, Upright, Logical;
    var dw, dh := st.screen.width, st.screen.height;
    var w, h := Min(rect.width, bmp.width), Min(rect.height, bmp.height);
    var r := RealSnapRect(rotate, dw, dh, rect, w, h);
    var shadow := Snapped(format, st.screen, r, st.shadow);
    UprightAt(bmp, shadow, TurnOf(rotate), w, h, px, py);
    SnappedAt(format, Logical(rotate, st.screen), rect, bmp, px, py);
    if px < w && py < h {
      SnapPixel(rotate, dw, dh, rect, w, h, px, py);
      var sx, sy := UprightX(TurnOf(rotate), w, h, px, py), UprightY(TurnOf(rotate), w, h, px, py);
      SnappedAt(format, st.screen, r, st.shadow, sx, sy);
      LogicalAt(rotate, st.screen, px + rect.x, py + rect.y);
      hide RealX, RealY, RealSnapRect, UprightX, UprightY;
    }
  }

  /** The arithmetic of reading back: the pixel read for (px, py) is the real one of its logical pixel. */
  lemma SnapPixel(rotate: Rotate, dw: nat, dh: nat, rect: Rect, w: int, h: int, px: int, py: int)
    requires rotate == Rotate90 || rotate == Rotate180
    requires rect.x >= 0 && rect.y >= 0 && 0 <= px < w && 0 <= py < h
    requires rect.x + w <= LogicalWidth(rotate, dw, dh) && rect.y + h <= LogicalHeight(rotate, dw, dh)
    ensures var r := RealSnapRect(rotate, dw, dh, rect, w, h);
            var sx, sy := UprightX(TurnOf(rotate), w, h, px, py), UprightY(TurnOf(rotate), w, h, px, py);
            && 0 <= sx < dw && 0 <= sy < dh && Filled(r, dw, dh, sx, sy)
            && sx + Max(r.x, 0) == RealX(rotate, dw, dh, px + rect.x, py + rect.y)
            && sy + Max(r.y, 0) == RealY(rotate, dw, dh, px + rect.x, py + rect.y)
  {
  }

  /** A turned snapshot is a snapshot of the logical screen, whatever the shadow bitmap held. */
  lemma SnapRefines<P>(rotate: Rotate, format: Format<P>, st: State<P>, rect: Rect, bmp: Image<Color>)
    requires rotate == Rotate90 || rotate == Rotate180
    requires st.Valid() && bmp.Valid()
    requires SnapFits(rotate, st.screen.width, st.screen.height, bmp.width, bmp.height, rect)
    ensures TurnedSnap(rotate, format, st, rect, bmp).0 == Snapped(format, Logical(rotate, st.screen), rect, bmp)
  {
    var got, plain := TurnedSnap(rotate, format, st, rect, bmp).0, Snapped(format, Logical(rotate, st.screen), rect, bmp);
    hide TurnedSnap, Snapped, Logical;
    forall px, py | got.Inside(px, py)
      ensures got.At(px, py) == plain.At(px, py)
    {
      SnapRefinesAt(rotate, format, st, rect, bmp, px, py);
    }
    SameImage(got, plain);
  }

  /** The rectangle pushed back up to the far edges: by half a turn in both directions, by a quarter turn upwards. */
  function Slid(rotate: Rotate, dw: nat, dh: nat, bw: nat, bh: nat, rect: Rect): Rect {
    var w, h := Min(rect.width, bw), Min(rect.height, bh);
    if rotate == Rotate90 then rect.(y := Min(rect.y, dw - h))
    else rect.(x := Min(rect.x, dw - w), y := Min(rect.y, dh - h))
  }

  lemma SlidRect(rotate: Rotate, dw: nat, dh: nat, bw: nat, bh: nat, rect: Rect)
    requires rotate == Rotate90 || rotate == Rotate180
    ensures var w, h := Min(rect.width, bw), Min(rect.height, bh);
            var r, s := RealSnapRect(rotate, dw, dh, rect, w, h),
                        RealSnapRect(rotate, dw, dh, Slid(rotate, dw, dh, bw, bh, rect), w, h);
            && (rotate == Rotate180 ==> s == r.(x := Max(r.x, 0), y := Max(r.y, 0)))
            && (rotate == Rotate90 ==> s == r.(x := Max(r.x, 0)))
  {
  }

  lemma AreaFromEdge(rect: Rect, bw: nat, bh: nat, dw: nat, dh: nat)
    ensures var r := rect.(x := Max(rect.x, 0));
            && FromArea(Some(rect), bw, bh, dw, dh) == FromArea(Some(r), bw, bh, dw, dh)
            && FromArea(Some(rect), bw, bh, dw, dh) == FromArea(Some(r.(y := Max(rect.y, 0))), bw, bh, dw, dh)
  {
  }

  /** Reading from in front of the framebuffer is reading from its beginning. */
  lemma SnapFromEdge<P>(format: Format<P>, screen: Image<P>, bmp: Image<Color>, rect: Rect)
    requires screen.Valid() && bmp.Valid()
    ensures Snapped(format, screen, rect, bmp) == Snapped(format, screen, rect.(x := Max(rect.x, 0)), bmp)
    ensures Snapped(format, screen, rect, bmp)
         == Snapped(format, screen, rect.(x := Max(rect.x, 0), y := Max(rect.y, 0)), bmp)
  {
    hide FromArea;
    AreaFromEdge(SnapRect(rect, bmp.width, bmp.height), bmp.width, bmp.height, screen.width, screen.height);
  }

  /** A rectangle that hangs over the far edge is read as if it had been pushed back. */
  lemma SnapSlides<P>(rotate: Rotate, format: Format<P>, st: State<P>, rect: Rect, bmp: Image<Color>)
    requires rotate == Rotate90 || rotate == Rotate180
    requires st.Valid() && bmp.Valid()
    requires SnapReads(rotate, st.screen.width, st.screen.height, bmp.width, bmp.height, rect)
    ensures TurnedSnap(rotate, format, st, rect, bmp)
         == TurnedSnap(rotate, format, st, Slid(rotate, st.screen.width, st.screen.height, bmp.width, bmp.height, rect), bmp)
  {
    hide Snapped, Upright, RealSnapRect;
    var dw, dh := st.screen.width, st.screen.height;
    SlidRect(rotate, dw, dh, bmp.width, bmp.height, rect);
    SnapFromEdge(format, st.screen, st.shadow,
                 RealSnapRect(rotate, dw, dh, rect, Min(rect.width, bmp.width), Min(rect.height, bmp.height)));
  }

  // ---------------------------------------------------------------- whole runs

  /** A call by the user of the display, with the bitmap's contents at that moment. */
  datatype Call =
    | UpdateCall(bmp: Image<Color>, rect: Rect, xo: nat, yo: nat)
    | SnapCall(bmp: Image<Color>, rect: Rect)

  predicate CallFits(rotate: Rotate, dw: nat, dh: nat, c: Call) {
    && c.bmp.Valid()
    && match c
       case UpdateCall(bmp, rect, xo, yo) => UpdateFits(rotate, dw, dh, bmp.height, rect, yo)
       case SnapCall(bmp, rect) => SnapFits(rotate, dw, dh, bmp.width, bmp.height, rect)
  }

  /** The snapshots a plain framebuffer delivers. */
  function PlainRun<P>(format: Format<P>, screen: Image<P>, calls: seq<Call>): seq<Image<Color>>
    requires screen.Valid() && forall i :: 0 <= i < |calls| ==> calls[i].bmp.Valid()
    decreases |calls|
  {
    if calls == [] then []
    else
      match calls[0]
      case UpdateCall(bmp, rect, xo, yo) =>
        PlainRun(format, Updated(format, screen, bmp, rect, xo, yo), calls[1..])
      case SnapCall(bmp, rect) =>
        [Snapped(format, screen, rect, bmp)] + PlainRun(format, screen, calls[1..])
  }

  /** The snapshots the turned display delivers. */
  function TurnedRun<P>(rotate: Rotate, format: Format<P>, st: State<P>, calls: seq<Call>): seq<Image<Color>>
    requires rotate == Rotate90 || rotate == Rotate180
    requires st.Valid()
    requires forall i :: 0 <= i < |calls| ==> CallFits(rotate, st.screen.width, st.screen.height, calls[i])
    decreases |calls|
  {
    if calls == [] then []
    else
      assert CallFits(rotate, st.screen.width, st.screen.height, calls[0]);
      match calls[0]
      case UpdateCall(bmp, rect, xo, yo) =>
        TurnedRun(rotate, format, TurnedUpdate(rotate, format, st, bmp, rect, xo, yo).0, calls[1..])
      case SnapCall(bmp, rect) =>
        var r := TurnedSnap(rotate, format, st, rect, bmp);
        [r.0] + TurnedRun(rotate, format, r.1, calls[1..])
  }

  /**
   Over every run, the turned display cannot be told from a plain framebuffer that starts with the
   same logical picture, although snapshots and updates share the shadow bitmap.
   */
  lemma {:induction false} RunRefines<P>(rotate: Rotate, format: Format<P>, st: State<P>, calls: seq<Call>)
    requires rotate == Rotate90 || rotate == Rotate180
    requires st.Valid()
    requires forall i :: 0 <= i < |calls| ==> CallFits(rotate, st.screen.width, st.screen.height, calls[i])
    ensures TurnedRun(rotate, format, st, calls) == PlainRun(format, Logical(rotate, st.screen), calls)
    decreases |calls|
  {
    if calls != [] {
      assert CallFits(rotate, st.screen.width, st.screen.height, calls[0]);
      hide Logical, TurnedUpdate, TurnedSnap, Updated, Snapped;
      match calls[0]
      case UpdateCall(bmp, rect, xo, yo) =>
        UpdateRefines(rotate, format, st, bmp, rect, xo, yo);
        RunRefines(rotate, format, TurnedUpdate(rotate, format, st, bmp, rect, xo, yo).0, calls[1..]);
      case SnapCall(bmp, rect) =>
        SnapRefines(rotate, format, st, rect, bmp);
        RunRefines(rotate, format, TurnedSnap(rotate, format, st, rect, bmp).1, calls[1..]);
    }
  }
}
