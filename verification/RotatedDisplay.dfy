/** The display object of src/ftk_display_rotate.c, decorating a framebuffer display. */
module RotatedDisplays {
  import opened Bytes
  import opened Pixels
  import opened Raster
  import opened Bitmaps
  import opened DisplayMem
  import opened DisplayRotate
  import opened RotatedScreen

  class RotatedDisplay<P> {
    const display: MemDisplay<P>
    var rotate: Rotate
    var bitmap: Bitmap?

    ghost predicate Valid()
      reads this
    {
      && display.Valid()
      && (bitmap == null <==> rotate == Rotate0)
      && (bitmap != null ==>
            && bitmap.Valid() && bitmap.width == display.width && bitmap.height == display.height
            && bitmap.data as object != display.bits)
    }

    /** The memory this display draws in. */
    ghost function Memory(): set<object>
      reads this
    {
      {display.bits as object} + if bitmap == null then {} else {bitmap.data as object}
    }

    /** What the user of the display sees. */
    ghost function LogicalView(): (img: Image<P>)
      requires Valid()
      reads this, display.bits
      ensures img.Valid()
    {
      Logical(rotate, display.View())
    }

    ghost function Both(): (st: State<P>)
      requires Valid() && bitmap != null
      reads this, Memory()
      ensures st.Valid() && st.screen.width == display.width && st.screen.height == display.height
    {
      State(display.View(), bitmap.View())
    }

    constructor (display: MemDisplay<P>, rotate: Rotate)
      requires display.Valid()
      ensures Valid() && this.display == display && this.rotate == rotate
      ensures bitmap == null || fresh(bitmap.data)
    {
      this.display, this.rotate, this.bitmap := display, Rotate0, null;
      new;
      SetRotate(rotate);
    }

    /** ftk_display_set_rotate: keeps the picture on the glass and gives it a new logical view. */
    method SetRotate(r: Rotate)
      requires Valid()
      modifies this
      ensures Valid() && rotate == r
      ensures bitmap == null || bitmap == old(bitmap) || fresh(bitmap.data)
    {
      if rotate == r && bitmap != null {
        return;
      }
      rotate := r;
      bitmap := null;
      if rotate != Rotate0 {
        bitmap := new Bitmap(display.width, display.height, Color(0xFF, 0xFF, 0xFF, 0xFF));
      }
    }

    method Width() returns (w: nat)
      requires Valid()
      ensures w == LogicalView().width
    {
      w := if rotate == Rotate0 || rotate == Rotate180 then display.width else display.height;
    }

    method Height() returns (h: nat)
      requires Valid()
      ensures h == LogicalView().height
    {
      h := if rotate != Rotate0 && rotate != Rotate180 then display.width else display.height;
    }

    /** update_180 */
    method Update180(bmp: Bitmap, rect: Rect, xo: nat, yo: nat) returns (ret: Ret)
      requires Valid() && bitmap != null && rotate == Rotate180
      requires bmp.Valid() && bmp.data as object !in Memory()
      requires UpdateFits(rotate, display.width, display.height, bmp.height, rect, yo)
      modifies Memory()
      ensures (Both(), ret) == TurnedUpdate(rotate, display.format, old(Both()), bmp.View(), rect, xo, yo)
    {
      hide Layout, Updated, Stamped, UpdateRet;
      if !(rect.x < bmp.width && rect.y < bmp.height) {
        return Fail;
      }
      if !(xo < bitmap.width && yo < bitmap.height) {
        return Fail;
      }
      StampFits(rotate, display.width, display.height, bmp.width, bmp.height, rect, xo, yo);
      var xoffset := bitmap.width - xo;
      var w := rect.width;
      w := if xoffset - w >= 0 then w else xoffset;
      w := if rect.x + w < bmp.width then w else bmp.width - rect.x;
      var yoffset := bitmap.height - yo;
      var h := rect.height;
      h := if yoffset - h >= 0 then h else yoffset;
      h := if rect.y + h < bmp.height then h else bmp.height - rect.y;
      StampHalf(bitmap.data, bitmap.width, bitmap.height, bmp.data, bmp.width, bmp.height,
                Stamp(Half, rect.x, rect.y, w, h, xoffset - 1, yoffset - 1));
      ret := display.Update(bitmap, Rect(xoffset - w, yoffset - h, w, h), xoffset - w, yoffset - h);
    }

    /** update_90 */
    method Update90(bmp: Bitmap, rect: Rect, xo: nat, yo: nat) returns (ret: Ret)
      requires Valid() && bitmap != null && rotate == Rotate90
      requires bmp.Valid() && bmp.data as object !in Memory()
      requires UpdateFits(rotate, display.width, display.height, bmp.height, rect, yo)
      modifies Memory()
      ensures (Both(), ret) == TurnedUpdate(rotate, display.format, old(Both()), bmp.View(), rect, xo, yo)
    {
      hide Layout, Updated, Stamped, UpdateRet;
      if !(rect.x < bmp.width && rect.y < bmp.height) {
        return Fail;
      }
      if !(xo < bitmap.height && yo < bitmap.width) {
        return Fail;
      }
      StampFits(rotate, display.width, display.height, bmp.width, bmp.height, rect, xo, yo);
      var w := if rect.x + rect.width < bmp.width then rect.width else bmp.width - rect.x;
      var h := if rect.y + rect.height < bmp.height then rect.height else bmp.height - rect.y;
      var xoffset, yoffset := bitmap.width - h - yo, xo;
      w := if yoffset + w < bitmap.height then w else bitmap.height - yoffset;
      h := if xoffset + h < bitmap.width then h else bitmap.width - xoffset;
      StampQuarter(bitmap.data, bitmap.width, bitmap.height, bmp.data, bmp.width, bmp.height,
                   Stamp(Quarter, rect.x, rect.y, w, h, xoffset + h - 1, yoffset));
      ret := display.Update(bitmap, Rect(xoffset, yoffset, h, w), xoffset, yoffset);
    }

    /** Drawing on the turned display is drawing on a plain display of the logical size. */
    method Update(bmp: Bitmap, rect: Rect, xo: nat, yo: nat) returns (ret: Ret)
      requires Valid() && bmp.Valid() && bmp.data as object !in Memory()
      requires UpdateFits(rotate, display.width, display.height, bmp.height, rect, yo)
      modifies Memory()
      ensures Valid()
      ensures rotate == Rotate270 ==> ret == Fail && LogicalView() == old(LogicalView())
      ensures rotate != Rotate270 ==>
                LogicalView() == Updated(display.format, old(LogicalView()), bmp.View(), rect, xo, yo)
      ensures rotate != Rotate270 && rect.width > 0 && rect.height > 0 ==>
                ret == UpdateRet(old(LogicalView()), bmp.View(), rect, xo, yo)
    {
      hide Layout, Updated, UpdateRet, Logical, TurnedUpdate;
      match rotate {
        case Rotate0 =>
          Upright0(display.View());
          ret := display.Update(bmp, rect, xo, yo);
          Upright0(display.View());
        case Rotate90 =>
          ghost var st := Both();
          ret := Update90(bmp, rect, xo, yo);
          UpdateRefines(rotate, display.format, st, bmp.View(), rect, xo, yo);
          if rect.width > 0 && rect.height > 0 {
            UpdateReports(rotate, display.format, st, bmp.View(), rect, xo, yo);
          }
        case Rotate180 =>
          ghost var st := Both();
          ret := Update180(bmp, rect, xo, yo);
          UpdateRefines(rotate, display.format, st, bmp.View(), rect, xo, yo);
          if rect.width > 0 && rect.height > 0 {
            UpdateReports(rotate, display.format, st, bmp.View(), rect, xo, yo);
          }
        case Rotate270 =>
          ret := Fail;
      }
    }

    /** snap_180 */
    method Snap180(rect: Rect, bmp: Bitmap)
      requires Valid() && bitmap != null && rotate == Rotate180
      requires bmp.Valid() && bmp.data as object !in Memory()
      requires SnapReads(rotate, display.width, display.height, bmp.width, bmp.height, rect)
      modifies bitmap.data, bmp.data
      ensures (bmp.View(), Both()) == TurnedSnap(rotate, display.format, old(Both()), rect, old(bmp.View()))
    {
      hide Layout, Snapped, Upright;
      var w, h := Min(rect.width, bmp.width), Min(rect.height, bmp.height);
      var r := Rect(bitmap.width - rect.x - w, bitmap.height - rect.y - h, w, h);
      var ret := display.Snap(r, bitmap);
      UprightHalf(bmp.data, bmp.width, bmp.height, bitmap.data, bitmap.width, bitmap.height, w, h);
    }

    /** snap_90 */
    method Snap90(rect: Rect, bmp: Bitmap)
      requires Valid() && bitmap != null && rotate == Rotate90
      requires bmp.Valid() && bmp.data as object !in Memory()
      requires SnapReads(rotate, display.width, display.height, bmp.width, bmp.height, rect)
      modifies bitmap.data, bmp.data
      ensures (bmp.View(), Both()) == TurnedSnap(rotate, display.format, old(Both()), rect, old(bmp.View()))
    {
      hide Layout, Snapped, Upright;
      var w, h := Min(rect.width, bmp.width), Min(rect.height, bmp.height);
      var r := Rect(display.width - rect.y - h, rect.x, h, w);
      var ret := display.Snap(r, bitmap);
      UprightQuarter(bmp.data, bmp.width, bmp.height, bitmap.data, bitmap.width, bitmap.height, w, h);
    }

    /** A snapshot of the turned display is a snapshot of what its user sees. */
    method Snap(rect: Rect, bmp: Bitmap) returns (ret: Ret)
      requires Valid() && bmp.Valid() && bmp.data as object !in Memory()
      requires SnapFits(rotate, display.width, display.height, bmp.width, bmp.height, rect)
      modifies Memory() - {display.bits as object}, bmp.data
      ensures Valid() && LogicalView() == old(LogicalView())
      ensures rotate == Rotate270 ==> ret == Fail && bmp.View() == old(bmp.View())
      ensures rotate != Rotate270 ==>
                bmp.View() == Snapped(display.format, LogicalView(), rect, old(bmp.View()))
      ensures rotate == Rotate0 ==> ret == SnapRet(LogicalView(), rect, old(bmp.View()))
      ensures rotate == Rotate90 || rotate == Rotate180 ==> ret == Ok
    {
      hide Layout, Snapped, Logical, TurnedSnap, SnapRet;
      match rotate {
        case Rotate0 =>
          Upright0(display.View());
          ret := display.Snap(rect, bmp);
        case Rotate90 =>
          SnapRefines(rotate, display.format, Both(), rect, bmp.View());
          Snap90(rect, bmp);
          ret := Ok;
        case Rotate180 =>
          SnapRefines(rotate, display.format, Both(), rect, bmp.View());
          Snap180(rect, bmp);
          ret := Ok;
        case Rotate270 =>
          ret := Fail;
      }
    }
  }

  lemma Upright0<P>(screen: Image<P>)
    requires screen.Valid()
    ensures Logical(Rotate0, screen) == screen
  {
    SameImage(Logical(Rotate0, screen), screen);
  }
}
