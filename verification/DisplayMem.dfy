/** The flat framebuffer display (src/ftk_display_mem.c). */
module DisplayMem {
  import opened Bytes
  import opened Pixels
  import opened Raster
  import opened Bitmaps

  /** The rectangle ftk_display_mem_snap passes on. */
  function SnapRect(rect: Rect, bw: nat, bh: nat): Rect {
    Rect(rect.x, rect.y, Min(bw, rect.width), Min(bh, rect.height))
  }

  /** What a snapshot leaves in a bitmap. */
  function Snapped<P>(format: Format<P>, screen: Image<P>, rect: Rect, bmp: Image<Color>): (r: Image<Color>)
    requires screen.Valid() && bmp.Valid()
    ensures r.Valid() && r.width == bmp.width && r.height == bmp.height
  {
    CopiedFrom(format.get, bmp, screen, Some(SnapRect(rect, bmp.width, bmp.height)))
  }

  /** What drawing a bitmap leaves on the screen. */
  function Updated<P>(format: Format<P>, screen: Image<P>, bmp: Image<Color>, rect: Rect, ox: nat, oy: nat): (r: Image<P>)
    requires screen.Valid() && bmp.Valid()
    ensures r.Valid() && r.width == screen.width && r.height == screen.height
  {
    CopiedTo(format.put, screen, bmp, Some(rect), ox, oy)
  }

  function UpdateRet<P>(screen: Image<P>, bmp: Image<Color>, rect: Rect, ox: nat, oy: nat): Ret {
    if ToArea(Some(rect), bmp.width, bmp.height, ox, oy, screen.width, screen.height).Some? then Ok else Fail
  }

  function SnapRet<P>(screen: Image<P>, rect: Rect, bmp: Image<Color>): Ret {
    if FromArea(Some(SnapRect(rect, bmp.width, bmp.height)), bmp.width, bmp.height, screen.width, screen.height).Some?
    then Ok else Fail
  }

  lemma UpdatedAt<P>(format: Format<P>, screen: Image<P>, bmp: Image<Color>, rect: Rect, ox: nat, oy: nat,
                     px: int, py: int)
    requires screen.Valid() && bmp.Valid() && screen.Inside(px, py)
    ensures Updated(format, screen, bmp, rect, ox, oy).At(px, py)
         == if Drawn(rect, bmp.width, bmp.height, ox, oy, px, py)
            then format.put(bmp.At(px - ox + Max(rect.x, 0), py - oy + Max(rect.y, 0)), screen.At(px, py))
            else screen.At(px, py)
  {
    CopiedToAt(format.put, screen, bmp, rect, ox, oy, px, py);
    hide CopiedTo;
  }

  lemma SnappedAt<P>(format: Format<P>, screen: Image<P>, rect: Rect, bmp: Image<Color>, px: int, py: int)
    requires screen.Valid() && bmp.Valid() && bmp.Inside(px, py)
    ensures Snapped(format, screen, rect, bmp).At(px, py)
         == if Filled(rect, screen.width, screen.height, px, py)
            then format.get(screen.At(px + Max(rect.x, 0), py + Max(rect.y, 0)))
            else bmp.At(px, py)
  {
    CopiedFromAt(format.get, bmp, screen, SnapRect(rect, bmp.width, bmp.height), px, py);
    hide CopiedFrom;
  }

  /** An update is turned away exactly if the place or the rectangle begins outside. */
  lemma UpdateRetIff<P>(screen: Image<P>, bmp: Image<Color>, rect: Rect, ox: nat, oy: nat)
    ensures UpdateRet(screen, bmp, rect, ox, oy) == Ok
       <==> ox < screen.width && oy < screen.height && rect.x < bmp.width && rect.y < bmp.height
  {
  }

  /** And a snapshot exactly if the rectangle begins outside the screen. */
  lemma SnapRetIff<P>(screen: Image<P>, rect: Rect, bmp: Image<Color>)
    ensures SnapRet(screen, rect, bmp) == Ok
       <==> screen.width > 0 && screen.height > 0 && rect.x < screen.width && rect.y < screen.height
  {
  }

  class MemDisplay<P> {
    const format: Format<P>
    const width: nat
    const height: nat
    const bits: array<P>

    constructor (format: Format<P>, width: nat, height: nat, bits: array<P>)
      requires bits.Length == width * height
      ensures Valid() && this.format == format && this.bits == bits
      ensures this.width == width && this.height == height
    {
      this.format, this.width, this.height, this.bits := format, width, height, bits;
    }

    ghost predicate Valid() {
      bits.Length == width * height
    }

    ghost function View(): (img: Image<P>)
      requires Valid()
      reads bits
      ensures img.Valid() && img.width == width && img.height == height
    {
      Layout(bits[..], width, height)
    }

    method Update(bitmap: Bitmap, rect: Rect, xoffset: nat, yoffset: nat) returns (ret: Ret)
      requires Valid() && bitmap.Valid() && bitmap.data as object != bits
      modifies bits
      ensures View() == Updated(format, old(View()), bitmap.View(), rect, xoffset, yoffset)
      ensures ret == UpdateRet(old(View()), bitmap.View(), rect, xoffset, yoffset)
    {
      ret := CopyToData(format.put, bitmap, Some(rect), bits, xoffset, yoffset, width, height);
    }

    method Snap(rect: Rect, bitmap: Bitmap) returns (ret: Ret)
      requires Valid() && bitmap.Valid() && bits as object != bitmap.data
      modifies bitmap.data
      ensures bitmap.View() == Snapped(format, View(), rect, old(bitmap.View()))
      ensures ret == SnapRet(View(), rect, old(bitmap.View()))
    {
      var r := SnapRect(rect, bitmap.width, bitmap.height);
      ret := CopyFromData(format.get, bitmap, bits, width, height, Some(r));
    }
  }
}
