/**
 The sprite object (src/ftk_sprite.c), the listener slots of a display (src/ftk_display.c) and the
 notified update (src/ftk_display.h) that connects them.
 */
module Sprites {
  import opened Pixels
  import opened Raster
  import opened Bitmaps
  import opened DisplayMem
  import Model = CursorModel

  const FTK_DISPLAY_LISTENER_NR: nat := 16

  /** What a slot holds: a sprite's callback with the sprite as context, or some other one, which draws nothing. */
  datatype Listener<P> = NoListener | SpriteListener(sprite: Sprite<P>) | OtherListener(id: nat)

  /** The first slot that holds `l`. */
  function FirstSlot<P>(slots: seq<Listener<P>>, l: Listener<P>): (k: nat)
    ensures k <= |slots| && (k < |slots| ==> slots[k] == l) && forall i :: 0 <= i < k ==> slots[i] != l
  {
    if slots == [] || slots[0] == l then 0 else 1 + FirstSlot(slots[1..], l)
  }

  lemma {:induction false} FirstSlotIs<P>(slots: seq<Listener<P>>, l: Listener<P>, k: nat)
    requires k <= |slots| && (k < |slots| ==> slots[k] == l) && forall i :: 0 <= i < k ==> slots[i] != l
    ensures FirstSlot(slots, l) == k
  {
    if k > 0 {
      FirstSlotIs(slots[1..], l, k - 1);
    }
  }

  class Display<P> {
    const mem: MemDisplay<P>
    const onUpdate: array<Listener<P>>

    constructor (mem: MemDisplay<P>)
      requires mem.Valid()
      ensures Valid() && this.mem == mem && fresh(onUpdate)
      ensures forall i :: 0 <= i < FTK_DISPLAY_LISTENER_NR ==> onUpdate[i] == NoListener
    {
      this.mem := mem;
      onUpdate := new Listener<P>[FTK_DISPLAY_LISTENER_NR](_ => NoListener);
    }

    ghost predicate Valid() {
      mem.Valid() && onUpdate.Length == FTK_DISPLAY_LISTENER_NR && onUpdate as object != mem.bits
    }

    /** `s` listens in slot `k` and no other sprite does; with k == 16 none does. */
    ghost predicate OnlySprite(s: Sprite<P>, k: nat)
      requires Valid()
      reads onUpdate
    {
      && k <= FTK_DISPLAY_LISTENER_NR
      && (k < FTK_DISPLAY_LISTENER_NR ==> onUpdate[k] == SpriteListener(s))
      && forall i :: 0 <= i < FTK_DISPLAY_LISTENER_NR && i != k ==> !onUpdate[i].SpriteListener?
    }

    /** ftk_display_reg_update_listener */
    method RegUpdateListener(l: Listener<P>) returns (ret: Ret)
      requires Valid()
      modifies onUpdate
      ensures var slots, k := old(onUpdate[..]), FirstSlot(old(onUpdate[..]), NoListener);
              && ret == (if k < FTK_DISPLAY_LISTENER_NR then Ok else Fail)
              && onUpdate[..] == if k < FTK_DISPLAY_LISTENER_NR then slots[k := l] else slots
    {
      for i := 0 to FTK_DISPLAY_LISTENER_NR
        invariant onUpdate[..] == old(onUpdate[..])
        invariant forall j :: 0 <= j < i ==> onUpdate[j] != NoListener
      {
        if onUpdate[i] == NoListener {
          FirstSlotIs(onUpdate[..], NoListener, i);
          onUpdate[i] := l;
          return Ok;
        }
      }
      FirstSlotIs(onUpdate[..], NoListener, FTK_DISPLAY_LISTENER_NR);
      ret := Fail;
    }

    /** ftk_display_unreg_update_listener */
    method UnregUpdateListener(l: Listener<P>) returns (ret: Ret)
      requires Valid()
      modifies onUpdate
      ensures var slots, k := old(onUpdate[..]), FirstSlot(old(onUpdate[..]), l);
              && ret == (if k < FTK_DISPLAY_LISTENER_NR then Ok else Fail)
              && onUpdate[..] == if k < FTK_DISPLAY_LISTENER_NR then slots[k := NoListener] else slots
    {
      for i := 0 to FTK_DISPLAY_LISTENER_NR
        invariant onUpdate[..] == old(onUpdate[..])
        invariant forall j :: 0 <= j < i ==> onUpdate[j] != l
      {
        if onUpdate[i] == l {
          FirstSlotIs(onUpdate[..], l, i);
          onUpdate[i] := NoListener;
          return Ok;
        }
      }
      FirstSlotIs(onUpdate[..], l, FTK_DISPLAY_LISTENER_NR);
      ret := Fail;
    }

    /** ftk_display_notify */
    method Notify(before: bool, bitmap: Bitmap, ghost s: Sprite<P>, ghost k: nat)
      requires s.Valid() && s.display == this && OnlySprite(s, k)
      modifies mem.bits, s.snap.data
      ensures s.State() == if k < FTK_DISPLAY_LISTENER_NR
                           then s.Reaction(before, bitmap, old(s.State())) else old(s.State())
      decreases 2
    {
      hide Layout, Sprite.Reaction;
      for i := 0 to FTK_DISPLAY_LISTENER_NR
        invariant s.State() == if k < i then s.Reaction(before, bitmap, old(s.State())) else old(s.State())
      {
        if onUpdate[i].SpriteListener? {
          assert i == k;
          onUpdate[i].sprite.OnDisplayUpdate(before, bitmap);
        }
      }
    }

    /** ftk_display_update_and_notify */
    method UpdateAndNotify(bitmap: Bitmap, rect: Rect, xo: nat, yo: nat, ghost s: Sprite<P>, ghost k: nat)
      returns (ret: Ret)
      requires s.Valid() && s.display == this && OnlySprite(s, k)
      requires bitmap.Valid() && bitmap.data as object != mem.bits
      requires bitmap != s.icon ==> bitmap.data != s.snap.data
      requires bitmap != s.snap
      modifies mem.bits, s.snap.data
      ensures var st := old(s.State());
              s.State() == if k < FTK_DISPLAY_LISTENER_NR && bitmap != s.icon
                           then Model.Paint(mem.format, Model.Backup(mem.format,
                                  Model.DrawOn(mem.format, Model.Restore(mem.format, st), old(bitmap.View()), rect, xo, yo)))
                           else Model.DrawOn(mem.format, st, old(bitmap.View()), rect, xo, yo)
      ensures ret == UpdateRet(old(mem.View()), old(bitmap.View()), rect, xo, yo)
      decreases 3
    {
      hide Layout, Updated, Snapped;
      Notify(true, bitmap, s, k);
      ret := mem.Update(bitmap, rect, xo, yo);
      Notify(false, bitmap, s, k);
    }
  }

  class Sprite<P> {
    const display: Display<P>
    var x: nat
    var y: nat
    var visible: bool
    var icon: Bitmap
    var snap: Bitmap

    /** The bitmaps are separate pieces of memory, and the saved pixels have the size of the icon. */
    ghost predicate Valid()
      reads this
    {
      && display.Valid() && icon.Valid() && snap.Valid()
      && snap.width == icon.width && snap.height == icon.height
      && snap != icon && snap.data != icon.data
      && icon.data as object != display.onUpdate && snap.data as object != display.onUpdate
      && icon.data as object != display.mem.bits && snap.data as object != display.mem.bits
    }

    /** The sprite listens exactly while it is visible. */
    ghost predicate Listening()
      requires Valid()
      reads this, display.onUpdate
    {
      if visible then exists k: nat :: k < FTK_DISPLAY_LISTENER_NR && display.OnlySprite(this, k)
      else display.OnlySprite(this, FTK_DISPLAY_LISTENER_NR)
    }

    /** It is in one slot or, if it is hidden or found no free one, in none. */
    ghost predicate Placed()
      requires Valid()
      reads this, display.onUpdate
    {
      display.OnlySprite(this, FTK_DISPLAY_LISTENER_NR) || Listening()
    }

    ghost function State(): (st: Model.State<P>)
      requires Valid()
      reads this, display.mem.bits, icon.data, snap.data
      ensures st.Valid()
    {
      Model.State(display.mem.View(), x, y, visible, icon.View(), snap.View())
    }

    /** ftk_sprite_create and ftk_sprite_set_icon */
    constructor (display: Display<P>, icon: Bitmap)
      requires display.Valid() && icon.Valid()
      requires icon.data as object != display.mem.bits && icon.data as object != display.onUpdate
      ensures Valid() && this.display == display && this.icon == icon && !visible
      ensures fresh(snap) && fresh(snap.data)
    {
      this.display, this.icon := display, icon;
      x, y, visible := 0, 0, false;
      snap := new Bitmap(icon.width, icon.height, Color(0, 0, 0, 0xFF));
    }

    /** ftk_sprite_set_icon; the sprite listens as before. */
    method SetIcon(bitmap: Bitmap) returns (ret: Ret)
      requires Valid() && Placed() && bitmap.Valid()
      requires bitmap.data as object != display.mem.bits && bitmap.data as object != display.onUpdate
      modifies this`icon, this`snap, display.mem.bits
      ensures Valid() && fresh(snap) && fresh(snap.data) && icon == bitmap
      ensures Placed() && (Listening() <==> old(Listening()))
      ensures State() == Model.IconSet(display.mem.format, old(State()), bitmap.View(),
                                       Model.Uniform(bitmap.width, bitmap.height, Model.BLACK))
      ensures !visible ==>
                && Model.Allowed(old(State()), Model.SetIcon(icon.View(), snap.View()))
                && State() == Model.Step(display.mem.format, old(State()), Model.SetIcon(icon.View(), snap.View()))
      ensures ret == if visible then PaintRet(x, y) else Ok
    {
      hide Layout, Updated, UpdateRet, Model.Paint, Model.Restore, Model.Uniform;
      ghost var k: nat :| display.OnlySprite(this, k);
      ExchangeIcon(bitmap);
      ret := Ok;
      if visible {
        var _ := Restore();
        ret := Paint(true, k);
      }
    }

    /** The new icon, with fresh memory for the saved pixels. */
    method ExchangeIcon(bitmap: Bitmap)
      requires Valid() && bitmap.Valid()
      requires bitmap.data as object != display.mem.bits && bitmap.data as object != display.onUpdate
      modifies this`icon, this`snap
      ensures Valid() && fresh(snap) && fresh(snap.data) && icon == bitmap
      ensures State() == old(State()).(icon := bitmap.View(),
                                       snap := Model.Uniform(bitmap.width, bitmap.height, Model.BLACK))
    {
      hide Layout;
      icon := bitmap;
      snap := new Bitmap(icon.width, icon.height, Model.BLACK);
      SameImage(snap.View(), Model.Uniform(bitmap.width, bitmap.height, Model.BLACK));
    }

    /** ftk_sprite_backup */
    method Backup() returns (ret: Ret)
      requires Valid()
      modifies snap.data
      ensures State() == Model.Backup(display.mem.format, old(State()))
      decreases 0
    {
      hide Layout, Snapped;
      ret := display.mem.Snap(Rect(x, y, snap.width, snap.height), snap);
    }

    /** What drawing the icon, or the saved pixels, returns. */
    ghost function PaintRet(x: nat, y: nat): Ret
      requires Valid()
      reads this, display.mem.bits, icon.data
    {
      UpdateRet(display.mem.View(), icon.View(), Model.Whole(icon.View()), x, y)
    }

    /** ftk_sprite_restore */
    method Restore() returns (ret: Ret)
      requires Valid()
      modifies display.mem.bits
      ensures State() == Model.Restore(display.mem.format, old(State()))
      ensures ret == PaintRet(x, y)
      decreases 0
    {
      hide Layout, Updated;
      ret := display.mem.Update(snap, Rect(0, 0, snap.width, snap.height), x, y);
    }

    /** ftk_sprite_paint; the sprite does not react to its own icon. */
    method Paint(notify: bool, ghost k: nat) returns (ret: Ret)
      requires Valid()
      requires notify ==> display.OnlySprite(this, k)
      modifies display.mem.bits, snap.data
      ensures State() == Model.Paint(display.mem.format, old(State()))
      ensures ret == PaintRet(x, y)
      decreases if notify then 4 else 0
    {
      hide Layout, Updated, Snapped;
      var rect := Rect(0, 0, icon.width, icon.height);
      if notify {
        ret := display.UpdateAndNotify(icon, rect, x, y, this, k);
      } else {
        ret := display.mem.Update(icon, rect, x, y);
      }
    }

    /** What ftk_sprite_on_display_update does to the state. */
    ghost function Reaction(before: bool, bitmap: Bitmap, st: Model.State<P>): (r: Model.State<P>)
      requires st.Valid()
      reads this
      ensures r.Valid()
    {
      if bitmap == icon || bitmap == snap then st
      else if before then Model.Restore(display.mem.format, st)
      else Model.Paint(display.mem.format, Model.Backup(display.mem.format, st))
    }

    /** ftk_sprite_on_display_update */
    method OnDisplayUpdate(before: bool, bitmap: Bitmap)
      requires Valid()
      modifies display.mem.bits, snap.data
      ensures State() == Reaction(before, bitmap, old(State()))
      decreases 1
    {
      hide Layout, Updated, Snapped, Model.Paint, Model.Backup, Model.Restore, UpdateRet;
      if bitmap == icon || bitmap == snap {
        return;
      }
      if before {
        var _ := Restore();
      } else {
        var _ := Backup();
        var _ := Paint(false, 0);
      }
    }

    /** ftk_sprite_show.  A sprite that is shown listens from then on exactly if there was a free slot. */
    method Show(show: bool) returns (ret: Ret)
      requires Valid() && Placed()
      modifies this`visible, display.mem.bits, snap.data, display.onUpdate
      ensures Valid() && Placed() && visible == show
      ensures State() == Model.Shown(display.mem.format, old(State()), show)
      ensures ret == if old(visible) == show then Fail else PaintRet(x, y)
      ensures old(visible) != show ==> (Listening() <==> !show || NoListener in old(display.onUpdate[..]))
      ensures old(visible) == show ==> display.onUpdate[..] == old(display.onUpdate[..])
    {
      hide Layout, Updated, Snapped, UpdateRet;
      if visible == show {
        return Fail;
      }
      ghost var k: nat :| display.OnlySprite(this, k);
      visible := show;
      if visible {
        var _ := Backup();
        ret := Paint(true, FTK_DISPLAY_LISTENER_NR);
        Enter();
      } else {
        Leave(k);
        ret := Restore();
      }
    }

    /** Taking a slot. */
    method Enter()
      requires Valid() && visible && display.OnlySprite(this, FTK_DISPLAY_LISTENER_NR)
      modifies display.onUpdate
      ensures Placed() && (Listening() <==> NoListener in old(display.onUpdate[..]))
    {
      ghost var slots := display.onUpdate[..];
      ghost var k := FirstSlot(slots, NoListener);
      var _ := display.RegUpdateListener(SpriteListener(this));
      assert forall i :: 0 <= i < FTK_DISPLAY_LISTENER_NR ==> display.onUpdate[i] == display.onUpdate[..][i];
      if k < FTK_DISPLAY_LISTENER_NR {
        assert display.OnlySprite(this, k);
      }
    }

    /** Giving it back. */
    method Leave(ghost k: nat)
      requires Valid() && !visible && display.OnlySprite(this, k)
      modifies display.onUpdate
      ensures Listening()
    {
      ghost var slots := display.onUpdate[..];
      var _ := display.UnregUpdateListener(SpriteListener(this));
      assert FirstSlot(slots, SpriteListener(this)) == k by {
        FirstSlotIs(slots, SpriteListener(this), k);
      }
      assert forall i :: 0 <= i < FTK_DISPLAY_LISTENER_NR ==> display.onUpdate[i] == display.onUpdate[..][i];
    }

    /** ftk_sprite_move */
    method MoveTo(x': nat, y': nat) returns (ret: Ret)
      requires Valid() && Placed()
      modifies this`x, this`y, display.mem.bits, snap.data
      ensures Valid() && Placed() && (Listening() <==> old(Listening()))
      ensures State() == Model.Moved(display.mem.format, old(State()), x', y')
      ensures ret == if old(x) == x' && old(y) == y' then Ok else if visible then PaintRet(x, y) else Fail
    {
      hide Layout, Updated, Snapped, UpdateRet, Model.Paint, Model.Backup, Model.Restore;
      ret := Fail;
      if x == x' && y == y' {
        return Ok;
      }
      ghost var k: nat :| display.OnlySprite(this, k);
      if visible {
        var _ := Restore();
      }
      x, y := x', y';
      if visible {
        var _ := Backup();
        ret := Paint(true, k);
      }
    }

    /**
     An application draws on the display, and the sprite steps aside for it, unless it is visible
     without listening.
     */
    method AppDraws(bitmap: Bitmap, rect: Rect, xo: nat, yo: nat) returns (ret: Ret)
      requires Valid() && Placed()
      requires bitmap.Valid() && bitmap.data as object != display.mem.bits
      requires bitmap != icon && bitmap != snap && bitmap.data != snap.data
      modifies display.mem.bits, snap.data
      ensures Valid() && Placed() && (Listening() <==> old(Listening()))
      ensures State() == if Listening()
                         then Model.AppDrawn(display.mem.format, old(State()), bitmap.View(), rect, xo, yo)
                         else Model.DrawOn(display.mem.format, old(State()), bitmap.View(), rect, xo, yo)
      ensures ret == UpdateRet(old(display.mem.View()), bitmap.View(), rect, xo, yo)
    {
      hide Layout, Updated, Snapped, UpdateRet, Model.Paint, Model.Backup, Model.Restore, Model.DrawOn;
      ghost var k: nat :| display.OnlySprite(this, k);
      ret := display.UpdateAndNotify(bitmap, rect, xo, yo, this, k);
    }
  }
}
