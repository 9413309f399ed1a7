/**
 A sprite (src/ftk_sprite.c) on a turned display (src/ftk_display_rotate.c): for which positions
 taking the sprite away still leaves the screen that never had one.
 */
module TurnedCursor {
  import opened Bytes
  import opened Pixels
  import opened Raster
  import opened Bitmaps
  import opened DisplayMem
  import opened DisplayRotate
  import opened RotatedScreen
  import Model = CursorModel

  /** The turned display and the sprite. */
  datatype Cursor<P> = Cursor(st: State<P>, x: nat, y: nat, visible: bool, icon: Image<Color>, snap: Image<Color>) {
    predicate Valid() {
      st.Valid() && icon.Valid() && snap.Valid() && snap.width == icon.width && snap.height == icon.height
    }
  }

  predicate Turned(rotate: Rotate) {
    rotate == Rotate90 || rotate == Rotate180
  }

  /** The icon is not larger than the screen and, for a quarter turn, does not reach below it. */
  predicate Usable<P>(rotate: Rotate, c: Cursor<P>) {
    var dw, dh := c.st.screen.width, c.st.screen.height;
    && c.icon.width <= LogicalWidth(rotate, dw, dh) && c.icon.height <= LogicalHeight(rotate, dw, dh)
    && (rotate == Rotate90 ==> c.y + c.icon.height <= LogicalHeight(rotate, dw, dh))
  }

  /** After half a turn the sprite must also be on the screen as a whole, or not at all. */
  predicate AtHome<P>(rotate: Rotate, c: Cursor<P>) {
    var dw, dh := c.st.screen.width, c.st.screen.height;
    && Usable(rotate, c)
    && (rotate == Rotate180 ==>
          || (c.x + c.icon.width <= dw && c.y + c.icon.height <= dh)
          || c.x >= dw || c.y >= dh)
  }

  lemma UsableMeans<P>(rotate: Rotate, c: Cursor<P>)
    requires Turned(rotate) && c.Valid() && Usable(rotate, c)
    ensures UpdateFits(rotate, c.st.screen.width, c.st.screen.height, c.snap.height, Model.Whole(c.snap), c.y)
    ensures UpdateFits(rotate, c.st.screen.width, c.st.screen.height, c.icon.height, Model.Whole(c.icon), c.y)
    ensures SnapReads(rotate, c.st.screen.width, c.st.screen.height, c.snap.width, c.snap.height,
                      Rect(c.x, c.y, c.snap.width, c.snap.height))
  {
  }

  /** ftk_sprite_backup */
  function Backup<P>(rotate: Rotate, format: Format<P>, c: Cursor<P>): (r: Cursor<P>)
    requires Turned(rotate) && c.Valid() && Usable(rotate, c)
    ensures r.Valid() && r.st.screen == c.st.screen && r == c.(st := r.st, snap := r.snap)
  {
    UsableMeans(rotate, c);
    var r := TurnedSnap(rotate, format, c.st, Rect(c.x, c.y, c.snap.width, c.snap.height), c.snap);
    c.(st := r.1, snap := r.0)
  }

  /** A bitmap drawn on the turned display. */
  function DrawOn<P>(rotate: Rotate, format: Format<P>, c: Cursor<P>, bmp: Image<Color>, rect: Rect, xo: nat, yo: nat):
    (r: Cursor<P>)
    requires Turned(rotate) && c.Valid() && bmp.Valid()
    requires UpdateFits(rotate, c.st.screen.width, c.st.screen.height, bmp.height, rect, yo)
    ensures r.Valid() && r == c.(st := r.st)
    ensures r.st.screen.width == c.st.screen.width && r.st.screen.height == c.st.screen.height
  {
    c.(st := TurnedUpdate(rotate, format, c.st, bmp, rect, xo, yo).0)
  }

  /** ftk_sprite_restore */
  function Restore<P>(rotate: Rotate, format: Format<P>, c: Cursor<P>): (r: Cursor<P>)
    requires Turned(rotate) && c.Valid() && Usable(rotate, c)
    ensures r.Valid() && r == c.(st := r.st)
    ensures r.st.screen.width == c.st.screen.width && r.st.screen.height == c.st.screen.height
  {
    UsableMeans(rotate, c);
    DrawOn(rotate, format, c, c.snap, Model.Whole(c.snap), c.x, c.y)
  }

  /** ftk_sprite_paint */
  function Paint<P>(rotate: Rotate, format: Format<P>, c: Cursor<P>): (r: Cursor<P>)
    requires Turned(rotate) && c.Valid() && Usable(rotate, c)
    ensures r.Valid() && r == c.(st := r.st)
    ensures r.st.screen.width == c.st.screen.width && r.st.screen.height == c.st.screen.height
  {
    UsableMeans(rotate, c);
    DrawOn(rotate, format, c, c.icon, Model.Whole(c.icon), c.x, c.y)
  }

  /** The screen as its user sees it. */
  function Seen<P>(rotate: Rotate, c: Cursor<P>): (r: Image<P>)
    requires c.Valid()
    ensures r.Valid() && r.width == LogicalWidth(rotate, c.st.screen.width, c.st.screen.height)
    ensures r.height == LogicalHeight(rotate, c.st.screen.width, c.st.screen.height)
  {
    Logical(rotate, c.st.screen)
  }

  lemma DrawSeen<P>(rotate: Rotate, format: Format<P>, c: Cursor<P>, bmp: Image<Color>, rect: Rect, xo: nat, yo: nat)
    requires Turned(rotate) && c.Valid() && bmp.Valid()
    requires UpdateFits(rotate, c.st.screen.width, c.st.screen.height, bmp.height, rect, yo)
    ensures Seen(rotate, DrawOn(rotate, format, c, bmp, rect, xo, yo))
         == Updated(format, Seen(rotate, c), bmp, rect, xo, yo)
  {
    hide Logical, TurnedUpdate, Updated, UpdateFits;
    UpdateRefines(rotate, format, c.st, bmp, rect, xo, yo);
  }

  // ---------------------------------------------------------------- saving, painting, putting back

  /** How far half a turn pushes the rectangle that is read back from the far edges. */
  function ShiftX<P>(rotate: Rotate, c: Cursor<P>): int {
    if rotate == Rotate180 then c.x - Min(c.x, c.st.screen.width - c.icon.width) else 0
  }

  function ShiftY<P>(rotate: Rotate, c: Cursor<P>): int {
    if rotate == Rotate180 then c.y - Min(c.y, c.st.screen.height - c.icon.height) else 0
  }

  /** The logical pixel (px, y) lies under the sprite. */
  predicate Under<P>(rotate: Rotate, c: Cursor<P>, px: int, py: int) {
    && 0 <= px < LogicalWidth(rotate, c.st.screen.width, c.st.screen.height)
    && 0 <= py < LogicalHeight(rotate, c.st.screen.width, c.st.screen.height)
    && c.x <= px < c.x + c.icon.width && c.y <= py < c.y + c.icon.height
  }

  lemma ShiftInside<P>(rotate: Rotate, c: Cursor<P>, px: int, py: int)
    requires Turned(rotate) && c.Valid() && Usable(rotate, c) && Under(rotate, c, px, py)
    ensures Seen(rotate, c).Inside(px, py) && Seen(rotate, c).Inside(px - ShiftX(rotate, c), py - ShiftY(rotate, c))
  {
    hide Logical;
  }

  /** The picture under the sprite, one shift further up and to the left. */
  function Shifted<P>(rotate: Rotate, c: Cursor<P>, px: int, py: int): P
    requires Turned(rotate) && c.Valid() && Usable(rotate, c) && Under(rotate, c, px, py)
  {
    ShiftInside(rotate, c, px, py);
    Seen(rotate, c).At(px - ShiftX(rotate, c), py - ShiftY(rotate, c))
  }

  lemma ShiftedSolid<P>(rotate: Rotate, format: Format<P>, c: Cursor<P>, px: int, py: int)
    requires Turned(rotate) && c.Valid() && Usable(rotate, c) && Under(rotate, c, px, py)
    requires Solid(format, Seen(rotate, c))
    ensures format.solid(Shifted(rotate, c, px, py))
  {
    hide Seen, ShiftX, ShiftY, Under, Usable, Image.At;
    ShiftInside(rotate, c, px, py);
  }

  /** The saved pixel for the logical pixel (px, py). */
  lemma BackupAt<P>(rotate: Rotate, format: Format<P>, c: Cursor<P>, px: int, py: int)
    requires Turned(rotate) && c.Valid() && Usable(rotate, c) && Under(rotate, c, px, py)
    ensures Backup(rotate, format, c).snap.At(px - c.x, py - c.y) == format.get(Shifted(rotate, c, px, py))
  {
    hide Image.At, Backup, Logical, Usable, LogicalWidth, LogicalHeight;
    if rotate == Rotate180 {
      HalfBackupAt(format, c, px, py);
    } else {
      QuarterBackupAt(format, c, px, py);
    }
  }

  lemma HalfBackupAt<P>(format: Format<P>, c: Cursor<P>, px: int, py: int)
    requires c.Valid() && Usable(Rotate180, c) && Under(Rotate180, c, px, py)
    ensures Backup(Rotate180, format, c).snap.At(px - c.x, py - c.y) == format.get(Shifted(Rotate180, c, px, py))
  {
    hide Image.At, Snapped, TurnedSnap, Logical;
    UsableMeans(Rotate180, c);
    var dw, dh := c.st.screen.width, c.st.screen.height;
    var rect := Rect(c.x, c.y, c.snap.width, c.snap.height);
    var slid := Slid(Rotate180, dw, dh, c.snap.width, c.snap.height, rect);
    SnapSlides(Rotate180, format, c.st, rect, c.snap);
    SnapRefines(Rotate180, format, c.st, slid, c.snap);
    SnappedAt(format, Seen(Rotate180, c), slid, c.snap, px - c.x, py - c.y);
  }

  lemma QuarterBackupAt<P>(format: Format<P>, c: Cursor<P>, px: int, py: int)
    requires c.Valid() && Usable(Rotate90, c) && Under(Rotate90, c, px, py)
    ensures Backup(Rotate90, format, c).snap.At(px - c.x, py - c.y) == format.get(Seen(Rotate90, c).At(px, py))
  {
    hide Image.At, Snapped, Upright, Logical;
    UsableMeans(Rotate90, c);
    var dw, dh := c.st.screen.width, c.st.screen.height;
    var w, h := c.snap.width, c.snap.height;
    var rect := Rect(c.x, c.y, w, h);
    var r := RealSnapRect(Rotate90, dw, dh, rect, w, h);
    var shadow := Snapped(format, c.st.screen, r, c.st.shadow);
    UprightAt(c.snap, shadow, Quarter, w, h, px - c.x, py - c.y);
    SnappedAt(format, c.st.screen, r, c.st.shadow, h - 1 - (py - c.y), px - c.x);
    LogicalAt(Rotate90, c.st.screen, px, py);
  }

  lemma SameSeen<P>(rotate: Rotate, c: Cursor<P>, d: Cursor<P>)
    requires c.Valid() && d.Valid() && c.st.screen == d.st.screen
    ensures Seen(rotate, c) == Seen(rotate, d)
  {
  }

  /** The screen after saving, painting and putting back. */
  function Covered<P>(rotate: Rotate, format: Format<P>, c: Cursor<P>): (r: Image<P>)
    requires Turned(rotate) && c.Valid() && Usable(rotate, c)
    ensures r.Valid() && r.width == Seen(rotate, c).width && r.height == Seen(rotate, c).height
  {
    Seen(rotate, Restore(rotate, format, Paint(rotate, format, Backup(rotate, format, c))))
  }

  /** In terms of plain displays. */
  lemma CoveredIs<P>(rotate: Rotate, format: Format<P>, c: Cursor<P>)
    requires Turned(rotate) && c.Valid() && Usable(rotate, c)
    ensures var snap := Backup(rotate, format, c).snap;
            Covered(rotate, format, c)
              == Updated(format, Updated(format, Seen(rotate, c), c.icon, Model.Whole(c.icon), c.x, c.y),
                         snap, Model.Whole(snap), c.x, c.y)
  {
    hide Image.At, Updated, Logical, TurnedSnap, TurnedUpdate, UpdateFits, DrawOn;
    var saved := Backup(rotate, format, c);
    var painted := Paint(rotate, format, saved);
    UsableMeans(rotate, saved);
    UsableMeans(rotate, painted);
    DrawSeen(rotate, format, saved, saved.icon, Model.Whole(saved.icon), c.x, c.y);
    DrawSeen(rotate, format, painted, painted.snap, Model.Whole(painted.snap), c.x, c.y);
  }

  /** Under the sprite there is then the shifted picture. */
  lemma CoverAt<P(!new)>(rotate: Rotate, format: Format<P>, c: Cursor<P>, px: int, py: int)
    requires Lawful(format) && Turned(rotate) && c.Valid() && Usable(rotate, c)
    requires Solid(format, Seen(rotate, c)) && Seen(rotate, c).Inside(px, py)
    ensures Covered(rotate, format, c).At(px, py)
         == if Under(rotate, c, px, py) then Shifted(rotate, c, px, py) else Seen(rotate, c).At(px, py)
  {
    hide Image.At, Updated, Logical, Backup, Covered, Usable, Shifted, Seen;
    var snap := Backup(rotate, format, c).snap;
    var painted := Updated(format, Seen(rotate, c), c.icon, Model.Whole(c.icon), c.x, c.y);
    CoveredIs(rotate, format, c);
    UpdatedAt(format, painted, snap, Model.Whole(snap), c.x, c.y, px, py);
    UpdatedAt(format, Seen(rotate, c), c.icon, Model.Whole(c.icon), c.x, c.y, px, py);
    if Under(rotate, c, px, py) {
      BackupAt(rotate, format, c, px, py);
      ShiftedSolid(rotate, format, c, px, py);
    }
  }

  /**
   Taking the sprite away again restores the screen exactly if the picture under the sprite looks
   the same one shift further up and to the left.
   */
  lemma CoverErasesIff<P(!new)>(rotate: Rotate, format: Format<P>, c: Cursor<P>)
    requires Lawful(format) && Turned(rotate) && c.Valid() && Usable(rotate, c) && Solid(format, Seen(rotate, c))
    ensures Covered(rotate, format, c) == Seen(rotate, c)
       <==> forall px, py :: Under(rotate, c, px, py) ==> Shifted(rotate, c, px, py) == Seen(rotate, c).At(px, py)
  {
    hide Image.At, Logical, Covered, Shifted, Usable, Solid, Lawful;
    var before, after := Seen(rotate, c), Covered(rotate, format, c);
    forall px, py | before.Inside(px, py)
      ensures after.At(px, py)
           == if Under(rotate, c, px, py) then Shifted(rotate, c, px, py) else before.At(px, py)
    {
      CoverAt(rotate, format, c, px, py);
    }
    if forall px, py :: Under(rotate, c, px, py) ==> Shifted(rotate, c, px, py) == before.At(px, py) {
      forall px, py | after.Inside(px, py)
        ensures after.At(px, py) == before.At(px, py)
      {
        CoverAt(rotate, format, c, px, py);
      }
      SameImage(after, before);
    }
  }

  /** That is so wherever the sprite is at home. */
  lemma CoverErases<P(!new)>(rotate: Rotate, format: Format<P>, c: Cursor<P>)
    requires Lawful(format) && Turned(rotate) && c.Valid() && AtHome(rotate, c) && Solid(format, Seen(rotate, c))
    ensures Covered(rotate, format, c) == Seen(rotate, c)
  {
    hide Image.At, Logical, Covered, Seen, Solid, Lawful;
    CoverErasesIff(rotate, format, c);
    forall px, py | Under(rotate, c, px, py)
      ensures Shifted(rotate, c, px, py) == Seen(rotate, c).At(px, py)
    {
    }
    hide Under, Shifted, AtHome;
  }

  /** A picture of one colour but for one pixel, on a real screen turned by half. */
  function Spot<P>(w: nat, h: nat, x: int, y: int, p: P, q: P): (r: Image<P>)
    ensures r.Valid() && r.width == w && r.height == h
  {
    Tabulate(w, h, (px, py) => if px == w - 1 - x && py == h - 1 - y then q else p)
  }

  lemma SpotSeen<P>(w: nat, h: nat, x: int, y: int, p: P, q: P, px: int, py: int)
    requires 0 <= px < w && 0 <= py < h
    ensures Logical(Rotate180, Spot(w, h, x, y, p, q)).Inside(px, py)
    ensures Logical(Rotate180, Spot(w, h, x, y, p, q)).At(px, py) == if px == x && py == y then q else p
  {
    hide Image.At;
    var s := Spot(w, h, x, y, p, q);
    LogicalAt(Rotate180, s, px, py);
    assert s.Inside(w - 1 - px, h - 1 - py);
    hide Logical;
  }

  /**
   After half a turn, these are all the positions: from any other, with any format that has two
   colours, there is a picture that the sprite damages.
   */
  lemma AtHomeIff<P(!new)>(format: Format<P>, c: Cursor<P>, p: P, q: P)
    requires Lawful(format) && c.Valid() && Usable(Rotate180, c) && c.icon.width > 0 && c.icon.height > 0
    requires format.solid(p) && format.solid(q) && p != q
    ensures AtHome(Rotate180, c) <==>
              forall screen: Image<P> ::
                screen.Valid() && screen.width == c.st.screen.width && screen.height == c.st.screen.height
                && Solid(format, Logical(Rotate180, screen)) ==>
                  ErasedOn(format, c, screen)
  {
    if AtHome(Rotate180, c) {
      forall screen: Image<P> |
        screen.Valid() && screen.width == c.st.screen.width && screen.height == c.st.screen.height
        && Solid(format, Logical(Rotate180, screen))
        ensures ErasedOn(format, c, screen)
      {
        CoverErases(Rotate180, format, c.(st := c.st.(screen := screen)));
      }
    } else {
      DamagedSpot(format, c, p, q);
    }
  }

  ghost predicate ErasedOn<P(!new)>(format: Format<P>, c: Cursor<P>, screen: Image<P>)
    requires c.Valid() && Usable(Rotate180, c)
    requires screen.Valid() && screen.width == c.st.screen.width && screen.height == c.st.screen.height
  {
    Covered(Rotate180, format, c.(st := c.st.(screen := screen))) == Logical(Rotate180, screen)
  }

  lemma DamagedSpot<P(!new)>(format: Format<P>, c: Cursor<P>, p: P, q: P)
    requires Lawful(format) && c.Valid() && Usable(Rotate180, c) && c.icon.width > 0 && c.icon.height > 0
    requires format.solid(p) && format.solid(q) && p != q && !AtHome(Rotate180, c)
    ensures var s := Spot(c.st.screen.width, c.st.screen.height, c.x, c.y, p, q);
            Solid(format, Logical(Rotate180, s)) && !ErasedOn(format, c, s)
  {
    hide Image.At, Logical, Covered, Spot, Lawful;
    var w, h := c.st.screen.width, c.st.screen.height;
    var s := Spot(w, h, c.x, c.y, p, q);
    var d := c.(st := c.st.(screen := s));
    forall px, py | 0 <= px < w && 0 <= py < h
      ensures Logical(Rotate180, s).Inside(px, py)
      ensures Logical(Rotate180, s).At(px, py) == if px == c.x && py == c.y then q else p
    {
      SpotSeen(w, h, c.x, c.y, p, q, px, py);
    }
    CoverErasesIff(Rotate180, format, d);
    assert Under(Rotate180, d, c.x, c.y);
    ShiftInside(Rotate180, d, c.x, c.y);
  }

  // ---------------------------------------------------------------- whole runs

  /** The sprite is at home wherever it is visible, and drawing fits the turned display. */
  predicate CanStep<P>(rotate: Rotate, c: Cursor<P>, a: Model.Action) {
    match a
    case Show(show) => show ==> AtHome(rotate, c)
    case Move(x, y) => c.visible ==> AtHome(rotate, c.(x := x, y := y))
    case SetIcon(icon, snap) =>
      !c.visible && icon.Valid() && snap.Valid() && snap.width == icon.width && snap.height == icon.height
    case Draw(bmp, rect, ox, oy) =>
      bmp.Valid() && UpdateFits(rotate, c.st.screen.width, c.st.screen.height, bmp.height, rect, oy)
  }

  /** The same actions as `CursorModel.Step`, through the turned display. */
  function Step<P>(rotate: Rotate, format: Format<P>, c: Cursor<P>, a: Model.Action): (r: Cursor<P>)
    requires Turned(rotate) && c.Valid() && (c.visible ==> Usable(rotate, c)) && CanStep(rotate, c, a)
    ensures r.Valid()
  {
    match a
    case Show(show) =>
      if c.visible == show then c
      else if show then Paint(rotate, format, Backup(rotate, format, c.(visible := true)))
      else Restore(rotate, format, c.(visible := false))
    case Move(x, y) =>
      if c.x == x && c.y == y then c
      else if c.visible then Paint(rotate, format, Backup(rotate, format, Restore(rotate, format, c).(x := x, y := y)))
      else c.(x := x, y := y)
    case SetIcon(icon, snap) => c.(icon := icon, snap := snap)
    case Draw(bmp, rect, ox, oy) =>
      if c.visible
      then Paint(rotate, format, Backup(rotate, format,
             DrawOn(rotate, format, Restore(rotate, format, c), bmp, rect, ox, oy)))
      else DrawOn(rotate, format, c, bmp, rect, ox, oy)
  }

  /** The screen with the saved pixels put back. */
  function Erased<P>(rotate: Rotate, format: Format<P>, c: Cursor<P>): (r: Image<P>)
    requires Turned(rotate) && c.Valid() && (c.visible ==> Usable(rotate, c))
    ensures r.Valid()
  {
    if c.visible then Seen(rotate, Restore(rotate, format, c)) else Seen(rotate, c)
  }

  ghost predicate Invariant<P>(rotate: Rotate, format: Format<P>, c: Cursor<P>) {
    c.Valid() && Solid(format, Seen(rotate, c)) && (c.visible ==> AtHome(rotate, c))
  }

  lemma DrawKeepsSolid<P(!new)>(rotate: Rotate, format: Format<P>, c: Cursor<P>, bmp: Image<Color>, rect: Rect,
                                xo: nat, yo: nat)
    requires Lawful(format) && Turned(rotate) && c.Valid() && bmp.Valid() && Solid(format, Seen(rotate, c))
    requires UpdateFits(rotate, c.st.screen.width, c.st.screen.height, bmp.height, rect, yo)
    ensures Solid(format, Seen(rotate, DrawOn(rotate, format, c, bmp, rect, xo, yo)))
  {
    DrawSeen(rotate, format, c, bmp, rect, xo, yo);
    DrawingIsSolid(format, Seen(rotate, c), bmp, rect, xo, yo);
    hide Solid, Seen, DrawOn, UpdateFits, CopiedTo;
  }

  lemma RestoreKeepsSolid<P(!new)>(rotate: Rotate, format: Format<P>, c: Cursor<P>)
    requires Lawful(format) && Turned(rotate) && c.Valid() && Usable(rotate, c) && Solid(format, Seen(rotate, c))
    ensures Solid(format, Seen(rotate, Restore(rotate, format, c)))
  {
    UsableMeans(rotate, c);
    DrawKeepsSolid(rotate, format, c, c.snap, Model.Whole(c.snap), c.x, c.y);
    hide Solid, Seen, DrawOn, UpdateFits;
  }

  /** Saving and painting keeps what is there once the sprite is erased. */
  lemma CoverKeeps<P(!new)>(rotate: Rotate, format: Format<P>, c: Cursor<P>)
    requires Lawful(format) && Turned(rotate) && c.Valid() && AtHome(rotate, c) && Solid(format, Seen(rotate, c))
    ensures var r := Paint(rotate, format, Backup(rotate, format, c));
            && AtHome(rotate, r) && Solid(format, Seen(rotate, r))
            && Seen(rotate, Restore(rotate, format, r)) == Seen(rotate, c)
  {
    hide Solid, Seen, DrawOn, UpdateFits, Backup, Restore, Lawful;
    CoverErases(rotate, format, c);
    var saved := Backup(rotate, format, c);
    SameSeen(rotate, c, saved);
    UsableMeans(rotate, saved);
    DrawKeepsSolid(rotate, format, saved, saved.icon, Model.Whole(saved.icon), saved.x, saved.y);
  }

  /** Each action does to the erased screen what it does on a plain display of the logical size without a sprite. */
  lemma StepErases<P(!new)>(rotate: Rotate, format: Format<P>, c: Cursor<P>, a: Model.Action)
    requires Lawful(format) && Turned(rotate) && Invariant(rotate, format, c) && CanStep(rotate, c, a)
    ensures Invariant(rotate, format, Step(rotate, format, c, a))
    ensures Erased(rotate, format, Step(rotate, format, c, a))
         == Model.PlainStep(format, Erased(rotate, format, c), a)
  {
    hide Solid, Seen, DrawOn, UpdateFits, Backup, Restore, Paint, Updated, Lawful;
    if c.visible {
      RestoreKeepsSolid(rotate, format, c);
    }
    match a
    case Show(show) =>
      if show && !c.visible {
        SameSeen(rotate, c, c.(visible := true));
        CoverKeeps(rotate, format, c.(visible := true));
      } else if !show && c.visible {
        HiddenRestore(rotate, format, c);
      }
    case Move(x, y) =>
      var d := if c.visible then Restore(rotate, format, c).(x := x, y := y) else c.(x := x, y := y);
      if c.visible {
        SameSeen(rotate, Restore(rotate, format, c), d);
        CoverKeeps(rotate, format, d);
      } else {
        SameSeen(rotate, c, d);
      }
    case SetIcon(icon, snap) => SameSeen(rotate, c, c.(icon := icon, snap := snap));
    case Draw(bmp, rect, ox, oy) =>
      var d := if c.visible then Restore(rotate, format, c) else c;
      DrawSeen(rotate, format, d, bmp, rect, ox, oy);
      DrawKeepsSolid(rotate, format, d, bmp, rect, ox, oy);
      if c.visible {
        CoverKeeps(rotate, format, DrawOn(rotate, format, d, bmp, rect, ox, oy));
      }
  }

  lemma HiddenRestore<P>(rotate: Rotate, format: Format<P>, c: Cursor<P>)
    requires Turned(rotate) && c.Valid() && Usable(rotate, c)
    ensures Seen(rotate, Restore(rotate, format, c.(visible := false))) == Seen(rotate, Restore(rotate, format, c))
  {
    hide TurnedUpdate, Logical, UpdateFits;
  }

  /** Every action of the run can be carried out when its turn comes. */
  predicate RunAllowed<P>(rotate: Rotate, format: Format<P>, c: Cursor<P>, actions: seq<Model.Action>)
    requires Turned(rotate) && c.Valid()
    decreases |actions|
  {
    actions == [] ||
    ((c.visible ==> Usable(rotate, c)) && CanStep(rotate, c, actions[0])
     && RunAllowed(rotate, format, Step(rotate, format, c, actions[0]), actions[1..]))
  }

  function Run<P>(rotate: Rotate, format: Format<P>, c: Cursor<P>, actions: seq<Model.Action>): (r: Cursor<P>)
    requires Turned(rotate) && c.Valid() && RunAllowed(rotate, format, c, actions)
    ensures r.Valid()
    decreases |actions|
  {
    if actions == [] then c else Run(rotate, format, Step(rotate, format, c, actions[0]), actions[1..])
  }

  lemma {:induction false} AllowedBitmapsValid<P>(rotate: Rotate, format: Format<P>, c: Cursor<P>,
                                                  actions: seq<Model.Action>)
    requires Turned(rotate) && c.Valid() && RunAllowed(rotate, format, c, actions)
    ensures forall i :: 0 <= i < |actions| && actions[i].Draw? ==> actions[i].bmp.Valid()
    decreases |actions|
  {
    if actions != [] {
      hide Step;
      AllowedBitmapsValid(rotate, format, Step(rotate, format, c, actions[0]), actions[1..]);
      forall i | 0 <= i < |actions| && actions[i].Draw?
        ensures actions[i].bmp.Valid()
      {
        assert i > 0 ==> actions[i] == actions[1..][i - 1];
      }
    }
  }

  /**
   Over every run on a turned display on which the sprite is only shown where it is at home, erasing
   it gives the picture of the same run on a plain display without a sprite.
   */
  lemma {:induction false} RunErases<P(!new)>(rotate: Rotate, format: Format<P>, c: Cursor<P>,
                                              actions: seq<Model.Action>)
    requires Lawful(format) && Turned(rotate) && Invariant(rotate, format, c)
    requires RunAllowed(rotate, format, c, actions)
    ensures forall i :: 0 <= i < |actions| && actions[i].Draw? ==> actions[i].bmp.Valid()
    ensures Invariant(rotate, format, Run(rotate, format, c, actions))
    ensures Erased(rotate, format, Run(rotate, format, c, actions))
         == Model.PlainRun(format, Erased(rotate, format, c), actions)
    decreases |actions|
  {
    AllowedBitmapsValid(rotate, format, c, actions);
    if actions != [] {
      hide Step, Erased, Model.PlainStep, Solid, Lawful;
      StepErases(rotate, format, c, actions[0]);
      RunErases(rotate, format, Step(rotate, format, c, actions[0]), actions[1..]);
    }
  }

  // ---------------------------------------------------------------- what is to be seen

  /** A visible sprite is on top of the picture without it. */
  ghost predicate OnTop<P>(rotate: Rotate, format: Format<P>, c: Cursor<P>)
    requires Turned(rotate) && c.Valid() && (c.visible ==> Usable(rotate, c))
  {
    c.visible ==>
      Seen(rotate, c) == Updated(format, Erased(rotate, format, c), c.icon, Model.Whole(c.icon), c.x, c.y)
  }

  lemma CoverOnTop<P(!new)>(rotate: Rotate, format: Format<P>, c: Cursor<P>)
    requires Lawful(format) && Turned(rotate) && c.Valid() && AtHome(rotate, c) && Solid(format, Seen(rotate, c))
    ensures OnTop(rotate, format, Paint(rotate, format, Backup(rotate, format, c)))
  {
    hide Seen, Solid, Lawful, DrawOn, Backup, Updated, UpdateFits, Restore;
    var saved := Backup(rotate, format, c);
    UsableMeans(rotate, saved);
    SameSeen(rotate, c, saved);
    CoverKeeps(rotate, format, c);
    DrawSeen(rotate, format, saved, saved.icon, Model.Whole(saved.icon), saved.x, saved.y);
  }

  lemma StepShows<P(!new)>(rotate: Rotate, format: Format<P>, c: Cursor<P>, a: Model.Action)
    requires Lawful(format) && Turned(rotate) && Invariant(rotate, format, c) && CanStep(rotate, c, a)
    requires OnTop(rotate, format, c)
    ensures var r := Step(rotate, format, c, a);
            && (r.visible ==> Usable(rotate, r)) && OnTop(rotate, format, r)
            && r.visible == (if a.Show? then a.show else c.visible)
            && (r.x, r.y) == (if a.Move? then (a.x, a.y) else (c.x, c.y))
            && r.icon == (if a.SetIcon? then a.icon else c.icon)
  {
    hide Solid, Seen, DrawOn, UpdateFits, Backup, Restore, Paint, Updated, Lawful;
    StepErases(rotate, format, c, a);
    if c.visible {
      RestoreKeepsSolid(rotate, format, c);
    }
    match a
    case Show(show) =>
      if show && !c.visible {
        SameSeen(rotate, c, c.(visible := true));
        CoverOnTop(rotate, format, c.(visible := true));
      }
    case Move(x, y) =>
      if c.visible && !(c.x == x && c.y == y) {
        var d := Restore(rotate, format, c).(x := x, y := y);
        SameSeen(rotate, Restore(rotate, format, c), d);
        CoverOnTop(rotate, format, d);
      }
    case SetIcon(icon, snap) =>
    case Draw(bmp, rect, ox, oy) =>
      if c.visible {
        var d := Restore(rotate, format, c);
        DrawKeepsSolid(rotate, format, d, bmp, rect, ox, oy);
        CoverOnTop(rotate, format, DrawOn(rotate, format, d, bmp, rect, ox, oy));
      }
  }

  lemma {:induction false} LastSet<P(!new)>(rotate: Rotate, format: Format<P>, c: Cursor<P>, actions: seq<Model.Action>)
    requires Lawful(format) && Turned(rotate) && Invariant(rotate, format, c) && OnTop(rotate, format, c)
    requires RunAllowed(rotate, format, c, actions)
    ensures var r := Run(rotate, format, c, actions);
            && (r.visible ==> Usable(rotate, r)) && OnTop(rotate, format, r)
            && (r.visible, r.x, r.y, r.icon) == Model.Last((c.visible, c.x, c.y, c.icon), actions)
    decreases |actions|
  {
    hide Step, Erased, Solid, Lawful, OnTop, Seen, CanStep;
    if actions != [] {
      StepErases(rotate, format, c, actions[0]);
      StepShows(rotate, format, c, actions[0]);
      LastSet(rotate, format, Step(rotate, format, c, actions[0]), actions[1..]);
    }
  }

  /**
   On a turned display, too, what is seen after every run is the picture of the same run on a plain
   display without a sprite, with the icon on top at the position of the last move, if it was shown last.
   */
  lemma RunShows<P(!new)>(rotate: Rotate, format: Format<P>, c: Cursor<P>, actions: seq<Model.Action>)
    requires Lawful(format) && Turned(rotate) && Invariant(rotate, format, c) && OnTop(rotate, format, c)
    requires RunAllowed(rotate, format, c, actions)
    ensures forall i :: 0 <= i < |actions| && actions[i].Draw? ==> actions[i].bmp.Valid()
    ensures var r := Run(rotate, format, c, actions);
            var plain := Model.PlainRun(format, Erased(rotate, format, c), actions);
            && (r.visible, r.x, r.y, r.icon) == Model.Last((c.visible, c.x, c.y, c.icon), actions)
            && r.Valid() && plain.Valid()
            && Seen(rotate, r) == if r.visible then Updated(format, plain, r.icon, Model.Whole(r.icon), r.x, r.y) else plain
  {
    hide Run, Restore, Seen, Updated, Solid, Lawful, RunAllowed, Model.Last;
    RunErases(rotate, format, c, actions);
    LastSet(rotate, format, c, actions);
  }
}
