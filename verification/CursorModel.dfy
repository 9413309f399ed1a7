/**
 What a sprite does to the screen (src/ftk_sprite.c), as a machine over values, and the proof that
 taking the sprite away leaves the screen that never had one.
 */
module CursorModel {
  import opened Bytes
  import opened Pixels
  import opened Raster
  import opened Bitmaps
  import opened DisplayMem

  /** The screen, and the sprite with the pixels it saved. */
  datatype State<P> = State(screen: Image<P>, x: nat, y: nat, visible: bool, icon: Image<Color>, snap: Image<Color>) {
    predicate Valid() {
      screen.Valid() && icon.Valid() && snap.Valid() && snap.width == icon.width && snap.height == icon.height
    }
  }

  function Whole(bmp: Image<Color>): Rect {
    Rect(0, 0, bmp.width, bmp.height)
  }

  /** ftk_sprite_backup */
  function Backup<P>(format: Format<P>, st: State<P>): (r: State<P>)
    requires st.Valid()
    ensures r.Valid()
  {
    st.(snap := Snapped(format, st.screen, Rect(st.x, st.y, st.snap.width, st.snap.height), st.snap))
  }

  /** ftk_sprite_restore */
  function Restore<P>(format: Format<P>, st: State<P>): (r: State<P>)
    requires st.Valid()
    ensures r.Valid()
  {
    st.(screen := Updated(format, st.screen, st.snap, Whole(st.snap), st.x, st.y))
  }

  /** ftk_sprite_paint */
  function Paint<P>(format: Format<P>, st: State<P>): (r: State<P>)
    requires st.Valid()
    ensures r.Valid()
  {
    st.(screen := Updated(format, st.screen, st.icon, Whole(st.icon), st.x, st.y))
  }

  /** What the user of the display and of the sprite can do. */
  datatype Action =
    | Show(show: bool)
    | Move(x: nat, y: nat)
    | SetIcon(icon: Image<Color>, snap: Image<Color>)   // with the fresh bitmap for the saved pixels
    | Draw(bmp: Image<Color>, rect: Rect, ox: nat, oy: nat)

  /** The icon may only be replaced while the sprite is hidden. */
  predicate Allowed<P>(st: State<P>, a: Action) {
    match a
    case Show(_) => true
    case Move(_, _) => true
    case SetIcon(icon, snap) =>
      !st.visible && icon.Valid() && snap.Valid() && snap.width == icon.width && snap.height == icon.height
    case Draw(bmp, _, _, _) => bmp.Valid()
  }

  /** ftk_sprite_show */
  function Shown<P>(format: Format<P>, st: State<P>, show: bool): (r: State<P>)
    requires st.Valid()
    ensures r.Valid()
  {
    if st.visible == show then st
    else if show then Paint(format, Backup(format, st.(visible := true)))
    else Restore(format, st.(visible := false))
  }

  /** ftk_sprite_move */
  function Moved<P>(format: Format<P>, st: State<P>, x: nat, y: nat): (r: State<P>)
    requires st.Valid()
    ensures r.Valid()
  {
    if st.x == x && st.y == y then st
    else if st.visible then Paint(format, Backup(format, Restore(format, st).(x := x, y := y)))
    else st.(x := x, y := y)
  }

  function DrawOn<P>(format: Format<P>, st: State<P>, bmp: Image<Color>, rect: Rect, ox: nat, oy: nat): (r: State<P>)
    requires st.Valid() && bmp.Valid()
    ensures r.Valid()
  {
    st.(screen := Updated(format, st.screen, bmp, rect, ox, oy))
  }

  /** ftk_display_update_and_notify with the sprite listening while it is visible. */
  function AppDrawn<P>(format: Format<P>, st: State<P>, bmp: Image<Color>, rect: Rect, ox: nat, oy: nat): (r: State<P>)
    requires st.Valid() && bmp.Valid()
    ensures r.Valid()
  {
    if st.visible then Paint(format, Backup(format, DrawOn(format, Restore(format, st), bmp, rect, ox, oy)))
    else DrawOn(format, st, bmp, rect, ox, oy)
  }

  function Step<P>(format: Format<P>, st: State<P>, a: Action): (r: State<P>)
    requires st.Valid() && Allowed(st, a)
    ensures r.Valid()
  {
    match a
    case Show(show) => Shown(format, st, show)
    case Move(x, y) => Moved(format, st, x, y)
    case SetIcon(icon, snap) => st.(icon := icon, snap := snap)
    case Draw(bmp, rect, ox, oy) => AppDrawn(format, st, bmp, rect, ox, oy)
  }

  /** The screen with the saved pixels put back: what should be there without the sprite. */
  function Erased<P>(format: Format<P>, st: State<P>): (r: Image<P>)
    requires st.Valid()
    ensures r.Valid() && r.width == st.screen.width && r.height == st.screen.height
  {
    if st.visible then Restore(format, st).screen else st.screen
  }

  /** The same action on a display without any sprite. */
  function PlainStep<P>(format: Format<P>, screen: Image<P>, a: Action): (r: Image<P>)
    requires screen.Valid() && (a.Draw? ==> a.bmp.Valid())
    ensures r.Valid()
  {
    match a
    case Draw(bmp, rect, ox, oy) => Updated(format, screen, bmp, rect, ox, oy)
    case _ => screen
  }

  // ---------------------------------------------------------------- erasing

  lemma CoverThenEraseAt<P(!new)>(format: Format<P>, st: State<P>, px: int, py: int)
    requires Lawful(format) && st.Valid() && Solid(format, st.screen) && st.screen.Inside(px, py)
    ensures Restore(format, Paint(format, Backup(format, st))).screen.At(px, py) == st.screen.At(px, py)
  {
    hide Image.At, Updated, Snapped;
    var saved := Backup(format, st);
    var painted := Paint(format, saved);
    UpdatedAt(format, painted.screen, saved.snap, Whole(saved.snap), st.x, st.y, px, py);
    UpdatedAt(format, st.screen, st.icon, Whole(st.icon), st.x, st.y, px, py);
    if Drawn(Whole(st.icon), st.icon.width, st.icon.height, st.x, st.y, px, py) {
      SnappedAt(format, st.screen, Rect(st.x, st.y, st.snap.width, st.snap.height), st.snap, px - st.x, py - st.y);
    }
  }

  /** Saving, painting and putting back restores every pixel, on and off the screen's edge. */
  lemma CoverThenErase<P(!new)>(format: Format<P>, st: State<P>)
    requires Lawful(format) && st.Valid() && Solid(format, st.screen)
    ensures Restore(format, Paint(format, Backup(format, st))).screen == st.screen
  {
    var r := Restore(format, Paint(format, Backup(format, st))).screen;
    hide Restore, Paint, Backup;
    forall px, py | r.Inside(px, py)
      ensures r.At(px, py) == st.screen.At(px, py)
    {
      CoverThenEraseAt(format, st, px, py);
    }
    SameImage(r, st.screen);
  }

  ghost predicate Invariant<P>(format: Format<P>, st: State<P>) {
    st.Valid() && Solid(format, st.screen)
  }

  /** Every primitive keeps the framebuffer free of transparent pixels. */
  lemma PrimitivesKeepSolid<P(!new)>(format: Format<P>, st: State<P>)
    requires Lawful(format) && Invariant(format, st)
    ensures Invariant(format, Restore(format, st)) && Invariant(format, Paint(format, st))
    ensures Invariant(format, Backup(format, st))
  {
    DrawingIsSolid(format, st.screen, st.snap, Whole(st.snap), st.x, st.y);
    DrawingIsSolid(format, st.screen, st.icon, Whole(st.icon), st.x, st.y);
    hide CopiedTo, Snapped, Solid;
  }

  lemma CoverInvariant<P(!new)>(format: Format<P>, st: State<P>)
    requires Lawful(format) && Invariant(format, st)
    ensures Invariant(format, Paint(format, Backup(format, st)))
    ensures st.visible ==> Erased(format, Paint(format, Backup(format, st))) == st.screen
  {
    PrimitivesKeepSolid(format, st);
    PrimitivesKeepSolid(format, Backup(format, st));
    CoverThenErase(format, st);
    hide Updated, Snapped, Solid;
  }

  /** Every action does to the erased screen what it does on a display without a sprite. */
  lemma StepErases<P(!new)>(format: Format<P>, st: State<P>, a: Action)
    requires Lawful(format) && Invariant(format, st) && Allowed(st, a)
    ensures Invariant(format, Step(format, st, a))
    ensures Erased(format, Step(format, st, a)) == PlainStep(format, Erased(format, st), a)
  {
    hide Updated, Solid, Backup, Paint;
    PrimitivesKeepSolid(format, st);
    match a
    case Show(show) =>
      if show && !st.visible {
        CoverInvariant(format, st.(visible := true));
      }
    case Move(x, y) =>
      if st.visible {
        CoverInvariant(format, Restore(format, st).(x := x, y := y));
      }
    case SetIcon(_, _) =>
    case Draw(bmp, rect, ox, oy) =>
      if st.visible {
        DrawKeepsSolid(format, Restore(format, st), bmp, rect, ox, oy);
        CoverInvariant(format, DrawOn(format, Restore(format, st), bmp, rect, ox, oy));
      } else {
        DrawKeepsSolid(format, st, bmp, rect, ox, oy);
      }
  }

  lemma DrawKeepsSolid<P(!new)>(format: Format<P>, st: State<P>, bmp: Image<Color>, rect: Rect, ox: nat, oy: nat)
    requires Lawful(format) && Invariant(format, st) && bmp.Valid()
    ensures Invariant(format, DrawOn(format, st, bmp, rect, ox, oy))
  {
    DrawingIsSolid(format, st.screen, bmp, rect, ox, oy);
    hide CopiedTo, Solid;
  }

  // ---------------------------------------------------------------- whole runs

  /** Every action of the run is allowed when its turn comes. */
  predicate RunAllowed<P>(format: Format<P>, st: State<P>, actions: seq<Action>)
    requires st.Valid()
    decreases |actions|
  {
    actions == [] ||
    (Allowed(st, actions[0]) && RunAllowed(format, Step(format, st, actions[0]), actions[1..]))
  }

  function Run<P>(format: Format<P>, st: State<P>, actions: seq<Action>): (r: State<P>)
    requires st.Valid() && RunAllowed(format, st, actions)
    ensures r.Valid()
    decreases |actions|
  {
    if actions == [] then st else Run(format, Step(format, st, actions[0]), actions[1..])
  }

  function PlainRun<P>(format: Format<P>, screen: Image<P>, actions: seq<Action>): (r: Image<P>)
    requires screen.Valid()
    requires forall i :: 0 <= i < |actions| && actions[i].Draw? ==> actions[i].bmp.Valid()
    decreases |actions|
  {
    if actions == [] then screen else PlainRun(format, PlainStep(format, screen, actions[0]), actions[1..])
  }

  lemma {:induction false} AllowedBitmapsValid<P>(format: Format<P>, st: State<P>, actions: seq<Action>)
    requires st.Valid() && RunAllowed(format, st, actions)
    ensures forall i :: 0 <= i < |actions| && actions[i].Draw? ==> actions[i].bmp.Valid()
    decreases |actions|
  {
    if actions != [] {
      hide Step;
      AllowedBitmapsValid(format, Step(format, st, actions[0]), actions[1..]);
      forall i | 0 <= i < |actions| && actions[i].Draw?
        ensures actions[i].bmp.Valid()
      {
        assert i > 0 ==> actions[i] == actions[1..][i - 1];
      }
    }
  }

  /**
   Over every run of showing, hiding, moving and drawing, erasing the sprite gives exactly the
   screen of the same run without a sprite.
   */
  lemma {:induction false} RunErases<P(!new)>(format: Format<P>, st: State<P>, actions: seq<Action>)
    requires Lawful(format) && Invariant(format, st) && RunAllowed(format, st, actions)
    ensures forall i :: 0 <= i < |actions| && actions[i].Draw? ==> actions[i].bmp.Valid()
    ensures Invariant(format, Run(format, st, actions))
    ensures Erased(format, Run(format, st, actions)) == PlainRun(format, Erased(format, st), actions)
    decreases |actions|
  {
    AllowedBitmapsValid(format, st, actions);
    if actions != [] {
      hide Step, Erased, PlainStep, Invariant;
      StepErases(format, st, actions[0]);
      assert Step(format, st, actions[0]).Valid();
      RunErases(format, Step(format, st, actions[0]), actions[1..]);
    }
  }

  /** Once the sprite is hidden, nothing of it is left on the screen. */
  lemma HiddenLeavesNoTrace<P(!new)>(format: Format<P>, st: State<P>, actions: seq<Action>)
    requires Lawful(format) && Invariant(format, st) && !st.visible && RunAllowed(format, st, actions)
    requires !Run(format, st, actions).visible
    ensures forall i :: 0 <= i < |actions| && actions[i].Draw? ==> actions[i].bmp.Valid()
    ensures Run(format, st, actions).screen == PlainRun(format, st.screen, actions)
  {
    RunErases(format, st, actions);
    hide Run, PlainRun;
  }

  // ---------------------------------------------------------------- what is to be seen

  /** A visible sprite is on top of the picture without it. */
  ghost predicate OnTop<P>(format: Format<P>, st: State<P>)
    requires st.Valid()
  {
    st.visible ==> st.screen == Updated(format, Erased(format, st), st.icon, Whole(st.icon), st.x, st.y)
  }

  /** Pixel by pixel. */
  lemma OnTopAt<P>(format: Format<P>, st: State<P>, px: int, py: int)
    requires st.Valid() && st.visible && OnTop(format, st) && st.screen.Inside(px, py)
    ensures st.screen.At(px, py)
         == if st.x <= px < st.x + st.icon.width && st.y <= py < st.y + st.icon.height
            then format.put(st.icon.At(px - st.x, py - st.y), Erased(format, st).At(px, py))
            else Erased(format, st).At(px, py)
  {
    hide Image.At, Updated, Erased;
    UpdatedAt(format, Erased(format, st), st.icon, Whole(st.icon), st.x, st.y, px, py);
  }

  lemma CoverOnTop<P(!new)>(format: Format<P>, st: State<P>)
    requires Lawful(format) && Invariant(format, st)
    ensures OnTop(format, Paint(format, Backup(format, st)))
  {
    CoverThenErase(format, st);
    hide Updated, Snapped, Solid;
  }

  /** Every action leaves a visible sprite on top, where it is to be, with its icon. */
  lemma StepShows<P(!new)>(format: Format<P>, st: State<P>, a: Action)
    requires Lawful(format) && Invariant(format, st) && Allowed(st, a) && OnTop(format, st)
    ensures var r := Step(format, st, a);
            && OnTop(format, r)
            && r.visible == (if a.Show? then a.show else st.visible)
            && (r.x, r.y) == (if a.Move? then (a.x, a.y) else (st.x, st.y))
            && r.icon == (if a.SetIcon? then a.icon else st.icon)
  {
    hide Updated, Solid;
    PrimitivesKeepSolid(format, st);
    match a
    case Show(show) =>
      if show && !st.visible {
        CoverOnTop(format, st.(visible := true));
      }
    case Move(x, y) =>
      if st.visible && !(st.x == x && st.y == y) {
        CoverOnTop(format, Restore(format, st).(x := x, y := y));
      }
    case SetIcon(_, _) =>
    case Draw(bmp, rect, ox, oy) =>
      if st.visible {
        DrawKeepsSolid(format, Restore(format, st), bmp, rect, ox, oy);
        CoverOnTop(format, DrawOn(format, Restore(format, st), bmp, rect, ox, oy));
      }
  }

  /** Visibility, position and icon after a run are the last ones asked for. */
  function Last(st: (bool, nat, nat, Image<Color>), actions: seq<Action>): (bool, nat, nat, Image<Color>)
    decreases |actions|
  {
    if actions == [] then st
    else
      var (visible, x, y, icon) := st;
      Last(match actions[0]
           case Show(show) => (show, x, y, icon)
           case Move(x', y') => (visible, x', y', icon)
           case SetIcon(icon', _) => (visible, x, y, icon')
           case Draw(_, _, _, _) => st,
           actions[1..])
  }

  /**
   So the screen after every run is known: it is the screen of the same run without a sprite, with
   the sprite's icon on top of it at the position of the last move, if it was shown last.
   */
  lemma {:induction false} RunShows<P(!new)>(format: Format<P>, st: State<P>, actions: seq<Action>)
    requires Lawful(format) && Invariant(format, st) && OnTop(format, st) && RunAllowed(format, st, actions)
    ensures forall i :: 0 <= i < |actions| && actions[i].Draw? ==> actions[i].bmp.Valid()
    ensures var r, plain := Run(format, st, actions), PlainRun(format, Erased(format, st), actions);
            && (r.visible, r.x, r.y, r.icon) == Last((st.visible, st.x, st.y, st.icon), actions)
            && r.Valid() && plain.Valid()
            && r.screen == if r.visible then Updated(format, plain, r.icon, Whole(r.icon), r.x, r.y) else plain
    decreases |actions|
  {
    RunErases(format, st, actions);
    LastSet(format, st, actions);
    hide Run, PlainRun, Restore, Updated, Last;
  }

  lemma {:induction false} LastSet<P(!new)>(format: Format<P>, st: State<P>, actions: seq<Action>)
    requires Lawful(format) && Invariant(format, st) && OnTop(format, st) && RunAllowed(format, st, actions)
    ensures var r := Run(format, st, actions);
            OnTop(format, r) && (r.visible, r.x, r.y, r.icon) == Last((st.visible, st.x, st.y, st.icon), actions)
    decreases |actions|
  {
    if actions != [] {
      hide Step, Erased, Invariant, OnTop;
      StepShows(format, st, actions[0]);
      StepErases(format, st, actions[0]);
      assert Step(format, st, actions[0]).Valid();
      LastSet(format, Step(format, st, actions[0]), actions[1..]);
    }
  }

  // ---------------------------------------------------------------- a sprite that does not listen

  /** The pixel (px, py) of the screen lies under the sprite. */
  predicate Under<P>(st: State<P>, px: int, py: int) {
    st.screen.Inside(px, py) && Drawn(Whole(st.icon), st.icon.width, st.icon.height, st.x, st.y, px, py)
  }

  lemma RestoredAt<P>(format: Format<P>, st: State<P>, px: int, py: int)
    requires st.Valid() && st.screen.Inside(px, py)
    ensures Under(st, px, py) ==> st.snap.Inside(px - st.x, py - st.y)
    ensures Restore(format, st).screen.At(px, py)
         == if Under(st, px, py) then format.put(st.snap.At(px - st.x, py - st.y), st.screen.At(px, py))
            else st.screen.At(px, py)
  {
    hide Image.At, Updated;
    UpdatedAt(format, st.screen, st.snap, Whole(st.snap), st.x, st.y, px, py);
  }

  /** Drawing `c` gives `p` on every background. */
  ghost predicate Covers<P(!new)>(format: Format<P>, c: Color, p: P) {
    forall q :: format.put(c, q) == p
  }

  /** Putting the saved pixels back gives the same picture whatever is on the screen by then. */
  ghost predicate Saved<P(!new)>(format: Format<P>, st: State<P>)
    requires st.Valid()
  {
    forall px, py :: Under(st, px, py) ==>
      && st.snap.Inside(px - st.x, py - st.y)
      && Covers(format, st.snap.At(px - st.x, py - st.y), Restore(format, st).screen.At(px, py))
  }

  /** As they are when the sprite is shown. */
  lemma ShownIsSaved<P(!new)>(format: Format<P>, st: State<P>)
    requires Lawful(format) && Invariant(format, st)
    ensures Saved(format, Paint(format, Backup(format, st)))
  {
    hide Image.At, Updated, Snapped, Lawful, Covers;
    var r := Paint(format, Backup(format, st));
    forall px, py | Under(r, px, py)
      ensures r.snap.Inside(px - r.x, py - r.y)
      ensures Covers(format, r.snap.At(px - r.x, py - r.y), Restore(format, r).screen.At(px, py))
    {
      RestoredAt(format, r, px, py);
      ShownCovers(format, st, px, py);
      CoverThenEraseAt(format, st, px, py);
    }
  }

  lemma ShownCovers<P(!new)>(format: Format<P>, st: State<P>, px: int, py: int)
    requires Lawful(format) && Invariant(format, st) && Under(st, px, py)
    ensures st.snap.Inside(px - st.x, py - st.y)
    ensures Covers(format, Backup(format, st).snap.At(px - st.x, py - st.y), st.screen.At(px, py))
  {
    hide Image.At, Snapped;
    SnappedAt(format, st.screen, Rect(st.x, st.y, st.snap.width, st.snap.height), st.snap, px - st.x, py - st.y);
  }

  /** What is seen at one pixel when the sprite is erased after the drawing. */
  lemma UnheardAt<P(!new)>(format: Format<P>, st: State<P>, bmp: Image<Color>, rect: Rect, ox: nat, oy: nat,
                           px: int, py: int)
    requires st.Valid() && st.visible && Saved(format, st) && bmp.Valid() && st.screen.Inside(px, py)
    ensures var plain := Updated(format, Erased(format, st), bmp, rect, ox, oy);
            && Erased(format, DrawOn(format, st, bmp, rect, ox, oy)).At(px, py)
               == (if Under(st, px, py) then Erased(format, st).At(px, py) else plain.At(px, py))
            && (!Drawn(rect, bmp.width, bmp.height, ox, oy, px, py) ==> plain.At(px, py) == Erased(format, st).At(px, py))
  {
    hide Image.At, Updated;
    RestoredAt(format, st, px, py);
    RestoredAt(format, DrawOn(format, st, bmp, rect, ox, oy), px, py);
    UpdatedAt(format, st.screen, bmp, rect, ox, oy, px, py);
    UpdatedAt(format, Erased(format, st), bmp, rect, ox, oy, px, py);
    hide Restore;
  }

  /** The saved pixels keep their worth, and what is seen under the sprite stays. */
  lemma UnheardKeepsSaved<P(!new)>(format: Format<P>, st: State<P>, bmp: Image<Color>, rect: Rect, ox: nat, oy: nat)
    requires st.Valid() && st.visible && Saved(format, st) && bmp.Valid()
    ensures Saved(format, DrawOn(format, st, bmp, rect, ox, oy))
  {
    hide Image.At, Updated, Covers;
    var d := DrawOn(format, st, bmp, rect, ox, oy);
    forall px, py | Under(d, px, py)
      ensures d.snap.Inside(px - d.x, py - d.y)
      ensures Covers(format, d.snap.At(px - d.x, py - d.y), Restore(format, d).screen.At(px, py))
    {
      assert Under(st, px, py);
      UnheardAt(format, st, bmp, rect, ox, oy, px, py);
    }
  }

  /**
   Drawing under a visible sprite that does not listen spoils nothing exactly if it leaves the
   picture under the sprite as it is.
   */
  lemma UnheardDrawingIff<P(!new)>(format: Format<P>, st: State<P>, bmp: Image<Color>, rect: Rect, ox: nat, oy: nat)
    requires st.Valid() && st.visible && Saved(format, st) && bmp.Valid()
    ensures Erased(format, DrawOn(format, st, bmp, rect, ox, oy)) == Updated(format, Erased(format, st), bmp, rect, ox, oy)
       <==> forall px, py :: Under(st, px, py) && Drawn(rect, bmp.width, bmp.height, ox, oy, px, py) ==>
              Updated(format, Erased(format, st), bmp, rect, ox, oy).At(px, py) == Erased(format, st).At(px, py)
  {
    hide Image.At, Updated, Restore, Saved;
    var got := Erased(format, DrawOn(format, st, bmp, rect, ox, oy));
    var plain := Updated(format, Erased(format, st), bmp, rect, ox, oy);
    forall px, py | st.screen.Inside(px, py)
      ensures got.At(px, py) == if Under(st, px, py) then Erased(format, st).At(px, py) else plain.At(px, py)
      ensures !Drawn(rect, bmp.width, bmp.height, ox, oy, px, py) ==> plain.At(px, py) == Erased(format, st).At(px, py)
    {
      UnheardAt(format, st, bmp, rect, ox, oy, px, py);
    }
    if forall px, py :: Under(st, px, py) && Drawn(rect, bmp.width, bmp.height, ox, oy, px, py) ==>
         plain.At(px, py) == Erased(format, st).At(px, py) {
      SameImage(got, plain);
    }
  }

  function Uniform(w: nat, h: nat, c: Color): (r: Image<Color>)
    ensures r.Valid() && r.width == w && r.height == h
    ensures forall x, y :: r.Inside(x, y) ==> r.At(x, y) == c
  {
    Tabulate(w, h, (x, y) => c)
  }

  /** Wherever the two overlap, there is such a drawing: in one colour that is not there yet. */
  lemma UnheardDrawingLost<P(!new)>(format: Format<P>, st: State<P>, w: nat, h: nat, rect: Rect, ox: nat, oy: nat,
                                    px: int, py: int, p: P)
    requires Lawful(format) && st.Valid() && st.visible && Saved(format, st)
    requires Under(st, px, py) && Drawn(rect, w, h, ox, oy, px, py)
    requires format.solid(p) && p != Erased(format, st).At(px, py)
    ensures var bmp := Uniform(w, h, format.get(p));
            Erased(format, DrawOn(format, st, bmp, rect, ox, oy)) != Updated(format, Erased(format, st), bmp, rect, ox, oy)
  {
    var bmp := Uniform(w, h, format.get(p));
    UnheardDrawingIff(format, st, bmp, rect, ox, oy);
    UpdatedAt(format, Erased(format, st), bmp, rect, ox, oy, px, py);
    hide Updated, Image.At;
    assert bmp.Inside(px - ox + Max(rect.x, 0), py - oy + Max(rect.y, 0));
  }

  // ---------------------------------------------------------------- a new icon for a visible sprite

  const BLACK: Color := Color(0, 0, 0, 0xFF)

  /** ftk_sprite_set_icon; `snap` is the fresh bitmap for the saved pixels, which a visible sprite puts back at once. */
  function IconSet<P>(format: Format<P>, st: State<P>, icon: Image<Color>, snap: Image<Color>): (r: State<P>)
    requires st.Valid() && icon.Valid() && snap.Valid() && snap.width == icon.width && snap.height == icon.height
    ensures r.Valid() && r.screen.width == st.screen.width && r.screen.height == st.screen.height
  {
    var fresh_ := st.(icon := icon, snap := snap);
    if st.visible then Paint(format, Restore(format, fresh_)) else fresh_
  }

  /**
   Erasing a visible sprite with a new icon gives what erasing it gave before exactly if the fresh
   bitmap looks like the picture under the new icon, and the old icon looks like what it alone covered.
   */
  lemma NewIconErasesIff<P>(format: Format<P>, st: State<P>, icon: Image<Color>, snap: Image<Color>)
    requires st.Valid() && st.visible
    requires icon.Valid() && snap.Valid() && snap.width == icon.width && snap.height == icon.height
    ensures Erased(format, IconSet(format, st, icon, snap)) == Erased(format, st)
       <==> forall px, py :: st.screen.Inside(px, py) ==>
              if Under(st.(icon := icon), px, py)
              then Erased(format, st).At(px, py)
                   == format.put(snap.At(px - st.x, py - st.y),
                        format.put(icon.At(px - st.x, py - st.y),
                          format.put(snap.At(px - st.x, py - st.y), st.screen.At(px, py))))
              else Under(st, px, py) ==> Erased(format, st).At(px, py) == st.screen.At(px, py)
  {
    hide Image.At, Updated, Restore, Paint;
    var got := Erased(format, IconSet(format, st, icon, snap));
    forall px, py | st.screen.Inside(px, py)
      ensures got.At(px, py)
           == (if Under(st.(icon := icon), px, py)
               then format.put(snap.At(px - st.x, py - st.y),
                      format.put(icon.At(px - st.x, py - st.y),
                        format.put(snap.At(px - st.x, py - st.y), st.screen.At(px, py))))
               else st.screen.At(px, py))
      ensures !Under(st, px, py) ==> Erased(format, st).At(px, py) == st.screen.At(px, py)
    {
      NewIconAt(format, st, icon, snap, px, py);
    }
    if forall px, py :: st.screen.Inside(px, py) ==> got.At(px, py) == Erased(format, st).At(px, py) {
      SameImage(got, Erased(format, st));
    }
  }

  lemma NewIconAt<P>(format: Format<P>, st: State<P>, icon: Image<Color>, snap: Image<Color>, px: int, py: int)
    requires st.Valid() && st.visible && st.screen.Inside(px, py)
    requires icon.Valid() && snap.Valid() && snap.width == icon.width && snap.height == icon.height
    ensures Erased(format, IconSet(format, st, icon, snap)).At(px, py)
         == (if Under(st.(icon := icon), px, py)
             then format.put(snap.At(px - st.x, py - st.y),
                    format.put(icon.At(px - st.x, py - st.y),
                      format.put(snap.At(px - st.x, py - st.y), st.screen.At(px, py))))
             else st.screen.At(px, py))
    ensures !Under(st, px, py) ==> Erased(format, st).At(px, py) == st.screen.At(px, py)
  {
    hide Image.At, Updated;
    var a := st.(icon := icon, snap := snap);
    var b := Restore(format, a);
    RestoredAt(format, st, px, py);
    RestoredAt(format, a, px, py);
    UpdatedAt(format, b.screen, icon, Whole(icon), st.x, st.y, px, py);
    RestoredAt(format, Paint(format, b), px, py);
    hide Restore;
  }

  /** So a pixel under the new icon that was not black is lost. */
  lemma NewIconLeavesBlack<P(!new)>(format: Format<P>, st: State<P>, icon: Image<Color>, px: int, py: int, black: P)
    requires st.Valid() && st.visible && icon.Valid() && Under(st.(icon := icon), px, py)
    requires Covers(format, BLACK, black) && Erased(format, st).At(px, py) != black
    ensures Erased(format, IconSet(format, st, icon, Uniform(icon.width, icon.height, BLACK))) != Erased(format, st)
  {
    hide Image.At, Erased, Restore;
    NewIconAt(format, st, icon, Uniform(icon.width, icon.height, BLACK), px, py);
    assert Uniform(icon.width, icon.height, BLACK).Inside(px - st.x, py - st.y);
  }
}
