/**
 How text is broken into lines, in terms of characters: the fitting loop of src/ftk_canvas.c, the
 word break of src/ftk_util.c and the choice between them in src/ftk_text_layout_normal.c.
 */
module LineLayout {
  import opened Bytes
  import opened TextCodec
  import opened Utf8Chars

  const CR: uint16 := 13
  const LF: uint16 := 10

  /** The width of a line, the width of every character, and whether words are kept together. */
  datatype Setting = Setting(width: int, extent: uint16 -> nat, wordWrap: bool)

  predicate IsBreak(u: uint16) {
    u == CR || u == LF
  }

  /** The two units at which the fitting loop gives up. */
  predicate Stops(u: uint16) {
    u == 0 || u == 0xFFFF
  }

  // ---------------------------------------------------------------- fitting

  /** Where the fitting loop ends, and how much of the width is left. */
  datatype Fit = Fit(end: nat, room: int)

  /** The loop of ftk_canvas_calc_str_visible_range from character `k` on. */
  function Visible(vs: seq<scalar>, k: nat, width: int, extent: uint16 -> nat): (f: Fit)
    requires k <= |vs|
    ensures k <= f.end <= |vs| && f.room <= width && (width >= 0 ==> f.room >= 0)
    decreases |vs| - k
  {
    if width <= 0 || k == |vs| then Fit(k, width)
    else
      var u := Unit(vs[k]);
      if u == CR then Visible(vs, k + 1, width, extent)
      else if Stops(u) then Fit(k, width)
      else if u == LF then Fit(k + 1, width)
      else if extent(u) > width then Fit(k, width)
      else Visible(vs, k + 1, width - extent(u), extent)
  }

  /** The width a character takes up; line breaks take none. */
  function Advance(v: scalar, extent: uint16 -> nat): nat {
    if IsBreak(Unit(v)) then 0 else extent(Unit(v))
  }

  function TotalAdvance(vs: seq<scalar>, i: nat, j: nat, extent: uint16 -> nat): nat
    requires i <= j <= |vs|
  {
    if i == j then 0 else TotalAdvance(vs, i, j - 1, extent) + Advance(vs[j - 1], extent)
  }

  lemma {:induction false} AdvanceFirst(vs: seq<scalar>, i: nat, j: nat, extent: uint16 -> nat)
    requires i < j <= |vs|
    ensures TotalAdvance(vs, i, j, extent) == Advance(vs[i], extent) + TotalAdvance(vs, i + 1, j, extent)
    decreases j
  {
    if i + 1 < j {
      AdvanceFirst(vs, i, j - 1, extent);
    }
  }

  /** Character `j` goes on the line that begins at `k`, if all those in front of it do. */
  predicate GoesOn(vs: seq<scalar>, k: nat, j: nat, width: int, extent: uint16 -> nat)
    requires k <= j < |vs|
  {
    var u, room := Unit(vs[j]), width - TotalAdvance(vs, k, j, extent);
    && room > 0 && (j > k ==> Unit(vs[j - 1]) != LF)
    && !Stops(u) && (IsBreak(u) || extent(u) <= room)
  }

  /** `e` is the end of the longest line from `k` on. */
  ghost predicate Longest(vs: seq<scalar>, k: nat, e: nat, width: int, extent: uint16 -> nat)
    requires k <= |vs|
  {
    && k <= e <= |vs|
    && (forall j :: k <= j < e ==> GoesOn(vs, k, j, width, extent))
    && (e < |vs| ==> !GoesOn(vs, k, e, width, extent))
  }

  lemma GoesOnShift(vs: seq<scalar>, k: nat, j: nat, width: int, extent: uint16 -> nat)
    requires k < j < |vs| && Unit(vs[k]) != LF
    ensures GoesOn(vs, k, j, width, extent) <==> GoesOn(vs, k + 1, j, width - Advance(vs[k], extent), extent)
  {
    AdvanceFirst(vs, k, j, extent);
    hide TotalAdvance, Unit;
  }

  /** The loop finds the longest line. */
  lemma {:induction false} VisibleIsLongest(vs: seq<scalar>, k: nat, width: int, extent: uint16 -> nat)
    requires k <= |vs|
    ensures Longest(vs, k, Visible(vs, k, width, extent).end, width, extent)
    decreases |vs| - k
  {
    var e := Visible(vs, k, width, extent).end;
    if k < |vs| && width > 0 && GoesOn(vs, k, k, width, extent) && Unit(vs[k]) != LF {
      var rest := width - Advance(vs[k], extent);
      VisibleIsLongest(vs, k + 1, rest, extent);
      assert e == Visible(vs, k + 1, rest, extent).end;
      hide TotalAdvance, Unit, Visible;
      forall j | k <= j < |vs|
        ensures j > k ==> (GoesOn(vs, k, j, width, extent) <==> GoesOn(vs, k + 1, j, rest, extent))
      {
        if j > k {
          GoesOnShift(vs, k, j, width, extent);
        }
      }
      hide GoesOn;
    }
  }

  /** And no other end would do. */
  lemma LongestIsUnique(vs: seq<scalar>, k: nat, d: nat, e: nat, width: int, extent: uint16 -> nat)
    requires k <= |vs| && Longest(vs, k, d, width, extent) && Longest(vs, k, e, width, extent)
    ensures d == e
  {
    hide GoesOn;
  }

  /** The line's extent is what its characters take up. */
  lemma {:induction false} RoomLeft(vs: seq<scalar>, k: nat, width: int, extent: uint16 -> nat)
    requires k <= |vs|
    ensures var f := Visible(vs, k, width, extent);
            f.room == width - TotalAdvance(vs, k, f.end, extent)
    decreases |vs| - k
  {
    if k < |vs| && width > 0 && GoesOn(vs, k, k, width, extent) && Unit(vs[k]) != LF {
      var f := Visible(vs, k + 1, width - Advance(vs[k], extent), extent);
      RoomLeft(vs, k + 1, width - Advance(vs[k], extent), extent);
      AdvanceFirst(vs, k, f.end, extent);
    } else if k < |vs| && width > 0 && GoesOn(vs, k, k, width, extent) {
      assert TotalAdvance(vs, k, k + 1, extent) == TotalAdvance(vs, k, k, extent) + Advance(vs[k], extent);
    }
  }

  /**
   A line feed that stands directly behind the characters of a line is left to a line of its own
   exactly if those characters fill the width.
   */
  lemma ExactFillLeavesBreakIff(vs: seq<scalar>, k: nat, p: nat, width: int, extent: uint16 -> nat)
    requires k < p < |vs| && Unit(vs[p]) == LF && Unit(vs[p - 1]) != LF
    requires forall j :: k <= j < p ==> GoesOn(vs, k, j, width, extent)
    ensures Visible(vs, k, width, extent).end == p <==> TotalAdvance(vs, k, p, extent) == width
  {
    VisibleIsLongest(vs, k, width, extent);
    var e := Visible(vs, k, width, extent).end;
    AdvanceWithin(vs, k, p, width, extent);
    hide TotalAdvance, Visible;
    if TotalAdvance(vs, k, p, extent) == width {
      LongestIsUnique(vs, k, e, p, width, extent);
    }
  }

  /** Characters that go on a line do not overfill it. */
  lemma AdvanceWithin(vs: seq<scalar>, k: nat, p: nat, width: int, extent: uint16 -> nat)
    requires k < p <= |vs| && GoesOn(vs, k, p - 1, width, extent)
    ensures TotalAdvance(vs, k, p, extent) <= width
  {
  }

  /** "aa", a line feed and "a" on lines two units wide: the line feed makes an empty line. */
  lemma EmptyLineBehindFullOne()
    ensures var cfg, vs := Setting(2, u => 1, false), [97, 97, 10, 97];
            Fits(vs, cfg) && LineStarts(vs, 0, cfg) == [0, 2, 3]
  {
    var cfg, vs: seq<scalar> := Setting(2, u => 1, false), [97, 97, 10, 97];
    assert Visible(vs, 0, 2, cfg.extent).end == 2;
    assert Visible(vs, 2, 2, cfg.extent).end == 3;
    assert Visible(vs, 3, 2, cfg.extent).end == 4;
    assert LineStarts(vs, 4, cfg) == [] && LineStarts(vs, 3, cfg) == [3] && LineStarts(vs, 2, cfg) == [2, 3];
  }

  /** "ab" with an "a" wider than the line: the loop does not move. */
  lemma WideCharacterStops()
    ensures Visible([97, 98], 0, 2, u => if u == 97 then 3 else 1) == Fit(0, 2)
  {
  }

  // ---------------------------------------------------------------- word breaks

  predicate IsDigit(c: uint16) {
    48 <= c <= 57
  }

  predicate IsAlpha(c: uint16) {
    65 <= c <= 90 || 97 <= c <= 122
  }

  /** ftk_can_break */
  predicate CanBreak(c1: uint16, c2: uint16) {
    if c1 > 0x80 || c2 > 0x80 then true
    else if IsDigit(c1) && IsDigit(c2) then false
    else if IsAlpha(c1) && IsAlpha(c2) then false
    else true
  }

  /** The loop of ftk_line_break; it compares the character at `p` with itself first. */
  function BreakFrom(vs: seq<scalar>, start: nat, p: nat, c1: uint16, c2: uint16): (q: nat)
    requires start <= p <= |vs|
    ensures start <= q <= p
    decreases p
  {
    if CanBreak(c1, c2) || p <= start then p
    else BreakFrom(vs, start, p - 1, Unit(vs[p - 1]), c1)
  }

  function UnitOrNul(vs: seq<scalar>, k: nat): uint16
    requires k <= |vs|
  {
    if k < |vs| then Unit(vs[k]) else 0
  }

  /** ftk_line_break for a range that is not empty */
  function LineBreak(vs: seq<scalar>, start: nat, end: nat): (q: nat)
    requires start < end <= |vs|
    ensures start <= q <= end
  {
    var c1, c2 := Unit(vs[end - 1]), UnitOrNul(vs, end);
    if !IsBreak(c1) && c2 != 0 && !IsBreak(c2) then BreakFrom(vs, start, end, c1, c2) else end
  }

  // ---------------------------------------------------------------- lines

  /** A character that fits a line of its own. */
  predicate Placeable(u: uint16, cfg: Setting) {
    !Stops(u) && (IsBreak(u) || cfg.extent(u) <= cfg.width)
  }

  /** Every character can be placed. */
  predicate Fits(vs: seq<scalar>, cfg: Setting) {
    cfg.width > 0 && forall v <- vs :: Placeable(Unit(v), cfg)
  }

  /** The loop gets past `k` exactly if the character there fits an empty line. */
  lemma ProgressIff(vs: seq<scalar>, k: nat, cfg: Setting)
    requires k < |vs|
    ensures Visible(vs, k, cfg.width, cfg.extent).end > k <==> cfg.width > 0 && Placeable(Unit(vs[k]), cfg)
  {
  }

  /**
   Where ftk_text_layout_get_visual_line ends the line that begins at `k`; a character that does
   not fit leaves the line empty.
   */
  function LineEnd(vs: seq<scalar>, k: nat, cfg: Setting): (e: nat)
    requires k < |vs|
    ensures k <= e <= |vs|
  {
    var e := Visible(vs, k, cfg.width, cfg.extent).end;
    if !cfg.wordWrap || e == k then e
    else
      var b := LineBreak(vs, k, e);
      if b != e && Bound(vs, b) > Bound(vs, k) + 2 then b else e
  }

  /** A line is not empty exactly if its first character fits. */
  lemma LineProgressIff(vs: seq<scalar>, k: nat, cfg: Setting)
    requires k < |vs|
    ensures LineEnd(vs, k, cfg) > k <==> cfg.width > 0 && Placeable(Unit(vs[k]), cfg)
  {
    ProgressIff(vs, k, cfg);
    hide Visible, Placeable;
  }

  lemma FitsProgress(vs: seq<scalar>, k: nat, cfg: Setting)
    requires k < |vs| && Fits(vs, cfg)
    ensures LineEnd(vs, k, cfg) > k
  {
    assert vs[k] in vs;
    LineProgressIff(vs, k, cfg);
    hide LineEnd, Placeable;
  }

  /** Where `n` lines from `k` on end. */
  function AfterLines(vs: seq<scalar>, k: nat, n: nat, cfg: Setting): (e: nat)
    requires k <= |vs|
    ensures k <= e <= |vs|
    decreases n
  {
    if n == 0 || k == |vs| then k else AfterLines(vs, LineEnd(vs, k, cfg), n - 1, cfg)
  }

  /** No line gets past a character that cannot be placed. */
  lemma {:induction false} VisibleStopsAt(vs: seq<scalar>, k: nat, i: nat, width: int, cfg: Setting)
    requires k <= i < |vs| && width <= cfg.width && !(cfg.width > 0 && Placeable(Unit(vs[i]), cfg))
    ensures Visible(vs, k, width, cfg.extent).end <= i
    decreases i - k
  {
    if k < i && width > 0 && GoesOn(vs, k, k, width, cfg.extent) && Unit(vs[k]) != LF {
      VisibleStopsAt(vs, k + 1, i, width - Advance(vs[k], cfg.extent), cfg);
    }
  }

  lemma {:induction false} LinesStopAt(vs: seq<scalar>, k: nat, i: nat, n: nat, cfg: Setting)
    requires k <= i < |vs| && !(cfg.width > 0 && Placeable(Unit(vs[i]), cfg))
    ensures AfterLines(vs, k, n, cfg) <= i
    decreases n
  {
    if n > 0 {
      VisibleStopsAt(vs, k, i, cfg.width, cfg);
      assert LineEnd(vs, k, cfg) <= i;
      hide LineEnd, Placeable;
      LinesStopAt(vs, LineEnd(vs, k, cfg), i, n - 1, cfg);
    }
  }

  lemma {:induction false} LinesGetThrough(vs: seq<scalar>, k: nat, cfg: Setting)
    requires k <= |vs| && cfg.width > 0 && forall i :: k <= i < |vs| ==> Placeable(Unit(vs[i]), cfg)
    ensures exists n: nat :: AfterLines(vs, k, n, cfg) == |vs|
    decreases |vs| - k
  {
    if k == |vs| {
      assert AfterLines(vs, k, 0, cfg) == |vs|;
    } else {
      LineProgressIff(vs, k, cfg);
      hide LineEnd, Placeable;
      LinesGetThrough(vs, LineEnd(vs, k, cfg), cfg);
      var n: nat :| AfterLines(vs, LineEnd(vs, k, cfg), n, cfg) == |vs|;
      assert AfterLines(vs, k, n + 1, cfg) == |vs|;
    }
  }

  /**
   Calling get_visual_line again and again gets to the end of the text exactly if every character
   from there on can be placed.  Otherwise it returns empty lines for ever.
   */
  lemma LayoutEndsIff(vs: seq<scalar>, k: nat, cfg: Setting)
    requires k < |vs|
    ensures (exists n: nat :: AfterLines(vs, k, n, cfg) == |vs|)
       <==> cfg.width > 0 && forall i :: k <= i < |vs| ==> Placeable(Unit(vs[i]), cfg)
  {
    hide AfterLines, Placeable;
    if cfg.width > 0 && forall i :: k <= i < |vs| ==> Placeable(Unit(vs[i]), cfg) {
      LinesGetThrough(vs, k, cfg);
    } else {
      var i :| k <= i < |vs| && !(cfg.width > 0 && Placeable(Unit(vs[i]), cfg));
      forall n: nat
        ensures AfterLines(vs, k, n, cfg) != |vs|
      {
        LinesStopAt(vs, k, i, n, cfg);
      }
    }
  }

  /** Where all the lines from `k` on begin. */
  function LineStarts(vs: seq<scalar>, k: nat, cfg: Setting): (ls: seq<nat>)
    requires k <= |vs| && Fits(vs, cfg)
    decreases |vs| - k
  {
    if k == |vs| then []
    else
      FitsProgress(vs, k, cfg);
      [k] + LineStarts(vs, LineEnd(vs, k, cfg), cfg)
  }

  /** Line `i` of the layout ends where the next one begins, or at the end of the text. */
  function EndOfLine(vs: seq<scalar>, ls: seq<nat>, i: nat): nat
    requires i < |ls|
  {
    if i + 1 < |ls| then ls[i + 1] else |vs|
  }

  /**
   The lines follow one another without gap or overlap, from `k` to the end of the text; none is
   empty, so there are at most as many as characters.
   */
  lemma {:induction false} LinesPartition(vs: seq<scalar>, k: nat, cfg: Setting)
    requires k <= |vs| && Fits(vs, cfg)
    ensures var ls := LineStarts(vs, k, cfg);
            && |ls| <= |vs| - k && (k < |vs| ==> ls != [] && ls[0] == k)
            && forall i :: 0 <= i < |ls| ==>
                 && k <= ls[i] < |vs| && ls[i] < EndOfLine(vs, ls, i)
                 && EndOfLine(vs, ls, i) == LineEnd(vs, ls[i], cfg)
    decreases |vs| - k
  {
    if k < |vs| {
      var e := LineEnd(vs, k, cfg);
      FitsProgress(vs, k, cfg);
      hide LineEnd, Fits;
      LinesPartition(vs, e, cfg);
      var ls, rest := LineStarts(vs, k, cfg), LineStarts(vs, e, cfg);
      assert ls == [k] + rest;
      forall i | 0 <= i < |ls|
        ensures && k <= ls[i] < |vs| && ls[i] < EndOfLine(vs, ls, i)
                && EndOfLine(vs, ls, i) == LineEnd(vs, ls[i], cfg)
      {
        if i > 0 {
          assert ls[i] == rest[i - 1] && EndOfLine(vs, ls, i) == EndOfLine(vs, rest, i - 1);
        }
      }
    }
  }

  /** Putting the lines together gives back the text. */
  function Joined(vs: seq<scalar>, ls: seq<nat>): seq<scalar>
    requires forall i :: 0 <= i < |ls| ==> ls[i] <= EndOfLine(vs, ls, i) <= |vs|
  {
    if ls == [] then []
    else
      assert forall i :: 0 <= i < |ls[1..]| ==> EndOfLine(vs, ls[1..], i) == EndOfLine(vs, ls, i + 1);
      vs[ls[0]..EndOfLine(vs, ls, 0)] + Joined(vs, ls[1..])
  }

  lemma {:induction false} LinesJoin(vs: seq<scalar>, k: nat, cfg: Setting)
    requires k <= |vs| && Fits(vs, cfg)
    ensures forall i :: 0 <= i < |LineStarts(vs, k, cfg)| ==>
              LineStarts(vs, k, cfg)[i] <= EndOfLine(vs, LineStarts(vs, k, cfg), i) <= |vs|
    ensures Joined(vs, LineStarts(vs, k, cfg)) == vs[k..]
    decreases |vs| - k
  {
    LinesPartition(vs, k, cfg);
    if k < |vs| {
      var e, ls := LineEnd(vs, k, cfg), LineStarts(vs, k, cfg);
      FitsProgress(vs, k, cfg);
      assert ls[1..] == LineStarts(vs, e, cfg) && EndOfLine(vs, ls, 0) == e;
      hide LineEnd, Fits, LineStarts;
      LinesJoin(vs, e, cfg);
      assert vs[k..] == vs[k..e] + vs[e..];
    }
  }
}
