/**
 Laying out again after a change: which of the old lines may be kept, and from where the rest has
 to be found afresh.  src/ftk_text_view.c keeps the offsets of the lines in front of some line.
 */
module LineEdits {
  import opened Bytes
  import opened TextCodec
  import opened Utf8Chars
  import opened LineLayout
  import opened WordWrap

  /** The fitting loop looks at nothing behind the character at which it ends. */
  lemma {:induction false} VisibleLocal(
    vs: seq<scalar>, ws: seq<scalar>, m: nat, k: nat, width: int, extent: uint16 -> nat)
    requires k <= m <= |vs| && m <= |ws| && vs[..m] == ws[..m] && Visible(vs, k, width, extent).end < m
    ensures Visible(ws, k, width, extent) == Visible(vs, k, width, extent)
    decreases m - k
  {
    assert k < m;
    assert vs[..m][k] == ws[..m][k];
    if width > 0 && GoesOn(vs, k, k, width, extent) && Unit(vs[k]) != LF {
      VisibleLocal(vs, ws, m, k + 1, width - Advance(vs[k], extent), extent);
    }
  }

  lemma {:induction false} BreakLocal(
    vs: seq<scalar>, ws: seq<scalar>, m: nat, start: nat, p: nat, c1: uint16, c2: uint16)
    requires start <= p <= m <= |vs| && m <= |ws| && vs[..m] == ws[..m]
    ensures BreakFrom(vs, start, p, c1, c2) == BreakFrom(ws, start, p, c1, c2)
    decreases p
  {
    if !CanBreak(c1, c2) && p > start {
      assert vs[..m][p - 1] == ws[..m][p - 1];
      BreakLocal(vs, ws, m, start, p - 1, Unit(vs[p - 1]), c1);
    }
  }

  /** Nor does the line's end depend on it. */
  lemma LineEndLocal(vs: seq<scalar>, ws: seq<scalar>, m: nat, k: nat, cfg: Setting)
    requires k < |vs| && k < |ws| && Fits(vs, cfg) && Fits(ws, cfg)
    requires k <= m <= |vs| && m <= |ws| && vs[..m] == ws[..m] && Visible(vs, k, cfg.width, cfg.extent).end < m
    ensures LineEnd(ws, k, cfg) == LineEnd(vs, k, cfg)
  {
    VisibleLocal(vs, ws, m, k, cfg.width, cfg.extent);
    var e := Visible(vs, k, cfg.width, cfg.extent).end;
    assert vs[k] in vs;
    ProgressIff(vs, k, cfg);
    assert vs[..m][e] == ws[..m][e] && vs[..m][e - 1] == ws[..m][e - 1];
    hide Visible, Fits, Placeable;
    BreakLocal(vs, ws, m, k, e, Unit(vs[e - 1]), UnitOrNul(vs, e));
    var b := LineBreak(vs, k, e);
    assert vs[..m][..b] == vs[..b] && ws[..m][..b] == ws[..b];
    assert vs[..m][..k] == vs[..k] && ws[..m][..k] == ws[..k];
  }

  // ---------------------------------------------------------------- which edits let lines be kept

  /** Line `j` of `kept` still ends where the next line kept, or the layout from `k`, begins. */
  predicate StillEnds(ws: seq<scalar>, kept: seq<nat>, j: nat, k: nat, cfg: Setting)
    requires j < |kept|
  {
    kept[j] < |ws| && LineEnd(ws, kept[j], cfg) == if j + 1 < |kept| then kept[j + 1] else k
  }

  lemma {:induction false} StillEndsGives(ws: seq<scalar>, kept: seq<nat>, i: nat, k: nat, cfg: Setting)
    requires Fits(ws, cfg) && k <= |ws| && i < |kept|
    requires forall j :: i <= j < |kept| ==> StillEnds(ws, kept, j, k, cfg)
    ensures kept[i] <= |ws| && LineStarts(ws, kept[i], cfg) == kept[i..] + LineStarts(ws, k, cfg)
    decreases |kept| - i
  {
    hide Fits, LineEnd;
    assert StillEnds(ws, kept, i, k, cfg);
    if i + 1 < |kept| {
      StillEndsGives(ws, kept, i + 1, k, cfg);
      assert kept[i..] == [kept[i]] + kept[i + 1..];
    } else {
      assert kept[i..] == [kept[i]];
    }
  }

  /**
   The exact condition for any edit: keeping lines of the old layout and laying out the rest from
   `k` gives the layout of the new text exactly if each line kept still ends where it did, the last
   one at `k`.
   */
  lemma KeptLinesIff(ws: seq<scalar>, kept: seq<nat>, k: nat, cfg: Setting)
    requires Fits(ws, cfg) && k <= |ws| && kept != [] && kept[0] == 0
    requires forall j :: 0 <= j < |kept| ==> kept[j] < |ws|
    ensures kept + LineStarts(ws, k, cfg) == LineStarts(ws, 0, cfg)
       <==> forall j :: 0 <= j < |kept| ==> StillEnds(ws, kept, j, k, cfg)
  {
    hide Fits, LineEnd;
    var all, rest := LineStarts(ws, 0, cfg), LineStarts(ws, k, cfg);
    if forall j :: 0 <= j < |kept| ==> StillEnds(ws, kept, j, k, cfg) {
      StillEndsGives(ws, kept, 0, k, cfg);
      assert kept[0..] == kept;
    } else if kept + rest == all {
      LinesPartition(ws, 0, cfg);
      forall j | 0 <= j < |kept|
        ensures StillEnds(ws, kept, j, k, cfg)
      {
        assert all[j] == kept[j] && EndOfLine(ws, all, j) == LineEnd(ws, all[j], cfg);
        assert j + 1 < |kept| ==> all[j + 1] == kept[j + 1];
        assert k < |ws| ==> rest[0] == k && all[|kept|] == k;
      }
    }
  }

  lemma StartsInFront(vs: seq<scalar>, m: nat, s: nat, cfg: Setting)
    requires Fits(vs, cfg) && s < |LineStarts(vs, 0, cfg)| && LineStarts(vs, 0, cfg)[s] <= m
    ensures var ls := LineStarts(vs, 0, cfg);
            ls[0] == 0 && forall j :: 0 <= j < s ==> ls[j] < ls[s] <= m
  {
    var ls := LineStarts(vs, 0, cfg);
    LinesPartition(vs, 0, cfg);
    hide Fits, LineStarts, LineEnd;
    forall j | 0 <= j < s
      ensures ls[j] < ls[s]
    {
      StartsOrder(vs, ls, j, s);
    }
  }

  lemma {:induction false} StartsOrder(vs: seq<scalar>, ls: seq<nat>, i: nat, j: nat)
    requires i <= j < |ls| && forall n :: 0 <= n < |ls| ==> ls[n] < EndOfLine(vs, ls, n)
    ensures ls[i] <= ls[j] && (i < j ==> ls[i] < ls[j])
    decreases j
  {
    if i < j {
      assert ls[j - 1] < EndOfLine(vs, ls, j - 1) == ls[j];
      StartsOrder(vs, ls, i, j - 1);
    }
  }

  /**
   Line `i` of the old layout ends at `k`; with word wrap the line in front of it also ends where it
   did, because it may have been cut off on account of a word that now fits.
   */
  predicate LastLinesEnd(ws: seq<scalar>, ls: seq<nat>, i: nat, k: nat, cfg: Setting)
    requires i < |ls|
  {
    && ls[i] < |ws| && LineEnd(ws, ls[i], cfg) == k
    && (cfg.wordWrap && i > 0 ==> ls[i - 1] < |ws| && LineEnd(ws, ls[i - 1], cfg) == ls[i])
  }

  /** Only the last line kept can change, or the last two with word wrap: the others never looked as far as the edit. */
  lemma LastLinesDecide(vs: seq<scalar>, ws: seq<scalar>, m: nat, i: nat, k: nat, cfg: Setting)
    requires Fits(vs, cfg) && Fits(ws, cfg)
    requires m <= |vs| && m <= |ws| && vs[..m] == ws[..m] && k <= |ws|
    requires i < |LineStarts(vs, 0, cfg)| && LineStarts(vs, 0, cfg)[i] < m
    ensures var ls := LineStarts(vs, 0, cfg);
            ls[..i + 1] + LineStarts(ws, k, cfg) == LineStarts(ws, 0, cfg) <==> LastLinesEnd(ws, ls, i, k, cfg)
  {
    hide Fits, LineStarts, LineEnd;
    var ls := LineStarts(vs, 0, cfg);
    var kept := ls[..i + 1];
    StartsInFront(vs, m, i, cfg);
    forall j | 0 <= j < i
      ensures j + 1 < i || !cfg.wordWrap ==> StillEnds(ws, kept, j, k, cfg)
    {
      LineInFront(vs, ws, m, j, i, cfg);
    }
    assert forall j :: 0 <= j <= i ==> kept[j] < |ws|;
    assert StillEnds(ws, kept, i, k, cfg) <==> LineEnd(ws, ls[i], cfg) == k;
    assert i > 0 ==> (StillEnds(ws, kept, i - 1, k, cfg) <==> LineEnd(ws, ls[i - 1], cfg) == ls[i]);
    hide StillEnds;
    KeptLinesIff(ws, kept, k, cfg);
  }

  /** How far the fitting loop of a line can have looked. */
  lemma LoopEnds(vs: seq<scalar>, j: nat, cfg: Setting)
    requires Fits(vs, cfg) && j + 1 < |LineStarts(vs, 0, cfg)|
    ensures var ls := LineStarts(vs, 0, cfg);
            && ls[j] < ls[j + 1] < |vs| && LineEnd(vs, ls[j], cfg) == ls[j + 1]
            && (!cfg.wordWrap ==> Visible(vs, ls[j], cfg.width, cfg.extent).end == ls[j + 1])
            && (j + 2 < |ls| ==> Visible(vs, ls[j], cfg.width, cfg.extent).end <= ls[j + 2])
  {
    hide Fits, LineStarts, Visible, LineBreak, Bound;
    LinesPartition(vs, 0, cfg);
    var ls := LineStarts(vs, 0, cfg);
    assert EndOfLine(vs, ls, j) == ls[j + 1];
    NextLineReaches(vs, ls[j], cfg);
  }

  lemma LineInFront(vs: seq<scalar>, ws: seq<scalar>, m: nat, j: nat, i: nat, cfg: Setting)
    requires Fits(vs, cfg) && Fits(ws, cfg)
    requires m <= |vs| && m <= |ws| && vs[..m] == ws[..m]
    requires j < i < |LineStarts(vs, 0, cfg)| && LineStarts(vs, 0, cfg)[i] < m
    ensures var ls := LineStarts(vs, 0, cfg);
            && ls[j] < |ws| && (j + 1 < i || !cfg.wordWrap ==> LineEnd(ws, ls[j], cfg) == ls[j + 1])
  {
    hide Fits, LineStarts, Visible, LineEnd;
    var ls := LineStarts(vs, 0, cfg);
    StartsInFront(vs, ls[i], i, cfg);
    LoopEnds(vs, j, cfg);
    if j + 1 < i || !cfg.wordWrap {
      LineEndLocal(vs, ws, m, ls[j], cfg);
    }
  }

  lemma {:induction false} TotalAdvanceLocal(
    vs: seq<scalar>, ws: seq<scalar>, m: nat, k: nat, j: nat, extent: uint16 -> nat)
    requires k <= j <= m <= |vs| && m <= |ws| && vs[..m] == ws[..m]
    ensures TotalAdvance(vs, k, j, extent) == TotalAdvance(ws, k, j, extent)
    decreases j
  {
    if k < j {
      assert vs[..m][j - 1] == ws[..m][j - 1];
      TotalAdvanceLocal(vs, ws, m, k, j - 1, extent);
    }
  }

  lemma GoesOnLocal(vs: seq<scalar>, ws: seq<scalar>, m: nat, k: nat, j: nat, width: int, extent: uint16 -> nat)
    requires k <= j < m <= |vs| && m <= |ws| && vs[..m] == ws[..m]
    ensures GoesOn(vs, k, j, width, extent) <==> GoesOn(ws, k, j, width, extent)
  {
    TotalAdvanceLocal(vs, ws, m, k, j, extent);
    assert vs[..m][j] == ws[..m][j];
    assert j > k ==> vs[..m][j - 1] == ws[..m][j - 1];
    hide TotalAdvance;
  }

  /** A line that ended at `b`, in front of or at the edit, ends there again, unless the new character goes on it. */
  lemma EndStaysIff(vs: seq<scalar>, ws: seq<scalar>, m: nat, k: nat, b: nat, cfg: Setting)
    requires Fits(vs, cfg) && Fits(ws, cfg) && !cfg.wordWrap
    requires k < b <= m <= |vs| && m <= |ws| && vs[..m] == ws[..m] && LineEnd(vs, k, cfg) == b
    ensures LineEnd(ws, k, cfg) == b
       <==> b < m || b == |ws| || !GoesOn(ws, k, b, cfg.width, cfg.extent)
  {
    VisibleIsLongest(vs, k, cfg.width, cfg.extent);
    VisibleIsLongest(ws, k, cfg.width, cfg.extent);
    hide Visible, TotalAdvance;
    forall j | k <= j < b
      ensures GoesOn(ws, k, j, cfg.width, cfg.extent)
    {
      GoesOnLocal(vs, ws, m, k, j, cfg.width, cfg.extent);
    }
    if b < m {
      GoesOnLocal(vs, ws, m, k, b, cfg.width, cfg.extent);
    }
    hide GoesOn;
    var e := LineEnd(ws, k, cfg);
    if b == |ws| || !GoesOn(ws, k, b, cfg.width, cfg.extent) {
      LongestIsUnique(ws, k, e, b, cfg.width, cfg.extent);
    }
  }

  /**
   The view keeps the lines in front of the one that begins at `b` and lays out the rest from `b`.
   With lines broken anywhere, that gives the layout of the edited text exactly if the edit lies
   behind `b`, or the text now ends at `b`, or the character now at `b` does not go on the line above.
   */
  lemma RelayoutIff(vs: seq<scalar>, ws: seq<scalar>, m: nat, i: nat, cfg: Setting)
    requires Fits(vs, cfg) && Fits(ws, cfg) && !cfg.wordWrap
    requires m <= |vs| && m <= |ws| && vs[..m] == ws[..m]
    requires i < |LineStarts(vs, 0, cfg)| && EndOfLine(vs, LineStarts(vs, 0, cfg), i) <= m
    ensures var ls := LineStarts(vs, 0, cfg);
            var b := EndOfLine(vs, ls, i);
            && ls[i] < b
            && (ls[..i + 1] + LineStarts(ws, b, cfg) == LineStarts(ws, 0, cfg)
                <==> b < m || b == |ws| || !GoesOn(ws, ls[i], b, cfg.width, cfg.extent))
  {
    var ls := LineStarts(vs, 0, cfg);
    var b := EndOfLine(vs, ls, i);
    LinesPartition(vs, 0, cfg);
    hide Fits, LineStarts, LineEnd, GoesOn;
    LastLinesDecide(vs, ws, m, i, b, cfg);
    EndStaysIff(vs, ws, m, ls[i], b, cfg);
  }

  /**
   When the lines in front of line `s` may be kept after an edit at character `m`.  With lines broken
   anywhere it is enough to look at the beginning of that line; with word wrap, at the ends of the
   two lines in front of it.
   */
  ghost predicate MayKeep(vs: seq<scalar>, ws: seq<scalar>, m: nat, s: int, cfg: Setting)
    requires Fits(vs, cfg)
  {
    var ls := LineStarts(vs, 0, cfg);
    s <= 0 ||
    (s < |ls| && ls[s] <= m <= |ws| &&
     (StartsInFront(vs, m, s, cfg);
      if cfg.wordWrap then LastLinesEnd(ws, ls, s - 1, ls[s], cfg)
      else ls[s] < m || ls[s] == |ws| || !GoesOn(ws, ls[s - 1], ls[s], cfg.width, cfg.extent)))
  }

  lemma MayKeepIff(vs: seq<scalar>, ws: seq<scalar>, m: nat, s: nat, cfg: Setting)
    requires Fits(vs, cfg) && Fits(ws, cfg) && m <= |vs| && m <= |ws| && vs[..m] == ws[..m]
    requires 0 < s < |LineStarts(vs, 0, cfg)| && LineStarts(vs, 0, cfg)[s] <= m
    ensures var ls := LineStarts(vs, 0, cfg);
            ls[..s] + LineStarts(ws, ls[s], cfg) == LineStarts(ws, 0, cfg) <==> MayKeep(vs, ws, m, s, cfg)
  {
    hide Fits, LineStarts, LineEnd, GoesOn, LastLinesEnd;
    var ls := LineStarts(vs, 0, cfg);
    StartsInFront(vs, m, s, cfg);
    if cfg.wordWrap {
      LastLinesDecide(vs, ws, m, s - 1, ls[s], cfg);
    } else {
      RelayoutIff(vs, ws, m, s - 1, cfg);
    }
  }

  /**
   Starting one line above the edited one is always early enough, if lines are broken anywhere; with
   word wrap exactly if the line in front of it ends where it did.
   */
  lemma OneLineAbove(vs: seq<scalar>, ws: seq<scalar>, m: nat, s: nat, cfg: Setting)
    requires Fits(vs, cfg) && Fits(ws, cfg) && m <= |vs| && m <= |ws| && vs[..m] == ws[..m]
    requires 0 < s && s + 1 < |LineStarts(vs, 0, cfg)| && LineStarts(vs, 0, cfg)[s + 1] <= m
    ensures var ls := LineStarts(vs, 0, cfg);
            && ls[s - 1] < ls[s] < m
            && (MayKeep(vs, ws, m, s, cfg) <==> !cfg.wordWrap || LineEnd(ws, ls[s - 1], cfg) == ls[s])
  {
    hide Fits, LineStarts, LineEnd, GoesOn;
    StartsInFront(vs, m, s + 1, cfg);
    StartsInFront(vs, m, s, cfg);
    if s > 1 {
      LineInFront(vs, ws, m, s - 2, s, cfg);
    }
  }

  /** With word wrap, two lines above is always early enough. */
  lemma TwoLinesAbove(vs: seq<scalar>, ws: seq<scalar>, m: nat, s: nat, cfg: Setting)
    requires Fits(vs, cfg) && Fits(ws, cfg) && m <= |vs| && m <= |ws| && vs[..m] == ws[..m]
    requires s + 2 < |LineStarts(vs, 0, cfg)| && LineStarts(vs, 0, cfg)[s + 2] <= m
    ensures MayKeep(vs, ws, m, s, cfg)
  {
    hide Fits, LineStarts, LineEnd, GoesOn;
    StartsInFront(vs, m, s + 2, cfg);
    StartsInFront(vs, m, s + 1, cfg);
    if s > 0 {
      LineInFront(vs, ws, m, s - 1, s + 1, cfg);
    }
    if s > 1 {
      LineInFront(vs, ws, m, s - 2, s + 1, cfg);
    }
  }

  const WRAPPED: Setting := Setting(5, u => if u == 87 then 5 else 1, true)

  /** With word wrap it is not: "aaa bW" and "aaa b", with a W as wide as the line. */
  lemma WrapReachesTwoLinesUp()
    ensures Fits([97, 97, 97, 32, 98, 87], WRAPPED) && Fits([97, 97, 97, 32, 98], WRAPPED)
    ensures LineStarts([97, 97, 97, 32, 98, 87], 0, WRAPPED) == [0, 3, 5]
    ensures LineStarts([97, 97, 97, 32, 98], 0, WRAPPED) == [0]
    ensures LineStarts([97, 97, 97, 32, 98, 87], 0, WRAPPED)[..1] + LineStarts([97, 97, 97, 32, 98], 3, WRAPPED)
         == [0, 3]
  {
    hide *;
    StartsBefore();
    StartsAfter();
    assert [0, 3, 5][..1] + [3] == [0, 3];
  }

  lemma StartsBefore()
    ensures Fits([97, 97, 97, 32, 98, 87], WRAPPED) && LineStarts([97, 97, 97, 32, 98, 87], 0, WRAPPED) == [0, 3, 5]
  {
    hide LineEnd, LineStarts, Fits;
    var vs: seq<scalar> := [97, 97, 97, 32, 98, 87];
    BothFit();
    EndsBefore();
    LineThen(vs, 0, 3, WRAPPED);
    LineThen(vs, 3, 5, WRAPPED);
    LineThen(vs, 5, 6, WRAPPED);
  }

  lemma StartsAfter()
    ensures Fits([97, 97, 97, 32, 98], WRAPPED) && LineStarts([97, 97, 97, 32, 98], 0, WRAPPED) == [0]
    ensures LineStarts([97, 97, 97, 32, 98], 3, WRAPPED) == [3]
  {
    hide LineEnd, LineStarts, Fits;
    var ws: seq<scalar> := [97, 97, 97, 32, 98];
    BothFit();
    EndsAfter();
    LineThen(ws, 0, 5, WRAPPED);
    LineThen(ws, 3, 5, WRAPPED);
  }

  lemma BothFit()
    ensures Fits([97, 97, 97, 32, 98, 87], WRAPPED) && Fits([97, 97, 97, 32, 98], WRAPPED)
  {
  }

  lemma LineThen(vs: seq<scalar>, k: nat, e: nat, cfg: Setting)
    requires k < |vs| && Fits(vs, cfg) && LineEnd(vs, k, cfg) == e
    ensures LineStarts(vs, k, cfg) == [k] + LineStarts(vs, e, cfg) && LineStarts(vs, |vs|, cfg) == []
  {
    hide LineEnd, Fits;
  }

  lemma EndsBefore()
    ensures var vs := [97, 97, 97, 32, 98, 87];
            LineEnd(vs, 0, WRAPPED) == 3 && LineEnd(vs, 3, WRAPPED) == 5 && LineEnd(vs, 5, WRAPPED) == 6
  {
    var vs: seq<scalar> := [97, 97, 97, 32, 98, 87];
    BoundOfAscii(vs);
    assert Visible(vs, 0, 5, WRAPPED.extent).end == 5;
    assert BreakFrom(vs, 0, 4, 98, 98) == 3 && LineBreak(vs, 0, 5) == 3;
    assert Visible(vs, 3, 5, WRAPPED.extent).end == 5;
    assert BreakFrom(vs, 3, 4, 98, 98) == 3 && LineBreak(vs, 3, 5) == 3;
    assert Visible(vs, 5, 5, WRAPPED.extent).end == 6 && LineBreak(vs, 5, 6) == 6;
    hide Visible, LineBreak, BreakFrom;
  }

  lemma EndsAfter()
    ensures var ws := [97, 97, 97, 32, 98];
            LineEnd(ws, 0, WRAPPED) == 5 && LineEnd(ws, 3, WRAPPED) == 5
  {
    var ws: seq<scalar> := [97, 97, 97, 32, 98];
    assert Visible(ws, 0, 5, WRAPPED.extent).end == 5 && LineBreak(ws, 0, 5) == 5;
    assert Visible(ws, 3, 5, WRAPPED.extent).end == 5 && LineBreak(ws, 3, 5) == 5;
  }

  lemma BoundOfAscii(vs: seq<scalar>)
    requires |vs| >= 3 && forall v <- vs :: v < 0x80
    ensures Bound(vs, 0) == 0 && Bound(vs, 3) == 3
  {
    BoundEnds(vs);
    CharInText(vs, 0);
    CharInText(vs, 1);
    CharInText(vs, 2);
    assert vs[0] in vs && vs[1] in vs && vs[2] in vs;
    hide Bound, CText;
  }

  /** "aWa" with a wide W, and "aa" once the W is deleted. */
  const WIDE: Setting := Setting(2, u => if u == 87 then 2 else 1, false)

  /**
   Deleting the first character of a line can let what follows move up.  The view lays out again
   from the line of the caret; here that keeps two lines where the whole text makes one.
   */
  lemma DeletionReachesLineAbove()
    ensures Fits([97, 87, 97], WIDE) && Fits([97, 97], WIDE)
    ensures LineStarts([97, 87, 97], 0, WIDE) == [0, 1, 2]
    ensures LineStarts([97, 97], 0, WIDE) == [0]
    ensures LineStarts([97, 87, 97], 0, WIDE)[..1] + LineStarts([97, 97], 1, WIDE) == [0, 1]
  {
    var vs: seq<scalar>, ws: seq<scalar> := [97, 87, 97], [97, 97];
    assert Visible(vs, 0, 2, WIDE.extent).end == 1;
    assert Visible(vs, 1, 2, WIDE.extent).end == 2;
    assert Visible(vs, 2, 2, WIDE.extent).end == 3;
    assert Visible(ws, 0, 2, WIDE.extent).end == 2;
    assert Visible(ws, 1, 2, WIDE.extent).end == 2;
    assert LineStarts(vs, 3, WIDE) == [] && LineStarts(ws, 2, WIDE) == [];
    assert LineStarts(vs, 2, WIDE) == [2] && LineStarts(vs, 1, WIDE) == [1, 2];
    assert LineStarts(ws, 1, WIDE) == [1];
  }

  /**
   So can an insertion, in a view that lays out again from its first visible line: "b" inserted into
   "aW" in front of the W, with the W's line on top.
   */
  lemma InsertionReachesLineAbove()
    ensures Fits([97, 87], WIDE) && Fits([97, 98, 87], WIDE) && LineStarts([97, 87], 0, WIDE) == [0, 1]
    ensures LineStarts([97, 98, 87], 0, WIDE) == [0, 2]
    ensures LineStarts([97, 87], 0, WIDE)[..1] + LineStarts([97, 98, 87], 1, WIDE) == [0, 1, 2]
  {
    var vs: seq<scalar>, ws: seq<scalar> := [97, 87], [97, 98, 87];
    assert Visible(vs, 0, 2, WIDE.extent).end == 1;
    assert Visible(vs, 1, 2, WIDE.extent).end == 2;
    assert Visible(ws, 0, 2, WIDE.extent).end == 2;
    assert Visible(ws, 1, 2, WIDE.extent).end == 2;
    assert Visible(ws, 2, 2, WIDE.extent).end == 3;
    assert LineStarts(vs, 2, WIDE) == [] && LineStarts(ws, 3, WIDE) == [];
    assert LineStarts(vs, 1, WIDE) == [1] && LineStarts(ws, 2, WIDE) == [2] && LineStarts(ws, 1, WIDE) == [1, 2];
  }

  /**
   ftk_text_view_insert_text starts one line later still, behind the line it changes: "W" inserted
   into "aaW" between the two letters.
   */
  lemma InsertTextStartsTooLate()
    ensures Fits([97, 97, 87], WIDE) && Fits([97, 87, 97, 87], WIDE)
    ensures LineStarts([97, 97, 87], 0, WIDE) == [0, 2] && LineStarts([97, 87, 97, 87], 0, WIDE) == [0, 1, 2, 3]
    ensures LineStarts([97, 97, 87], 0, WIDE)[..1] + LineStarts([97, 87, 97, 87], 2, WIDE) == [0, 2, 3]
  {
    var vs: seq<scalar>, ws: seq<scalar> := [97, 97, 87], [97, 87, 97, 87];
    assert Visible(vs, 0, 2, WIDE.extent).end == 2;
    assert Visible(vs, 2, 2, WIDE.extent).end == 3;
    assert Visible(ws, 0, 2, WIDE.extent).end == 1;
    assert Visible(ws, 1, 2, WIDE.extent).end == 2;
    assert Visible(ws, 2, 2, WIDE.extent).end == 3;
    assert Visible(ws, 3, 2, WIDE.extent).end == 4;
    assert LineStarts(vs, 3, WIDE) == [] && LineStarts(ws, 4, WIDE) == [];
    assert LineStarts(vs, 2, WIDE) == [2] && LineStarts(ws, 3, WIDE) == [3];
    assert LineStarts(ws, 2, WIDE) == [2, 3] && LineStarts(ws, 1, WIDE) == [1, 2, 3];
  }
}
