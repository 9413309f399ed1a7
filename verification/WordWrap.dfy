/**
 Lines that are cut off at a word break (src/ftk_util.c, src/ftk_text_layout_normal.c): the word that
 is moved down stays together, so the next line reaches at least as far as this one tried to.
 */
module WordWrap {
  import opened Bytes
  import opened TextCodec
  import opened Utf8Chars
  import opened LineLayout

  /** The backward scan may start at the break it finds. */
  lemma {:induction false} ScanFromBreak(vs: seq<scalar>, k: nat, b: nat, p: nat, c1: uint16, c2: uint16)
    requires k <= b <= p <= |vs| && BreakFrom(vs, k, p, c1, c2) == b
    ensures BreakFrom(vs, b, p, c1, c2) == b
    decreases p
  {
    if !CanBreak(c1, c2) && p > b {
      ScanFromBreak(vs, k, b, p - 1, Unit(vs[p - 1]), c1);
    }
  }

  /** A scan from further on that gets past `e` finds no break that the scan from `e` did not find. */
  lemma {:induction false} ScanPast(vs: seq<scalar>, k: nat, b: nat, e: nat, p: nat, c2: uint16)
    requires k <= b < e <= p < |vs|
    requires BreakFrom(vs, k, e, Unit(vs[e - 1]), Unit(vs[e])) == b
    ensures var q := BreakFrom(vs, b, p, Unit(vs[p]), c2);
            q == b || q >= e
    decreases p
  {
    if !CanBreak(Unit(vs[p]), c2) {
      if p > e {
        ScanPast(vs, k, b, e, p - 1, Unit(vs[p]));
      } else {
        var c := Unit(vs[e - 1]);
        assert !CanBreak(c, Unit(vs[e])) && !CanBreak(c, c);
        if b < e - 1 {
          assert BreakFrom(vs, k, e - 2, Unit(vs[e - 2]), c) == b;
          ScanFromBreak(vs, k, b, e - 2, Unit(vs[e - 2]), c);
        }
      }
    }
  }

  lemma {:induction false} AdvanceFromLater(vs: seq<scalar>, k: nat, b: nat, j: nat, extent: uint16 -> nat)
    requires k <= b <= j <= |vs|
    ensures TotalAdvance(vs, b, j, extent) <= TotalAdvance(vs, k, j, extent)
    decreases j
  {
    if b < j {
      AdvanceFromLater(vs, k, b, j - 1, extent);
    }
  }

  /** What went on a line goes on one that begins later. */
  lemma GoesOnLater(vs: seq<scalar>, k: nat, b: nat, j: nat, width: int, extent: uint16 -> nat)
    requires k <= b <= j < |vs| && GoesOn(vs, k, j, width, extent)
    ensures GoesOn(vs, b, j, width, extent)
  {
    AdvanceFromLater(vs, k, b, j, extent);
  }

  lemma LaterReaches(vs: seq<scalar>, k: nat, b: nat, width: int, extent: uint16 -> nat)
    requires k <= b <= |vs| && b < Visible(vs, k, width, extent).end
    ensures Visible(vs, k, width, extent).end <= Visible(vs, b, width, extent).end
  {
    var e, f := Visible(vs, k, width, extent).end, Visible(vs, b, width, extent).end;
    VisibleIsLongest(vs, k, width, extent);
    VisibleIsLongest(vs, b, width, extent);
    if f < e {
      GoesOnLater(vs, k, b, f, width, extent);
    }
  }

  /** The line behind a wrapped one gets at least as far as that one's fitting loop. */
  lemma NextLineReaches(vs: seq<scalar>, k: nat, cfg: Setting)
    requires k < |vs| && LineEnd(vs, k, cfg) < |vs|
    ensures Visible(vs, k, cfg.width, cfg.extent).end <= LineEnd(vs, LineEnd(vs, k, cfg), cfg)
  {
    var e, b := Visible(vs, k, cfg.width, cfg.extent).end, LineEnd(vs, k, cfg);
    if b < e {
      LaterReaches(vs, k, b, cfg.width, cfg.extent);
      var f := Visible(vs, b, cfg.width, cfg.extent).end;
      hide Visible, Bound, CanBreak, BreakFrom;
      if f > e {
        BreakBehind(vs, k, b, e, f);
      } else {
        ScanFromBreak(vs, k, b, e, Unit(vs[e - 1]), UnitOrNul(vs, e));
      }
    }
  }

  lemma BreakBehind(vs: seq<scalar>, k: nat, b: nat, e: nat, f: nat)
    requires k <= b < e < f <= |vs| && BreakFrom(vs, k, e, Unit(vs[e - 1]), Unit(vs[e])) == b
    ensures LineBreak(vs, b, f) == b || LineBreak(vs, b, f) >= e
  {
    var c1, c2 := Unit(vs[f - 1]), UnitOrNul(vs, f);
    if !CanBreak(c1, c2) {
      ScanPast(vs, k, b, e, f - 1, c1);
    }
  }

  // ---------------------------------------------------------------- where words are broken

  predicate Between(c: uint16, first: char, last: char) {
    first as int <= c <= last as int
  }

  /** Two digits, or two letters, of ASCII. */
  predicate InOneWord(c1: uint16, c2: uint16) {
    || (Between(c1, '0', '9') && Between(c2, '0', '9'))
    || ((Between(c1, 'a', 'z') || Between(c1, 'A', 'Z')) && (Between(c2, 'a', 'z') || Between(c2, 'A', 'Z')))
  }

  lemma CanBreakIff(c1: uint16, c2: uint16)
    ensures CanBreak(c1, c2) <==> !InOneWord(c1, c2)
    ensures InOneWord(c1, c2) ==> InOneWord(c1, c1) && !IsBreak(c1) && c2 != 0 && !IsBreak(c2)
  {
  }

  /** The scan goes back through the word it is in, to the character in front of that word or to the start. */
  lemma {:induction false} ScanStops(vs: seq<scalar>, start: nat, p: nat)
    requires start <= p && p + 1 < |vs|
    ensures var q := BreakFrom(vs, start, p, Unit(vs[p]), Unit(vs[p + 1]));
            && q <= p && (q == start || !InOneWord(Unit(vs[q]), Unit(vs[q + 1])))
            && forall j :: q < j <= p ==> InOneWord(Unit(vs[j]), Unit(vs[j + 1]))
    decreases p
  {
    hide InOneWord, CanBreak, Unit;
    CanBreakIff(Unit(vs[p]), Unit(vs[p + 1]));
    if !CanBreak(Unit(vs[p]), Unit(vs[p + 1])) && p > start {
      ScanStops(vs, start, p - 1);
    }
  }

  /** A range that would split a word is cut in front of the character that comes before the word. */
  lemma BreakMeans(vs: seq<scalar>, start: nat, end: nat)
    requires start < end <= |vs|
    ensures var q := LineBreak(vs, start, end);
            if end == |vs| || !InOneWord(Unit(vs[end - 1]), Unit(vs[end])) then q == end
            else && q < end && (q == start || !InOneWord(Unit(vs[q]), Unit(vs[q + 1])))
                 && forall j :: q < j < end ==> InOneWord(Unit(vs[j]), Unit(vs[j + 1]))
  {
    hide InOneWord, CanBreak, Unit;
    var c1, c2 := Unit(vs[end - 1]), UnitOrNul(vs, end);
    CanBreakIff(c1, c2);
    if end < |vs| && InOneWord(c1, c2) {
      CanBreakIff(c1, c1);
      assert LineBreak(vs, start, end) == BreakFrom(vs, start, end - 1, c1, c1);
      if end - 1 > start {
        ScanStops(vs, start, end - 2);
      }
    }
  }

  /**
   With word wrap, a line that is cut off is cut in front of the last character that is not followed
   inside its word, at least three bytes in; and a word is split only if there is no such place.
   */
  lemma WordsStayTogether(vs: seq<scalar>, k: nat, cfg: Setting)
    requires k < |vs| && cfg.wordWrap
    ensures var e, b := Visible(vs, k, cfg.width, cfg.extent).end, LineEnd(vs, k, cfg);
            && (b < e ==>
                  && e < |vs| && Bound(vs, b) >= Bound(vs, k) + 3 && !InOneWord(Unit(vs[b]), Unit(vs[b + 1]))
                  && forall j :: b < j < e ==> InOneWord(Unit(vs[j]), Unit(vs[j + 1])))
            && (b == e && k < e < |vs| && InOneWord(Unit(vs[e - 1]), Unit(vs[e])) ==>
                  forall j :: k <= j < e && Bound(vs, j) >= Bound(vs, k) + 3 ==> InOneWord(Unit(vs[j]), Unit(vs[j + 1])))
  {
    hide Visible, LineBreak, InOneWord, Unit, Bound;
    var e, b := Visible(vs, k, cfg.width, cfg.extent).end, LineEnd(vs, k, cfg);
    if e > k {
      BreakMeans(vs, k, e);
      var q := LineBreak(vs, k, e);
      if b == e && q < e {
        forall j | k <= j < e && Bound(vs, j) >= Bound(vs, k) + 3
          ensures InOneWord(Unit(vs[j]), Unit(vs[j + 1]))
        {
          if j <= q {
            BoundGrows(vs, j, q);
          }
        }
      }
    }
  }
}
