/**
 The offsets at which src/ftk_text_view.c stores the beginnings of lines: unsigned shorts, in order
 as long as the text is short enough for them.
 */
module LineOffsets {
  import opened Bytes
  import opened TextCodec
  import opened Utf8Chars
  import opened LineLayout
  import opened LineEdits

  /** The line offsets are unsigned shorts. */
  function Short(p: nat): uint16 {
    p % 0x1_0000
  }

  /** Line `i` of `offsets` holds position `caret`; behind the last line there is nothing. */
  predicate HoldsCaret(offsets: seq<uint16>, i: nat, caret: int) {
    i < |offsets| && offsets[i] <= caret && (i + 1 < |offsets| ==> caret < offsets[i + 1])
  }

  /** The offsets at which lines that begin at the characters `ls` are stored. */
  ghost function ByteStarts(vs: seq<scalar>, ls: seq<nat>): (o: seq<uint16>)
    ensures |o| == |ls|
    ensures forall i :: 0 <= i < |ls| && ls[i] <= |vs| ==> o[i] == Short(Bound(vs, ls[i]))
  {
    seq(|ls|, i requires 0 <= i < |ls| => if ls[i] <= |vs| then Short(Bound(vs, ls[i])) else 0)
  }

  lemma ByteStartsStep(vs: seq<scalar>, k: nat, cfg: Setting)
    requires k <= |vs| && Fits(vs, cfg)
    ensures k == |vs| ==> ByteStarts(vs, LineStarts(vs, k, cfg)) == []
    ensures k < |vs| ==>
              var rest := LineStarts(vs, LineEnd(vs, k, cfg), cfg);
              ByteStarts(vs, LineStarts(vs, k, cfg)) == [Short(Bound(vs, k))] + ByteStarts(vs, rest)
  {
    hide Bound, Short, Fits, LineEnd;
    if k < |vs| {
      FitsProgress(vs, k, cfg);
    }
  }

  ghost predicate Ascending(offsets: seq<uint16>) {
    forall i, j :: 0 <= i < j < |offsets| ==> offsets[i] < offsets[j]
  }

  /** A position that is not in front of the end is the end. */
  lemma AtTheEnd(vs: seq<scalar>, k: nat)
    requires k <= |vs|
    ensures Bound(vs, k) >= |CText(vs)| - 1 ==> k == |vs|
  {
    BoundEnds(vs);
    BoundGrows(vs, k, |vs|);
    hide Bound, CText;
  }

  lemma FirstIsFirst(vs: seq<scalar>, k: nat)
    requires k <= |vs|
    ensures Bound(vs, k) == 0 <==> k == 0
  {
    BoundEnds(vs);
    BoundGrows(vs, 0, k);
    hide Bound, CText;
  }

  lemma ByteStartsConcat(vs: seq<scalar>, a: seq<nat>, b: seq<nat>)
    ensures ByteStarts(vs, a + b) == ByteStarts(vs, a) + ByteStarts(vs, b)
  {
    hide Bound, Short;
  }

  /** The offsets of a whole layout ascend from zero, as long as they fit unsigned shorts. */
  lemma LayoutAscends(vs: seq<scalar>, cfg: Setting)
    requires Fits(vs, cfg)
    ensures var o := ByteStarts(vs, LineStarts(vs, 0, cfg));
            |Utf8Text(vs)| < 0x1_0000 ==> Ascending(o) && (o != [] ==> o[0] == 0)
  {
    var ls := LineStarts(vs, 0, cfg);
    LinesPartition(vs, 0, cfg);
    BoundEnds(vs);
    hide Bound, Utf8Text, Fits, LineEnd, LineStarts, ByteStarts, Short;
    var o := ByteStarts(vs, ls);
    forall i, j | 0 <= i < j < |o|
      ensures |Utf8Text(vs)| < 0x1_0000 ==> o[i] < o[j]
    {
      StartsOrder(vs, ls, i, j);
      OffsetsAscend(vs, ls[i], ls[j]);
    }
    if ls != [] {
      OffsetsAscend(vs, 0, ls[0]);
    }
  }

  lemma OffsetsAscend(vs: seq<scalar>, j: nat, k: nat)
    requires j <= k <= |vs|
    ensures |Utf8Text(vs)| < 0x1_0000 && j < k ==> Short(Bound(vs, j)) < Short(Bound(vs, k))
    ensures Short(Bound(vs, 0)) == 0
  {
    hide Bound, Utf8Text, CText;
    BoundEnds(vs);
    BoundGrows(vs, j, k);
    BoundGrows(vs, k, |vs|);
    ShortIsSame(Bound(vs, j));
    ShortIsSame(Bound(vs, k));
    ShortIsSame(0);
    hide Short;
  }

  lemma ShortIsSame(p: nat)
    ensures p < 0x1_0000 ==> Short(p) == p
  {
  }

  /** Offsets of short texts tell beginnings of lines apart. */
  lemma OffsetsTell(vs: seq<scalar>, a: seq<nat>, b: seq<nat>)
    requires |Utf8Text(vs)| < 0x1_0000 
    requires (forall i :: 0 <= i < |a| ==> a[i] <= |vs|) && (forall i :: 0 <= i < |b| ==> b[i] <= |vs|)
    ensures ByteStarts(vs, a) == ByteStarts(vs, b) <==> a == b
  {
    hide Bound, Utf8Text, Short;
    var o := ByteStarts(vs, a);
    if o == ByteStarts(vs, b) {
      forall i | 0 <= i < |a|
        ensures a[i] == b[i]
      {
        assert o[i] == Short(Bound(vs, a[i])) == Short(Bound(vs, b[i]));
        if a[i] < b[i] {
          OffsetsAscend(vs, a[i], b[i]);
        } else if b[i] < a[i] {
          OffsetsAscend(vs, b[i], a[i]);
        }
      }
    }
  }

  /** Offsets that were kept and found are those of the whole layout exactly if the lines are. */
  lemma OffsetsRight(ws: seq<scalar>, kept: seq<nat>, k: nat, cfg: Setting)
    requires Fits(ws, cfg) && |Utf8Text(ws)| < 0x1_0000 && k <= |ws|
    requires forall j :: 0 <= j < |kept| ==> kept[j] < |ws|
    ensures ByteStarts(ws, kept + LineStarts(ws, k, cfg)) == ByteStarts(ws, LineStarts(ws, 0, cfg))
       <==> kept + LineStarts(ws, k, cfg) == LineStarts(ws, 0, cfg)
  {
    hide Bound, Utf8Text, Short, Fits, LineStarts, ByteStarts, LineEnd;
    LinesPartition(ws, k, cfg);
    LinesPartition(ws, 0, cfg);
    OffsetsTell(ws, kept + LineStarts(ws, k, cfg), LineStarts(ws, 0, cfg));
  }

  /** And that is so exactly if each line kept still ends where it did. */
  lemma OffsetsRightIff(ws: seq<scalar>, kept: seq<nat>, k: nat, cfg: Setting)
    requires Fits(ws, cfg) && |Utf8Text(ws)| < 0x1_0000 && k <= |ws|
    requires if kept == [] then k == 0 else kept[0] == 0
    requires forall j :: 0 <= j < |kept| ==> kept[j] < |ws|
    ensures ByteStarts(ws, kept + LineStarts(ws, k, cfg)) == ByteStarts(ws, LineStarts(ws, 0, cfg))
       <==> forall j :: 0 <= j < |kept| ==> StillEnds(ws, kept, j, k, cfg)
  {
    hide Bound, Utf8Text, Short, Fits, LineStarts, ByteStarts, StillEnds;
    OffsetsRight(ws, kept, k, cfg);
    if kept == [] {
      assert kept + LineStarts(ws, k, cfg) == LineStarts(ws, 0, cfg);
    } else {
      KeptLinesIff(ws, kept, k, cfg);
    }
  }

  /** Where a character begins depends on those in front of it alone. */
  lemma BoundLocal(vs: seq<scalar>, ws: seq<scalar>, m: nat, k: nat)
    requires k <= m <= |vs| && m <= |ws| && vs[..m] == ws[..m]
    ensures Bound(vs, k) == Bound(ws, k)
  {
    assert vs[..k] == vs[..m][..k] == ws[..m][..k] == ws[..k];
  }

  /** An edit from character `m` on that leaves a text short enough for the offsets. */
  ghost predicate Edited(vs: seq<scalar>, ws: seq<scalar>, m: nat, cfg: Setting) {
    && Fits(vs, cfg) && Fits(ws, cfg) && |Utf8Text(vs)| < 0x1_0000 && |Utf8Text(ws)| < 0x1_0000
    && m <= |vs| && m <= |ws| && vs[..m] == ws[..m]
  }

  /** The offsets in front of an edit, as the view has them when it lays out again from line `s`. */
  lemma OffsetsInFront(vs: seq<scalar>, ws: seq<scalar>, m: nat, s: nat, cfg: Setting)
    requires Edited(vs, ws, m, cfg)
    requires s < |LineStarts(vs, 0, cfg)| && LineStarts(vs, 0, cfg)[s] <= m
    ensures var ls := LineStarts(vs, 0, cfg);
            var o := ByteStarts(vs, ls);
            && o[..s] == ByteStarts(ws, ls[..s]) && o[s] == Bound(ws, ls[s])
            && ls[0] == 0 && (forall j :: 0 <= j < s ==> ls[..s][j] < |ws|)
  {
    hide Bound, Utf8Text, Short, Fits, LineStarts;
    var ls := LineStarts(vs, 0, cfg);
    StartsInFront(vs, m, s, cfg);
    forall j | 0 <= j <= s
      ensures Bound(vs, ls[j]) == Bound(ws, ls[j])
    {
      BoundLocal(vs, ws, m, ls[j]);
    }
    BoundEnds(vs);
    BoundGrows(vs, ls[s], |vs|);
    ShortIsSame(Bound(vs, ls[s]));
    hide ByteStarts;
    assert forall j :: 0 <= j < s ==> ByteStarts(vs, ls)[j] == ByteStarts(ws, ls[..s])[j];
  }

  /** The line that holds a position begins in front of it, and the next one behind it. */
  lemma LineOfChar(vs: seq<scalar>, m: nat, s: nat, cfg: Setting)
    requires Fits(vs, cfg) && |Utf8Text(vs)| < 0x1_0000 && m <= |vs|
    requires HoldsCaret(ByteStarts(vs, LineStarts(vs, 0, cfg)), s, Bound(vs, m))
    ensures var ls := LineStarts(vs, 0, cfg);
            ls[s] <= m && (s + 1 < |ls| ==> m < ls[s + 1])
  {
    LinesPartition(vs, 0, cfg);
    hide Bound, Utf8Text, Fits, LineStarts, LineEnd, HoldsCaret;
    LineOfCharIn(vs, LineStarts(vs, 0, cfg), m, s);
  }

  lemma LineOfCharIn(vs: seq<scalar>, ls: seq<nat>, m: nat, s: nat)
    requires |Utf8Text(vs)| < 0x1_0000 && m <= |vs| && forall i :: 0 <= i < |ls| ==> ls[i] <= |vs|
    requires HoldsCaret(ByteStarts(vs, ls), s, Bound(vs, m))
    ensures ls[s] <= m && (s + 1 < |ls| ==> m < ls[s + 1])
  {
    hide Bound, Utf8Text, Short, CText;
    BoundEnds(vs);
    BoundGrows(vs, m, |vs|);
    ShortIsSame(Bound(vs, m));
    var o := ByteStarts(vs, ls);
    assert o[s] == Short(Bound(vs, ls[s]));
    assert s + 1 < |ls| ==> o[s + 1] == Short(Bound(vs, ls[s + 1]));
    hide ByteStarts;
    if ls[s] > m {
      OffsetsAscend(vs, m, ls[s]);
    }
    if s + 1 < |ls| && ls[s + 1] <= m {
      OffsetsAscend(vs, ls[s + 1], m);
    }
  }

  /** The first line that does not begin in front of `pos`. */
  function LineFrom(offsets: seq<uint16>, pos: nat): (s: nat)
    ensures s <= |offsets|
    ensures (forall j :: 0 <= j < s ==> offsets[j] < pos) && (s < |offsets| ==> offsets[s] >= pos)
  {
    if offsets == [] || offsets[0] >= pos then 0 else 1 + LineFrom(offsets[1..], pos)
  }

  lemma {:induction false} LineFromIs(offsets: seq<uint16>, pos: nat, i: nat)
    requires i <= |offsets| && (forall j :: 0 <= j < i ==> offsets[j] < pos)
    requires i < |offsets| ==> offsets[i] >= pos
    ensures LineFrom(offsets, pos) == i
  {
    if i > 0 {
      LineFromIs(offsets[1..], pos, i - 1);
    }
  }

  /** `kept` are lines of the old text in front of an edit at its byte `pos`. */
  ghost predicate KeptFrom(vs: seq<scalar>, ws: seq<scalar>, m: nat, pos: int, kept: seq<nat>, cfg: Setting) {
    Edited(vs, ws, m, cfg) && Bound(vs, m) == pos && kept != [] && kept <= LineStarts(vs, 0, cfg)
  }

  /**
   ftk_text_view_insert_text keeps the lines in front of the first one that does not begin in front
   of the insertion, and lays out again from that line's offset, which is character `k` of the new
   text.  That is right exactly if the line edited, which is the last one kept, ends there and, with
   word wrap, the line above ends where it did.
   */
  lemma InsertTextRightIff(vs: seq<scalar>, ws: seq<scalar>, m: nat, pos: nat, kept: seq<nat>, k: nat, cfg: Setting)
    requires KeptFrom(vs, ws, m, pos, kept, cfg) && k <= |ws|
    requires |kept| == LineFrom(ByteStarts(vs, LineStarts(vs, 0, cfg)), pos)
    ensures ByteStarts(ws, kept + LineStarts(ws, k, cfg)) == ByteStarts(ws, LineStarts(ws, 0, cfg))
       <==> LastLinesEnd(ws, kept, |kept| - 1, k, cfg)
  {
    hide Bound, Utf8Text, Short, Fits, LineEnd, LineStarts, ByteStarts, LineFrom;
    var ls, s := LineStarts(vs, 0, cfg), |kept|;
    EditedLine(vs, m, s, cfg);
    StartsInFront(vs, m, s - 1, cfg);
    assert ls[..s] == kept;
    forall j | 0 <= j < s
      ensures kept[j] < |ws|
    {
      assert kept[j] == ls[j] <= ls[s - 1] < m;
    }
    OffsetsRight(ws, kept, k, cfg);
    LastLinesDecide(vs, ws, m, s - 1, k, cfg);
  }

  lemma KeptNow(vs: seq<scalar>, ws: seq<scalar>, m: nat, pos: int, kept: seq<nat>, cfg: Setting)
    requires KeptFrom(vs, ws, m, pos, kept, cfg)
    ensures kept != [] && |Utf8Text(ws)| < 0x1_0000 && Fits(ws, cfg)
  {
    hide Utf8Text, Fits, LineStarts;
  }

  lemma EditedLine(vs: seq<scalar>, m: nat, s: nat, cfg: Setting)
    requires Fits(vs, cfg) && |Utf8Text(vs)| < 0x1_0000 && m <= |vs|
    requires s == LineFrom(ByteStarts(vs, LineStarts(vs, 0, cfg)), Bound(vs, m)) && s > 0
    ensures s <= |LineStarts(vs, 0, cfg)| && LineStarts(vs, 0, cfg)[s - 1] < m
  {
    hide Bound, Utf8Text, Short, Fits, LineEnd, LineStarts, ByteStarts, LineFrom;
    LinesPartition(vs, 0, cfg);
    BeginsInFront(vs, LineStarts(vs, 0, cfg), m, s - 1);
  }

  lemma BeginsInFront(vs: seq<scalar>, ls: seq<nat>, m: nat, i: nat)
    requires |Utf8Text(vs)| < 0x1_0000 && m <= |vs| && i < |ls| && ls[i] <= |vs|
    requires ByteStarts(vs, ls)[i] < Bound(vs, m)
    ensures ls[i] < m
  {
    hide Utf8Text, Short, CText, Bound;
    BoundEnds(vs);
    BoundGrows(vs, m, |vs|);
    ShortIsSame(Bound(vs, m));
    if ls[i] >= m {
      OffsetsAscend(vs, m, ls[i]);
    }
  }

  lemma NotFurtherDown(o: seq<uint16>, caret: nat, i: nat, j: nat)
    requires Ascending(o) && HoldsCaret(o, i, caret) && i < j < |o|
    ensures o[j] > caret
  {
    assert o[i + 1] <= o[j];
  }

  /** There is exactly one line that holds a position. */
  lemma CaretLineIsUnique(o: seq<uint16>, caret: nat)
    requires Ascending(o) && o != [] && o[0] == 0
    ensures exists i: nat :: HoldsCaret(o, i, caret)
    ensures forall i: nat, j: nat :: HoldsCaret(o, i, caret) && HoldsCaret(o, j, caret) ==> i == j
  {
    var i := |o| - 1;
    while o[i] > caret
      invariant 0 <= i < |o| && (i + 1 < |o| ==> caret < o[i + 1])
    {
      i := i - 1;
    }
    assert HoldsCaret(o, i, caret);
    forall i: nat, j: nat | HoldsCaret(o, i, caret) && HoldsCaret(o, j, caret)
      ensures i == j
    {
      if i < j {
        NotFurtherDown(o, caret, i, j);
      } else if j < i {
        NotFurtherDown(o, caret, j, i);
      }
    }
  }
}
