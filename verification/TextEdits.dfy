/** What the keys of the text view do to a text and to the caret, in terms of characters. */
module TextEdits {
  import opened Bytes
  import opened TextCodec
  import opened Utf8Chars
  import opened LineLayout
  import opened LineEdits
  import opened LineOffsets
  import opened TextBuffers

  /** The character the caret is at after a move from character `k`; `offset` must not leave the text as bytes. */
  function CaretAfter(vs: seq<scalar>, k: nat, offset: int): (j: nat)
    requires k <= |vs|
    ensures j <= |vs|
  {
    if !(0 <= Bound(vs, k) + offset <= |Utf8Text(vs)|) then k
    else if offset > 0 then k + Steps(vs, k, offset)
    else if -offset < k then k + offset
    else 0
  }

  /**
   In a text without units of zero the caret moves as many characters as asked for, as far as there
   are any; and not at all if the same number of bytes would leave the text.
   */
  lemma CaretAfterPlain(vs: seq<scalar>, k: nat, offset: int)
    requires k <= |vs| && forall i :: 0 <= i < |vs| ==> Unit(vs[i]) != 0
    ensures CaretAfter(vs, k, offset)
         == if Bound(vs, k) + offset < 0 || Bound(vs, k) + offset > |Utf8Text(vs)| then k
            else if k + offset < 0 then 0
            else if k + offset > |vs| then |vs|
            else k + offset
  {
    hide Bound, Utf8Text, Unit;
    if offset > 0 {
      StepsOfPlain(vs, k, offset);
    }
  }

  /** What a deletion of one character leaves. */
  function Without(vs: seq<scalar>, m: nat): seq<scalar> {
    if m < |vs| then vs[..m] + vs[m + 1..] else vs
  }

  /** And what an insertion makes of the text. */
  function With(vs: seq<scalar>, m: nat, us: seq<scalar>): seq<scalar>
    requires m <= |vs|
  {
    vs[..m] + us + vs[m..]
  }

  lemma OneToTheRight(vs: seq<scalar>, m: nat)
    requires m <= |vs|
    ensures Bound(vs, m) + 1 <= |Utf8Text(vs)| <==> m < |vs|
    ensures m < |vs| ==> WithoutChars(vs, m, 1) == Without(vs, m)
  {
    hide Bound, Utf8Text;
    BoundEnds(vs);
    BoundGrows(vs, m, |vs|);
    if m < |vs| {
      assert Steps(vs, m + 1, 0) == 0;
    }
  }

  /** Deleting character `k` is an edit from there on. */
  lemma DeletionEdits(vs: seq<scalar>, m: nat, k: nat, cfg: Setting)
    requires Fits(vs, cfg) && |Utf8Text(vs)| < 0x1_0000 && m <= k <= |vs|
    ensures Edited(vs, Without(vs, k), m, cfg) && Bound(vs, m) == Bound(Without(vs, k), m)
    ensures Bound(Without(vs, k), m) <= |Utf8Text(Without(vs, k))|
  {
    hide Bound, Utf8Text, Fits, Unit, Placeable;
    var ws := Without(vs, k);
    assert vs[..m] == ws[..m];
    BoundLocal(vs, ws, m, m);
    BoundEnds(ws);
    BoundGrows(ws, m, |ws|);
    FitsWithout(vs, k, cfg);
    if k < |vs| {
      assert vs == vs[..k] + [vs[k]] + vs[k + 1..];
      TextAppend(vs[..k], vs[k + 1..]);
      TextAppend(vs[..k], [vs[k]]);
      TextAppend(vs[..k] + [vs[k]], vs[k + 1..]);
    }
  }

  lemma FitsWithout(vs: seq<scalar>, k: nat, cfg: Setting)
    requires Fits(vs, cfg)
    ensures Fits(Without(vs, k), cfg)
  {
    var ws := Without(vs, k);
    forall i | 0 <= i < |ws|
      ensures Placeable(Unit(ws[i]), cfg)
    {
      assert ws[i] == vs[if i < k then i else i + 1];
    }
  }

  lemma OneToTheLeft(vs: seq<scalar>, m: nat)
    requires m <= |vs|
    ensures Bound(vs, m) <= |Utf8Text(vs)| && (m == 0 ==> Bound(vs, m) == 0)
    ensures m > 0 ==> Bound(vs, m - 1) < Bound(vs, m)
    ensures CaretAfter(vs, m, -1) == if m > 0 then m - 1 else 0
    ensures m > 0 ==> WithoutChars(vs, m, -1) == Without(vs, m - 1)
  {
    hide Bound, Utf8Text;
    BoundEnds(vs);
    BoundGrows(vs, 0, m);
    BoundGrows(vs, if m > 0 then m - 1 else 0, m);
    BoundGrows(vs, m, |vs|);
  }

  lemma SomeLine(vs: seq<scalar>, cfg: Setting)
    requires Fits(vs, cfg) && vs != []
    ensures LineStarts(vs, 0, cfg) != []
  {
    LinesPartition(vs, 0, cfg);
    hide Fits, LineStarts;
  }

  /** The backspace key starts a line above the one it edits. */
  lemma SecondLineAbove(vs: seq<scalar>, ws: seq<scalar>, m: nat, j: nat, cfg: Setting)
    requires Edited(vs, ws, m, cfg) && HoldsCaret(ByteStarts(vs, LineStarts(vs, 0, cfg)), j, Bound(vs, m))
    ensures j < |LineStarts(vs, 0, cfg)| && (j > 0 ==> LineStarts(vs, 0, cfg)[j - 1] <= m)
    ensures !cfg.wordWrap ==> MayKeep(vs, ws, m, j - 1, cfg)
  {
    hide Bound, Utf8Text, Fits, LineEnd, ByteStarts, LineStarts;
    LineOfChar(vs, m, j, cfg);
    if j > 0 {
      StartsInFront(vs, m, j, cfg);
    }
    hide HoldsCaret;
    if j > 1 {
      OneLineAbove(vs, ws, m, j - 1, cfg);
    }
  }

  lemma FitsWith(vs: seq<scalar>, m: nat, us: seq<scalar>, cfg: Setting)
    requires Fits(vs, cfg) && Fits(us, cfg) && m <= |vs|
    ensures Fits(With(vs, m, us), cfg)
  {
    var ws := With(vs, m, us);
    forall i | 0 <= i < |ws|
      ensures Placeable(Unit(ws[i]), cfg)
    {
      if m <= i < m + |us| {
        assert ws[i] == us[i - m];
      } else {
        assert ws[i] == vs[if i < m then i else i - |us|];
      }
    }
  }

  lemma TextWith(vs: seq<scalar>, m: nat, us: seq<scalar>)
    requires m <= |vs|
    ensures |Utf8Text(With(vs, m, us))| == |Utf8Text(vs)| + |Utf8Text(us)| && Bound(vs, m) <= |Utf8Text(vs)|
    ensures Inserted(Utf8Text(vs), Bound(vs, m), Utf8Text(us)) == Utf8Text(With(vs, m, us))
  {
    hide Bound, Utf8Text;
    BoundIs(vs, m);
    assert vs == vs[..m] + vs[m..];
    TextAppend(vs[..m], vs[m..]);
    TextAppend(vs[..m], us);
    TextAppend(vs[..m] + us, vs[m..]);
  }

  /** Text that fits can be stepped through to its end. */
  lemma CaretBehind(vs: seq<scalar>, m: nat, us: seq<scalar>, cfg: Setting)
    requires m <= |vs| && Fits(With(vs, m, us), cfg)
    ensures Bound(With(vs, m, us), m) <= |Utf8Text(With(vs, m, us))|
    ensures CaretAfter(With(vs, m, us), m, |us|) == m + |us| && forall i :: 0 <= i < |us| ==> Unit(us[i]) != 0
  {
    hide Bound, Utf8Text, Unit;
    var ws := With(vs, m, us);
    BoundEnds(ws);
    BoundGrows(ws, m, m + |us|);
    BoundGrows(ws, m + |us|, |ws|);
    assert forall i :: 0 <= i < |us| ==> us[i] == ws[m + i];
    StepsOfPlain(ws, m, |us|);
  }

  /** Inserting `us` at character `m` is an edit from there on. */
  lemma InsertionEdits(vs: seq<scalar>, m: nat, us: seq<scalar>, cfg: Setting)
    requires Fits(vs, cfg) && Fits(us, cfg) && |Utf8Text(vs)| + |Utf8Text(us)| < 0x1_0000 && m <= |vs|
    ensures Edited(vs, With(vs, m, us), m, cfg) && Bound(vs, m) == Bound(With(vs, m, us), m)
  {
    hide Bound, Utf8Text, Fits;
    var ws := With(vs, m, us);
    FitsWith(vs, m, us, cfg);
    TextWith(vs, m, us);
    assert vs[..m] == ws[..m];
    BoundLocal(vs, ws, m, m);
  }

  lemma CTextIsCString(us: seq<scalar>)
    requires 0 !in Utf8Text(us)
    ensures CString(CText(us)) == Utf8Text(us) && |CText(us)| == |Utf8Text(us)| + 1 && 0 in CText(us)
  {
    hide Utf8Text;
    CStringOf(Utf8Text(us), [0]);
  }

  lemma TextLength(vs: seq<scalar>)
    ensures |Utf8Text(vs)| == 0 <==> vs == []
  {
    BoundEnds(vs);
    BoundGrows(vs, 0, |vs|);
    hide Bound, Utf8Text;
  }

  lemma LinesOfEmpty(vs: seq<scalar>, cfg: Setting)
    requires Fits(vs, cfg)
    ensures vs == [] ==> |ByteStarts(vs, LineStarts(vs, 0, cfg))| == 0
  {
    hide Bound, Fits, LineEnd;
  }
}
