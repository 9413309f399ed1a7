/**
 The line index of src/ftk_text_view.c: the cached offsets of the lines, brought up to date from
 some line on after a change, the line of the caret, and the lines in view.
 */
module TextViews {
  import opened Bytes
  import opened TextCodec
  import opened Utf8Chars
  import opened LineLayout
  import opened LineEdits
  import opened LineOffsets
  import opened TextLayouts
  import opened TextBuffers
  import opened TextEdits

  class TextView {
    var caret: int
    var caretAtLine: int
    var visibleStartLine: int
    var visibleEndLine: int
    var visibleLines: int
    var totalLines: nat
    var linesOffset: array<uint16>
    const textBuffer: TextBuffer
    const layout: TextLayout

    ghost predicate Valid()
      reads this, linesOffset, textBuffer, textBuffer.buffer
    {
      && textBuffer.Valid() && totalLines < linesOffset.Length && linesOffset[0] == 0
      && layout.posV2l.Length == FTK_LINE_CHAR_NR + 1
    }

    /** The offsets in use. */
    ghost function Offsets(): (o: seq<uint16>)
      requires totalLines <= linesOffset.Length
      reads this, linesOffset
      ensures |o| == totalLines
    {
      linesOffset[..totalLines]
    }

    constructor (textBuffer: TextBuffer, layout: TextLayout)
      requires textBuffer.Valid() && layout.posV2l.Length == FTK_LINE_CHAR_NR + 1
      ensures Valid() && totalLines == 0 && fresh(linesOffset)
      ensures this.textBuffer == textBuffer && this.layout == layout
    {
      caret, caretAtLine, visibleStartLine, visibleEndLine, visibleLines, totalLines := 0, 0, 0, 0, 0, 0;
      this.textBuffer, this.layout := textBuffer, layout;
      linesOffset := new uint16[5](_ => 0);
    }

    /** ftk_text_view_extend_lines_offset; one step is enough because the index grows by one. */
    method ExtendLinesOffset(nr: nat)
      requires nr <= linesOffset.Length
      modifies this`linesOffset
      ensures nr < linesOffset.Length && linesOffset.Length >= old(linesOffset.Length)
      ensures linesOffset == old(linesOffset) || fresh(linesOffset)
      ensures linesOffset[..old(linesOffset.Length)] == old(linesOffset[..])
    {
      if nr < linesOffset.Length {
        return;
      }
      var n := linesOffset.Length + (linesOffset.Length + 10) / 2;
      var larger := new uint16[n](_ => 0);
      forall i | 0 <= i < linesOffset.Length {
        larger[i] := linesOffset[i];
      }
      linesOffset := larger;
    }

    /** The offsets in use are those of lines that follow one another from the beginning of the text. */
    ghost predicate InOrder()
      requires totalLines <= linesOffset.Length
      reads this, linesOffset
    {
      Ascending(Offsets())
    }

    /** The offsets are those of the lines of the whole text. */
    ghost predicate InSync(vs: seq<scalar>, cfg: Setting)
      requires Valid()
      reads this, linesOffset, textBuffer, textBuffer.buffer
    {
      && textBuffer.Text() == Utf8Text(vs) && |Utf8Text(vs)| < 0x1_0000 && Fits(vs, cfg)
      && Offsets() == ByteStarts(vs, LineStarts(vs, 0, cfg))
    }

    /** The view knows the line of the caret. */
    ghost predicate CaretKnown()
      requires totalLines <= linesOffset.Length
      reads this, linesOffset
    {
      && -1 <= caretAtLine < Max(totalLines, 1)
      && (InOrder() && totalLines > 0 ==> 0 <= caretAtLine && HoldsCaret(Offsets(), caretAtLine, caret))
    }

    /** ftk_text_view_recalc_caret_at_line; the entry behind the last line may be stale, and does not matter. */
    method RecalcCaretAtLine()
      requires Valid()
      modifies this`caret, this`caretAtLine
      ensures caret == Min(Max(old(caret), 0), |textBuffer.Text()|)
      ensures -1 <= caretAtLine < Max(totalLines, 1) && (totalLines > 0 ==> caretAtLine >= 0)
      ensures InOrder() && totalLines > 0 ==> HoldsCaret(Offsets(), caretAtLine, caret)
    {
      caret := if caret < 0 then 0 else caret;
      caret := if caret > textBuffer.length then textBuffer.length else caret;
      var i := 0;
      while i < totalLines
        invariant i <= totalLines
        invariant InOrder() && i < totalLines ==> linesOffset[i] <= caret
        invariant InOrder() && i == totalLines && totalLines > 0 ==> HoldsCaret(Offsets(), totalLines - 1, caret)
      {
        if caret >= linesOffset[i] && caret < linesOffset[i + 1] {
          caretAtLine := i;
          break;
        }
        i := i + 1;
      }
      if i == totalLines {
        caretAtLine := totalLines - 1;
      }
    }

    /** ftk_text_view_update_caret */
    method UpdateCaret()
      requires Valid()
      modifies this`caret, this`caretAtLine, this`visibleStartLine, this`visibleEndLine
      ensures caret == Min(Max(old(caret), 0), |textBuffer.Text()|)
      ensures InOrder() && totalLines > 0 ==> 0 <= caretAtLine && HoldsCaret(Offsets(), caretAtLine, caret)
      ensures -1 <= caretAtLine < Max(totalLines, 1)
      ensures totalLines > 0 && visibleLines > 0 ==> visibleStartLine <= caretAtLine < visibleEndLine
      ensures visibleStartLine >= 0
      ensures old(visibleEndLine - visibleStartLine) <= visibleLines ==>
                visibleEndLine - visibleStartLine <= visibleLines
    {
      RecalcCaretAtLine();
      if caretAtLine < visibleStartLine {
        visibleStartLine := caretAtLine;
        visibleEndLine := Min(visibleStartLine + visibleLines, totalLines);
      } else if caretAtLine >= visibleEndLine {
        visibleEndLine := caretAtLine + 1;
        visibleStartLine := Max(0, visibleEndLine - visibleLines);
      }
      visibleStartLine := Max(0, visibleStartLine);
    }

    /** One round of the loop of ftk_text_view_relayout. */
    method NextLine(i: nat, startOffset: nat, ghost vs: seq<scalar>, ghost at: nat) returns (more: bool)
      requires i + 1 < linesOffset.Length && layout.At(vs, at) && layout.base == startOffset
      requires layout.len == |layout.memory| - 1 - startOffset && Fits(vs, layout.Cfg())
      modifies this`linesOffset, linesOffset, layout`pos, layout.posV2l
      ensures linesOffset == old(linesOffset) || fresh(linesOffset)
      ensures more <==> at < |vs|
      ensures !more ==> linesOffset == old(linesOffset) && linesOffset[..] == old(linesOffset[..]) && layout.At(vs, at)
      ensures more ==> i + 2 < linesOffset.Length && LineEnd(vs, at, layout.Cfg()) > at
      ensures more ==> layout.At(vs, LineEnd(vs, at, layout.Cfg()))
      ensures more ==> linesOffset[0] == if i == 0 then Short(Bound(vs, at)) else old(linesOffset[0])
      ensures more ==> linesOffset[..i + 1] == old(linesOffset[..i]) + [Short(Bound(vs, at))]
    {
      hide Bound, CText, Fits, LineEnd, Short;
      BoundEnds(vs);
      AtTheEnd(vs, at);
      if at < |vs| {
        FitsProgress(vs, at, layout.Cfg());
        BoundGrows(vs, at, LineEnd(vs, at, layout.Cfg()));
      }
      var line := layout.GetVisualLine(vs, at);
      more := line.Some?;
      if !more {
        return;
      }
      linesOffset[i] := Short(layout.posV2l[0] + startOffset);
      ghost var now := linesOffset[..];
      assert now[..i + 1] == old(linesOffset[..i]) + [Short(Bound(vs, at))];
      ExtendLinesOffset(i + 2);
      assert linesOffset[..i + 1] == linesOffset[..|now|][..i + 1];
      assert linesOffset[0] == linesOffset[..i + 1][0];
    }

    /** The loop of ftk_text_view_relayout: the lines from `startLine` on are found afresh. */
    method FindLines(startLine: nat, width: int, wrapWord: bool, ghost vs: seq<scalar>, ghost k: nat)
      requires Valid() && startLine < linesOffset.Length && width > 0
      requires textBuffer.Text() == Utf8Text(vs) && k <= |vs| && linesOffset[startLine] == Bound(vs, k)
      requires Fits(vs, Setting(width, layout.extent, wrapWord))
      modifies this`totalLines, this`linesOffset, linesOffset, layout, layout.posV2l
      ensures Valid() && (linesOffset == old(linesOffset) || fresh(linesOffset))
      ensures Offsets() == old(linesOffset[..startLine])
                           + ByteStarts(vs, LineStarts(vs, k, Setting(width, layout.extent, wrapWord)))
    {
      hide Bound, CText, Utf8Text, Fits, LineEnd, ByteStarts, LineStarts, Short;
      ghost var cfg := Setting(width, layout.extent, wrapWord);
      ghost var kept := linesOffset[..startLine];
      var startOffset: nat := linesOffset[startLine];
      BufferIsCText(vs);
      var _ := layout.Init(textBuffer.buffer[..textBuffer.length + 1], startOffset, -1, width, vs, k);
      layout.SetWrapMode(wrapWord);
      ExtendLinesOffset(startLine + 1);
      assert linesOffset[..startLine] == kept;
      CollectLines(startLine, startOffset, vs, k);
    }

    /** The loop itself, with the layout object at the beginning of the first line to be found. */
    method CollectLines(startLine: nat, startOffset: nat, ghost vs: seq<scalar>, ghost k: nat)
      requires startLine + 1 < linesOffset.Length && linesOffset[0] == 0
      requires layout.At(vs, k) && layout.base == startOffset && Fits(vs, layout.Cfg())
      requires startLine == 0 ==> Bound(vs, k) == 0
      requires layout.len == |layout.memory| - 1 - startOffset
      modifies this`totalLines, this`linesOffset, linesOffset, layout`pos, layout.posV2l
      ensures totalLines < linesOffset.Length && linesOffset[0] == 0
      ensures linesOffset == old(linesOffset) || fresh(linesOffset)
      ensures Offsets() == old(linesOffset[..startLine]) + ByteStarts(vs, LineStarts(vs, k, layout.Cfg()))
    {
      hide Bound, CText, Utf8Text, Fits, LineEnd, ByteStarts, LineStarts, Short;
      ghost var cfg := layout.Cfg();
      ShortIsSame(0);
      var i, more := startLine, true;
      ghost var at: nat := k;
      ghost var all := linesOffset[..startLine] + ByteStarts(vs, LineStarts(vs, k, cfg));
      while more
        invariant 0 <= i && i + 1 < linesOffset.Length && at <= |vs| && linesOffset[0] == 0
        invariant i == 0 ==> at == k
        invariant linesOffset == old(linesOffset) || fresh(linesOffset)
        invariant layout.At(vs, at) && layout.Cfg() == cfg && layout.base == startOffset
        invariant layout.len == |layout.memory| - 1 - startOffset
        invariant all == linesOffset[..i] + ByteStarts(vs, LineStarts(vs, at, cfg))
        invariant !more ==> at == |vs|
        decreases more, |vs| - at
      {
        ByteStartsStep(vs, at, cfg);
        ghost var found := linesOffset[..i];
        more := NextLine(i, startOffset, vs, at);
        if more {
          assert all == found + [Short(Bound(vs, at))] + ByteStarts(vs, LineStarts(vs, LineEnd(vs, at, cfg), cfg));
          at := LineEnd(vs, at, cfg);
          i := i + 1;
        }
      }
      ByteStartsStep(vs, at, cfg);
      totalLines := i;
    }

    /**
     ftk_text_view_relayout; `visible` is the number of lines that fit the widget.  The lines in front
     of `startLine`, which begin at the characters `kept`, are kept, and the others found from `k` on.
     If the text is short enough for the offsets, these are those of the whole text exactly if each
     line kept still ends where it did; then the caret's line is the one that holds it.
     */
    method Relayout(startLine: int, width: int, wrapWord: bool, visible: int,
                    ghost vs: seq<scalar>, ghost k: nat, ghost kept: seq<nat>)
      requires Valid() && startLine < linesOffset.Length && width > 0 && |kept| == Max(startLine, 0)
      requires textBuffer.Text() == Utf8Text(vs) && k <= |vs| && linesOffset[|kept|] == Bound(vs, k)
      requires Fits(vs, Setting(width, layout.extent, wrapWord))
      requires linesOffset[..|kept|] == ByteStarts(vs, kept)
      modifies this, linesOffset, layout, layout.posV2l
      ensures Valid() && (linesOffset == old(linesOffset) || fresh(linesOffset))
      ensures var cfg := Setting(width, layout.extent, wrapWord);
              && Offsets() == ByteStarts(vs, kept + LineStarts(vs, k, cfg))
              && ((kept != [] ==> kept[0] == 0) && (forall j :: 0 <= j < |kept| ==> kept[j] < |vs|)
                  && |Utf8Text(vs)| < 0x1_0000 ==>
                    (InSync(vs, cfg) <==> forall j :: 0 <= j < |kept| ==> StillEnds(vs, kept, j, k, cfg)))
      ensures caret == Min(Max(old(caret), 0), |textBuffer.Text()|)
      ensures CaretKnown()
      ensures totalLines > 0 && visible > 0 ==> visibleStartLine <= caretAtLine < visibleEndLine
      ensures visibleEndLine - visibleStartLine <= visible
    {
      hide Bound, CText, Utf8Text, Fits, LineEnd, ByteStarts, LineStarts, StillEnds;
      ghost var cfg := Setting(width, layout.extent, wrapWord);
      var start: nat := if startLine < 0 then 0 else startLine;
      FirstIsFirst(vs, k);
      FindLines(start, width, wrapWord, vs, k);
      ByteStartsConcat(vs, kept, LineStarts(vs, k, cfg));
      AfterLayout(visible);
      if (kept != [] ==> kept[0] == 0) && (forall j :: 0 <= j < |kept| ==> kept[j] < |vs|)
         && |Utf8Text(vs)| < 0x1_0000 {
        OffsetsRightIff(vs, kept, k, cfg);
      }
    }

    /** The end of ftk_text_view_relayout. */
    method AfterLayout(visible: int)
      requires Valid()
      modifies this`caret, this`caretAtLine, this`visibleStartLine, this`visibleEndLine, this`visibleLines
      ensures caret == Min(Max(old(caret), 0), |textBuffer.Text()|)
      ensures -1 <= caretAtLine < Max(totalLines, 1)
      ensures InOrder() && totalLines > 0 ==> 0 <= caretAtLine && HoldsCaret(Offsets(), caretAtLine, caret)
      ensures totalLines > 0 && visible > 0 ==> visibleStartLine <= caretAtLine < visibleEndLine
      ensures visibleLines == visible && visibleEndLine - visibleStartLine <= visible
    {
      visibleLines := visible;
      RecalcCaretAtLine();
      visibleEndLine := Min(totalLines, visibleStartLine + visibleLines);
      UpdateCaret();
    }

    // -------------------------------------------------------------- edits

    /** Laying out again after an edit at character `m`, from a line that does not begin behind it. */
    method RelayoutEdited(startLine: int, width: int, wrapWord: bool, visible: int,
                          ghost vs: seq<scalar>, ghost ws: seq<scalar>, ghost m: nat)
      requires Valid() && width > 0 && textBuffer.Text() == Utf8Text(ws)
      requires Edited(vs, ws, m, Setting(width, layout.extent, wrapWord))
      requires Offsets() == ByteStarts(vs, LineStarts(vs, 0, Setting(width, layout.extent, wrapWord)))
      requires startLine > 0 ==>
                 && startLine < totalLines
                 && LineStarts(vs, 0, Setting(width, layout.extent, wrapWord))[startLine] <= m
      modifies this, linesOffset, layout, layout.posV2l
      ensures Valid() && (linesOffset == old(linesOffset) || fresh(linesOffset))
      ensures var cfg := Setting(width, layout.extent, wrapWord);
              InSync(ws, cfg) <==> MayKeep(vs, ws, m, startLine, cfg)
      ensures caret == Min(Max(old(caret), 0), |textBuffer.Text()|) && CaretKnown()
    {
      ghost var cfg := Setting(width, layout.extent, wrapWord);
      ghost var ls := LineStarts(vs, 0, cfg);
      hide Bound, CText, Utf8Text, Fits, LineEnd, ByteStarts, LineStarts, StillEnds;
      if startLine > 0 {
        OffsetsInFront(vs, ws, m, startLine, cfg);
        MayKeepIff(vs, ws, m, startLine, cfg);
        KeptLinesIff(ws, ls[..startLine], ls[startLine], cfg);
        assert linesOffset[..startLine] == Offsets()[..startLine] && linesOffset[startLine] == Offsets()[startLine];
        Relayout(startLine, width, wrapWord, visible, ws, ls[startLine], ls[..startLine]);
      } else {
        FirstIsFirst(ws, 0);
        assert linesOffset[..0] == ByteStarts(ws, []);
        Relayout(startLine, width, wrapWord, visible, ws, 0, []);
      }
    }

    /** ftk_text_view_move_caret */
    method MoveCaret(offset: int, ghost vs: seq<scalar>, ghost k: nat)
      requires Valid() && textBuffer.Text() == Utf8Text(vs) && k <= |vs| && caret == Bound(vs, k)
      modifies this`caret, this`caretAtLine, this`visibleStartLine, this`visibleEndLine
      ensures Valid() && caret == Bound(vs, CaretAfter(vs, k, offset))
      ensures old(CaretKnown()) ==> CaretKnown()
    {
      hide Bound, CText, Utf8Text, Steps;
      BoundEnds(vs);
      BoundGrows(vs, 0, k);
      BoundGrows(vs, k, |vs|);
      if textBuffer.length == 0 {
        caret := 0;
        return;
      }
      var n := textBuffer.CharsBytes(caret, offset, vs, k);
      ghost var j := CaretAfter(vs, k, offset);
      BoundGrows(vs, 0, j);
      BoundGrows(vs, j, |vs|);
      caret := caret + n;
      UpdateCaret();
    }

    /** The delete key, in ftk_text_view_on_key_event. */
    method DeleteKey(width: int, wrapWord: bool, visible: int, ghost vs: seq<scalar>, ghost m: nat)
      requires Valid() && width > 0 && InSync(vs, Setting(width, layout.extent, wrapWord))
      requires m <= |vs| && caret == Bound(vs, m) && CaretKnown()
      modifies this, linesOffset, layout, layout.posV2l, textBuffer, textBuffer.buffer
      ensures Valid() && textBuffer.Text() == Utf8Text(Without(vs, m))
      ensures var cfg, ws, s := Setting(width, layout.extent, wrapWord), Without(vs, m), old(caretAtLine);
              InSync(ws, cfg) <==> MayKeep(vs, ws, m, s, cfg)
      ensures caret == old(caret) && CaretKnown()
    {
      hide Bound, CText, Utf8Text, Fits, LineEnd, ByteStarts, LineStarts, MayKeep, WithoutChars;
      ghost var cfg, ws := Setting(width, layout.extent, wrapWord), Without(vs, m);
      DeletionEdits(vs, m, m, cfg);
      CaretLine(vs, m, cfg);
      OneToTheRight(vs, m);
      var _ := textBuffer.DeleteChars(caret, 1, vs, m);
      RelayoutEdited(caretAtLine, width, wrapWord, visible, vs, ws, m);
      MoveCaret(0, ws, m);
    }

    /**
     The backspace key; nothing is laid out again if there is nothing to delete.  `line` is the one
     that held the deleted character; with lines broken anywhere, the result is always right.
     */
    method Backspace(width: int, wrapWord: bool, visible: int, ghost vs: seq<scalar>, ghost m: nat)
      returns (ghost line: nat)
      requires Valid() && width > 0 && InSync(vs, Setting(width, layout.extent, wrapWord))
      requires m <= |vs| && caret == Bound(vs, m) && CaretKnown()
      modifies this, linesOffset, layout, layout.posV2l, textBuffer, textBuffer.buffer
      ensures Valid() && CaretKnown() && caret == Bound(vs, if m > 0 then m - 1 else 0)
      ensures var cfg, ws := Setting(width, layout.extent, wrapWord), if m > 0 then Without(vs, m - 1) else vs;
              && textBuffer.Text() == Utf8Text(ws)
              && (m > 0 ==> HoldsCaret(old(Offsets()), line, Bound(vs, m - 1)))
              && (InSync(ws, cfg) <==> m == 0 || MayKeep(vs, ws, m - 1, line - 1, cfg))
              && (!wrapWord ==> InSync(ws, cfg))
    {
      hide Bound, CText, Utf8Text, Fits, LineEnd, ByteStarts, LineStarts, WithoutChars, HoldsCaret, MayKeep;
      var from := caret;
      MoveLeft(vs, m, Setting(width, layout.extent, wrapWord));
      line := if m > 0 then caretAtLine else 0;
      DeleteLeft(from, width, wrapWord, visible, vs, m);
    }

    /** Its first half. */
    method MoveLeft(ghost vs: seq<scalar>, ghost m: nat, ghost cfg: Setting)
      requires Valid() && InSync(vs, cfg) && m <= |vs| && caret == Bound(vs, m) && CaretKnown()
      modifies this`caret, this`caretAtLine, this`visibleStartLine, this`visibleEndLine
      ensures Valid() && CaretKnown() && InSync(vs, cfg)
      ensures caret == Bound(vs, if m > 0 then m - 1 else 0) && (caret < old(caret) <==> m > 0)
      ensures m > 0 ==> caretAtLine >= 0 && HoldsCaret(Offsets(), caretAtLine, caret)
    {
      hide Bound, CText, Utf8Text, Fits, LineEnd, ByteStarts, LineStarts, WithoutChars, HoldsCaret, MayKeep;
      OneToTheLeft(vs, m);
      LayoutAscends(vs, cfg);
      MoveCaret(-1, vs, m);
      if m > 0 {
        SomeLine(vs, cfg);
      }
    }

    /** And its second half. */
    method DeleteLeft(from: int, width: int, wrapWord: bool, visible: int, ghost vs: seq<scalar>, ghost m: nat)
      requires Valid() && width > 0 && InSync(vs, Setting(width, layout.extent, wrapWord)) && CaretKnown()
      requires m <= |vs| && from == Bound(vs, m) && caret == Bound(vs, if m > 0 then m - 1 else 0)
      requires m > 0 ==> caretAtLine >= 0 && HoldsCaret(Offsets(), caretAtLine, caret)
      modifies this, linesOffset, layout, layout.posV2l, textBuffer, textBuffer.buffer
      ensures Valid() && CaretKnown() && caret == old(caret)
      ensures var cfg, ws := Setting(width, layout.extent, wrapWord), if m > 0 then Without(vs, m - 1) else vs;
              && textBuffer.Text() == Utf8Text(ws)
              && (InSync(ws, cfg) <==> m == 0 || MayKeep(vs, ws, m - 1, old(caretAtLine) - 1, cfg))
              && (!wrapWord ==> InSync(ws, cfg))
    {
      hide Bound, CText, Utf8Text, Fits, LineEnd, ByteStarts, LineStarts, WithoutChars, HoldsCaret, MayKeep,
        Without, Steps, Ascending, CaretAfter, Placeable, Unit;
      ghost var cfg := Setting(width, layout.extent, wrapWord);
      OneToTheLeft(vs, m);
      if m > 0 {
        DeletionEdits(vs, m - 1, m - 1, cfg);
        SecondLineAbove(vs, Without(vs, m - 1), m - 1, caretAtLine, cfg);
      }
      var ok := textBuffer.DeleteChars(from, -1, vs, m);
      if ok {
        RelayoutEdited(caretAtLine - 1, width, wrapWord, visible, vs, Without(vs, m - 1), m - 1);
      }
    }

    /** ftk_text_view_input_str: the caret moves behind the new text. */
    method InputStr(str: seq<byte>, width: int, wrapWord: bool, visible: int,
                    ghost vs: seq<scalar>, ghost us: seq<scalar>, ghost m: nat)
      requires Valid() && width > 0 && InSync(vs, Setting(width, layout.extent, wrapWord))
      requires m <= |vs| && caret == Bound(vs, m) && CaretKnown()
      requires str == CText(us) && 0 !in Utf8Text(us) && Fits(us, Setting(width, layout.extent, wrapWord))
      requires |textBuffer.Text()| + |Utf8Text(us)| < 0x1_0000
      modifies this, linesOffset, layout, layout.posV2l, textBuffer, textBuffer.buffer
      ensures Valid() && textBuffer.Text() == Utf8Text(With(vs, m, us))
      ensures var cfg, ws := Setting(width, layout.extent, wrapWord), With(vs, m, us);
              InSync(ws, cfg) <==> MayKeep(vs, ws, m, Min(old(visibleStartLine), old(caretAtLine)), cfg)
      ensures caret == Bound(With(vs, m, us), m + |us|) && CaretKnown()
    {
      hide Bound, CText, Utf8Text, Fits, LineEnd, ByteStarts, LineStarts, WithoutChars, HoldsCaret, MayKeep,
        Inserted, CString;
      ghost var cfg, ws := Setting(width, layout.extent, wrapWord), With(vs, m, us);
      InsertionEdits(vs, m, us, cfg);
      TextWith(vs, m, us);
      CaretBehind(vs, m, us, cfg);
      CTextIsCString(us);
      CaretLine(vs, m, cfg);
      var count := CountChars(str, |str| - 1, us);
      var _ := textBuffer.Insert(caret, str, -1);
      var start := Min(visibleStartLine, caretAtLine);
      if start > 0 {
        StartsInFront(vs, m, caretAtLine, cfg);
      }
      RelayoutEdited(start, width, wrapWord, visible, vs, ws, m);
      MoveCaret(count, ws, m);
    }

    /** ftk_text_view_set_caret */
    method SetCaret(pos: int)
      requires Valid()
      modifies this`caret, this`caretAtLine, this`visibleStartLine, this`visibleEndLine
      ensures Valid() && caret == Min(Max(pos, 0), |textBuffer.Text()|)
      ensures old(CaretKnown()) && (|textBuffer.Text()| > 0 || totalLines == 0) ==> CaretKnown()
    {
      caret := pos;
      if textBuffer.length == 0 {
        caret := 0;
      } else {
        UpdateCaret();
      }
    }

    /** ftk_text_view_pos_to_line */
    method PosToLine(pos: nat) returns (i: nat)
      requires Valid()
      ensures i == LineFrom(Offsets(), pos)
    {
      i := 0;
      while i < totalLines && linesOffset[i] < pos
        invariant i <= totalLines && forall j :: 0 <= j < i ==> linesOffset[j] < pos
      {
        i := i + 1;
      }
      LineFromIs(Offsets(), pos, i);
    }

    /**
     ftk_text_view_insert_text, for an offset of the line it starts from that falls on a character
     of the new text `ws`; the caret goes behind the whole C string, whatever `len` says.  If the
     index was right for `vs`, the last two lines kept decide whether it is right afterwards.
     */
    method InsertText(pos: nat, text: seq<byte>, len: int, width: int, wrapWord: bool, visible: int,
                      ghost vs: seq<scalar>, ghost m: nat,
                      ghost ws: seq<scalar>, ghost kept: seq<nat>, ghost k: nat)
      requires Valid() && width > 0 && len <= |text| && 0 in text
      requires Utf8Text(ws) == Inserted(textBuffer.Text(), Min(pos, |textBuffer.Text()|),
                                        if len < 0 then CString(text) else text[..len])
      requires Fits(ws, Setting(width, layout.extent, wrapWord)) && k <= |ws|
      requires |kept| == LineFrom(Offsets(), Min(pos, |textBuffer.Text()|))
      requires linesOffset[|kept|] == Bound(ws, k) && linesOffset[..|kept|] == ByteStarts(ws, kept)
      modifies this, linesOffset, layout, layout.posV2l, textBuffer, textBuffer.buffer
      ensures Valid() && textBuffer.Text() == Utf8Text(ws)
      ensures var cfg := Setting(width, layout.extent, wrapWord);
              && Offsets() == ByteStarts(ws, kept + LineStarts(ws, k, cfg))
              && ((kept != [] ==> kept[0] == 0) && (forall j :: 0 <= j < |kept| ==> kept[j] < |ws|)
                  && |Utf8Text(ws)| < 0x1_0000 ==>
                    (InSync(ws, cfg) <==> forall j :: 0 <= j < |kept| ==> StillEnds(ws, kept, j, k, cfg)))
      ensures var cfg := Setting(width, layout.extent, wrapWord);
              old(InSync(vs, cfg)) && KeptFrom(vs, ws, m, Min(pos, |old(textBuffer.Text())|), kept, cfg) ==>
                (InSync(ws, cfg) <==> LastLinesEnd(ws, kept, |kept| - 1, k, cfg))
      ensures caret == Min(Min(pos, |old(textBuffer.Text())|) + |CString(text)|, |Utf8Text(ws)|)
      ensures ws != [] || totalLines == 0 ==> CaretKnown()
    {
      hide Bound, CText, Utf8Text, Fits, LineEnd, ByteStarts, LineStarts, StillEnds, LastLinesEnd, KeptFrom, Inserted,
        CString, LineFrom;
      ghost var cfg := Setting(width, layout.extent, wrapWord);
      var at := Min(pos, textBuffer.length);
      if InSync(vs, cfg) && KeptFrom(vs, ws, m, at, kept, cfg) {
        InsertTextRightIff(vs, ws, m, at, kept, k, cfg);
        KeptNow(vs, ws, m, at, kept, cfg);
      }
      InsertAt(at, text, len, width, wrapWord, visible, ws, kept, k);
      SetCaret(at + |CString(text)|);
      TextLength(ws);
    }

    /** Its first half. */
    method InsertAt(at: nat, text: seq<byte>, len: int, width: int, wrapWord: bool, visible: int,
                    ghost ws: seq<scalar>, ghost kept: seq<nat>, ghost k: nat)
      requires Valid() && width > 0 && len <= |text| && 0 in text && at <= textBuffer.length
      requires Utf8Text(ws) == Inserted(textBuffer.Text(), at, if len < 0 then CString(text) else text[..len])
      requires Fits(ws, Setting(width, layout.extent, wrapWord)) && k <= |ws|
      requires |kept| == LineFrom(Offsets(), at)
      requires linesOffset[|kept|] == Bound(ws, k) && linesOffset[..|kept|] == ByteStarts(ws, kept)
      modifies this, linesOffset, layout, layout.posV2l, textBuffer, textBuffer.buffer
      ensures Valid() && textBuffer.Text() == Utf8Text(ws) && CaretKnown()
      ensures var cfg := Setting(width, layout.extent, wrapWord);
              && Offsets() == ByteStarts(ws, kept + LineStarts(ws, k, cfg))
              && ((kept != [] ==> kept[0] == 0) && (forall j :: 0 <= j < |kept| ==> kept[j] < |ws|)
                  && |Utf8Text(ws)| < 0x1_0000 ==>
                    (InSync(ws, cfg) <==> forall j :: 0 <= j < |kept| ==> StillEnds(ws, kept, j, k, cfg)))
    {
      hide Bound, CText, Utf8Text, Fits, LineEnd, ByteStarts, LineStarts, StillEnds, Inserted, CString, LineFrom;
      var _ := textBuffer.Insert(at, text, len);
      var s := PosToLine(at);
      Relayout(s, width, wrapWord, visible, ws, k, kept);
    }

    /** ftk_text_view_set_text: whatever was cached, the lines of the new text are found. */
    method SetText(text: seq<byte>, len: int, width: int, wrapWord: bool, visible: int, ghost ws: seq<scalar>)
      requires Valid() && width > 0 && len <= |text| && 0 in text
      requires Utf8Text(ws) == (if len < 0 then CString(text) else text[..len])
      requires Fits(ws, Setting(width, layout.extent, wrapWord))
      modifies this, linesOffset, layout, layout.posV2l, textBuffer, textBuffer.buffer
      ensures Valid() && CaretKnown() && textBuffer.Text() == Utf8Text(ws)
      ensures Offsets() == ByteStarts(ws, LineStarts(ws, 0, Setting(width, layout.extent, wrapWord)))
      ensures |Utf8Text(ws)| < 0x1_0000 ==> InSync(ws, Setting(width, layout.extent, wrapWord))
      ensures caret == Min(|CString(text)|, |Utf8Text(ws)|)
    {
      hide Bound, CText, Utf8Text, Fits, LineEnd, ByteStarts, LineStarts, StillEnds, CString;
      textBuffer.Delete(0, textBuffer.length);
      FirstIsFirst(ws, 0);
      assert LineFrom(Offsets(), 0) == 0;
      InsertText(0, text, len, width, wrapWord, visible, [], 0, ws, [], 0);
      assert [] + LineStarts(ws, 0, Setting(width, layout.extent, wrapWord))
          == LineStarts(ws, 0, Setting(width, layout.extent, wrapWord));
      TextLength(ws);
      LinesOfEmpty(ws, Setting(width, layout.extent, wrapWord));
    }

    /** The line of the caret begins at the caret's character or in front of it. */
    lemma CaretLine(vs: seq<scalar>, m: nat, cfg: Setting)
      requires Valid() && InSync(vs, cfg) && m <= |vs| && caret == Bound(vs, m) && CaretKnown()
      ensures totalLines == |LineStarts(vs, 0, cfg)|
      ensures caretAtLine > 0 ==> LineStarts(vs, 0, cfg)[caretAtLine] <= m
    {
      hide Bound, CText, Utf8Text, Fits, LineEnd, ByteStarts, LineStarts, HoldsCaret;
      LayoutAscends(vs, cfg);
      if caretAtLine > 0 {
        LineOfChar(vs, m, caretAtLine, cfg);
      }
    }

    lemma BufferIsCText(vs: seq<scalar>)
      requires textBuffer.Valid() && textBuffer.Text() == Utf8Text(vs)
      ensures textBuffer.buffer[..textBuffer.length + 1] == CText(vs)
    {
      hide Utf8Text;
    }
  }
}
