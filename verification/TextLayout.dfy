/**
 The layout object of src/ftk_text_layout_normal.c and the two scans of memory it uses, proved
 against the layout in terms of characters.  The widths of characters and strings are parameters.
 */
module TextLayouts {
  import opened Bytes
  import opened TextCodec
  import opened Utf8Chars
  import opened LineLayout

  const FTK_LINE_CHAR_NR := 255

  /** ftk_canvas_calc_str_visible_range, forwards from `vstart` */
  method CalcVisibleRange(s: seq<byte>, vstart: nat, width: int, extent: uint16 -> nat,
                          ghost vs: seq<scalar>, ghost k: nat)
    returns (end: nat, lineExtent: nat)
    requires s == CText(vs) && k <= |vs| && vstart == Bound(vs, k)
    ensures var f := Visible(vs, k, width, extent);
            end == Bound(vs, f.end) && lineExtent == width - f.room
  {
    hide Bound, CText, UnitAt;
    var iter, prev, left := vstart, vstart, width;
    lineExtent := 0;
    ghost var j := k;
    BoundEnds(vs);
    while left > 0
      invariant k <= j <= |vs| && iter == Bound(vs, j) && (left <= 0 ==> prev == iter)
      invariant Visible(vs, k, width, extent) == Visible(vs, j, left, extent)
      invariant lineExtent == width - left
      decreases |vs| - j
    {
      prev := iter;
      CharAtBound(vs, j);
      var unicode;
      unicode, iter := GetChar(s, iter);
      if unicode == CR {
        j := j + 1;
        continue;
      }
      if unicode == 0 || unicode == 0xFFFF {
        break;
      } else if unicode == LF {
        prev := iter;
        break;
      }
      var e := extent(unicode);
      if e > left {
        break;
      }
      left := left - e;
      lineExtent := lineExtent + e;
      prev := iter;
      j := j + 1;
    }
    end := prev;
  }

  /** ftk_line_break */
  method FindLineBreak(s: seq<byte>, start: nat, end: nat, ghost vs: seq<scalar>, ghost k: nat, ghost e: nat)
    returns (b: nat)
    requires s == CText(vs) && k < e <= |vs| && start == Bound(vs, k) && end == Bound(vs, e)
    ensures b == Bound(vs, LineBreak(vs, k, e))
  {
    hide Bound, CText, UnitAt, BreakFrom;
    BoundEnds(vs);
    CharAtBound(vs, e);
    InsideText(vs, e);
    var c2, next := GetChar(s, end);
    PrevAtBound(vs, e);
    CharAtBound(vs, e - 1);
    var c1, back := GetPrevChar(s, end);
    b := end;
    if c1 != LF && c1 != CR && c2 != 0 && c2 != LF && c2 != CR {
      b := BackToBreak(s, start, end, c1, c2, vs, k, e);
    }
  }

  /** Its loop. */
  method BackToBreak(s: seq<byte>, start: nat, from: nat, first: uint16, second: uint16,
                     ghost vs: seq<scalar>, ghost k: nat, ghost e: nat)
    returns (b: nat)
    requires s == CText(vs) && k < e <= |vs| && start == Bound(vs, k) && from == Bound(vs, e)
    ensures b == Bound(vs, BreakFrom(vs, k, e, first, second))
  {
    hide Bound, CText, UnitAt, CanBreak;
    BoundEnds(vs);
    BoundGrows(vs, k, e);
    b := from;
    var c1, c2 := first, second;
    ghost var p := e;
    while !CanBreak(c1, c2) && b > start
      invariant k <= p <= e && b == Bound(vs, p) && (b <= start ==> p == k)
      invariant BreakFrom(vs, k, e, first, second) == BreakFrom(vs, k, p, c1, c2)
      decreases p
    {
      BoundGrows(vs, k, p);
      assert p > k;
      InsideText(vs, p);
      BoundGrows(vs, k, p - 1);
      PrevAtBound(vs, p);
      CharAtBound(vs, p - 1);
      c2 := c1;
      c1, b := GetPrevChar(s, b);
      p := p - 1;
    }
    BoundGrows(vs, k, p);
  }

  /** Characters before `j` take up room in front of it. */
  lemma InsideText(vs: seq<scalar>, j: nat)
    requires 0 < j <= |vs|
    ensures 0 <= Bound(vs, j - 1) < Bound(vs, j) < |CText(vs)|
  {
    BoundGrows(vs, j - 1, j);
    hide Bound, CText;
  }

  // ---------------------------------------------------------------- the object

  /** FtkTextLine: an address, a length and an extent; `width` is the number of bytes consumed. */
  datatype TextLine = TextLine(text: nat, len: int, extent: int)

  function Breaks(b: seq<byte>): nat {
    multiset(b)[13] + multiset(b)[10]
  }

  class TextLayout {
    var pos: nat
    var len: nat
    var width: int
    var wrapWord: bool
    /** The string that is laid out begins at address `base` of `memory`. */
    var memory: seq<byte>
    var base: nat
    const posV2l: array<int>
    const extent: uint16 -> nat
    const strExtent: seq<byte> -> int

    constructor (extent: uint16 -> nat, strExtent: seq<byte> -> int)
      ensures fresh(posV2l) && posV2l.Length == FTK_LINE_CHAR_NR + 1
      ensures this.extent == extent && this.strExtent == strExtent
    {
      this.extent, this.strExtent := extent, strExtent;
      pos, len, width, wrapWord, memory, base := 0, 0, 1, false, [0], 0;
      posV2l := new int[FTK_LINE_CHAR_NR + 1];
    }

    function Cfg(): Setting
      reads this
    {
      Setting(width, extent, wrapWord)
    }

    /** The layout is at character `k` of the C string that holds `vs`. */
    ghost predicate At(vs: seq<scalar>, k: nat)
      reads this
    {
      && posV2l.Length == FTK_LINE_CHAR_NR + 1
      && memory == CText(vs) && k <= |vs| && base + pos == Bound(vs, k)
      && base + len <= |memory| - 1
    }

    /** ftk_text_layout_init; a negative length means the whole string, and a width of 0 is refused. */
    method Init(memory: seq<byte>, base: nat, len: int, width: int, ghost vs: seq<scalar>, ghost k: nat)
      returns (ok: bool)
      requires posV2l.Length == FTK_LINE_CHAR_NR + 1
      requires memory == CText(vs) && k <= |vs| && base == Bound(vs, k) && base + len <= |memory| - 1
      modifies this
      ensures ok <==> width != 0
      ensures !ok ==> unchanged(this)
      ensures ok ==> At(vs, k) && pos == 0 && this.base == base && this.memory == memory
      ensures ok ==> this.width == width && !wrapWord && this.len == if len < 0 then |memory| - 1 - base else len
    {
      BoundEnds(vs);
      ok := width != 0;
      if ok {
        pos, this.memory, this.base, this.width, wrapWord := 0, memory, base, width, false;
        this.len := if len < 0 then |memory| - 1 - base else len;
      }
    }

    /** ftk_text_layout_set_wrap_mode */
    method SetWrapMode(wrapWord: bool)
      modifies this`wrapWord
      ensures this.wrapWord == wrapWord
    {
      this.wrapWord := wrapWord;
    }

    /** The extent of the line from `k` to `e`: the string is measured again if a word was moved down. */
    ghost function LineExtent(vs: seq<scalar>, k: nat, e: nat): int
      requires k <= e <= |vs|
      reads this`width, this`memory
    {
      if e == Visible(vs, k, width, extent).end then TotalAdvance(vs, k, e, extent)
      else if Bound(vs, k) <= Bound(vs, e) <= |memory| then strExtent(memory[Bound(vs, k)..Bound(vs, e)])
      else 0
    }

    /** Where the next line ends, and how wide it is.  There is no word to look for on an empty line. */
    method FindEnd(ghost vs: seq<scalar>, ghost k: nat) returns (end: nat, lineExtent: int)
      requires At(vs, k) && k < |vs|
      ensures var e := LineEnd(vs, k, Cfg());
              && end == Bound(vs, e) && base + pos <= end < |memory|
              && lineExtent == LineExtent(vs, k, e)
    {
      hide Bound, CText, Visible, LineBreak, TotalAdvance;
      end, lineExtent := CalcVisibleRange(memory, base + pos, width, extent, vs, k);
      ghost var e := Visible(vs, k, width, extent).end;
      RoomLeft(vs, k, width, extent);
      BoundGrows(vs, k, LineEnd(vs, k, Cfg()));
      BoundGrows(vs, k, e);
      if wrapWord && end > base + pos {
        var start := base + pos;
        var newEnd := FindLineBreak(memory, start, end, vs, k, e);
        if LineBreak(vs, k, e) < e {
          BoundGrows(vs, LineBreak(vs, k, e), e);
        }
        if end != newEnd && newEnd > start + 2 {
          end := newEnd;
          lineExtent := strExtent(memory[start..end]);
        }
      }
    }

    /** The loop that fills pos_v2l. */
    method FillPositions(n: nat)
      requires posV2l.Length == FTK_LINE_CHAR_NR + 1
      modifies posV2l
      ensures forall i :: 0 <= i < n && i < FTK_LINE_CHAR_NR ==> posV2l[i] == i + pos
    {
      var i := 0;
      while i < n && i < FTK_LINE_CHAR_NR
        invariant i <= n && i <= FTK_LINE_CHAR_NR
        invariant forall j :: 0 <= j < i ==> posV2l[j] == j + pos
      {
        posV2l[i] := i + pos;
        i := i + 1;
      }
    }

    /** The loop that takes one off the length for every line break on the line, wherever it stands. */
    static method Trim(line: seq<byte>) returns (len: int)
      ensures len == |line| - Breaks(line)
    {
      len := |line|;
      var i: int := |line| - 1;
      assert line[|line|..] == [];
      while i >= 0
        invariant -1 <= i < |line| && len == |line| - Breaks(line[i + 1..])
      {
        assert line[i..] == [line[i]] + line[i + 1..];
        if line[i] == 13 || line[i] == 10 {
          len := len - 1;
        }
        i := i - 1;
      }
    }

    /** ftk_text_layout_get_visual_line */
    method GetVisualLine(ghost vs: seq<scalar>, ghost k: nat) returns (r: Option<TextLine>)
      requires At(vs, k)
      modifies this`pos, posV2l
      ensures r.None? <==> old(pos) >= len
      ensures r.None? ==> pos == old(pos)
      ensures r.Some? ==> k < |vs|
      ensures r.Some? ==>
                var e, line := LineEnd(vs, k, Cfg()), r.value;
                && At(vs, e) && Bound(vs, k) <= Bound(vs, e) <= |memory|
                && line.text == Bound(vs, k)
                && line.len == Bound(vs, e) - Bound(vs, k) - Breaks(memory[Bound(vs, k)..Bound(vs, e)])
                && line.extent == LineExtent(vs, k, e)
                && forall i :: 0 <= i < Bound(vs, e) - Bound(vs, k) && i < FTK_LINE_CHAR_NR ==>
                     posV2l[i] == old(pos) + i
    {
      hide Bound, CText, LineEnd, TotalAdvance, Breaks, LineExtent;
      if pos >= len {
        return None;
      }
      BoundEnds(vs);
      var start := base + pos;
      var end, lineExtent := FindEnd(vs, k);
      var n := end - start;
      FillPositions(n);
      pos := pos + n;
      var trimmed := Trim(memory[start..end]);
      r := Some(TextLine(start, trimmed, lineExtent));
    }
  }
}
