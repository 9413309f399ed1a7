/**
 Arabic letter joining (src/ftk_text_layout_bidi.c): every letter is replaced by its isolated,
 initial, medial or final form, depending on its neighbours.  The source does it twice, once over
 16-bit units and once over UTF-8 bytes.
 */
module ArabicJoin {
  import opened Bytes
  import opened TextCodec

  // ---------------------------------------------------------------- the tables

  /** A table entry; a form of 0 is missing.  `NoShape` is the null pointer of the source. */
  datatype Entry =
    | NoShape
    | Shape(isolated: uint16, initial: uint16, medial: uint16, final: uint16)

  /** A letter that joins on both sides; its four forms are consecutive. */
  function Dual(s: uint16): Entry
    requires s + 3 < 0x1_0000
  {
    Shape(s, s + 2, s + 3, s + 1)
  }

  /** A letter that joins only with the one before it. */
  function Right(s: uint16): Entry
    requires s + 1 < 0x1_0000
  {
    Shape(s, 0, 0, s + 1)
  }

  const TABLE_START: uint16 := 0x0621
  const TABLE_TOP: uint16 := 0x06D3
  const TABLE2_START: uint16 := 0xFEF5
  const TABLE2_TOP: uint16 := 0xFEFB

  /** U+0621 to U+064A. */
  function BasicLetters(u: uint16): Entry {
    match u
    case 0x0621 => Shape(0xFE80, 0x0000, 0x0000, 0x0000)
    case 0x0622 => Right(0xFE81)
    case 0x0623 => Right(0xFE83)
    case 0x0624 => Right(0xFE85)
    case 0x0625 => Right(0xFE87)
    case 0x0626 => Dual(0xFE89)
    case 0x0627 => Right(0xFE8D)
    case 0x0628 => Dual(0xFE8F)
    case 0x0629 => Right(0xFE93)
    case 0x062A => Dual(0xFE95)
    case 0x062B => Dual(0xFE99)
    case 0x062C => Dual(0xFE9D)
    case 0x062D => Dual(0xFEA1)
    case 0x062E => Dual(0xFEA5)
    case 0x062F => Right(0xFEA9)
    case 0x0630 => Right(0xFEAB)
    case 0x0631 => Right(0xFEAD)
    case 0x0632 => Right(0xFEAF)
    case 0x0633 => Dual(0xFEB1)
    case 0x0634 => Dual(0xFEB5)
    case 0x0635 => Dual(0xFEB9)
    case 0x0636 => Dual(0xFEBD)
    case 0x0637 => Dual(0xFEC1)
    case 0x0638 => Dual(0xFEC5)
    case 0x0639 => Dual(0xFEC9)
    case 0x063A => Dual(0xFECD)
    case 0x0640 => Shape(0x0640, 0x0640, 0x0640, 0x0640)
    case 0x0641 => Dual(0xFED1)
    case 0x0642 => Dual(0xFED5)
    case 0x0643 => Dual(0xFED9)
    case 0x0644 => Dual(0xFEDD)
    case 0x0645 => Dual(0xFEE1)
    case 0x0646 => Dual(0xFEE5)
    case 0x0647 => Dual(0xFEE9)
    case 0x0648 => Right(0xFEED)
    case 0x0649 => Shape(0xFEEF, 0xFBE8, 0xFBE9, 0xFEF0)
    case 0x064A => Dual(0xFEF1)
    case _ => Shape(0x0000, 0x0000, 0x0000, 0x0000)
  }

  /** U+064B to U+06D3; the marks and digits among them are fillers. */
  function ExtendedLetters(u: uint16): Entry {
    match u
    case 0x0671 => Right(0xFB50)
    case 0x0679 => Dual(0xFB66)
    case 0x067A => Dual(0xFB5E)
    case 0x067B => Dual(0xFB52)
    case 0x067E => Dual(0xFB56)
    case 0x067F => Dual(0xFB62)
    case 0x0680 => Dual(0xFB5A)
    case 0x0683 => Dual(0xFB76)
    case 0x0684 => Dual(0xFB72)
    case 0x0686 => Dual(0xFB7A)
    case 0x0687 => Dual(0xFB7E)
    case 0x0688 => Right(0xFB88)
    case 0x068C => Right(0xFB84)
    case 0x068D => Right(0xFB82)
    case 0x068E => Right(0xFB86)
    case 0x0691 => Right(0xFB8C)
    case 0x0698 => Right(0xFB8A)
    case 0x06A4 => Dual(0xFB6A)
    case 0x06A6 => Dual(0xFB6E)
    case 0x06A9 => Dual(0xFB8E)
    case 0x06AD => Dual(0xFBD3)
    case 0x06AF => Dual(0xFB92)
    case 0x06B1 => Dual(0xFB9A)
    case 0x06B3 => Dual(0xFB96)
    case 0x06BB => Dual(0xFBA0)
    case 0x06BE => Dual(0xFBAA)
    case 0x06C0 => Right(0xFBA4)
    case 0x06C1 => Dual(0xFBA6)
    case 0x06C5 => Right(0xFBE0)
    case 0x06C6 => Right(0xFBD9)
    case 0x06C7 => Right(0xFBD7)
    case 0x06C8 => Right(0xFBDB)
    case 0x06C9 => Right(0xFBE2)
    case 0x06CB => Right(0xFBDE)
    case 0x06CC => Dual(0xFBFC)
    case 0x06D0 => Dual(0xFBE4)
    case 0x06D2 => Right(0xFBAE)
    case 0x06D3 => Right(0xFBB0)
    case _ => Shape(0x0000, 0x0000, 0x0000, 0x0000)
  }

  function ShapedTable(u: uint16): Entry {
    if u <= 0x064A then BasicLetters(u) else ExtendedLetters(u)
  }

  /** The ligatures of LAM and ALEF. */
  function ShapedTable2(u: uint16): Entry {
    match u
    case 0xFEF5 => Right(0xFEF5)
    case 0xFEF7 => Right(0xFEF7)
    case 0xFEF9 => Right(0xFEF9)
    case 0xFEFB => Right(0xFEFB)
    case _ => Shape(0x0000, 0x0000, 0x0000, 0x0000)
  }

  /** assignShape */
  function AssignShape(u: uint16): Entry {
    if TABLE_START <= u <= TABLE_TOP then ShapedTable(u)
    else if TABLE2_START <= u <= TABLE2_TOP then ShapedTable2(u)
    else NoShape
  }

  predicate InTables(u: uint16) {
    TABLE_START <= u <= TABLE_TOP || TABLE2_START <= u <= TABLE2_TOP
  }

  // ---------------------------------------------------------------- choosing a form

  /** The letter in front reaches forward: it has both an initial and a medial form. */
  predicate Joins(prev: Entry) {
    prev.Shape? && prev.initial != 0 && prev.medial != 0
  }

  function OrElse(form: uint16, fallback: uint16): uint16 {
    if form != 0 then form else fallback
  }

  /** The form of `curr` between `prev` and `next`. */
  function Form(prev: Entry, curr: Entry, next: Entry): uint16
    requires curr.Shape?
  {
    if next.Shape? then
      if Joins(prev) then OrElse(curr.medial, curr.final) else OrElse(curr.initial, curr.isolated)
    else
      if Joins(prev) then OrElse(curr.final, curr.isolated) else curr.isolated
  }

  /** The neighbours of a position; positions outside the text have no shape. */
  function ShapeAt(t: seq<uint16>, i: int): Entry {
    if 0 <= i < |t| then AssignShape(t[i]) else NoShape
  }

  function JoinedAt(t: seq<uint16>, i: nat): uint16
    requires i < |t|
  {
    if AssignShape(t[i]).Shape? then Form(ShapeAt(t, i - 1), AssignShape(t[i]), ShapeAt(t, i + 1))
    else t[i]
  }

  /** The shaped text: one unit for each unit. */
  function Join(t: seq<uint16>): (r: seq<uint16>)
    ensures |r| == |t|
    ensures forall i :: 0 <= i < |t| ==> r[i] == JoinedAt(t, i)
  {
    seq(|t|, i requires 0 <= i < |t| => JoinedAt(t, i))
  }

  // ---------------------------------------------------------------- what the forms mean

  const HAMZA: uint16 := 0x0621

  /** The unit in front of `i` is a letter that reaches forward. */
  predicate ReachedFrom(t: seq<uint16>, i: nat)
    requires i < |t|
  {
    i > 0 && AssignShape(t[i - 1]).Shape? && AssignShape(t[i - 1]).initial != 0 && AssignShape(t[i - 1]).medial != 0
  }

  /** The unit behind `i` is in the tables. */
  predicate FollowedByShape(t: seq<uint16>, i: nat)
    requires i < |t|
  {
    i + 1 < |t| && AssignShape(t[i + 1]).Shape?
  }

  /** A letter with all four forms. */
  predicate TwoSided(e: Entry) {
    e.Shape? && e.isolated != 0 && e.initial != 0 && e.medial != 0 && e.final != 0
  }

  /** A letter that has a final form, but none that reaches forward. */
  predicate RightJoining(e: Entry) {
    e.Shape? && e.isolated != 0 && e.initial == 0 && e.medial == 0 && e.final != 0
  }

  /** Medial between two neighbours, initial in front of one, final behind one, and isolated otherwise. */
  lemma TwoSidedForm(t: seq<uint16>, i: nat)
    requires i < |t| && TwoSided(AssignShape(t[i]))
    ensures var e := AssignShape(t[i]);
            Join(t)[i] == if ReachedFrom(t, i) then (if FollowedByShape(t, i) then e.medial else e.final)
                          else (if FollowedByShape(t, i) then e.initial else e.isolated)
  {
    hide AssignShape;
  }

  /** Final or isolated, whatever follows. */
  lemma RightJoiningForm(t: seq<uint16>, i: nat)
    requires i < |t| && RightJoining(AssignShape(t[i]))
    ensures var e := AssignShape(t[i]);
            Join(t)[i] == if ReachedFrom(t, i) then e.final else e.isolated
  {
    hide AssignShape;
  }

  /** Units outside the tables stay; the fillers inside them, marks and digits among them, become zeros. */
  lemma OtherForms(t: seq<uint16>, i: nat)
    requires i < |t|
    ensures AssignShape(t[i]) == NoShape ==> Join(t)[i] == t[i]
    ensures AssignShape(t[i]) == Shape(0, 0, 0, 0) ==> Join(t)[i] == 0
  {
    hide AssignShape;
  }

  /** A letter of either kind whose forms can be told apart. */
  predicate PlainLetter(u: uint16) {
    var e := AssignShape(u);
    || (RightJoining(e) && e.isolated != e.final)
    || (TwoSided(e) && e.isolated != e.initial && e.isolated != e.medial && e.isolated != e.final
        && e.initial != e.medial && e.initial != e.final && e.medial != e.final)
  }

  /** `f` is a form of `u` that reaches the next letter. */
  predicate ReachesNext(u: uint16, f: uint16) {
    AssignShape(u).Shape? && f != 0 && (f == AssignShape(u).initial || f == AssignShape(u).medial)
  }

  /** `f` is a form of `u` that reaches the letter in front. */
  predicate ReachesBack(u: uint16, f: uint16) {
    AssignShape(u).Shape? && f != 0 && (f == AssignShape(u).medial || f == AssignShape(u).final)
  }

  /** In a text of letters, the shapes meet: each reaches back exactly if the one in front reaches forward. */
  lemma FormsMeet(t: seq<uint16>, i: nat)
    requires i < |t| && forall k :: 0 <= k < |t| ==> PlainLetter(t[k])
    ensures ReachesBack(t[i], Join(t)[i]) <==> i > 0 && ReachesNext(t[i - 1], Join(t)[i - 1])
  {
    LetterForm(t, i);
    if i > 0 {
      LetterForm(t, i - 1);
    }
    hide AssignShape, Join;
  }

  lemma LetterForm(t: seq<uint16>, i: nat)
    requires i < |t| && PlainLetter(t[i])
    ensures ReachesBack(t[i], Join(t)[i]) <==> ReachedFrom(t, i)
    ensures ReachesNext(t[i], Join(t)[i]) <==> TwoSided(AssignShape(t[i])) && FollowedByShape(t, i)
  {
    hide AssignShape, Join, JoinedAt;
    if TwoSided(AssignShape(t[i])) {
      TwoSidedForm(t, i);
    } else {
      RightJoiningForm(t, i);
    }
  }

  /** BEH three times; LAM, ALEF and LAM; BEH and FATHATAN, which is lost; and a HAMZA that is. */
  lemma FormsOfSomeTexts()
    ensures Join([0x0628, 0x0628, 0x0628]) == [0xFE91, 0xFE92, 0xFE90]
    ensures Join([0x0644, 0x0627, 0x0644]) == [0xFEDF, 0xFE8E, 0xFEDD]
    ensures Join([0x0628, 0x064B]) == [0xFE91, 0]
    ensures Join([0x0628, HAMZA, 0x0628]) == [0xFE91, 0, 0xFE8F]
  {
  }

  /**
   A zero, which ends a string, comes out exactly where a zero went in, or a filler, or a HAMZA
   between a letter that reaches it and another unit of the tables: it has no final form to fall back on.
   */
  lemma ZeroComesOutIff(t: seq<uint16>, i: nat)
    requires i < |t|
    ensures Join(t)[i] == 0 <==>
              t[i] == 0 || AssignShape(t[i]) == Shape(0, 0, 0, 0)
              || (t[i] == HAMZA && ReachedFrom(t, i) && FollowedByShape(t, i))
  {
    EntryKinds(t[i]);
    hide AssignShape;
  }

  /** The entries of the tables: fillers, the two kinds of letters, and HAMZA. */
  lemma EntryKinds(u: uint16)
    ensures var e := AssignShape(u);
            e.Shape? ==>
              e == Shape(0, 0, 0, 0) || TwoSided(e) || RightJoining(e) || (u == HAMZA && e == Shape(0xFE80, 0, 0, 0))
    ensures AssignShape(HAMZA) == Shape(0xFE80, 0, 0, 0)
  {
  }

  // ---------------------------------------------------------------- over 16-bit units

  /** The nested branches that both shapers contain. */
  method ChooseForm(prev: Entry, curr: Entry, next: Entry) returns (form: uint16)
    requires curr.Shape?
    ensures form == Form(prev, curr, next)
  {
    if next != NoShape {
      if prev != NoShape {
        if prev.initial == 0 || prev.medial == 0 {
          form := if curr.initial != 0 then curr.initial else curr.isolated;
        } else {
          form := if curr.medial != 0 then curr.medial else curr.final;
        }
      } else {
        form := if curr.initial != 0 then curr.initial else curr.isolated;
      }
    } else {
      if prev != NoShape {
        if prev.initial == 0 || prev.medial == 0 {
          form := curr.isolated;
        } else {
          form := if curr.final != 0 then curr.final else curr.isolated;
        }
      } else {
        form := curr.isolated;
      }
    }
  }

  /** arabicJoin_UC16, without its attribute. */
  method JoinUC16(text: seq<uint16>) returns (newStr: array<uint16>)
    ensures fresh(newStr) && newStr.Length == |text| + 1
    ensures newStr[..|text|] == Join(text) && newStr[|text|] == 0
  {
    hide AssignShape, Form;
    newStr := new uint16[1 + |text|];
    var prev, curr, next := NoShape, NoShape, NoShape;
    for i := 0 to |text|
      invariant prev == ShapeAt(text, i - 1)
      invariant forall k :: 0 <= k < i ==> newStr[k] == JoinedAt(text, k)
    {
      curr := AssignShape(text[i]);
      if curr != NoShape {
        if i < |text| - 1 {
          next := AssignShape(text[i + 1]);
        } else {
          next := NoShape;
        }
        var form := ChooseForm(prev, curr, next);
        newStr[i] := form;
      } else {
        newStr[i] := text[i];
      }
      prev := curr;
    }
    newStr[|text|] := 0;
  }

  // ---------------------------------------------------------------- over UTF-8 bytes

  /** utf8_len_map */
  function LenMap(c: byte): nat {
    if c < 0xC0 then 1
    else if c < 0xE0 then 2
    else if c < 0xF0 then 3
    else if c < 0xF8 then 4
    else if c < 0xFC then 5
    else if c < 0xFE then 6
    else 1
  }

  /** The text from `i` on consists of whole characters of one to three bytes. */
  predicate IsText(s: seq<byte>, i: nat)
    requires i <= |s|
    decreases |s| - i
  {
    i == |s| ||
    (&& DecodeAt(s, i).Char?
     && DecodeAt(s, i).size == LenMap(s[i]) <= 3
     && IsText(s, i + LenMap(s[i])))
  }

  /** assignShapeUtf at position `i`. */
  function AssignShapeUtf(s: seq<byte>, i: nat): Entry
    requires i < |s| && DecodeAt(s, i).Char?
  {
    if LenMap(s[i]) > 1 then AssignShape(DecodeAt(s, i).units[0]) else NoShape
  }

  /** The bytes arabicJoin_UTF8 writes for the character at `i`. */
  function BytesFor(s: seq<byte>, i: nat, prev: Entry): seq<byte>
    requires i < |s| && IsText(s, i)
  {
    var b := LenMap(s[i]);
    var curr := AssignShapeUtf(s, i);
    assert IsText(s, i + b);
    if curr.Shape? then
      EncodeUnit(Form(prev, curr, if i + b < |s| then AssignShapeUtf(s, i + b) else NoShape))
    else s[i..i + b]
  }

  /** What arabicJoin_UTF8 writes for the bytes from `i` on, when the character before has `prev`. */
  function JoinBytes(s: seq<byte>, i: nat, prev: Entry): seq<byte>
    requires i <= |s| && IsText(s, i)
    decreases |s| - i
  {
    if i == |s| then []
    else
      BytesFor(s, i, prev) + JoinBytes(s, i + LenMap(s[i]), AssignShapeUtf(s, i))
  }

  /** One character, which needs at most three bytes, and only one if it was one byte long. */
  lemma JoinBytesStep(s: seq<byte>, i: nat, prev: Entry)
    requires i < |s| && IsText(s, i)
    ensures 1 <= LenMap(s[i]) <= |s| - i && IsText(s, i + LenMap(s[i]))
    ensures JoinBytes(s, i, prev)
         == BytesFor(s, i, prev) + JoinBytes(s, i + LenMap(s[i]), AssignShapeUtf(s, i))
    ensures 2 * |BytesFor(s, i, prev)| <= 3 * LenMap(s[i])
  {
    hide AssignShape, Form, EncodeUnit;
  }

  lemma JoinBytesEnd(s: seq<byte>, prev: Entry)
    ensures JoinBytes(s, |s|, prev) == []
  {
  }

  lemma NextCharacter(s: seq<byte>, i: nat, prev: Entry) returns (b: nat, curr: Entry)
    requires i < |s| && IsText(s, i)
    ensures 1 <= b <= |s| - i && IsText(s, i + b)
    ensures 2 * |JoinBytes(s, i, prev)| <= 3 * b + 2 * |JoinBytes(s, i + b, curr)|
  {
    b, curr := LenMap(s[i]), AssignShapeUtf(s, i);
    JoinBytesStep(s, i, prev);
    hide AssignShapeUtf, BytesFor, JoinBytes, IsText;
  }

  /** The output is at most half again as long as the input: the buffer of 2 * len + 1 suffices. */
  lemma {:induction false} JoinBytesLength(s: seq<byte>, i: nat, prev: Entry)
    requires i <= |s| && IsText(s, i)
    ensures 2 * |JoinBytes(s, i, prev)| <= 3 * (|s| - i)
    decreases |s| - i
  {
    hide JoinBytes, IsText;
    if i < |s| {
      var b, curr := NextCharacter(s, i, prev);
      JoinBytesLength(s, i + b, curr);
    } else {
      JoinBytesEnd(s, prev);
    }
  }

  /** doAssignShapeUtf: decodes one character. */
  method AssignShapeOfText(text: seq<byte>, i: nat) returns (e: Entry)
    requires i < |text| && IsText(text, i)
    ensures e == AssignShapeUtf(text, i)
  {
    hide AssignShape;
    var b := LenMap(text[i]);
    if b > 1 {
      var fs := new uint16[1];
      OneCharacter(text, i);
      var n := Utf8ToUtf16(text[i..i + b], fs);
      assert fs[..1][0] == fs[0];
      e := AssignShape(fs[0]);
    } else {
      e := NoShape;
    }
  }

  /** Cutting one character out of a text does not change what it decodes to. */
  lemma OneCharacter(text: seq<byte>, i: nat)
    requires i < |text| && DecodeAt(text, i).Char? && DecodeAt(text, i).size <= 3
    ensures var d := DecodeAt(text, i);
            |d.units| == 1 && Decode(text[i..i + d.size]) == Some(d.units)
  {
    var d := DecodeAt(text, i);
    var one := text[i..i + d.size];
    assert forall k :: 0 <= k < |one| ==> one[k] == text[i + k];
    assert DecodeAt(one, 0) == d;
    assert DecodeFrom(one, |one|) == Some([]);
    assert d.units + [] == d.units;
  }

  /** storeUc_2_Utf8 */
  method StoreUnit(dest: array<byte>, sz0: nat, wch: uint16) returns (sz: nat)
    requires sz0 + |EncodeUnit(wch)| < dest.Length
    modifies dest
    ensures sz == sz0 + |EncodeUnit(wch)|
    ensures dest[..sz] == old(dest[..sz0]) + EncodeUnit(wch)
  {
    assert Encode([wch]) == EncodeUnit(wch);
    var cb := Uc16ToUtf8([wch], dest, sz0);
    sz := sz0 + cb;
    assert dest[..sz] == dest[..sz0] + dest[sz0..sz];
  }

  /** store_Utf8: copies `cb` bytes. */
  method StoreBytes(dest: array<byte>, sz0: nat, text: seq<byte>, i: nat, cb: nat) returns (sz: nat)
    requires sz0 + cb <= dest.Length && i + cb <= |text|
    modifies dest
    ensures sz == sz0 + cb
    ensures dest[..sz] == old(dest[..sz0]) + text[i..i + cb]
  {
    for j := 0 to cb
      invariant dest[..sz0 + j] == old(dest[..sz0]) + text[i..i + j]
    {
      dest[sz0 + j] := text[i + j];
      assert text[i..i + j + 1] == text[i..i + j] + [text[i + j]];
    }
    sz := sz0 + cb;
  }

  /** arabicJoin_UTF8, without its attribute. */
  method JoinUtf8(text: seq<byte>) returns (newStr: array<byte>, newLen: nat)
    requires IsText(text, 0)
    ensures fresh(newStr) && newLen < newStr.Length
    ensures newStr[..newLen] == JoinBytes(text, 0, NoShape) && newStr[newLen] == 0
  {
    hide AssignShape, Form, EncodeUnit, AssignShapeUtf, DecodeAt, JoinBytes, LenMap, IsText;
    newStr := new byte[1 + 2 * |text|];
    var prev, curr, next := NoShape, NoShape, NoShape;
    var sz := 0;
    ghost var wanted := JoinBytes(text, 0, NoShape);
    var i := 0;
    while i < |text|
      invariant i <= |text| && IsText(text, i)
      invariant 2 * sz <= 3 * i && sz < newStr.Length
      invariant newStr[..sz] + JoinBytes(text, i, prev) == wanted
      decreases |text| - i
    {
      ghost var done := newStr[..sz];
      JoinBytesStep(text, i, prev);
      var b := LenMap(text[i]);
      curr := AssignShapeOfText(text, i);
      if curr != NoShape {
        if i < |text| - b {
          next := AssignShapeOfText(text, i + b);
        } else {
          next := NoShape;
        }
        var form := ChooseForm(prev, curr, next);
        sz := StoreUnit(newStr, sz, form);
      } else {
        sz := StoreBytes(newStr, sz, text, i, b);
      }
      assert newStr[..sz] == done + BytesFor(text, i, prev);
      Associates(done, BytesFor(text, i, prev), JoinBytes(text, i + b, curr));
      i := i + b;
      prev := curr;
    }
    JoinBytesEnd(text, prev);
    assert newStr[..sz] + [] == newStr[..sz];
    newStr[sz] := 0;
    newLen := sz;
  }

  // ---------------------------------------------------------------- the two shapers agree

  /** Where unit `k` stands in the encoded text, and that it is one whole character there. */
  lemma UnitInText(t: seq<uint16>, k: nat)
    requires k < |t|
    ensures var s, i := Encode(t), |Encode(t[..k])|;
            var b := |EncodeUnit(t[k])|;
            && i + b == |Encode(t[..k + 1])| <= |s|
            && DecodeAt(s, i) == Char([t[k]], b)
            && LenMap(s[i]) == b
            && s[i..i + b] == EncodeUnit(t[k])
  {
    var pre, rest := Encode(t[..k]), Encode(t[k + 1..]);
    var unit := EncodeUnit(t[k]);
    assert t == t[..k] + t[k..];
    EncodeAppend(t[..k], t[k..]);
    assert Encode(t[k..]) == unit + rest by {
      assert t[k..][0] == t[k] && t[k..][1..] == t[k + 1..];
    }
    EncodePrefix(t, k);
    hide Encode;
    DecodeUnit(t[k], rest);
    DecodeAtShift(pre, unit + rest, 0);
    assert (pre + (unit + rest))[|pre|] == unit[0];
    hide DecodeAt;
    assert LenMap(unit[0]) == |unit|;
  }

  lemma {:induction false} EncodedIsText(t: seq<uint16>, k: nat)
    requires k <= |t|
    ensures |Encode(t[..k])| <= |Encode(t)| && IsText(Encode(t), |Encode(t[..k])|)
    decreases |t| - k
  {
    if k < |t| {
      UnitInText(t, k);
      EncodedIsText(t, k + 1);
    } else {
      assert t[..k] == t;
    }
  }

  /** Looking a letter up by its bytes is looking it up by its unit. */
  lemma SameShape(t: seq<uint16>, k: nat)
    requires k < |t|
    ensures |Encode(t[..k])| < |Encode(t)|
    ensures DecodeAt(Encode(t), |Encode(t[..k])|).Char?
    ensures AssignShapeUtf(Encode(t), |Encode(t[..k])|) == AssignShape(t[k])
  {
    hide Encode, DecodeAt, ShapedTable, ShapedTable2;
    UnitInText(t, k);
  }

  lemma JoinedBytesAt(t: seq<uint16>, k: nat)
    requires k < |t|
    ensures var s, i := Encode(t), |Encode(t[..k])|;
            && i < |s| && IsText(s, i)
            && BytesFor(s, i, ShapeAt(t, k as int - 1)) == EncodeUnit(JoinedAt(t, k))
  {
    hide Encode, DecodeAt, AssignShape, AssignShapeUtf, EncodeUnit, IsText, Form, LenMap;
    EncodedIsText(t, k);
    UnitInText(t, k);
    SameShape(t, k);
    if k + 1 < |t| {
      SameShape(t, k + 1);
    } else {
      assert t[..k + 1] == t;
    }
  }

  lemma {:induction false} ShapersAgreeFrom(t: seq<uint16>, k: nat)
    requires k <= |t|
    ensures |Encode(t[..k])| <= |Encode(t)| && IsText(Encode(t), |Encode(t[..k])|)
    ensures JoinBytes(Encode(t), |Encode(t[..k])|, ShapeAt(t, k as int - 1)) == Encode(Join(t)[k..])
    decreases |t| - k
  {
    hide DecodeAt, AssignShape, AssignShapeUtf, EncodeUnit, IsText, BytesFor, JoinedAt, LenMap;
    EncodedIsText(t, k);
    if k < |t| {
      UnitInText(t, k);
      SameShape(t, k);
      JoinedBytesAt(t, k);
      ShapersAgreeFrom(t, k + 1);
      JoinBytesStep(Encode(t), |Encode(t[..k])|, ShapeAt(t, k as int - 1));
      var out := Join(t)[k..];
      assert out[0] == JoinedAt(t, k) && out[1..] == Join(t)[k + 1..];
    } else {
      assert t[..k] == t;
    }
  }

  /** Shaping the UTF-8 form of a text gives the UTF-8 form of the shaped text. */
  lemma ShapersAgree(t: seq<uint16>)
    ensures IsText(Encode(t), 0)
    ensures JoinBytes(Encode(t), 0, NoShape) == Encode(Join(t))
    ensures Decode(JoinBytes(Encode(t), 0, NoShape)) == Some(Join(t))
  {
    ShapersAgreeFrom(t, 0);
    assert t[..0] == [] && Join(t)[0..] == Join(t);
    DecodeEncode(Join(t));
  }

  // ---------------------------------------------------------------- shaping twice

  predicate IsFormOf(f: uint16, e: Entry) {
    e.Shape? && (f == e.isolated || f == e.initial || f == e.medial || f == e.final)
  }

  const TATWEEL: uint16 := 0x0640

  /** A missing form, or one between the two tables: the Arabic presentation forms. */
  predicate LeavesTable(f: uint16) {
    f == 0 || TABLE_TOP < f < TABLE2_START
  }

  predicate AllFormsLeave(e: Entry) {
    e.Shape? && LeavesTable(e.isolated) && LeavesTable(e.initial) && LeavesTable(e.medial) && LeavesTable(e.final)
  }

  lemma BasicFormsLeave(u: uint16)
    ensures if u == TATWEEL then BasicLetters(u) == Shape(TATWEEL, TATWEEL, TATWEEL, TATWEEL)
            else AllFormsLeave(BasicLetters(u))
  {
    if u < TATWEEL {
    } else if u == TATWEEL {
    } else {
    }
  }

  lemma ExtendedFormsLeave(u: uint16)
    ensures AllFormsLeave(ExtendedLetters(u))
  {
  }

  /** The forms of a letter are no letters themselves; only TATWEEL is its own form. */
  lemma FormsLeaveTheTable(u: uint16, f: uint16)
    requires TABLE_START <= u <= TABLE_TOP && IsFormOf(f, ShapedTable(u))
    ensures if u == TATWEEL then f == TATWEEL else LeavesTable(f)
  {
    BasicFormsLeave(u);
    ExtendedFormsLeave(u);
    hide BasicLetters, ExtendedLetters;
  }

  /** The ligatures that have a second form inside the table: their final form is a filler. */
  predicate IsUnstable(u: uint16) {
    u == 0xFEF5 || u == 0xFEF7 || u == 0xFEF9
  }

  /** A ligature other than LAM_ALEF that the letter in front reaches. */
  predicate IsReached(t: seq<uint16>, i: nat)
    requires i < |t|
  {
    IsUnstable(t[i]) && Joins(ShapeAt(t, i - 1))
  }

  lemma TableEntryIsShape(u: uint16)
    ensures ShapedTable(u).Shape?
  {
    BasicFormsLeave(u);
    ExtendedFormsLeave(u);
    hide BasicLetters, ExtendedLetters;
  }

  /** What happens to each kind of unit. */
  lemma JoinedCases(t: seq<uint16>, i: nat)
    requires i < |t|
    ensures var u, f := t[i], JoinedAt(t, i);
            && (u == TATWEEL <==> f == TATWEEL)
            && (!InTables(u) ==> f == u)
            && (TABLE_START <= u <= TABLE_TOP && u != TATWEEL ==> !InTables(f))
            && (u in {0xFEF6, 0xFEF8, 0xFEFA} ==> f == 0)
            && (u in {0xFEF5, 0xFEF7, 0xFEF9, 0xFEFB} ==>
                  f == if Joins(ShapeAt(t, i as int - 1)) then u + 1 else u)
  {
    var u := t[i];
    hide ShapedTable;
    if TABLE_START <= u <= TABLE_TOP {
      assert AssignShape(u) == ShapedTable(u);
      TableEntryIsShape(u);
      FormsLeaveTheTable(u, JoinedAt(t, i));
    }
  }

  /** A letter that still joins after shaping is a TATWEEL. */
  lemma OnlyTatweelJoins(t: seq<uint16>, i: nat)
    requires i < |t|
    ensures Joins(AssignShape(JoinedAt(t, i))) ==> t[i] == TATWEEL
  {
    JoinedCases(t, i);
    hide ShapedTable, JoinedAt;
    var f := JoinedAt(t, i);
    if InTables(f) && f != TATWEEL {
      assert AssignShape(f) == ShapedTable2(f);
    }
  }

  lemma TatweelJoins()
    ensures AssignShape(TATWEEL) == Shape(TATWEEL, TATWEEL, TATWEEL, TATWEEL)
  {
    BasicFormsLeave(TATWEEL);
    hide BasicLetters;
  }

  /** Shaping changes the shaped text again exactly where a ligature was reached. */
  lemma SecondPassAt(t: seq<uint16>, i: nat)
    requires i < |t|
    ensures JoinedAt(Join(t), i) == Join(t)[i] <==> !IsReached(t, i)
  {
    hide AssignShape, JoinedAt;
    var r := Join(t);
    var u, f := t[i], r[i];
    JoinedCases(t, i);
    JoinedCases(r, i);
    if i > 0 {
      OnlyTatweelJoins(t, i - 1);
      assert ShapeAt(r, i - 1) == AssignShape(JoinedAt(t, i - 1));
      assert Joins(ShapeAt(r, i - 1)) ==> t[i - 1] == TATWEEL && Joins(ShapeAt(t, i - 1)) by {
        TatweelJoins();
      }
    }
    if u in {0xFEF5, 0xFEF7, 0xFEF9, 0xFEFB} {
      assert f == u ==> JoinedAt(r, i) == u;
    } else {
      assert !InTables(f) || f == TATWEEL;
    }
  }

  /** Shaping twice is shaping once, exactly when no unstable ligature follows a joining letter. */
  lemma JoinIdempotentIff(t: seq<uint16>)
    ensures Join(Join(t)) == Join(t) <==> forall i :: 0 <= i < |t| ==> !IsReached(t, i)
  {
    forall i | 0 <= i < |t|
      ensures Join(Join(t))[i] == Join(t)[i] <==> !IsReached(t, i)
    {
      SecondPassAt(t, i);
    }
  }

  /** In particular for text without ready-made ligatures. */
  lemma JoinIdempotent(t: seq<uint16>)
    requires forall i :: 0 <= i < |t| ==> !(TABLE2_START <= t[i] <= TABLE2_TOP)
    ensures Join(Join(t)) == Join(t)
  {
    JoinIdempotentIff(t);
  }
}
