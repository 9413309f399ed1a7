/** Stepping through UTF-8 text one character at a time (src/ftk_util.c). */
module Utf8Chars {
  import opened Bytes
  import opened TextCodec

  // ---------------------------------------------------------------- one character

  /** UTF8_COMPUTE: the length a lead byte announces; 0 stands for -1. */
  function LeadLen(c: byte): nat {
    if c < 0x80 then 1
    else if c < 0xC0 then 0
    else if c < 0xE0 then 2
    else if c < 0xF0 then 3
    else if c < 0xF8 then 4
    else if c < 0xFC then 5
    else if c < 0xFE then 6
    else 0
  }

  /** And the bits it contributes. */
  function LeadBits(c: byte): uint16 {
    if c < 0x80 then c
    else if c < 0xE0 then c % 0x20
    else if c < 0xF0 then c % 0x10
    else if c < 0xF8 then c % 8
    else if c < 0xFC then c % 4
    else c % 2
  }

  /** One step of UTF8_GET on an unsigned short. */
  function Shifted(result: uint16, c: byte): uint16 {
    (result * 0x40 + c % 0x40) % 0x1_0000
  }

  /** UTF8_GET from the byte number `i` of the character at `p` on; 0xFFFF if a byte does not fit. */
  function UnitFrom(s: seq<byte>, p: nat, i: nat, len: nat, result: uint16): uint16
    requires p + i <= |s|
    decreases len - i
  {
    if i >= len then result
    else if p + i >= |s| || !IsContinuation(s[p + i]) then 0xFFFF
    else UnitFrom(s, p, i + 1, len, Shifted(result, s[p + i]))
  }

  /** The unit that utf8_get_char returns. */
  function UnitAt(s: seq<byte>, p: nat): uint16
    requires p < |s|
  {
    if LeadLen(s[p]) == 0 then 0xFFFF else UnitFrom(s, p, 1, LeadLen(s[p]), LeadBits(s[p]))
  }

  /** utf8_get_char on a NUL-terminated string; `next` is the address that is left in `*next`. */
  method GetChar(s: seq<byte>, p: nat) returns (unit: uint16, next: nat)
    requires p < |s| && s[|s| - 1] == 0
    ensures unit == UnitAt(s, p) && next == p + LeadLen(s[p])
  {
    var len := LeadLen(s[p]);
    if len == 0 {
      return 0xFFFF, p;
    }
    unit := LeadBits(s[p]);
    var i := 1;
    while i < len
      invariant 1 <= i <= len && p + i <= |s| && (i < len ==> p + i < |s|)
      invariant UnitAt(s, p) == UnitFrom(s, p, i, len, unit)
      decreases len - i
    {
      if !IsContinuation(s[p + i]) {
        return 0xFFFF, p + len;
      }
      unit := Shifted(unit, s[p + i]);
      i := i + 1;
    }
    next := p + len;
  }

  /** Where utf8_get_prev_char ends up: at most seven bytes back, on a byte that is no continuation. */
  function PrevFrom(s: seq<byte>, p: nat, i: nat): nat
    requires p <= |s| && i >= 1
    decreases 8 - i
  {
    if i >= 8 || i > p then p
    else if IsContinuation(s[p - i]) then PrevFrom(s, p, i + 1)
    else p - i
  }

  /**
   utf8_get_prev_char, with seven bytes or the beginning of a character in front of `p`; it stays
   behind seven continuation bytes.
   */
  method GetPrevChar(s: seq<byte>, p: nat) returns (unit: uint16, prev: nat)
    requires p < |s| && s[|s| - 1] == 0 && (PrevFrom(s, p, 1) < p || p >= 7)
    ensures prev == PrevFrom(s, p, 1) && unit == if prev < p then UnitAt(s, prev) else 0
  {
    var i := 1;
    while i < 8
      invariant 1 <= i <= 8 && PrevFrom(s, p, 1) == PrevFrom(s, p, i)
    {
      if !IsContinuation(s[p - i]) {
        prev := p - i;
        var next;
        unit, next := GetChar(s, p - i);
        return;
      }
      i := i + 1;
    }
    unit, prev := 0, p;
  }

  // ---------------------------------------------------------------- well-formed text

  /** The low 16 bits of a scalar, which is all that utf8_get_char returns. */
  function Unit(v: scalar): uint16 {
    v % 0x1_0000
  }

  /** A continuation byte shifts in the six bits it was made from. */
  lemma ShiftStep(a: nat, x: nat)
    requires x < 0x40
    ensures Shifted(a % 0x1_0000, 0x80 + x) == (a * 0x40 + x) % 0x1_0000
  {
    var q, r := a / 0x1_0000, a % 0x1_0000;
    assert a * 0x40 + x == r * 0x40 + x + 0x1_0000 * (q * 0x40);
    AddMultiple(r * 0x40 + x, q * 0x40);
    assert (0x80 + x) % 0x40 == x;
  }

  lemma AddMultiple(x: nat, k: nat)
    ensures (x + 0x1_0000 * k) % 0x1_0000 == x % 0x1_0000
  {
  }

  /** Reading the character that was written. */
  lemma UnitOfScalar(s: seq<byte>, p: nat, v: scalar)
    requires p + |Utf8(v)| <= |s| && s[p..p + |Utf8(v)|] == Utf8(v)
    ensures UnitAt(s, p) == Unit(v) && LeadLen(s[p]) == |Utf8(v)|
  {
    var c := Utf8(v);
    assert forall k :: 0 <= k < |c| ==> s[p + k] == s[p..p + |c|][k] == c[k];
    assert s[p] == s[p + 0] == c[0];
    UnitOfEncoded(v);
    SameUnit(s, p, c);
  }

  lemma SameUnit(s: seq<byte>, p: nat, c: seq<byte>)
    requires 1 <= |c| <= 4 && p + |c| <= |s| && forall k :: 0 <= k < |c| ==> s[p + k] == c[k]
    requires LeadLen(c[0]) == |c|
    ensures UnitAt(s, p) == UnitAt(c, 0)
  {
    assert s[p + 0] == c[0];
    SameUnitFrom(s, p, c, 1, LeadBits(c[0]));
  }

  lemma {:induction false} SameUnitFrom(s: seq<byte>, p: nat, c: seq<byte>, i: nat, r: uint16)
    requires i <= |c| && p + |c| <= |s| && forall k :: 0 <= k < |c| ==> s[p + k] == c[k]
    ensures UnitFrom(s, p, i, |c|, r) == UnitFrom(c, 0, i, |c|, r)
    decreases |c| - i
  {
    if i < |c| {
      assert s[p + i] == c[i] == c[0 + i];
      SameUnitFrom(s, p, c, i + 1, Shifted(r, c[i]));
    }
  }

  lemma LeadOfScalar(v: scalar)
    ensures var c := Utf8(v);
            && LeadLen(c[0]) == |c|
            && LeadBits(c[0]) == (if |c| == 1 then v else if |c| == 2 then v / 0x40
                                  else if |c| == 3 then v / 0x1000 else v / 0x40000)
            && forall k :: 1 <= k < |c| ==> IsContinuation(c[k])
  {
  }

  /** Encoded digits come out as the number they make up, in any length. */
  lemma UnitOfDigits(c: seq<byte>, digits: seq<nat>)
    requires 2 <= |c| == |digits| <= 4 && digits[0] < 0x40 && LeadLen(c[0]) == |c| && LeadBits(c[0]) == digits[0]
    requires forall k :: 1 <= k < |c| ==> c[k] == 0x80 + digits[k] && digits[k] < 0x40
    ensures UnitAt(c, 0) == Number(digits) % 0x1_0000
  {
    UnfoldUnit(c);
    hide UnitAt, Shifted, LeadBits, LeadLen, IsContinuation;
    var a := digits[0];
    assert a % 0x1_0000 == a;
    ShiftStep(a, digits[1]);
    if |c| > 2 {
      ShiftStep(a * 0x40 + digits[1], digits[2]);
      if |c| > 3 {
        ShiftStep((a * 0x40 + digits[1]) * 0x40 + digits[2], digits[3]);
      }
    }
  }

  /** Two to four digits to the base 64. */
  function Number(digits: seq<nat>): nat
    requires 2 <= |digits| <= 4
  {
    var two := digits[0] * 0x40 + digits[1];
    if |digits| == 2 then two
    else if |digits| == 3 then two * 0x40 + digits[2]
    else (two * 0x40 + digits[2]) * 0x40 + digits[3]
  }

  lemma UnitOfEncoded(v: scalar)
    ensures var c := Utf8(v);
            UnitAt(c, 0) == Unit(v) && LeadLen(c[0]) == |c|
  {
    var c := Utf8(v);
    LeadOfScalar(v);
    if |c| > 1 {
      var a, b := v / 0x40, v / 0x1000;
      SplitDigit(v);
      SplitDigit(a);
      SplitDigit(b);
      DivTwice(v);
      DivThrice(v);
      hide UnitAt, LeadBits, LeadLen, IsContinuation;
      if |c| == 2 {
        UnitOfDigits(c, [a, v % 0x40]);
      } else if |c| == 3 {
        UnitOfDigits(c, [b, a % 0x40, v % 0x40]);
      } else {
        UnitOfDigits(c, [v / 0x40000, b % 0x40, a % 0x40, v % 0x40]);
      }
    }
  }

  lemma UnfoldUnit(c: seq<byte>)
    requires 2 <= |c| <= 4 && LeadLen(c[0]) == |c| && forall k :: 1 <= k < |c| ==> IsContinuation(c[k])
    ensures UnitAt(c, 0)
         == (var one := Shifted(LeadBits(c[0]), c[1]);
             if |c| == 2 then one
             else if |c| == 3 then Shifted(one, c[2])
             else Shifted(Shifted(one, c[2]), c[3]))
  {
    hide Shifted, LeadBits, IsContinuation;
    var one := Shifted(LeadBits(c[0]), c[1]);
    assert UnitAt(c, 0) == UnitFrom(c, 0, 2, |c|, one);
    if |c| > 2 {
      assert UnitAt(c, 0) == UnitFrom(c, 0, 3, |c|, Shifted(one, c[2]));
      if |c| > 3 {
        assert UnitAt(c, 0) == UnitFrom(c, 0, 4, |c|, Shifted(Shifted(one, c[2]), c[3]));
      }
    }
  }

  // ---------------------------------------------------------------- positions in a text

  /** A text in memory, as a C string. */
  function CText(vs: seq<scalar>): seq<byte> {
    Utf8Text(vs) + [0]
  }

  /** Where character `k` begins. */
  function Bound(vs: seq<scalar>, k: nat): (p: nat)
    requires k <= |vs|
    ensures p < |CText(vs)|
  {
    TextAppend(vs[..k], vs[k..]);
    assert vs == vs[..k] + vs[k..];
    |Utf8Text(vs[..k])|
  }

  lemma {:induction false} TextAppend(a: seq<scalar>, b: seq<scalar>)
    ensures Utf8Text(a + b) == Utf8Text(a) + Utf8Text(b)
  {
    hide Utf8;
    if a == [] {
      assert a + b == b;
    } else {
      assert (a + b)[1..] == a[1..] + b;
      TextAppend(a[1..], b);
    }
  }

  lemma TextOfOne(v: scalar)
    ensures Utf8Text([v]) == Utf8(v)
  {
    hide Utf8;
    assert [v][1..] == [];
  }

  /** The text around character `k`. */
  lemma CharInText(vs: seq<scalar>, k: nat)
    requires k < |vs|
    ensures CText(vs) == Utf8Text(vs[..k]) + Utf8(vs[k]) + (Utf8Text(vs[k + 1..]) + [0])
    ensures Bound(vs, k + 1) == Bound(vs, k) + |Utf8(vs[k])|
  {
    hide Utf8;
    assert vs == vs[..k] + [vs[k]] + vs[k + 1..];
    TextAppend(vs[..k] + [vs[k]], vs[k + 1..]);
    TextAppend(vs[..k], [vs[k]]);
    TextOfOne(vs[k]);
    assert vs[..k + 1] == vs[..k] + [vs[k]];
  }

  lemma BoundEnds(vs: seq<scalar>)
    ensures Bound(vs, 0) == 0 && Bound(vs, |vs|) == |Utf8Text(vs)| == |CText(vs)| - 1
    ensures CText(vs)[|CText(vs)| - 1] == 0
  {
    assert vs[..|vs|] == vs;
  }

  lemma {:induction false} BoundGrows(vs: seq<scalar>, j: nat, k: nat)
    requires j <= k <= |vs|
    ensures Bound(vs, j) + (k - j) <= Bound(vs, k)
    decreases k - j
  {
    if j < k {
      CharInText(vs, k - 1);
      hide Utf8, Bound;
      BoundGrows(vs, j, k - 1);
    }
  }

  /** utf8_get_char at the beginning of a character, and at the terminating NUL. */
  lemma CharAtBound(vs: seq<scalar>, k: nat)
    requires k <= |vs|
    ensures var s, p := CText(vs), Bound(vs, k);
            && UnitAt(s, p) == (if k < |vs| then Unit(vs[k]) else 0)
            && p + LeadLen(s[p]) == if k < |vs| then Bound(vs, k + 1) else p + 1
  {
    hide Utf8;
    if k == |vs| {
      BoundEnds(vs);
    } else {
      hide UnitFrom;
      CharInText(vs, k);
      var s, p, c := CText(vs), Bound(vs, k), Utf8(vs[k]);
      hide Bound, CText;
      assert s[p..p + |c|] == c;
      UnitOfScalar(s, p, vs[k]);
    }
  }

  /** utf8_get_prev_char at the beginning of a character, or at the end, finds the one in front. */
  lemma PrevAtBound(vs: seq<scalar>, k: nat)
    requires 0 < k <= |vs|
    ensures PrevFrom(CText(vs), Bound(vs, k), 1) == Bound(vs, k - 1)
  {
    hide Utf8, CText, IsContinuation, PrevFrom, LeadLen, LeadBits, Utf8Text;
    var v := vs[k - 1];
    CharInText(vs, k - 1);
    LeadOfScalar(v);
    LeadIsNoContinuation(v);
    var s, p, c := CText(vs), Bound(vs, k - 1), Utf8(v);
    assert forall i :: 0 <= i < |c| ==> s[p + i] == c[i];
    assert Bound(vs, k) == p + |c|;
    PrevIs(s, p, c);
  }

  lemma LeadIsNoContinuation(v: scalar)
    ensures !IsContinuation(Utf8(v)[0])
  {
  }

  lemma PrevIs(s: seq<byte>, p: nat, c: seq<byte>)
    requires 1 <= |c| <= 4 && p + |c| <= |s| && forall i :: 0 <= i < |c| ==> s[p + i] == c[i]
    requires !IsContinuation(c[0]) && forall k :: 1 <= k < |c| ==> IsContinuation(c[k])
    ensures PrevFrom(s, p + |c|, 1) == p
  {
    hide IsContinuation;
    var e := p + |c|;
    assert s[p + 0] == c[0];
    assert |c| > 1 ==> s[e - 1] == c[|c| - 1] && PrevFrom(s, e, 1) == PrevFrom(s, e, 2);
    assert |c| > 2 ==> s[e - 2] == c[|c| - 2] && PrevFrom(s, e, 2) == PrevFrom(s, e, 3);
    assert |c| > 3 ==> s[e - 3] == c[|c| - 3] && PrevFrom(s, e, 3) == PrevFrom(s, e, 4);
  }

  /** utf8_count_char for a whole string: the characters in front of the first one whose unit is zero. */
  method CountChars(s: seq<byte>, length: nat, ghost vs: seq<scalar>) returns (nr: nat)
    requires s == CText(vs) && length == |Utf8Text(vs)|
    ensures nr <= |vs| && (forall i :: 0 <= i < nr ==> Unit(vs[i]) != 0)
    ensures nr < |vs| ==> Unit(vs[nr]) == 0
  {
    hide Bound, CText, Utf8Text, UnitAt, Unit;
    BoundEnds(vs);
    CharAtBound(vs, 0);
    nr := 0;
    var unit, iter := GetChar(s, 0);
    while unit != 0 && iter <= length
      invariant nr <= |vs| && unit == (if nr < |vs| then Unit(vs[nr]) else 0)
      invariant nr < |vs| ==> iter == Bound(vs, nr + 1)
      invariant forall i :: 0 <= i < nr ==> Unit(vs[i]) != 0
      decreases |vs| - nr
    {
      nr := nr + 1;
      CharAtBound(vs, nr);
      unit, iter := GetChar(s, iter);
    }
    if nr < |vs| {
      BoundGrows(vs, nr + 1, |vs|);
    }
  }
}
