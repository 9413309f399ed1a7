/**
 The two converters of src/ftk_text_layout_bidi.c: UTF-8 to UTF-16, and 16-bit units to UTF-8.

 Masks and shifts of the source are written as arithmetic: `c & 0x3f` is `c % 64`,
 `(c & 0xc0) == 0x80` is `0x80 <= c < 0xC0`, `s << 6 | x` is `s * 64 + x`.
 */
module TextCodec {
  import opened Bytes

  // ---------------------------------------------------------------- decoding

  predicate IsContinuation(c: byte) {
    0x80 <= c < 0xC0
  }

  /** `scalar <<= 6; scalar |= c & 0x3f` */
  function AddBits(scalar: nat, c: byte): nat {
    scalar * 64 + c % 64
  }

  /** `scalar & 0x7ff` and `scalar & 0xffff`, which drop the marker bits of the lead byte. */
  function TwoByteUnit(scalar: nat): uint16 {
    scalar % 0x800
  }

  function ThreeByteUnit(scalar: nat): uint16 {
    scalar % 0x10000
  }

  /** The surrogate pair made from a scalar from which 0x10000 has been taken. */
  function HighSurrogate(scalar: nat): uint16 {
    scalar / 0x400 % 0x400 + 0xD800
  }

  function LowSurrogate(scalar: nat): uint16 {
    scalar % 0x400 + 0xDC00
  }

  /** One decoded character: its 16-bit units and the number of bytes read. */
  datatype Decoded = Bad | Char(units: seq<uint16>, size: nat)

  /**
   One round of the loop of utf8_to_utf16.  As in the source, the scalar that is compared against
   the overlong and surrogate bounds still holds the marker bits of the lead byte.
   */
  function DecodeAt(s: seq<byte>, i: nat): (r: Decoded)
    requires i < |s|
    ensures r.Char? ==> 1 <= |r.units| <= r.size && i + r.size <= |s|
  {
    var c0: nat := s[i];
    if c0 < 0x80 then Char([c0], 1)
    else if c0 < 0xC0 then Bad
    else if i + 1 >= |s| || !IsContinuation(s[i + 1]) then Bad
    else
      var scalar2 := AddBits(c0, s[i + 1]);
      if c0 < 0xE0 then
        if scalar2 != 0 && scalar2 < 0x80 then Bad
        else Char([TwoByteUnit(scalar2)], 2)
      else if i + 2 >= |s| || !IsContinuation(s[i + 2]) then Bad
      else
        var scalar3 := AddBits(scalar2, s[i + 2]);
        if c0 < 0xF0 then
          if scalar3 < 0x800 || 0xD800 <= scalar3 < 0xE000 then Bad
          else Char([ThreeByteUnit(scalar3)], 3)
        else if i + 3 >= |s| || !IsContinuation(s[i + 3]) then Bad
        else
          var scalar4 := AddBits(scalar3, s[i + 3]);
          if c0 >= 0xF8 || scalar4 < 0x10000 then Bad
          else Char([HighSurrogate(scalar4 - 0x10000), LowSurrogate(scalar4 - 0x10000)], 4)
  }

  function Prepend(units: seq<uint16>, rest: Option<seq<uint16>>): Option<seq<uint16>> {
    match rest
    case None => None
    case Some(r) => Some(units + r)
  }

  /** What utf8_to_utf16 makes of the bytes from `i` on; None where it returns -1. */
  function DecodeFrom(s: seq<byte>, i: nat): (r: Option<seq<uint16>>)
    requires i <= |s|
    ensures r.Some? ==> |r.value| <= |s| - i
    decreases |s| - i
  {
    if i == |s| then Some([])
    else
      match DecodeAt(s, i)
      case Bad => None
      case Char(units, size) => Prepend(units, DecodeFrom(s, i + size))
  }

  function Decode(s: seq<byte>): Option<seq<uint16>> {
    DecodeFrom(s, 0)
  }

  /** What the loop of utf8_to_utf16 keeps: `done` is stored and the bytes from `i` are left. */
  ghost predicate Progress(s: seq<byte>, done: seq<uint16>, i: nat) {
    i <= |s| && Decode(s) == Prepend(done, DecodeFrom(s, i))
  }

  lemma StartProgress(s: seq<byte>)
    ensures Progress(s, [], 0)
  {
    if Decode(s).Some? {
      assert [] + Decode(s).value == Decode(s).value;
    }
  }

  /** Storing one more character keeps the result of the whole text, and there is room for it. */
  lemma StepProgress(s: seq<byte>, done: seq<uint16>, i: nat)
    requires Progress(s, done, i) && i < |s|
    ensures match DecodeAt(s, i)
            case Bad => Decode(s) == None
            case Char(units, size) =>
              && Progress(s, done + units, i + size)
              && (Decode(s).Some? ==> |done| + |units| <= |Decode(s).value|)
  {
    if DecodeAt(s, i).Char? {
      var d := DecodeAt(s, i);
      var rest := DecodeFrom(s, i + d.size);
      if rest.Some? {
        assert done + (d.units + rest.value) == done + d.units + rest.value;
      }
    }
  }

  lemma EndProgress(s: seq<byte>, done: seq<uint16>)
    requires Progress(s, done, |s|)
    ensures Decode(s) == Some(done)
  {
    assert done + [] == done;
  }

  /** `*unicode16++ = unit` */
  method Store(unicode16: array<uint16>, count: nat, unit: uint16)
    requires count < unicode16.Length
    modifies unicode16
    ensures unicode16[..count + 1] == old(unicode16[..count]) + [unit]
  {
    unicode16[count] := unit;
  }

  /**
   utf8_to_utf16 on the bytes `utf8`.  The destination must have room for one unit per input byte,
   or at least for the units the text really holds.  (The source fetches the fourth byte of a
   character before it checks that there is one.)
   */
  method Utf8ToUtf16(utf8: seq<byte>, unicode16: array<uint16>) returns (count: int)
    requires |utf8| <= unicode16.Length
          || (Decode(utf8).Some? && |Decode(utf8).value| <= unicode16.Length)
    modifies unicode16
    ensures match Decode(utf8)
            case None => count == -1
            case Some(units) => count == |units| <= unicode16.Length && unicode16[..count] == units
  {
    count := 0;
    var i := 0;
    StartProgress(utf8);
    assert unicode16[..0] == [];
    while i < |utf8|
      invariant 0 <= count <= i <= |utf8| && count <= unicode16.Length
      invariant Progress(utf8, unicode16[..count], i)
      decreases |utf8| - i
    {
      hide Progress, Decode, AddBits, TwoByteUnit, ThreeByteUnit, HighSurrogate, LowSurrogate;
      ghost var done := unicode16[..count];
      StepProgress(utf8, done, i);
      var c0: byte := utf8[i];
      i := i + 1;
      if c0 < 0x80 {
        Store(unicode16, count, c0);
        count := count + 1;
        continue;
      }
      if c0 < 0xC0 {
        return -1;
      }
      var scalar: nat := c0;
      if i >= |utf8| {
        return -1;
      }
      var c1 := utf8[i];
      i := i + 1;
      if !IsContinuation(c1) {
        return -1;
      }
      scalar := AddBits(scalar, c1);
      if c0 < 0xE0 {
        if scalar != 0 && scalar < 0x80 {
          return -1;
        }
        Store(unicode16, count, TwoByteUnit(scalar));
        count := count + 1;
        continue;
      }
      if i >= |utf8| {
        return -1;
      }
      c1 := utf8[i];
      i := i + 1;
      if !IsContinuation(c1) {
        return -1;
      }
      scalar := AddBits(scalar, c1);
      if c0 < 0xF0 {
        if scalar < 0x800 {
          return -1;
        }
        if scalar >= 0xD800 && scalar < 0xE000 {
          return -1;
        }
        Store(unicode16, count, ThreeByteUnit(scalar));
        count := count + 1;
        continue;
      }
      if i >= |utf8| {
        return -1;
      }
      c1 := utf8[i];
      i := i + 1;
      if !IsContinuation(c1) {
        return -1;
      }
      scalar := AddBits(scalar, c1);
      if c0 >= 0xF8 {
        return -1;
      }
      if scalar < 0x10000 {
        return -1;
      }
      scalar := scalar - 0x10000;
      Store(unicode16, count, HighSurrogate(scalar));
      Store(unicode16, count + 1, LowSurrogate(scalar));
      count := count + 2;
      assert done + [HighSurrogate(scalar)] + [LowSurrogate(scalar)]
          == done + [HighSurrogate(scalar), LowSurrogate(scalar)];
    }
    EndProgress(utf8, unicode16[..count]);
  }

  /** Decoding does not depend on what stands in front. */
  lemma DecodeAtShift(pre: seq<byte>, s: seq<byte>, i: nat)
    requires i < |s|
    ensures DecodeAt(pre + s, |pre| + i) == DecodeAt(s, i)
  {
    assert forall k :: i <= k < |s| ==> (pre + s)[|pre| + k] == s[k];
  }

  lemma {:induction false} DecodeShift(pre: seq<byte>, s: seq<byte>, i: nat)
    requires i <= |s|
    ensures DecodeFrom(pre + s, |pre| + i) == DecodeFrom(s, i)
    decreases |s| - i
  {
    if i < |s| {
      DecodeAtShift(pre, s, i);
      var d := DecodeAt(s, i);
      if d.Char? {
        DecodeShift(pre, s, i + d.size);
      }
    }
  }

  /** A text that starts with one whole character is that character followed by the rest. */
  lemma DecodeCons(first: seq<byte>, units: seq<uint16>, rest: seq<byte>)
    requires first != [] && DecodeAt(first + rest, 0) == Char(units, |first|)
    ensures Decode(first + rest) == Prepend(units, Decode(rest))
  {
    DecodeShift(first, rest, 0);
  }

  // ---------------------------------------------------------------- encoding

  /** The bytes uc16_to_utf8 writes for one unit. */
  function EncodeUnit(u: uint16): (s: seq<byte>)
    ensures 1 <= |s| <= 3
  {
    if u <= 0x7F then [u]
    else if u <= 0x7FF then [0xC0 + u / 64, 0x80 + u % 64]
    else [0xE0 + u / 4096, 0x80 + u / 64 % 64, 0x80 + u % 64]
  }

  function Encode(us: seq<uint16>): seq<byte> {
    if us == [] then [] else EncodeUnit(us[0]) + Encode(us[1..])
  }

  lemma Associates(a: seq<byte>, b: seq<byte>, c: seq<byte>)
    ensures a + (b + c) == a + b + c
  {
  }

  lemma {:induction false} EncodeAppend(us: seq<uint16>, vs: seq<uint16>)
    ensures Encode(us + vs) == Encode(us) + Encode(vs)
  {
    hide EncodeUnit;
    if us == [] {
      assert us + vs == vs;
    } else {
      EncodeAppend(us[1..], vs);
      assert (us + vs)[0] == us[0] && (us + vs)[1..] == us[1..] + vs;
      Associates(EncodeUnit(us[0]), Encode(us[1..]), Encode(vs));
    }
  }

  lemma EncodePrefix(us: seq<uint16>, i: nat)
    requires i < |us|
    ensures Encode(us[..i + 1]) == Encode(us[..i]) + EncodeUnit(us[i])
    ensures |Encode(us[..i + 1])| <= |Encode(us)|
  {
    assert us[..i + 1] == us[..i] + [us[i]];
    EncodeAppend(us[..i], [us[i]]);
    assert Encode([us[i]]) == EncodeUnit(us[i]);
    assert us == us[..i + 1] + us[i + 1..];
    EncodeAppend(us[..i + 1], us[i + 1..]);
  }

  /** `*t++ = c`, where the output starts at `start`. */
  method Put(s: array<byte>, start: nat, t: nat, c: byte)
    requires start <= t < s.Length
    modifies s
    ensures s[start..t + 1] == old(s[start..t]) + [c]
    ensures s[..start] == old(s[..start])
  {
    s[t] := c;
  }

  lemma AppendTwo(s: seq<byte>, a: byte, b: byte)
    ensures s + [a] + [b] == s + [a, b]
  {
  }

  lemma AppendThree(s: seq<byte>, a: byte, b: byte, c: byte)
    ensures s + [a] + [b] + [c] == s + [a, b, c]
  {
  }

  /** The body of the loop of uc16_to_utf8. */
  method PutUnit(uc16: uint16, s: array<byte>, start: nat, t0: nat) returns (t: nat)
    requires start <= t0 && t0 + |EncodeUnit(uc16)| <= s.Length
    modifies s
    ensures t == t0 + |EncodeUnit(uc16)| && s[start..t] == old(s[start..t0]) + EncodeUnit(uc16)
    ensures s[..start] == old(s[..start])
  {
    t := t0;
    ghost var before := s[start..t0];
    if uc16 <= 0x7F {
      Put(s, start, t, uc16);
      t := t + 1;
    } else if uc16 <= 0x7FF {
      Put(s, start, t, 0xC0 + uc16 / 64);
      Put(s, start, t + 1, 0x80 + uc16 % 64);
      t := t + 2;
      AppendTwo(before, 0xC0 + uc16 / 64, 0x80 + uc16 % 64);
    } else {
      Put(s, start, t, 0xE0 + uc16 / 4096);
      Put(s, start, t + 1, 0x80 + uc16 / 64 % 64);
      Put(s, start, t + 2, 0x80 + uc16 % 64);
      t := t + 3;
      AppendThree(before, 0xE0 + uc16 / 4096, 0x80 + uc16 / 64 % 64, 0x80 + uc16 % 64);
    }
  }

  /** uc16_to_utf8: writes at `start` and ends with a NUL. */
  method Uc16ToUtf8(us: seq<uint16>, s: array<byte>, start: nat) returns (size: nat)
    requires start + |Encode(us)| < s.Length
    modifies s
    ensures size == |Encode(us)| && s[start..start + size] == Encode(us)
    ensures s[start + size] == 0
    ensures s[..start] == old(s[..start])
  {
    var t := start;
    assert us[..0] == [];
    for i := 0 to |us|
      invariant t == start + |Encode(us[..i])|
      invariant t < s.Length && s[start..t] == Encode(us[..i])
      invariant s[..start] == old(s[..start])
    {
      EncodePrefix(us, i);
      hide EncodeUnit, Encode;
      t := PutUnit(us[i], s, start, t);
    }
    assert us[..|us|] == us;
    s[t] := 0;
    size := t - start;
  }

  // ---------------------------------------------------------------- round trips

  /** A continuation byte contributes the six bits it was made from. */
  lemma ContinuationBits(scalar: nat, x: nat)
    requires x < 64
    ensures AddBits(scalar, 0x80 + x) == scalar * 64 + x
  {
  }

  /** The marker bits of the lead byte lie above the bits that are kept. */
  lemma TwoByteBits(u: uint16)
    requires 0x80 <= u < 0x800
    ensures AddBits(0xC0 + u / 64, 0x80 + u % 64) == 0x3000 + u && TwoByteUnit(0x3000 + u) == u
  {
    ContinuationBits(0xC0 + u / 64, u % 64);
  }

  lemma ThreeByteBits(u: uint16)
    requires 0x800 <= u
    ensures AddBits(AddBits(0xE0 + u / 4096, 0x80 + u / 64 % 64), 0x80 + u % 64) == 0xE0000 + u
    ensures ThreeByteUnit(0xE0000 + u) == u
  {
    var a, b, c := u / 4096, u / 64 % 64, u % 64;
    assert u == a * 4096 + b * 64 + c;
    hide AddBits;
    ContinuationBits(0xE0 + a, b);
    ContinuationBits((0xE0 + a) * 64 + b, c);
  }

  lemma DecodeUnit(u: uint16, rest: seq<byte>)
    ensures DecodeAt(EncodeUnit(u) + rest, 0) == Char([u], |EncodeUnit(u)|)
  {
    var s := EncodeUnit(u) + rest;
    assert forall k :: 0 <= k < |EncodeUnit(u)| ==> s[k] == EncodeUnit(u)[k];
    if 0x80 <= u < 0x800 {
      TwoByteBits(u);
    } else if u >= 0x800 {
      ThreeByteBits(u);
    }
    hide AddBits, TwoByteUnit, ThreeByteUnit;
  }

  /** Decoding undoes encoding, for every sequence of 16-bit units, surrogates included. */
  lemma {:induction false} DecodeEncode(us: seq<uint16>)
    ensures Decode(Encode(us)) == Some(us)
  {
    if us != [] {
      DecodeUnit(us[0], Encode(us[1..]));
      DecodeCons(EncodeUnit(us[0]), [us[0]], Encode(us[1..]));
      DecodeEncode(us[1..]);
      assert [us[0]] + us[1..] == us;
    }
  }

  /** A Unicode scalar value. */
  type scalar = v: int | 0 <= v < 0xD800 || 0xE000 <= v < 0x110000

  /** Section 3 of RFC 3629. */
  function Utf8(v: scalar): (s: seq<byte>)
    ensures 1 <= |s| <= 4
  {
    if v < 0x80 then [v]
    else if v < 0x800 then [0xC0 + v / 0x40, 0x80 + v % 0x40]
    else if v < 0x10000 then [0xE0 + v / 0x1000, 0x80 + v / 0x40 % 0x40, 0x80 + v % 0x40]
    else [0xF0 + v / 0x40000, 0x80 + v / 0x1000 % 0x40, 0x80 + v / 0x40 % 0x40, 0x80 + v % 0x40]
  }

  /** Section 2.1 of RFC 2781. */
  function Utf16(v: scalar): (s: seq<uint16>) {
    if v < 0x10000 then [v]
    else
      var u := v - 0x10000;
      [0xD800 + u / 0x400, 0xDC00 + u % 0x400]
  }

  function Utf8Text(vs: seq<scalar>): seq<byte> {
    if vs == [] then [] else Utf8(vs[0]) + Utf8Text(vs[1..])
  }

  function Utf16Text(vs: seq<scalar>): seq<uint16> {
    if vs == [] then [] else Utf16(vs[0]) + Utf16Text(vs[1..])
  }

  /** The marker bits of a four-byte character leave no trace in the surrogate pair. */
  lemma SurrogateBits(u: nat)
    requires u < 0x10_0000
    ensures HighSurrogate(0x3C0_0000 + u) == 0xD800 + u / 0x400
    ensures LowSurrogate(0x3C0_0000 + u) == 0xDC00 + u % 0x400
  {
    assert (0x3C0_0000 + u) / 0x400 == 0xF000 + u / 0x400;
  }

  lemma DivTwice(v: nat)
    ensures v / 0x40 / 0x40 == v / 0x1000
  {
  }

  lemma DivThrice(v: nat)
    ensures v / 0x1000 / 0x40 == v / 0x40000
  {
  }

  lemma SplitDigit(v: nat)
    ensures v == v / 0x40 * 0x40 + v % 0x40 && v % 0x40 < 0x40
  {
  }

  lemma FourByteBits(v: scalar)
    requires v >= 0x10000
    ensures var s := Utf8(v);
            AddBits(AddBits(AddBits(s[0], s[1]), s[2]), s[3]) == 0x3C0_0000 + v
  {
    var a, b, c, d := v / 0x40000, v / 0x1000 % 0x40, v / 0x40 % 0x40, v % 0x40;
    SplitDigit(v);
    SplitDigit(v / 0x40);
    SplitDigit(v / 0x1000);
    DivTwice(v);
    DivThrice(v);
    hide AddBits;
    ContinuationBits(0xF0 + a, b);
    ContinuationBits((0xF0 + a) * 64 + b, c);
    ContinuationBits(((0xF0 + a) * 64 + b) * 64 + c, d);
  }

  /** A unit that is no surrogate is written as section 3 of RFC 3629 says, in as few bytes as possible. */
  lemma UnitIsUtf8(u: uint16)
    requires !(0xD800 <= u < 0xE000)
    ensures EncodeUnit(u) == Utf8(u)
    ensures |EncodeUnit(u)| == if u < 0x80 then 1 else if u < 0x800 then 2 else 3
  {
  }

  lemma {:induction false} EncodeIsUtf8(us: seq<uint16>, vs: seq<scalar>)
    requires |us| == |vs| && forall i :: 0 <= i < |us| ==> us[i] == vs[i]
    ensures Encode(us) == Utf8Text(vs)
  {
    hide EncodeUnit, Utf8;
    if us != [] {
      UnitIsUtf8(us[0]);
      EncodeIsUtf8(us[1..], vs[1..]);
    }
  }

  lemma DecodeScalar(v: scalar, rest: seq<byte>)
    ensures DecodeAt(Utf8(v) + rest, 0) == Char(Utf16(v), |Utf8(v)|)
  {
    var s := Utf8(v) + rest;
    assert forall k :: 0 <= k < |Utf8(v)| ==> s[k] == Utf8(v)[k];
    if v >= 0x10000 {
      hide AddBits, HighSurrogate, LowSurrogate;
      FourByteBits(v);
      SurrogateBits(v - 0x10000);
    } else {
      assert Utf8(v) == EncodeUnit(v);
      DecodeUnit(v, rest);
    }
  }

  /** Decoding turns the UTF-8 form of a text into its UTF-16 form. */
  lemma {:induction false} DecodeText(vs: seq<scalar>)
    ensures Decode(Utf8Text(vs)) == Some(Utf16Text(vs))
  {
    if vs != [] {
      DecodeScalar(vs[0], Utf8Text(vs[1..]));
      DecodeCons(Utf8(vs[0]), Utf16(vs[0]), Utf8Text(vs[1..]));
      DecodeText(vs[1..]);
    }
  }

  // ---------------------------------------------------------------- what is rejected

  /** How many bytes a lead byte announces; 0 for one that cannot start a character. */
  function Announced(c: byte): nat {
    if c < 0x80 then 1
    else if c < 0xC0 then 0
    else if c < 0xE0 then 2
    else if c < 0xF0 then 3
    else if c < 0xF8 then 4
    else 0
  }

  /** Every lead byte is followed by exactly the continuation bytes it announces. */
  predicate IsStructured(s: seq<byte>, i: nat)
    requires i <= |s|
    decreases |s| - i
  {
    i == |s| ||
    (var n := Announced(s[i]);
     && n > 0 && i + n <= |s|
     && (forall k :: i < k < i + n ==> IsContinuation(s[k]))
     && IsStructured(s, i + n))
  }

  /**
   The overlong and surrogate tests never fire, because they see the marker bits: the decoder
   accepts a text exactly when its lead and continuation bytes fit together.
   */
  lemma {:induction false} AcceptsIffStructured(s: seq<byte>, i: nat)
    requires i <= |s|
    ensures DecodeFrom(s, i).Some? <==> IsStructured(s, i)
    decreases |s| - i
  {
    if i < |s| {
      var n, d := Announced(s[i]), DecodeAt(s, i);
      assert d.Char? ==> d.size == n;
      assert d.Char? <==> n > 0 && i + n <= |s| && forall k :: i < k < i + n ==> IsContinuation(s[k]);
      if d.Char? {
        AcceptsIffStructured(s, i + n);
      }
    }
  }

  /** The header comment of utf8_to_utf16 promises an error here. */
  lemma SurrogateIsNotRejected()
    ensures Decode([0xED, 0xA0, 0x80]) == Some([0xD800])
  {
    var s: seq<byte> := [0xED, 0xA0, 0x80];
    var units: seq<uint16> := [0xD800];
    assert DecodeAt(s, 0) == Char(units, 3);
    assert DecodeFrom(s, 3) == Some([]) && units + [] == units;
  }

  /** Java's two-byte form of U+0000 is accepted, as the header comment says. */
  lemma JavaNulIsAccepted()
    ensures Decode([0xC0, 0x80]) == Some([0])
  {
    var s: seq<byte> := [0xC0, 0x80];
    var units: seq<uint16> := [0];
    assert DecodeAt(s, 0) == Char(units, 2);
    assert DecodeFrom(s, 2) == Some([]) && units + [] == units;
  }
}
