/**
 The wire format of fbus/fbus_parcel.c: typed values, each starting with a tag and padded to a
 multiple of four bytes.  The padding bytes are whatever the buffer held before.
 */
module ParcelFormat {
  import opened Bytes

  // ---------------------------------------------------------------- integers in memory

  /** A 32-bit integer in memory, low byte first. */
  function IntBytes(v: int32): (s: seq<byte>)
    ensures |s| == 4
  {
    var u := if v < 0 then v + 0x1_0000_0000 else v;
    [u % 0x100, u / 0x100 % 0x100, u / 0x1_0000 % 0x100, u / 0x100_0000]
  }

  /** The unsigned value of bytes in memory order. */
  function Word(s: seq<byte>): (u: nat)
    ensures |s| <= 1 ==> u < 0x100
    ensures |s| <= 2 ==> u < 0x1_0000
    ensures |s| <= 3 ==> u < 0x100_0000
    ensures |s| <= 4 ==> u < 0x1_0000_0000
  {
    if s == [] then 0 else s[0] + 0x100 * Word(s[1..])
  }

  /** The integer stored at `i`. */
  function IntAt(s: seq<byte>, i: nat): int32
    requires i + 4 <= |s|
  {
    var u := Word(s[i..i + 4]);
    if u >= 0x8000_0000 then u - 0x1_0000_0000 else u
  }

  /** `part` stands in `s` at `i`. */
  predicate At(s: seq<byte>, i: nat, part: seq<byte>) {
    i + |part| <= |s| && forall k :: 0 <= k < |part| ==> s[i + k] == part[k]
  }

  lemma WordOfFour(s: seq<byte>)
    requires |s| == 4
    ensures Word(s) == s[0] as int + 0x100 * s[1] as int + 0x1_0000 * s[2] as int + 0x100_0000 * s[3] as int
  {
    assert Word(s[1..]) == s[1] + 0x100 * Word(s[1..][1..]);
    assert s[1..][1..] == s[2..] && s[2..][1..] == [s[3]];
    assert Word(s[2..]) == s[2] + 0x100 * Word([s[3]]);
  }

  lemma IntBytesValue(v: int32)
    ensures Word(IntBytes(v)) == if v < 0 then v + 0x1_0000_0000 else v
  {
    var u := if v < 0 then v + 0x1_0000_0000 else v;
    var a, b, c := u / 0x100, u / 0x1_0000, u / 0x100_0000;
    assert u == a * 0x100 + u % 0x100;
    assert a == b * 0x100 + a % 0x100;
    assert b == c * 0x100 + b % 0x100;
    WordOfFour(IntBytes(v));
    hide Word;
  }

  /** An integer that was stored is read back. */
  lemma IntRoundTrip(s: seq<byte>, i: nat, v: int32)
    requires At(s, i, IntBytes(v))
    ensures IntAt(s, i) == v
  {
    IntBytesValue(v);
    assert s[i..i + 4] == IntBytes(v);
    hide IntBytes, Word;
  }

  // ---------------------------------------------------------------- values

  const FTK_TYPE_INT: int32 := 0x49494949
  const FTK_TYPE_CHAR: int32 := 0x43434343
  const FTK_TYPE_SHORT: int32 := 0x53535353
  const FTK_TYPE_STRING: int32 := 0x53545249
  const FTK_TYPE_BINARY: int32 := 0x42494e41

  datatype Value =
    | CharV(c: int8)
    | ShortV(s: int16)
    | IntV(i: int32)
    | StringV(text: seq<byte>)
    | DataV(data: seq<byte>)

  /** The longest payload whose length, rounded up, still fits an int. */
  const MAX_PAYLOAD := 0x7FFF_FFF0

  /** A C string holds no NUL, and lengths are ints. */
  predicate ValueOk(v: Value) {
    match v
    case StringV(t) => 0 !in t && |t| < MAX_PAYLOAD
    case DataV(d) => |d| <= MAX_PAYLOAD
    case _ => true
  }

  function Tag(v: Value): int32 {
    match v
    case CharV(_) => FTK_TYPE_CHAR
    case ShortV(_) => FTK_TYPE_SHORT
    case IntV(_) => FTK_TYPE_INT
    case StringV(_) => FTK_TYPE_STRING
    case DataV(_) => FTK_TYPE_BINARY
  }

  /** ROUND4 */
  function Round4(n: nat): (r: nat)
    ensures n <= r < n + 4 && r % 4 == 0
  {
    (n + 3) / 4 * 4
  }

  /** The bytes behind the tag, without padding. */
  function Payload(v: Value): seq<byte>
    requires ValueOk(v)
  {
    match v
    case CharV(c) => IntBytes(c)
    case ShortV(s) => IntBytes(s)
    case IntV(i) => IntBytes(i)
    case StringV(t) => t + [0]
    case DataV(d) => IntBytes(|d|) + d
  }

  /** The space a value takes. */
  function Size(v: Value): (n: nat)
    ensures n >= 8 && n % 4 == 0
  {
    match v
    case StringV(t) => 4 + Round4(|t| + 1)
    case DataV(d) => 8 + Round4(|d|)
    case _ => 8
  }

  /** The value `v` is stored at `i`; its padding may hold anything. */
  ghost predicate HoldsAt(s: seq<byte>, i: nat, v: Value) {
    && ValueOk(v)
    && i + Size(v) <= |s|
    && At(s, i, IntBytes(Tag(v)))
    && At(s, i + 4, Payload(v))
  }

  /** The values `vs` are stored one after the other from `i` to `j`. */
  ghost predicate Holds(s: seq<byte>, i: nat, j: nat, vs: seq<Value>)
    decreases |vs|
  {
    if vs == [] then i == j <= |s|
    else HoldsAt(s, i, vs[0]) && Holds(s, i + Size(vs[0]), j, vs[1..])
  }

  lemma {:induction false} HoldsBounds(s: seq<byte>, i: nat, j: nat, vs: seq<Value>)
    requires Holds(s, i, j, vs)
    ensures i <= j <= |s|
    decreases |vs|
  {
    if vs != [] {
      hide HoldsAt;
      HoldsBounds(s, i + Size(vs[0]), j, vs[1..]);
    }
  }

  predicate Aligned(n: nat) {
    n % 4 == 0
  }

  lemma SizeAligned(i: nat, v: Value)
    requires Aligned(i)
    ensures Aligned(i + Size(v))
  {
    hide Size;
  }

  lemma {:induction false} HoldsAligned(s: seq<byte>, i: nat, j: nat, vs: seq<Value>)
    requires Holds(s, i, j, vs) && Aligned(i)
    ensures Aligned(j)
    decreases |vs|
  {
    if vs != [] {
      hide HoldsAt, Size, Aligned;
      SizeAligned(i, vs[0]);
      HoldsAligned(s, i + Size(vs[0]), j, vs[1..]);
    }
  }

  lemma HoldsAtSame(s: seq<byte>, t: seq<byte>, i: nat, v: Value)
    requires HoldsAt(s, i, v) && i + Size(v) <= |t|
    requires forall k :: i <= k < i + Size(v) ==> t[k] == s[k]
    ensures HoldsAt(t, i, v)
  {
    hide IntBytes;
    PayloadFits(v);
    var tag, payload := IntBytes(Tag(v)), Payload(v);
    forall k | 0 <= k < 4
      ensures t[i + k] == tag[k]
    {
      assert s[i + k] == tag[k];
    }
    forall k | 0 <= k < |payload|
      ensures t[i + 4 + k] == payload[k]
    {
      assert s[i + 4 + k] == payload[k];
    }
  }

  lemma PayloadFits(v: Value)
    requires ValueOk(v)
    ensures 4 + |Payload(v)| <= Size(v)
  {
  }

  /** Stored values stay stored in any block that agrees on those bytes. */
  lemma {:induction false} HoldsSame(s: seq<byte>, t: seq<byte>, i: nat, j: nat, vs: seq<Value>)
    requires Holds(s, i, j, vs) && j <= |s| && j <= |t|
    requires forall k :: i <= k < j ==> t[k] == s[k]
    ensures Holds(t, i, j, vs)
    decreases |vs|
  {
    HoldsBounds(s, i, j, vs);
    if vs != [] {
      hide HoldsAt;
      HoldsBounds(s, i + Size(vs[0]), j, vs[1..]);
      HoldsAtSame(s, t, i, vs[0]);
      HoldsSame(s, t, i + Size(vs[0]), j, vs[1..]);
    }
  }

  lemma HoldsCons(s: seq<byte>, i: nat, j: nat, v: Value, vs: seq<Value>)
    requires HoldsAt(s, i, v) && Holds(s, i + Size(v), j, vs)
    ensures Holds(s, i, j, [v] + vs)
  {
    hide HoldsAt, Size;
    assert ([v] + vs)[1..] == vs;
  }

  lemma {:induction false} HoldsAppend(s: seq<byte>, i: nat, m: nat, j: nat, vs: seq<Value>, ws: seq<Value>)
    requires Holds(s, i, m, vs) && Holds(s, m, j, ws)
    ensures Holds(s, i, j, vs + ws)
    decreases |vs|
  {
    hide HoldsAt, Size;
    if vs == [] {
      assert vs + ws == ws;
    } else {
      HoldsAppend(s, i + Size(vs[0]), m, j, vs[1..], ws);
      HoldsCons(s, i, j, vs[0], vs[1..] + ws);
      assert vs + ws == [vs[0]] + (vs[1..] + ws);
    }
  }

  // ---------------------------------------------------------------- the format is unambiguous

  /** What the tag of a stored value says. */
  lemma HoldsTag(s: seq<byte>, i: nat, v: Value)
    requires HoldsAt(s, i, v)
    ensures IntAt(s, i) == Tag(v)
  {
    IntRoundTrip(s, i, Tag(v));
    hide IntBytes, IntAt;
  }

  lemma HoldsNumber(s: seq<byte>, i: nat, v: Value)
    requires HoldsAt(s, i, v)
    ensures match v
            case CharV(c) => IntAt(s, i + 4) == c
            case ShortV(n) => IntAt(s, i + 4) == n
            case IntV(n) => IntAt(s, i + 4) == n
            case DataV(d) => IntAt(s, i + 4) == |d| && i + 8 + |d| <= |s| && s[i + 8..i + 8 + |d|] == d
            case StringV(t) => true
  {
    hide IntBytes, IntAt;
    match v
    case CharV(c) => IntRoundTrip(s, i + 4, c);
    case ShortV(n) => IntRoundTrip(s, i + 4, n);
    case IntV(n) => IntRoundTrip(s, i + 4, n);
    case DataV(d) =>
      var size := IntBytes(|d|);
      assert At(s, i + 4, size) by {
        forall k | 0 <= k < 4
          ensures s[i + 4 + k] == size[k]
        {
          assert (size + d)[k] == size[k];
        }
      }
      IntRoundTrip(s, i + 4, |d|);
      forall k | 0 <= k < |d|
        ensures s[i + 8 + k] == d[k]
      {
        assert s[i + 4 + (4 + k)] == (size + d)[4 + k];
      }
    case StringV(t) =>
  }

  /** The string stored at `i` is what strlen finds there. */
  lemma HoldsString(s: seq<byte>, i: nat, t: seq<byte>)
    requires HoldsAt(s, i, StringV(t))
    ensures i + 4 + |t| < |s| && s[i + 4..i + 4 + |t|] == t && s[i + 4 + |t|] == 0
    ensures forall k :: i + 4 <= k < i + 4 + |t| ==> s[k] != 0
  {
    hide IntBytes;
    forall k | 0 <= k <= |t|
      ensures s[i + 4 + k] == (t + [0])[k]
    {
    }
    assert forall k :: 0 <= k < |t| ==> s[i + 4 + k] == (t + [0])[k] == t[k];
    assert s[i + 4 + |t|] == (t + [0])[|t|];
    forall k | i + 4 <= k < i + 4 + |t|
      ensures s[k] != 0
    {
      assert s[k] == t[k - i - 4] && t[k - i - 4] in t;
    }
  }

  lemma HoldsAtUnique(s: seq<byte>, i: nat, v: Value, w: Value)
    requires HoldsAt(s, i, v) && HoldsAt(s, i, w)
    ensures v == w
  {
    HoldsTag(s, i, v);
    HoldsTag(s, i, w);
    HoldsNumber(s, i, v);
    HoldsNumber(s, i, w);
    if v.StringV? && w.StringV? {
      HoldsString(s, i, v.text);
      HoldsString(s, i, w.text);
      assert |v.text| == |w.text|;
    }
    hide IntAt, At, HoldsAt;
  }

  /** A block of bytes holds at most one list of values. */
  lemma {:induction false} HoldsUnique(s: seq<byte>, i: nat, j: nat, vs: seq<Value>, ws: seq<Value>)
    requires Holds(s, i, j, vs) && Holds(s, i, j, ws)
    ensures vs == ws
    decreases |vs|
  {
    hide HoldsAt;
    if vs == [] {
      if ws != [] {
        HoldsBounds(s, i + Size(ws[0]), j, ws[1..]);
      }
    } else if ws == [] {
      HoldsBounds(s, i + Size(vs[0]), j, vs[1..]);
    } else {
      HoldsAtUnique(s, i, vs[0], ws[0]);
      HoldsUnique(s, i + Size(vs[0]), j, vs[1..], ws[1..]);
      assert vs == [vs[0]] + vs[1..] && ws == [ws[0]] + ws[1..];
    }
  }
}
