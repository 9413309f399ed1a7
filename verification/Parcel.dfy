/** The marshalling buffer of fbus/fbus_parcel.c.  Allocation is taken to succeed. */
module Parcels {
  import opened Bytes
  import opened ParcelFormat

  datatype Kind = CharK | ShortK | IntK | StringK | DataK

  function KindOf(v: Value): Kind {
    match v
    case CharV(_) => CharK
    case ShortV(_) => ShortK
    case IntV(_) => IntK
    case StringV(_) => StringK
    case DataV(_) => DataK
  }

  class Parcel {
    var data: array<byte>
    var size: nat
    var cursor: nat

    /** The capacity is the length of the array. */
    ghost predicate Valid()
      reads this
    {
      cursor <= size <= data.Length
    }

    ghost function Content(): (s: seq<byte>)
      requires Valid()
      reads this, data
    {
      data[..size]
    }

    /** The values up to the cursor are exactly `vs`. */
    ghost predicate Written(vs: seq<Value>)
      requires Valid()
      reads this, data
    {
      Holds(Content(), 0, cursor, vs)
    }

    /** The values from the cursor to the end are exactly `vs`. */
    ghost predicate Unread(vs: seq<Value>)
      requires Valid()
      reads this, data
    {
      Holds(Content(), cursor, size, vs)
    }

    /** fbus_parcel_create */
    constructor (capacity: nat)
      ensures Valid() && size == 0 && cursor == 0 && data.Length >= capacity && fresh(data)
      ensures Written([]) && Unread([])
    {
      data := new byte[capacity + capacity / 2](_ => 0);
      size, cursor := 0, 0;
    }

    /** fbus_parcel_extend */
    method Extend(capacity: nat)
      requires Valid()
      modifies this`data
      ensures Valid() && (data == old(data) || fresh(data))
      ensures data.Length >= capacity && data.Length >= old(data.Length)
      ensures data[..old(data.Length)] == old(data[..])
    {
      if capacity > data.Length {
        var larger := new byte[capacity + capacity / 2];
        forall i | 0 <= i < data.Length {
          larger[i] := data[i];
        }
        data := larger;
      }
    }

    /** fbus_parcel_set_size: keeps the parcel valid exactly when the cursor is not left behind. */
    method SetSize(n: nat) returns (ok: bool)
      requires Valid()
      modifies this`size
      ensures size == if n <= data.Length then n else old(size)
      ensures ok <==> size == n
      ensures Valid() <==> cursor <= size
    {
      if n <= data.Length {
        size := n;
      }
      ok := size == n;
    }

    /** fbus_parcel_set_cursor */
    method SetCursor(n: nat) returns (ok: bool)
      requires Valid()
      modifies this`cursor
      ensures Valid() && cursor == if n <= size then n else old(cursor)
      ensures ok <==> cursor == n
    {
      if n <= size {
        cursor := n;
      }
      ok := cursor == n;
    }

    /** fbus_parcel_reset */
    method Reset()
      requires Valid()
      modifies this`size, this`cursor
      ensures Valid() && size == 0 && cursor == 0 && Written([]) && Unread([])
    {
      size := 0;
      cursor := 0;
    }

    // -------------------------------------------------------------- writing

    /** `memcpy(thiz->data + thiz->cursor, part, len)` */
    method CopyIn(part: seq<byte>)
      requires cursor + |part| <= data.Length
      modifies data
      ensures data[..] == Splice(old(data[..]), cursor, part)
    {
      assert part[..0] == [];
      SpliceNothing(data[..], cursor);
      hide Splice;
      for i := 0 to |part|
        invariant data[..] == Splice(old(data[..]), cursor, part[..i])
      {
        SpliceMore(old(data[..]), cursor, part, i);
        data[cursor + i] := part[i];
      }
      assert part[..|part|] == part;
    }

    /** fbus_parcel_write_raw_data: what lay behind the cursor is given up. */
    method WriteRawData(tag: int32, part: seq<byte>)
      requires Valid() && |part| <= MAX_PAYLOAD
      modifies this, data
      ensures Valid() && (data == old(data) || fresh(data))
      ensures var lead := if tag == FTK_TYPE_BINARY then IntBytes(|part|) else [];
              && cursor == size == old(cursor) + 4 + |lead| + Round4(|part|)
              && At(Content(), old(cursor), IntBytes(tag))
              && At(Content(), old(cursor) + 4, lead)
              && At(Content(), old(cursor) + 4 + |lead|, part)
      ensures data[..old(cursor)] == old(data[..cursor])
    {
      hide IntBytes, Round4, At, Splice;
      ghost var start := cursor;
      var need := 2 * 4 + Round4(|part|);
      Extend(size + need);
      ghost var grown := data[..];
      assert grown[..start] == old(data[..cursor]) by {
        assert grown[..start] == data[..old(data.Length)][..start];
      }
      CopyIn(IntBytes(tag));
      cursor := cursor + 4;
      ghost var tagged := data[..];
      ghost var lead := if tag == FTK_TYPE_BINARY then IntBytes(|part|) else [];
      if tag == FTK_TYPE_BINARY {
        CopyIn(IntBytes(|part|));
        cursor := cursor + 4;
      } else {
        SpliceNothing(tagged, cursor);
      }
      ghost var led := data[..];
      CopyIn(part);
      cursor := cursor + Round4(|part|);
      size := cursor;
      ThreeSplices(grown, start, IntBytes(tag), lead, part, size);
    }

    /** The five write functions. */
    method WriteValue(v: Value)
      requires Valid() && ValueOk(v)
      modifies this, data
      ensures Valid() && (data == old(data) || fresh(data))
      ensures cursor == size == old(cursor) + Size(v) && HoldsAt(Content(), old(cursor), v)
      ensures data[..old(cursor)] == old(data[..cursor])
    {
      hide IntBytes, At;
      WordRound4();
      match v {
        case CharV(c) => WriteRawData(FTK_TYPE_CHAR, IntBytes(c));
        case ShortV(s) => WriteRawData(FTK_TYPE_SHORT, IntBytes(s));
        case IntV(i) => WriteRawData(FTK_TYPE_INT, IntBytes(i));
        case StringV(t) => WriteRawData(FTK_TYPE_STRING, t + [0]);
        case DataV(d) =>
          ghost var start := cursor;
          WriteRawData(FTK_TYPE_BINARY, d);
          AtConcat(Content(), start + 4, IntBytes(|d|), d);
      }
    }

    /** Writing appends `v` to the values in front of the cursor and cuts off what was behind. */
    method Write(v: Value, ghost vs: seq<Value>)
      requires Valid() && ValueOk(v)
      modifies this, data
      ensures Valid() && (data == old(data) || fresh(data))
      ensures cursor == size == old(cursor) + Size(v) && HoldsAt(Content(), old(cursor), v)
      ensures old(Written(vs)) ==> Written(vs + [v])
    {
      hide Holds, HoldsAt, Size;
      ghost var start, before := cursor, Content();
      WriteValue(v);
      assert forall k :: 0 <= k < start ==> Content()[k] == data[..start][k] == before[k];
      if old(Written(vs)) {
        AppendValue(before, Content(), start, vs, v);
      }
    }

    method WriteInt(v: int32, ghost vs: seq<Value>)
      requires Valid()
      modifies this, data
      ensures Valid() && (data == old(data) || fresh(data))
      ensures cursor == size && (old(Written(vs)) ==> Written(vs + [IntV(v)]))
    {
      Write(IntV(v), vs);
    }

    method WriteString(text: seq<byte>, ghost vs: seq<Value>)
      requires Valid() && ValueOk(StringV(text))
      modifies this, data
      ensures Valid() && (data == old(data) || fresh(data))
      ensures cursor == size && (old(Written(vs)) ==> Written(vs + [StringV(text)]))
    {
      Write(StringV(text), vs);
    }

    method WriteData(d: seq<byte>, ghost vs: seq<Value>)
      requires Valid() && ValueOk(DataV(d))
      modifies this, data
      ensures Valid() && (data == old(data) || fresh(data))
      ensures cursor == size && (old(Written(vs)) ==> Written(vs + [DataV(d)]))
    {
      Write(DataV(d), vs);
    }

    // -------------------------------------------------------------- reading

    /** fbus_parcel_check: steps over the tag if it is the wanted one. */
    method Check(want: int32) returns (ok: bool)
      requires Valid()
      modifies this`cursor
      ensures Valid()
      ensures ok <==> old(cursor) + 8 <= size && IntAt(Content(), old(cursor)) == want
      ensures cursor == if ok then old(cursor) + 4 else old(cursor)
    {
      hide IntAt;
      if !(cursor + 8 <= size) {
        return false;
      }
      var type_ := IntAt(data[..size], cursor);
      ok := type_ == want;
      if ok {
        cursor := cursor + 4;
      }
    }

    /** fbus_parcel_get_raw_int with enough data */
    method GetRawInt(peek: bool) returns (v: int32)
      requires Valid() && cursor + 4 <= size
      modifies this`cursor
      ensures Valid() && v == IntAt(Content(), old(cursor))
      ensures cursor == if peek then old(cursor) else old(cursor) + 4
    {
      v := IntAt(data[..size], cursor);
      if !peek {
        cursor := cursor + 4;
      }
    }

    /** The number behind the tag `want`, or 0 with the cursor left where it is. */
    method GetNumber(want: int32) returns (v: int32)
      requires Valid()
      modifies this`cursor
      ensures Valid()
      ensures var c := old(cursor);
              if c + 8 <= size && IntAt(Content(), c) == want
              then v == IntAt(Content(), c + 4) && cursor == c + 8
              else v == 0 && cursor == c
    {
      hide IntAt;
      var ok := Check(want);
      if !ok {
        return 0;
      }
      v := GetRawInt(false);
    }

    /** fbus_parcel_get_int */
    method GetInt(ghost vs: seq<Value>) returns (v: int32)
      requires Valid()
      modifies this`cursor
      ensures Valid()
      ensures var c := old(cursor);
              if c + 8 <= size && IntAt(Content(), c) == FTK_TYPE_INT
              then v == IntAt(Content(), c + 4) && cursor == c + 8
              else v == 0 && cursor == c
      ensures old(Unread(vs)) && vs != [] && vs[0].IntV? ==> v == vs[0].i && Unread(vs[1..])
    {
      hide IntAt, IntBytes, Holds, HoldsAt;
      v := GetNumber(FTK_TYPE_INT);
      if old(Unread(vs)) && vs != [] && vs[0].IntV? {
        HoldsHead(Content(), old(cursor), size, vs);
        HoldsTag(Content(), old(cursor), vs[0]);
        HoldsNumber(Content(), old(cursor), vs[0]);
      }
    }

    /** The conversion `(char)` of an int. */
    static function ToChar(v: int32): int8 {
      var u := v % 0x100;
      if u >= 0x80 then u - 0x100 else u
    }

    /** The conversion `(short)` of an int. */
    static function ToShort(v: int32): int16 {
      var u := v % 0x1_0000;
      if u >= 0x8000 then u - 0x1_0000 else u
    }

    lemma NarrowInts(v: int32)
      ensures -0x80 <= v < 0x80 ==> ToChar(v) == v
      ensures -0x8000 <= v < 0x8000 ==> ToShort(v) == v
    {
    }

    /** fbus_parcel_get_char */
    method GetChar(ghost vs: seq<Value>) returns (v: int8)
      requires Valid()
      modifies this`cursor
      ensures Valid()
      ensures var c := old(cursor);
              if c + 8 <= size && IntAt(Content(), c) == FTK_TYPE_CHAR
              then v == ToChar(IntAt(Content(), c + 4)) && cursor == c + 8
              else v == 0 && cursor == c
      ensures old(Unread(vs)) && vs != [] && vs[0].CharV? ==> v == vs[0].c && Unread(vs[1..])
    {
      hide IntAt, IntBytes, Holds, HoldsAt, ToChar, ToShort;
      var n := GetNumber(FTK_TYPE_CHAR);
      v := ToChar(n);
      NarrowInts(n);
      if old(Unread(vs)) && vs != [] && vs[0].CharV? {
        HoldsHead(Content(), old(cursor), size, vs);
        HoldsTag(Content(), old(cursor), vs[0]);
        HoldsNumber(Content(), old(cursor), vs[0]);
      }
    }

    /** fbus_parcel_get_short */
    method GetShort(ghost vs: seq<Value>) returns (v: int16)
      requires Valid()
      modifies this`cursor
      ensures Valid()
      ensures var c := old(cursor);
              if c + 8 <= size && IntAt(Content(), c) == FTK_TYPE_SHORT
              then v == ToShort(IntAt(Content(), c + 4)) && cursor == c + 8
              else v == 0 && cursor == c
      ensures old(Unread(vs)) && vs != [] && vs[0].ShortV? ==> v == vs[0].s && Unread(vs[1..])
    {
      hide IntAt, IntBytes, Holds, HoldsAt, ToChar, ToShort;
      var n := GetNumber(FTK_TYPE_SHORT);
      v := ToShort(n);
      NarrowInts(n);
      if old(Unread(vs)) && vs != [] && vs[0].ShortV? {
        HoldsHead(Content(), old(cursor), size, vs);
        HoldsTag(Content(), old(cursor), vs[0]);
        HoldsNumber(Content(), old(cursor), vs[0]);
      }
    }

    /** fbus_parcel_get_string: None where the source returns NULL. */
    method GetString(ghost vs: seq<Value>) returns (v: Option<seq<byte>>)
      requires Valid() && Unread(vs)
      modifies this`cursor
      ensures Valid()
      ensures if vs != [] && vs[0].StringV? then v == Some(vs[0].text) && Unread(vs[1..])
              else v == None && cursor == old(cursor)
    {
      hide IntAt, IntBytes, Holds, HoldsAt, At, Round4;
      ghost var c := cursor;
      if vs == [] {
        HoldsNothing(Content(), c, size);
      } else {
        HoldsHead(Content(), c, size, vs);
        HoldsTag(Content(), c, vs[0]);
      }
      var ok := Check(FTK_TYPE_STRING);
      if !ok {
        return None;
      }
      HoldsString(Content(), c, vs[0].text);
      var len := Strlen(cursor, cursor + |vs[0].text|);
      v := Some(data[cursor..cursor + len]);
      assert data[cursor..cursor + len] == Content()[cursor..cursor + len];
      cursor := cursor + Round4(len + 1);
    }

    /** strlen of the C string at `start`; its NUL is at `end`. */
    method Strlen(start: nat, ghost end: nat) returns (len: nat)
      requires Valid() && start <= end < size && Content()[end] == 0
      requires forall k :: start <= k < end ==> Content()[k] != 0
      ensures len == end - start
    {
      len := 0;
      assert data[end] == Content()[end];
      while data[start + len] != 0
        invariant start + len <= end
        decreases end - len
      {
        assert data[start + len] == Content()[start + len];
        len := len + 1;
      }
    }

    /** fbus_parcel_get_data_size */
    method GetDataSize() returns (n: int32)
      requires Valid() && cursor + 4 <= size && (IntAt(Content(), cursor) == FTK_TYPE_BINARY ==> cursor + 8 <= size)
      ensures n == if IntAt(Content(), cursor) == FTK_TYPE_BINARY then IntAt(Content(), cursor + 4) else -1
    {
      hide IntAt;
      if IntAt(data[..size], cursor) != FTK_TYPE_BINARY {
        return -1;
      }
      n := IntAt(data[..size], cursor + 4);
    }

    /** Data are next, as the tag has it. */
    ghost predicate DataNext()
      requires Valid()
      reads this, data
    {
      cursor + 8 <= size && IntAt(Content(), cursor) == FTK_TYPE_BINARY
    }

    /** fbus_parcel_get_data; if data are next, the caller asks for exactly the size that is stored. */
    method GetData(want: nat, ghost vs: seq<Value>) returns (v: Option<seq<byte>>)
      requires Valid() && (DataNext() ==> Unread(vs) && vs != [] && vs[0].DataV? && |vs[0].data| == want)
      modifies this`cursor
      ensures Valid() && (v.Some? <==> old(DataNext()))
      ensures v.None? ==> cursor == old(cursor)
      ensures old(Unread(vs)) && vs != [] && vs[0].DataV? ==> v == Some(vs[0].data) && Unread(vs[1..])
    {
      hide IntAt, IntBytes, Holds, HoldsAt, At, Round4;
      ghost var c := cursor;
      if Unread(vs) && vs != [] {
        HoldsHead(Content(), c, size, vs);
        HoldsTag(Content(), c, vs[0]);
      }
      var ok := Check(FTK_TYPE_BINARY);
      if !ok {
        return None;
      }
      HoldsHead(Content(), c, size, vs);
      HoldsTag(Content(), c, vs[0]);
      HoldsNumber(Content(), c, vs[0]);
      var n := GetRawInt(false);
      assert n == want;
      v := Some(data[cursor..cursor + n]);
      assert data[cursor..cursor + n] == Content()[cursor..cursor + n];
      cursor := cursor + Round4(n);
    }

    // -------------------------------------------------------------- a whole list

    /** The getter that matches the kind. */
    method Read(kind: Kind, ghost vs: seq<Value>) returns (v: Value)
      requires Valid() && Unread(vs) && vs != [] && KindOf(vs[0]) == kind
      modifies this`cursor
      ensures Valid() && v == vs[0] && Unread(vs[1..])
    {
      hide Holds, IntAt;
      match kind {
        case CharK =>
          var c := GetChar(vs);
          v := CharV(c);
        case ShortK =>
          var s := GetShort(vs);
          v := ShortV(s);
        case IntK =>
          var i := GetInt(vs);
          v := IntV(i);
        case StringK =>
          var t := GetString(vs);
          v := StringV(t.value);
        case DataK =>
          SizeOfData(Content(), cursor, size, vs);
          var n := GetDataSize();
          var d := GetData(n, vs);
          v := DataV(d.value);
      }
    }

    /** Writes a whole list into an empty parcel. */
    method WriteAll(vs: seq<Value>)
      requires Valid() && size == 0 && forall k :: 0 <= k < |vs| ==> ValueOk(vs[k])
      modifies this, data
      ensures Valid() && cursor == size && Written(vs)
      ensures data == old(data) || fresh(data)
    {
      assert vs[..0] == [] && Written([]);
      for i := 0 to |vs|
        invariant Valid() && cursor == size && Written(vs[..i])
        invariant data == old(data) || fresh(data)
      {
        hide Holds;
        assert vs[..i + 1] == vs[..i] + [vs[i]];
        Write(vs[i], vs[..i]);
      }
      assert vs[..|vs|] == vs;
    }

    /** Reads a list of known kinds. */
    method ReadAll(kinds: seq<Kind>, ghost vs: seq<Value>) returns (r: seq<Value>)
      requires Valid() && Unread(vs) && |kinds| == |vs|
      requires forall k :: 0 <= k < |vs| ==> KindOf(vs[k]) == kinds[k]
      modifies this`cursor
      ensures Valid() && r == vs && cursor == size
    {
      hide Holds;
      r := [];
      assert vs[0..] == vs;
      for i := 0 to |kinds|
        invariant Valid() && Unread(vs[i..]) && r == vs[..i]
      {
        var v := Read(kinds[i], vs[i..]);
        assert vs[i..][1..] == vs[i + 1..];
        assert vs[..i + 1] == vs[..i] + [v];
        r := r + [v];
      }
      assert vs[|vs|..] == [] && vs[..|vs|] == vs;
      HoldsNothing(Content(), cursor, size);
    }

    /** Writing a list, going back to the start and reading it gives the same list. */
    method RoundTrip(vs: seq<Value>) returns (r: seq<Value>)
      requires Valid() && size == 0 && forall k :: 0 <= k < |vs| ==> ValueOk(vs[k])
      modifies this, data
      ensures Valid() && r == vs && cursor == size && Aligned(size)
    {
      hide Holds;
      WriteAll(vs);
      var _ := SetCursor(0);
      HoldsAligned(Content(), 0, size, vs);
      r := ReadAll(seq(|vs|, i requires 0 <= i < |vs| => KindOf(vs[i])), vs);
    }
  }

  lemma HoldsHead(s: seq<byte>, i: nat, j: nat, vs: seq<Value>)
    requires Holds(s, i, j, vs) && vs != []
    ensures HoldsAt(s, i, vs[0]) && Holds(s, i + Size(vs[0]), j, vs[1..])
    ensures i + Size(vs[0]) <= j <= |s|
  {
    hide HoldsAt, Size;
    HoldsBounds(s, i, j, vs);
    HoldsBounds(s, i + Size(vs[0]), j, vs[1..]);
  }

  lemma HoldsNothing(s: seq<byte>, i: nat, j: nat)
    ensures Holds(s, i, j, []) <==> i == j <= |s|
  {
  }

  lemma WordRound4()
    ensures Round4(4) == 4
  {
  }

  /** `s` with `part` copied over it at `i`. */
  function Splice(s: seq<byte>, i: nat, part: seq<byte>): (r: seq<byte>)
    requires i + |part| <= |s|
    ensures |r| == |s|
  {
    s[..i] + part + s[i + |part|..]
  }

  lemma SpliceNothing(s: seq<byte>, i: nat)
    requires i <= |s|
    ensures Splice(s, i, []) == s
  {
  }

  lemma SpliceMore(s: seq<byte>, i: nat, part: seq<byte>, k: nat)
    requires i + |part| <= |s| && k < |part|
    ensures Splice(s, i, part[..k])[i + k := part[k]] == Splice(s, i, part[..k + 1])
  {
  }

  /** Three parts copied one behind the other all stand there, and nothing in front has changed. */
  lemma ThreeSplices(s: seq<byte>, i: nat, a: seq<byte>, b: seq<byte>, c: seq<byte>, n: nat)
    requires i + |a| + |b| + |c| <= n <= |s|
    ensures var r := Splice(Splice(Splice(s, i, a), i + |a|, b), i + |a| + |b|, c);
            && At(r[..n], i, a) && At(r[..n], i + |a|, b) && At(r[..n], i + |a| + |b|, c)
            && r[..i] == s[..i]
  {
    var r := Splice(Splice(Splice(s, i, a), i + |a|, b), i + |a| + |b|, c);
    assert r == s[..i] + a + b + c + s[i + |a| + |b| + |c|..];
  }

  lemma AtConcat(s: seq<byte>, i: nat, a: seq<byte>, b: seq<byte>)
    requires At(s, i, a) && At(s, i + |a|, b)
    ensures At(s, i, a + b)
  {
    forall k | 0 <= k < |a + b|
      ensures s[i + k] == (a + b)[k]
    {
      if k >= |a| {
        assert s[i + |a| + (k - |a|)] == b[k - |a|];
      }
    }
  }

  lemma AppendValue(before: seq<byte>, after: seq<byte>, m: nat, vs: seq<Value>, v: Value)
    requires Holds(before, 0, m, vs) && m <= |before| && m <= |after|
    requires forall k :: 0 <= k < m ==> after[k] == before[k]
    requires HoldsAt(after, m, v)
    ensures Holds(after, 0, m + Size(v), vs + [v])
  {
    HoldsSame(before, after, 0, m, vs);
    assert Holds(after, m, m + Size(v), [v]);
    HoldsAppend(after, 0, m, m + Size(v), vs, [v]);
  }

  lemma SizeOfData(s: seq<byte>, i: nat, j: nat, vs: seq<Value>)
    requires Holds(s, i, j, vs) && vs != [] && vs[0].DataV? && j == |s|
    ensures i + 8 <= |s| && IntAt(s, i) == FTK_TYPE_BINARY && IntAt(s, i + 4) == |vs[0].data|
  {
    HoldsTag(s, i, vs[0]);
    HoldsNumber(s, i, vs[0]);
    hide IntAt, IntBytes;
  }
}
