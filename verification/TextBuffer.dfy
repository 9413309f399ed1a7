/** The text buffer of src/ftk_text_buffer.c: a growing byte array, edited in place. */
module TextBuffers {
  import opened Bytes
  import opened TextCodec
  import opened Utf8Chars

  function Inserted(s: seq<byte>, offset: nat, t: seq<byte>): seq<byte>
    requires offset <= |s|
  {
    s[..offset] + t + s[offset..]
  }

  /** Deleting `n` bytes at `offset`, or as many as there are. */
  function Deleted(s: seq<byte>, offset: nat, n: nat): seq<byte> {
    if offset >= |s| then s
    else if offset + n < |s| then s[..offset] + s[offset + n..]
    else s[..offset]
  }

  /** How many characters the forward loop takes: it also stops behind one whose unit is zero. */
  function Steps(vs: seq<scalar>, k: nat, count: nat): (n: nat)
    requires k <= |vs|
    ensures k + n <= |vs| && n <= count
    decreases count
  {
    if count == 0 || k == |vs| then 0
    else if Unit(vs[k]) == 0 then 1
    else 1 + Steps(vs, k + 1, count - 1)
  }

  /** `vs` without `count` characters behind `k`, or without `-count` in front of it. */
  function WithoutChars(vs: seq<scalar>, k: nat, count: int): seq<scalar>
    requires k <= |vs|
  {
    if count > 0 then vs[..k] + vs[k + Steps(vs, k, count)..]
    else vs[..if -count < k then k + count else 0] + vs[k..]
  }

  class TextBuffer {
    var buffer: array<byte>
    var length: nat

    ghost predicate Valid()
      reads this, buffer
    {
      length < buffer.Length && buffer[length] == 0
    }

    ghost function Text(): (t: seq<byte>)
      requires Valid()
      reads this, buffer
    {
      buffer[..length]
    }

    /** ftk_text_buffer_create; there must be room for the NUL. */
    constructor (initBufferLength: nat)
      requires initBufferLength > 0
      ensures Valid() && Text() == [] && fresh(buffer) && buffer.Length == initBufferLength
    {
      length := 0;
      buffer := new byte[initBufferLength];
      new;
      buffer[0] := 0;
    }

    /** ftk_text_buffer_extend */
    method Extend(n: nat)
      requires Valid()
      modifies this`buffer
      ensures Valid() && Text() == old(Text()) && length + n < buffer.Length
      ensures buffer == old(buffer) || fresh(buffer)
    {
      if length + n < buffer.Length {
        return;
      }
      var size := buffer.Length + n + 10;
      size := size + size / 2;
      var larger := new byte[size];
      forall i | 0 <= i <= length {
        larger[i] := buffer[i];
      }
      buffer := larger;
    }

    /** The loop that makes room, from the end backwards so that nothing is overwritten too early. */
    method ShiftRight(offset: nat, n: nat)
      requires offset <= length && length + n < buffer.Length
      modifies buffer
      ensures buffer[..offset] == old(buffer[..offset])
      ensures buffer[offset + n..length + n] == old(buffer[offset..length])
    {
      ghost var m := buffer[..];
      var left: nat := length - offset;
      while left != 0
        invariant left <= length - offset && offset <= length && length + n < buffer.Length == |m|
        invariant buffer[..offset + left] == m[..offset + left]
        invariant buffer[offset + left + n..length + n] == m[offset + left..length]
        decreases left
      {
        left := left - 1;
        ghost var tail := buffer[offset + left + 1 + n..length + n];
        assert buffer[offset + left] == buffer[..offset + left + 1][offset + left] == m[offset + left];
        buffer[offset + left + n] := buffer[offset + left];
        assert buffer[offset + left + n..length + n] == [m[offset + left]] + tail;
      }
    }

    /** Copies `t` to `offset`. */
    method CopyIn(offset: nat, t: seq<byte>)
      requires offset + |t| < buffer.Length
      modifies buffer
      ensures buffer[..offset] == old(buffer[..offset]) && buffer[offset..offset + |t|] == t
      ensures buffer[offset + |t|..] == old(buffer[offset + |t|..])
    {
      for i := 0 to |t|
        invariant forall k :: 0 <= k < i ==> buffer[offset + k] == t[k]
        invariant forall k :: 0 <= k < buffer.Length && !(offset <= k < offset + i) ==> buffer[k] == old(buffer[k])
      {
        buffer[offset + i] := t[i];
      }
    }

    /** The two copying loops of ftk_text_buffer_insert. */
    method InsertBytes(offset: nat, t: seq<byte>)
      requires Valid() && offset <= length && length + |t| + 1 < buffer.Length
      modifies this`length, buffer
      ensures Valid() && Text() == Inserted(old(Text()), offset, t)
    {
      hide Inserted;
      ghost var m0 := buffer[..];
      if offset < length {
        ShiftRight(offset, |t|);
      }
      ghost var m1 := buffer[..];
      assert m1[..offset] == m0[..offset] && m1[offset + |t|..length + |t|] == m0[offset..length];
      CopyIn(offset, t);
      Assembled(m0, m1, buffer[..], offset, length, t);
      assert buffer[..][..length + |t|] == buffer[..length + |t|];
      length := length + |t|;
      buffer[length] := 0;
    }

    /** ftk_text_buffer_insert; a negative length means the C string at `text`. */
    method Insert(offset: nat, text: seq<byte>, len: int) returns (ok: bool)
      requires Valid() && len <= |text| && (len < 0 ==> 0 in text)
      modifies this, buffer
      ensures Valid() && (buffer == old(buffer) || fresh(buffer))
      ensures ok <==> offset <= |old(Text())|
      ensures Text() == if ok then Inserted(old(Text()), offset, if len < 0 then CString(text) else text[..len])
                        else old(Text())
    {
      var t := if len < 0 then CString(text) else text[..len];
      Extend(|t| + 1);
      ok := offset <= length;
      if ok {
        InsertBytes(offset, t);
      }
    }

    /** The loop that closes the gap, from the front. */
    method ShiftLeft(offset: nat, n: nat)
      requires offset + n <= length < buffer.Length
      modifies buffer
      ensures buffer[..offset] == old(buffer[..offset])
      ensures buffer[offset..length - n] == old(buffer[offset + n..length])
    {
      ghost var m := buffer[..];
      var i := offset;
      while i != length - n
        invariant offset <= i <= length - n && |m| == buffer.Length
        invariant buffer[..offset] == m[..offset]
        invariant buffer[offset..i] == m[offset + n..i + n]
        invariant forall k :: i + n <= k < length ==> buffer[k] == m[k]
        decreases length - n - i
      {
        buffer[i] := buffer[i + n];
        i := i + 1;
      }
    }

    /** ftk_text_buffer_delete */
    method Delete(offset: nat, n: nat)
      requires Valid()
      modifies this`length, buffer
      ensures Valid() && Text() == Deleted(old(Text()), offset, n)
    {
      if offset >= length {
        return;
      }
      ghost var before := Text();
      var m := if offset + n < length then n else length - offset;
      ShiftLeft(offset, m);
      length := length - m;
      assert buffer[..length] == buffer[..offset] + buffer[offset..length];
      assert buffer[..length] == before[..offset] + before[offset + m..];
      buffer[length] := 0;
    }

    // -------------------------------------------------------------- whole characters

    /** The forward loop of ftk_text_buffer_chars_bytes. */
    method Forward(offset: nat, count: nat, ghost vs: seq<scalar>, ghost k: nat) returns (iter: nat)
      requires Valid() && Text() == Utf8Text(vs) && k <= |vs| && offset == Bound(vs, k)
      ensures iter == Bound(vs, k + Steps(vs, k, count)) || (iter == length + 1 && k + Steps(vs, k, count) == |vs|)
    {
      hide Bound, Utf8Text;
      iter := offset;
      var left: nat, i: nat := count, 0;
      assert buffer[..length + 1] == CText(vs);
      while left > 0
        invariant left + i == count && k + i <= |vs| && iter == Bound(vs, k + i)
        invariant i + Steps(vs, k + i, left) == Steps(vs, k, count)
      {
        CharAtBound(vs, k + i);
        var unit;
        unit, iter := GetChar(buffer[..length + 1], iter);
        if unit == 0 {
          BoundEnds(vs);
          return;
        }
        left, i := left - 1, i + 1;
      }
    }

    /** The backward loop. */
    method Backward(offset: nat, count: nat, ghost vs: seq<scalar>, ghost k: nat) returns (iter: nat)
      requires Valid() && Text() == Utf8Text(vs) && k <= |vs| && offset == Bound(vs, k) && (count > 0 ==> offset > 0)
      ensures iter == Bound(vs, if count < k then k - count else 0)
    {
      hide Bound, Utf8Text;
      iter := offset;
      BoundEnds(vs);
      var left: nat, i: nat := count, 0;
      assert buffer[..length + 1] == CText(vs);
      while left > 0
        invariant left + i == count && i <= k && iter == Bound(vs, k - i) && (left > 0 ==> iter > 0)
      {
        BoundGrows(vs, 0, k - i);
        BoundGrows(vs, k - i, |vs|);
        PrevAtBound(vs, k - i);
        BoundBefore(vs, k - i);
        var unit;
        unit, iter := GetPrevChar(buffer[..length + 1], iter);
        left, i := left - 1, i + 1;
        if iter <= 0 {
          BoundGrows(vs, 0, k - i);
          assert i == k;
          return;
        }
      }
    }

    /** ftk_text_buffer_chars_bytes for an offset on a character boundary */
    method CharsBytes(offset: int, count: int, ghost vs: seq<scalar>, ghost k: nat) returns (n: int)
      requires Valid() && Text() == Utf8Text(vs) && k <= |vs| && (0 <= offset <= length ==> offset == Bound(vs, k))
      ensures if !(0 <= offset <= length && 0 <= offset + count <= length) then n == 0
              else if count > 0
              then offset + n == Bound(vs, k + Steps(vs, k, count))
                   || (offset + n == length + 1 && k + Steps(vs, k, count) == |vs|)
              else offset + n == Bound(vs, if -count < k then k + count else 0) || (n == 0 && count == 0)
    {
      if !(offset <= length && offset >= 0) {
        return 0;
      }
      if offset + count > length || offset + count < 0 {
        return 0;
      }
      var iter;
      if count > 0 {
        iter := Forward(offset, count, vs, k);
      } else {
        iter := Backward(offset, -count, vs, k);
      }
      n := iter - offset;
    }

    /** ftk_text_buffer_delete_chars: whole characters go, to the right or to the left of `offset`. */
    method DeleteChars(offset: int, count: int, ghost vs: seq<scalar>, ghost k: nat) returns (ok: bool)
      requires Valid() && Text() == Utf8Text(vs) && k <= |vs| && (0 <= offset <= length ==> offset == Bound(vs, k))
      modifies this`length, buffer
      ensures Valid() && (ok <==> 0 <= offset <= |old(Text())| && 0 <= offset + count <= |old(Text())| && count != 0)
      ensures Text() == Utf8Text(if ok then WithoutChars(vs, k, count) else vs)
    {
      hide Bound, Utf8Text, Deleted, Steps, WithoutChars;
      if !(offset <= length && offset >= 0) {
        return false;
      }
      if !(offset + count <= length && offset + count >= 0) {
        return false;
      }
      var n := CharsBytes(offset, count, vs, k);
      CharsMove(vs, k, count);
      CharsDeleted(vs, k, count, n);
      if n == 0 {
        return false;
      }
      if n < 0 {
        Delete(offset + n, -n);
      } else {
        Delete(offset, n);
      }
      ok := true;
    }
  }

  /** The range that chars_bytes found holds exactly the characters in question. */
  lemma CharsDeleted(vs: seq<scalar>, k: nat, count: int, n: int)
    requires k <= |vs| && 0 <= Bound(vs, k) + count <= |Utf8Text(vs)|
    requires if count > 0
             then Bound(vs, k) + n == Bound(vs, k + Steps(vs, k, count))
                  || (Bound(vs, k) + n == |Utf8Text(vs)| + 1 && k + Steps(vs, k, count) == |vs|)
             else Bound(vs, k) + n == Bound(vs, if -count < k then k + count else 0) || (n == 0 && count == 0)
    ensures n > 0 <==> count > 0
    ensures n < 0 <==> count < 0
    ensures n > 0 ==> Deleted(Utf8Text(vs), Bound(vs, k), n) == Utf8Text(WithoutChars(vs, k, count))
    ensures n < 0 ==> Bound(vs, k) + n >= 0
    ensures n < 0 ==> Deleted(Utf8Text(vs), Bound(vs, k) + n, -n) == Utf8Text(WithoutChars(vs, k, count))
  {
    hide Bound, Utf8Text, Deleted, Steps;
    CharsMove(vs, k, count);
    BoundEnds(vs);
    if count < 0 {
      RangeDeleted(vs, if -count < k then k + count else 0, k);
    } else if count > 0 {
      RangeDeleted(vs, k, k + Steps(vs, k, count));
      DeletedTail(Utf8Text(vs), Bound(vs, k), n);
    }
  }

  /** If no character has a zero unit, exactly as many go as were asked for or are left. */
  lemma {:induction false} StepsOfPlain(vs: seq<scalar>, k: nat, count: nat)
    requires k <= |vs| && forall i :: k <= i < |vs| ==> Unit(vs[i]) != 0
    ensures Steps(vs, k, count) == if count < |vs| - k then count else |vs| - k
    decreases count
  {
    if count > 0 && k < |vs| {
      StepsOfPlain(vs, k + 1, count - 1);
    }
  }

  lemma CharsMove(vs: seq<scalar>, k: nat, count: int)
    requires k <= |vs| && 0 <= Bound(vs, k) + count <= |Utf8Text(vs)|
    ensures count > 0 ==> Bound(vs, k) < Bound(vs, k + Steps(vs, k, count))
    ensures count < 0 ==> Bound(vs, if -count < k then k + count else 0) < Bound(vs, k)
  {
    hide Bound, Utf8Text;
    BoundEnds(vs);
    if count > 0 {
      BoundGrows(vs, k, k + Steps(vs, k, count));
    } else if count < 0 {
      BoundGrows(vs, if -count < k then k + count else 0, k);
    }
  }

  lemma BoundIs(vs: seq<scalar>, k: nat)
    requires k <= |vs|
    ensures Bound(vs, k) == |Utf8Text(vs[..k])|
  {
  }

  lemma MiddleDeleted(a: seq<byte>, m: seq<byte>, c: seq<byte>)
    requires m != []
    ensures Deleted(a + m + c, |a|, |m|) == a + c
  {
  }

  lemma RangeDeleted(vs: seq<scalar>, i: nat, j: nat)
    requires i < j <= |vs|
    ensures Bound(vs, i) < Bound(vs, j) <= |Utf8Text(vs)|
    ensures Deleted(Utf8Text(vs), Bound(vs, i), Bound(vs, j) - Bound(vs, i)) == Utf8Text(vs[..i] + vs[j..])
  {
    hide Utf8Text, Deleted, Bound;
    BoundGrows(vs, i, j);
    BoundIs(vs, i);
    BoundIs(vs, j);
    assert vs[..j] == vs[..i] + vs[i..j];
    assert vs == vs[..j] + vs[j..];
    TextAppend(vs[..j], vs[j..]);
    TextAppend(vs[..i], vs[i..j]);
    TextAppend(vs[..i], vs[j..]);
    MiddleDeleted(Utf8Text(vs[..i]), Utf8Text(vs[i..j]), Utf8Text(vs[j..]));
  }

  /** Asking for more than there is deletes everything behind the offset. */
  lemma DeletedTail(s: seq<byte>, offset: nat, n: nat)
    requires offset <= |s|
    ensures offset + n == |s| + 1 && offset < |s| ==> Deleted(s, offset, n) == Deleted(s, offset, |s| - offset)
  {
  }

  lemma BoundBefore(vs: seq<scalar>, k: nat)
    requires k <= |vs| && Bound(vs, k) > 0
    ensures k > 0 && Bound(vs, k - 1) < Bound(vs, k)
  {
    if k > 0 {
      BoundGrows(vs, k - 1, k);
    }
  }

  lemma Assembled(m0: seq<byte>, m1: seq<byte>, m2: seq<byte>, offset: nat, length: nat, t: seq<byte>)
    requires offset <= length && length + |t| < |m0| == |m1| == |m2|
    requires m1[..offset] == m0[..offset] && m1[offset + |t|..length + |t|] == m0[offset..length]
    requires m2[..offset] == m1[..offset] && m2[offset..offset + |t|] == t
    requires m2[offset + |t|..] == m1[offset + |t|..]
    ensures m2[..length + |t|] == Inserted(m0[..length], offset, t)
  {
    var n := |t|;
    assert m2[offset + n..length + n] == m2[offset + n..][..length - offset];
    assert m1[offset + n..length + n] == m1[offset + n..][..length - offset];
    assert m2[..length + n] == m2[..offset] + m2[offset..offset + n] + m2[offset + n..length + n];
    assert m0[..length][offset..] == m0[offset..length];
  }

  /** Inserting a text and deleting as much at the same place gives back what was there. */
  lemma InsertThenDelete(s: seq<byte>, offset: nat, t: seq<byte>)
    requires offset <= |s|
    ensures Deleted(Inserted(s, offset, t), offset, |t|) == s
  {
    var u := Inserted(s, offset, t);
    assert offset + |t| <= |u| && u[..offset] == s[..offset] && u[offset + |t|..] == s[offset..];
    assert s == s[..offset] + s[offset..];
  }

  /** Deleting a range and inserting it again gives back what was there. */
  lemma DeleteThenInsert(s: seq<byte>, offset: nat, n: nat)
    requires offset + n <= |s|
    ensures offset <= |Deleted(s, offset, n)|
    ensures Inserted(Deleted(s, offset, n), offset, s[offset..offset + n]) == s
  {
    var d := Deleted(s, offset, n);
    assert d == s[..offset] + s[offset + n..];
    assert d[..offset] == s[..offset] && d[offset..] == s[offset + n..];
  }
}
