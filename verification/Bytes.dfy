/** Machine integers and small shared datatypes. */
module Bytes {
  type byte = x: int | 0 <= x < 0x100
  type uint16 = x: int | 0 <= x < 0x1_0000
  type int8 = x: int | -0x80 <= x < 0x80
  type int16 = x: int | -0x8000 <= x < 0x8000
  type int32 = x: int | -0x8000_0000 <= x < 0x8000_0000

  const RET_OK: int32 := 0
  const RET_FAIL: int32 := 1
  const RET_NOT_FOUND: int32 := 12

  datatype Option<+T> = None | Some(value: T)

  function Min(a: int, b: int): int {
    if a < b then a else b
  }

  function Max(a: int, b: int): int {
    if a < b then b else a
  }

  /** The C string that bytes in memory hold: what stands before the first NUL. */
  function CString(b: seq<byte>): (s: seq<byte>)
    ensures |s| <= |b| && 0 !in s
  {
    if b == [] || b[0] == 0 then [] else [b[0]] + CString(b[1..])
  }

  lemma {:induction false} CStringOf(text: seq<byte>, rest: seq<byte>)
    requires 0 !in text && (rest == [] || rest[0] == 0)
    ensures CString(text + rest) == text
  {
    if text == [] {
      assert text + rest == rest;
    } else {
      assert text[0] in text;
      assert (text + rest)[1..] == text[1..] + rest;
      CStringOf(text[1..], rest);
      assert text == [text[0]] + text[1..];
    }
  }
}
