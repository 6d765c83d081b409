/** Bytes, the character codes the HTTP grammar names, and the character classes
    of src/http_parser.c in its strict build. */
module Ascii {

  type byte = x: int | 0 <= x < 256
  type bytes = seq<byte>

  datatype Option<+T> = None | Some(value: T)

  const TAB: byte := 9
  const LF: byte := 10
  const FF: byte := 12
  const CR: byte := 13
  const SP: byte := 32

  predicate IsUpper(b: byte) { 65 <= b <= 90 }

  /** LOWER(c): the byte with bit 5 set, whatever the byte is. */
  function Lower(b: byte): (r: byte)
    ensures r >= 32
    ensures r == 45 ==> b == 45 || b == CR
    ensures 97 <= r <= 122 ==> b == r || (b == r - 32 && IsUpper(b))
  {
    if (b / 32) % 2 == 1 then b else b + 32
  }

  predicate IsNum(b: byte) { 48 <= b <= 57 }

  predicate IsAlpha(b: byte) { 97 <= Lower(b) <= 122 }

  predicate IsAlphaNum(b: byte) { IsAlpha(b) || IsNum(b) }

  predicate IsHexLetter(b: byte) { 97 <= Lower(b) <= 102 }

  predicate IsHex(b: byte) { IsNum(b) || IsHexLetter(b) }

  /** `- _ . ! ~ * ' ( )` */
  predicate IsMark(b: byte) {
    b == 45 || b == 95 || b == 46 || b == 33 || b == 126 || b == 42 || b == 39 || b == 40 || b == 41
  }

  /** Alphanumerics, marks and `% ; : & = + $ ,` */
  predicate IsUserinfo(b: byte) {
    IsAlphaNum(b) || IsMark(b) || b == 37 || b == 59 || b == 58 || b == 38 || b == 61 || b == 43 || b == 36 || b == 44
  }

  predicate IsHostChar(b: byte) { IsAlphaNum(b) || b == 46 || b == 45 }

  /** normal_url_char: printable ASCII except `#` and `?`; nothing above 127. */
  predicate IsUrlChar(b: byte) { 33 <= b <= 126 && b != 35 && b != 63 }

  /** The tokens table: 0 for a byte that is not a token character, otherwise the byte in lower case. */
  function Token(b: byte): (c: byte)
    ensures c != 0 ==> 33 <= b <= 126
    ensures c != 0 && !IsUpper(b) ==> c == b
  {
    if IsUpper(b) then b + 32
    else if b == 33 || 35 <= b <= 39 || b == 42 || b == 43 || b == 45 || b == 46 || IsNum(b)
            || 94 <= b <= 122 || b == 124 || b == 126 then b
    else 0
  }

  /** The unhex table as it is initialised. Only its first 128 entries are written out; C fills the
      rest with 0, so a byte above 127 reads as the digit 0 and not as "no digit". */
  function Unhex(b: byte): (v: int)
    ensures -1 <= v <= 15
  {
    if b >= 128 then 0
    else if IsNum(b) then b - 48
    else if 65 <= b <= 70 then b - 55
    else if 97 <= b <= 102 then b - 87
    else -1
  }

  /** The concatenation of the pieces a stream arrives in. */
  function Flatten(pieces: seq<bytes>): bytes
  {
    if pieces == [] then [] else Flatten(pieces[..|pieces| - 1]) + pieces[|pieces| - 1]
  }

  lemma {:induction false} FlattenSplit(pieces: seq<bytes>, i: nat)
    requires i <= |pieces|
    ensures Flatten(pieces) == Flatten(pieces[..i]) + Flatten(pieces[i..])
    decreases |pieces|
  {
    if i == |pieces| {
      assert pieces[..i] == pieces;
    } else {
      var init := pieces[..|pieces| - 1];
      FlattenSplit(init, i);
      assert init[..i] == pieces[..i];
      assert pieces[i..][..|pieces| - i - 1] == init[i..];
    }
  }

  lemma AppendFlat(pieces: seq<bytes>, p: bytes)
    ensures Flatten(pieces + [p]) == Flatten(pieces) + p
  {
    assert (pieces + [p])[..|pieces|] == pieces;
  }
}
