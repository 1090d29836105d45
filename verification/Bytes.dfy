/**
 Texts as the parsers see them: bytes, and a NUL at the end.
 */
module Bytes {

  type Byte = x: int | 0 <= x < 256

  type Text = seq<Byte>

  function ByteAt(text: Text, p: int): Byte {
    if 0 <= p < |text| then text[p] else 0
  }

  predicate Digit(b: Byte) {
    48 <= b <= 57
  }

  /** The value of a hexadecimal digit, or 255. */
  function Hex(b: Byte): Byte {
    if Digit(b) then b - 48
    else if 97 <= b <= 102 then b - 87
    else if 65 <= b <= 70 then b - 55
    else 255
  }

  /** A C string has no NUL in it. */
  predicate NulFree(s: Text) {
    forall i | 0 <= i < |s| :: s[i] != 0
  }
}
