/** Bytes, written as numbers, and the bytes of an ASCII literal. */
module ByteStrings {
  type Byte = b: int | 0 <= b < 0x100
  type Bytes = seq<Byte>

  function Ascii(s: string): Bytes {
    seq(|s|, i requires 0 <= i < |s| => if s[i] as int < 0x80 then s[i] as int else 0)
  }
}
