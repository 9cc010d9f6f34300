/** Byte strings written as text. */
module AsciiText {
  import opened Bits

  function AsciiByte(c: char): byte {
    if c as int < 128 then c as int else 63
  }

  /** The bytes of an ASCII text. */
  function Ascii(s: string): (bytes: seq<byte>)
    ensures |bytes| == |s|
  {
    seq(|s|, i requires 0 <= i < |s| => AsciiByte(s[i]))
  }
}
