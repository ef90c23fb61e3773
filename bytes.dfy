/** Octets as they appear on the wire and in transactions. */
module Bytes {

  type Byte = x: int | 0 <= x < 0x100

  type Bytes = seq<Byte>

  /** The bytes of an ASCII string. */
  function Ascii(s: string): (b: Bytes)
    requires forall i :: 0 <= i < |s| ==> s[i] as int < 0x80
    ensures |b| == |s| && forall i :: 0 <= i < |s| ==> b[i] == s[i] as int
  {
    seq(|s|, i requires 0 <= i < |s| => s[i] as int)
  }
}
