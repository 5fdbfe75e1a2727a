/** Octets and the big-endian integers that the protocols put on the wire. */
module Bytes {
  type byte = x: int | 0 <= x < 256

  const U32 := 0x1_0000_0000
  const U16 := 0x1_0000

  /** The buffer with x written at position `at`. */
  function Overwrite(s: seq<byte>, at: nat, x: seq<byte>): (r: seq<byte>)
    requires at + |x| <= |s|
    ensures |r| == |s|
  {
    s[..at] + x + s[at + |x|..]
  }

  lemma OverwriteAppend(s: seq<byte>, at: nat, x: seq<byte>, y: seq<byte>)
    requires at + |x| + |y| <= |s|
    ensures Overwrite(Overwrite(s, at, x), at + |x|, y) == Overwrite(s, at, x + y)
  {
  }
}
