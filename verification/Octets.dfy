/** Bytes. */
module Octets {

  type byte = b: int | 0 <= b < 256

  function Zeros(n: nat): (s: seq<byte>)
    ensures |s| == n
  {
    seq(n, _ => 0)
  }
}
