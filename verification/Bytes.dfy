module Bytes {
  /** An octet. */
  type Byte = b: nat | b < 256

  function Repeat(b: Byte, n: nat): (r: seq<Byte>)
    ensures |r| == n && forall i :: 0 <= i < n ==> r[i] == b
  {
    seq(n, i => b)
  }
}
