/** Bytes, and the little about byte strings that several models need. */
module Octets {
  type Byte = b: int | 0 <= b < 256
  type Bytes = seq<Byte>

  function Zeros(n: nat): (r: Bytes)
    ensures |r| == n && forall i :: 0 <= i < n ==> r[i] == 0
  {
    seq(n, _ => 0)
  }
}
