/** Bit vectors as sequences, and the operators on them that do not depend on which end is the most significant. */
module Vectors {
  type Bits = seq<bool>

  /** Each bit moves `k` places to a higher index; `<<` of a vector kept bit 0 first. */
  function Later(v: Bits, k: nat): (r: Bits)
    ensures |r| == |v| && forall i :: 0 <= i < |r| ==> r[i] == (i >= k && v[i - k])
  {
    seq(|v|, i requires 0 <= i < |v| => i >= k && v[i - k])
  }

  /** Each bit moves `k` places to a lower index. */
  function Sooner(v: Bits, k: nat): (r: Bits)
    ensures |r| == |v| && forall i :: 0 <= i < |r| ==> r[i] == (i + k < |v| && v[i + k])
  {
    seq(|v|, i requires 0 <= i < |v| => i + k < |v| && v[i + k])
  }

  function And(v: Bits, w: Bits): (r: Bits)
    requires |v| == |w|
    ensures |r| == |v| && forall i :: 0 <= i < |r| ==> r[i] == (v[i] && w[i])
  {
    seq(|v|, i requires 0 <= i < |v| => v[i] && w[i])
  }

  function Or(v: Bits, w: Bits): (r: Bits)
    requires |v| == |w|
    ensures |r| == |v| && forall i :: 0 <= i < |r| ==> r[i] == (v[i] || w[i])
  {
    seq(|v|, i requires 0 <= i < |v| => v[i] || w[i])
  }

  function Not(v: Bits): (r: Bits)
    ensures |r| == |v| && forall i :: 0 <= i < |r| ==> r[i] == !v[i]
  {
    seq(|v|, i requires 0 <= i < |v| => !v[i])
  }
}
