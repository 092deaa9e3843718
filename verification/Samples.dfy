/** Blocks of samples, over the reals. */
module Samples {

  function Sq(x: real): (r: real)
    ensures r >= 0.0
  {
    x * x
  }

  function Zeros(n: nat): (z: seq<real>)
    ensures |z| == n
  {
    seq(n, _ => 0.0)
  }
}
