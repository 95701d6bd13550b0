/** Absolute values and products of vectors. */
module Reals {

  function Abs(v: real): (r: real)
    ensures r >= 0.0 && -r <= v <= r && (r == v || r == -v)
  {
    if v < 0.0 then -v else v
  }

  function Dot(a: seq<real>, b: seq<real>): real
    requires |a| == |b|
  {
    if a == [] then 0.0 else a[0] * b[0] + Dot(a[1..], b[1..])
  }
}
