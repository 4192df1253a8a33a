/** Vectors of reals. */
module Vectors {
  type Vec = seq<real>

  function RealAbs(x: real): (a: real)
    ensures a >= 0.0 && a >= x && a >= -x
  {
    if x < 0.0 then -x else x
  }

  function Dot(a: Vec, b: Vec): real
    requires |a| == |b|
  {
    if a == [] then 0.0 else a[0] * b[0] + Dot(a[1..], b[1..])
  }

  /** The sum of the magnitudes of the products, which bounds every accumulation error. */
  function AbsDot(a: Vec, b: Vec): (d: real)
    requires |a| == |b|
    ensures d >= 0.0
  {
    if a == [] then 0.0 else RealAbs(a[0] * b[0]) + AbsDot(a[1..], b[1..])
  }

  function SumSq(a: Vec): (s: real)
    ensures s >= 0.0
  {
    if a == [] then 0.0 else a[0] * a[0] + SumSq(a[1..])
  }

  function Minus(a: Vec, b: Vec): (d: Vec)
    requires |a| == |b|
    ensures |d| == |a|
  {
    seq(|a|, i requires 0 <= i < |a| => a[i] - b[i])
  }

  function Plus(a: Vec, b: Vec): (d: Vec)
    requires |a| == |b|
    ensures |d| == |a|
  {
    seq(|a|, i requires 0 <= i < |a| => a[i] + b[i])
  }

  function Mul(a: real, b: real): real { a * b }

  lemma NonNegativeProduct(a: real, b: real)
    requires a >= 0.0 && b >= 0.0
    ensures Mul(a, b) >= 0.0
  {
  }

  function Times(c: real, a: Vec): (d: Vec)
    ensures |d| == |a|
  {
    if a == [] then [] else [Mul(c, a[0])] + Times(c, a[1..])
  }

  function Neg(a: Vec): (d: Vec)
    ensures |d| == |a|
  {
    seq(|a|, i requires 0 <= i < |a| => -a[i])
  }
}
