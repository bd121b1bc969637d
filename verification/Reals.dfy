/** Points of the map plane, and facts about reals that several proofs cite. */
module Reals {

  datatype Point = Point(x: real, y: real)

  /** A product that proofs can hide. */
  function Times(a: real, b: real): real {
    a * b
  }

  lemma DivideOrdered(a: real, b: real, d: real)
    requires a <= b && d > 0.0
    ensures a / d <= b / d
  {
    var x, y := a / d, b / d;
    assert x * d == a && y * d == b;
    assert (y - x) * d >= 0.0;
  }
}
