/** Small real-number helpers shared by the game modules. */
module Numeric {

  function Abs(x: real): real { if x < 0.0 then -x else x }
  function Max(a: real, b: real): real { if a >= b then a else b }
  function Min(a: real, b: real): real { if a <= b then a else b }

  /** A `Math.random()` draw: in [0, 1). */
  predicate InUnit(u: real) { 0.0 <= u < 1.0 }
}
