/** Small functions on real numbers. */
module Reals {

  function Abs(x: real): real { if x < 0.0 then -x else x }

  function MaxReal(a: real, b: real): real { if a > b then a else b }
}
