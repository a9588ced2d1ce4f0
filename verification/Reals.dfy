/** The few operations on reals that the timed loops share. */
module Reals {
  function Min(a: real, b: real): real { if a <= b then a else b }

  function Max(a: real, b: real): real { if a >= b then a else b }

  function NotNegative(r: real): real { Max(r, 0.0) }
}
