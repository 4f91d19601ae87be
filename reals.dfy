/** Real arithmetic shared by the key and the rate computations. */
module Reals {
  /** A product kept behind a function symbol, so that the solver matches it by congruence
      instead of reasoning about nonlinear arithmetic. */
  function Times(x: real, y: real): real
  {
    x * y
  }
}
