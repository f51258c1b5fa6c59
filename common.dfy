/** Small helpers shared by the modules of the model. */
module Common {

  /** A value that may be absent (a JavaScript `undefined` or `null`). */
  datatype Option<T> = None | Some(value: T)

  /** `Math.max` of two reals. */
  function MaxReal(a: real, b: real): real {
    if a >= b then a else b
  }

  /** `Math.max` of two integers. */
  function MaxInt(a: int, b: int): int {
    if a >= b then a else b
  }

  /** `Math.min` of two integers. */
  function MinInt(a: int, b: int): int {
    if a <= b then a else b
  }

  /** x to the power k. */
  function Pow(x: real, k: nat): real {
    if k == 0 then 1.0 else x * Pow(x, k - 1)
  }

  /** A power of a positive number is positive. */
  lemma {:induction false} PowPositive(x: real, k: nat)
    requires 0.0 < x
    ensures 0.0 < Pow(x, k)
  {
    if k > 0 {
      PowPositive(x, k - 1);
    }
  }
}
