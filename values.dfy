/** Small value types shared by the analysis modules. */
module Values {

  datatype Option<+T> = None | Some(value: T)

  datatype Result<+T, +E> = Ok(value: T) | Err(error: E)

  /** The outcome of a floating-point division `n / d`: a real quotient, or
      the infinity / NaN that IEEE division produces when `d` is zero
      (which infinity, or NaN, is not distinguished). */
  datatype Quotient = Finite(value: real) | DivisionByZero

  function Divide(n: real, d: real): (q: Quotient)
    ensures q.Finite? <==> d != 0.0
  {
    if d == 0.0 then DivisionByZero else Finite(n / d)
  }

  /** A finite quotient multiplied back by the divisor gives the dividend. */
  lemma DivideExact(n: real, d: real)
    ensures Divide(n, d).Finite? ==> Divide(n, d).value * d == n
  {
  }

  function Max(a: int, b: int): int { if a < b then b else a }

  function Min(a: int, b: int): int { if a < b then a else b }
}
