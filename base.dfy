/** Values shared by every layer: bytes, exceptions and the two ways an operation can end. */
module Base {

  /** One octet of a Python `bytes` value. */
  newtype byte = b: int | 0 <= b < 0x100

  /** A Python exception, reduced to its description. */
  datatype Error = Error(description: string)

  /** How a call that returns nothing ends: normally, or by raising. */
  datatype Outcome = Pass | Fail(error: Error)

  /** How a call that returns a value ends: with the value, or by raising. */
  datatype Result<T> = Success(value: T) | Failure(error: Error)

  /** A Python value that may be `None`. */
  datatype Option<T> = None | Some(value: T)

  /**
   * Of `n` calls in a row whose `j`-th ends as `outcomes(j)`, the index of
   * the first one that raises, or `n` when none does.
   */
  function FirstFailure(outcomes: nat -> Outcome, n: nat): (k: nat)
    ensures k <= n
    ensures forall j :: 0 <= j < k ==> outcomes(j) == Pass
    ensures k < n ==> outcomes(k).Fail?
    decreases n
  {
    if n == 0 then 0
    else
      var k := FirstFailure(outcomes, n - 1);
      if k < n - 1 then k
      else if outcomes(n - 1).Fail? then n - 1
      else n
  }
}
