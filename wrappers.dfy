/** Option and Result types shared by every module, with the Python
    exceptions the modelled code can raise named explicitly. */
module Wrappers {

  datatype Option<+T> = None | Some(value: T)

  /** The exception classes raised on the modelled paths. */
  datatype PyError =
    | ValueError
    | KeyError
    | IndexError
    | OverflowError
    | ZeroDivisionError
    | StopIteration
    | TypeError

  datatype Result<+T> = Success(value: T) | Failure(error: PyError) {
    predicate IsFailure() { Failure? }

    function PropagateFailure<U>(): Result<U>
      requires Failure?
    {
      Failure(error)
    }

    function Extract(): T
      requires Success?
    {
      value
    }
  }

  /** Python's `int()` applied to a float: truncation toward zero. */
  function PyInt(x: real): (r: int)
    ensures x >= 0.0 ==> r >= 0 && r as real <= x < r as real + 1.0
    ensures x < 0.0 ==> r <= 0 && r as real - 1.0 < x <= r as real
  {
    if x >= 0.0 then x.Floor else -((-x).Floor)
  }
}
