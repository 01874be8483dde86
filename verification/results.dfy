/** Python's optional values and raised exceptions, as plain values: `Option` stands for a
    value that may be `None`, and `Result` for a call that either returns or raises. `Result`
    supports Dafny's `:-` so that a raise propagates to the caller as in Python. */
module Results {

  /** `Some(v)` for a present value, `None` for Python's `None`. */
  datatype Option<+T> = None | Some(value: T)

  /** A call that returned `value`, or raised `error`. */
  datatype Result<+T, +E> = Success(value: T) | Failure(error: E) {

    predicate IsFailure() {
      Failure?
    }

    function PropagateFailure<U>(): Result<U, E>
      requires Failure?
    {
      Failure(error)
    }

    function Extract(): T
      requires Success?
    {
      value
    }
  }
}
