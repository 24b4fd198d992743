/** Failure-compatible wrappers used throughout the model: `Option` for
    Python's `None`-or-value returns and `Result` for operations that raise. */
module Results {

  datatype Option<+T> = None | Some(value: T)

  /** `Ok` carries the value an operation returns; `Err` the exception it raises. */
  datatype Result<+T, +E> = Ok(value: T) | Err(error: E) {

    predicate IsFailure() {
      Err?
    }

    function PropagateFailure<U>(): Result<U, E>
      requires Err?
    {
      Err(error)
    }

    function Extract(): T
      requires Ok?
    {
      value
    }
  }
}
