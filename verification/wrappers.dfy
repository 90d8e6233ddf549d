/** Failure-compatible wrappers used throughout the model: `Option` for the
    library's `None` returns and `Result` for the exceptions it raises. */
module Wrappers {

  datatype Option<+T> = None | Some(value: T)

  /** Either a value or the error the library would raise instead. */
  datatype Result<+T, +E> = Ok(value: T) | Err(error: E) {

    predicate IsFailure() {
      Err?
    }

    function PropagateFailure<U>(): Result<U, E>
      requires Err?
    {
      Err(error)
    }

    function Extract(): T
      requires Ok?
    {
      value
    }
  }
}
