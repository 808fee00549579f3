/** Option and Result, the failure-compatible wrappers the rest of the model uses. */
module Wrappers {

  /** A value that may be absent; for numbers, `None` plays pandas' NaN. */
  datatype Option<+T> = None | Some(value: T)

  /** The outcome of an operation that may raise. */
  datatype Result<+T, +E> = Ok(value: T) | Err(error: E) {
    predicate IsFailure() { Err? }

    function PropagateFailure<U>(): Result<U, E>
      requires Err?
    {
      Err(error)
    }

    function Extract(): T
      requires Ok?
    {
      value
    }
  }
}
