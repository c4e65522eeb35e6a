/** Failure-carrying result types shared by every module of the model. */
module Wrappers {

  /** A value that may be absent: Java's `null` return. */
  datatype Option<+T> = None | Some(value: T)

  /** Either a computed value or the exception that aborted the computation. */
  datatype Result<+T, +E> = Ok(value: T) | Err(error: E) {
    predicate IsFailure() { Err? }

    function PropagateFailure<U>(): Result<U, E>
      requires Err?
    {
      Err(error)
    }

    function Extract(): T
      requires Ok?
    {
      value
    }
  }
}
