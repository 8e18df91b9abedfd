/** Failure-compatible result types shared by every module of the model. */
module Wrappers {

  /** An optional value: `None` plays the role of a NULL pointer in the source. */
  datatype Option<+T> = None | Some(value: T)

  /** The outcome of an evaluation step: a value, or the error that stops the run. */
  datatype Result<+T, +E> = Ok(value: T) | Err(error: E) {

    predicate IsFailure() {
      Err?
    }

    function PropagateFailure<U>(): Result<U, E>
      requires Err?
    {
      Err(error)
    }

    function Extract(): T
      requires Ok?
    {
      value
    }
  }
}
