/** Failure-carrying datatypes shared by every parser of the model. */
module Wrappers {

  /** A value that may be absent: Java's `null` becomes `None`. */
  datatype Option<+T> = None | Some(value: T)

  /** The outcome of a step that may throw: `Err` carries the exception the
      Java code would raise. */
  datatype Result<+T, +E> = Ok(value: T) | Err(error: E) {
    predicate IsFailure() {
      Err?
    }

    function PropagateFailure<U>(): Result<U, E>
      requires Err?
    {
      Err(error)
    }

    function Extract(): T
      requires Ok?
    {
      value
    }
  }
}
