/** Failure-compatible results used throughout the project. */
module Wrappers {

  datatype Option<+T> = None | Some(value: T) {
    predicate IsFailure() {
      None?
    }

    function PropagateFailure<U>(): Option<U>
      requires None?
    {
      None
    }

    function Extract(): T
      requires Some?
    {
      value
    }
  }

  /** The outcome of an operation that the source lets raise. */
  datatype Result<+T, +E> = Ok(value: T) | Raise(error: E) {
    predicate IsFailure() {
      Raise?
    }

    function PropagateFailure<U>(): Result<U, E>
      requires Raise?
    {
      Raise(error)
    }

    function Extract(): T
      requires Ok?
    {
      value
    }
  }
}
