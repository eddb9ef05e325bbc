/** Option and Result: Java's nullable references and thrown exceptions, as values. */
module Outcomes {

  /** A Java reference that may be null. */
  datatype Option<+T> = None | Some(value: T) {
    function GetOr(default: T): T {
      match this
      case Some(v) => v
      case None => default
    }
  }

  /** The outcome of a Java call: the value it returns or the exception it throws. */
  datatype Result<+T, +E> = Success(value: T) | Failure(error: E) {
    predicate IsFailure() {
      Failure?
    }

    function PropagateFailure<U>(): Result<U, E>
      requires Failure?
    {
      Failure(error)
    }

    function Extract(): T
      requires Success?
    {
      value
    }
  }
}
