/** Option and Result, the two wrappers the model uses for null references and exceptions. */
module Wrappers {

  /** A value that may be a null reference: `None` stands for `null`. */
  datatype Option<+T> = None | Some(value: T) {
    /** The C# `x ?? fallback`. */
    function GetOr(fallback: T): T {
      match this
      case Some(v) => v
      case None => fallback
    }
  }

  /** The outcome of a call that may throw: `Failure` carries the exception. */
  datatype Result<+T, +E> = Success(value: T) | Failure(error: E) {
    predicate IsFailure() {
      Failure?
    }

    function PropagateFailure<U>(): Result<U, E>
      requires Failure?
    {
      Failure(error)
    }

    function Extract(): T
      requires Success?
    {
      value
    }
  }
}
