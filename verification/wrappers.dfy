/** Failure-compatible wrappers used throughout the model: an optional value
    (Python's `None` versus a value) and the outcome of an operation that may
    raise (a returned value versus a raised exception). */
module Wrappers {

  /** A value that may be absent, as Python's `None`. */
  datatype Option<+T> = None | Some(value: T) {
    /** The wrapped value, or `default` when absent. */
    function GetOr(default: T): T {
      match this
      case Some(v) => v
      case None => default
    }
  }

  /** The outcome of a call that either returns a value or raises. */
  datatype Result<+T, +E> = Ok(value: T) | Err(error: E) {
    predicate IsFailure() {
      Err?
    }

    function PropagateFailure<U>(): Result<U, E>
      requires Err?
    {
      Err(error)
    }

    function Extract(): T
      requires Ok?
    {
      value
    }
  }
}
