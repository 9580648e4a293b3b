/** Optional values, success-or-error values, and the Python exceptions that
    can escape the modelled code. */
module Wrappers {

  /** A value that may be missing: a Python `None`, or a keyword argument
      that was not passed. */
  datatype Option<T> = None | Some(value: T) {

    /** The wrapped value, or `default` when there is none (`dict.get(key, default)`). */
    function GetOr(default: T): T {
      match this
      case Some(v) => v
      case None => default
    }
  }

  /** The outcome of a computation that may raise. */
  datatype Result<T, E> = Success(value: T) | Failure(error: E)

  /** The Python exceptions the model raises, with the interpreter's message. */
  datatype Exception =
    | TypeError(message: string)
    | AttributeError(message: string)
    | IndexError(message: string)
    | ValueError(message: string)
}
