/** Option and Result, the shapes the model uses for C# nullable values and for thrown exceptions. */
module Wrappers {

  /** A C# nullable value: `None` stands for `null`. */
  datatype Option<+T> = None | Some(value: T) {

    /** The value, or `default` when this is `None` (the C# `??` operator). */
    function GetOr(default: T): T {
      match this
      case Some(v) => v
      case None => default
    }
  }

  /** The outcome of an operation that may throw: `Failure` carries the exception's kind. */
  datatype Result<+R, +E> = Success(value: R) | Failure(error: E)
}
