/** Option and Result, the two failure-carrying shapes the rest of the model uses
    for the source's nullable references and thrown exceptions. */
module Wrappers {

  /** A value that may be absent (a C# null reference or `Nullable<T>`). */
  datatype Option<+T> = None | Some(value: T) {

    /** The value, or `default` when absent. */
    function GetOr(default: T): T {
      match this
      case Some(v) => v
      case None => default
    }
  }

  /** The outcome of an operation that either returns normally or throws. */
  datatype Result<+T, +E> = Success(value: T) | Failure(error: E)
}
