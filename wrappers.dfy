/** Option and Result, the two wrapper datatypes the model uses. */
module Wrappers {

  /** A nullable value: JavaScript's `null` is `None`. */
  datatype Option<+T> = None | Some(value: T) {

    /** The wrapped value, or `default` when there is none. */
    function GetOr(default: T): T
    {
      match this
      case Some(v) => v
      case None => default
    }
  }

  /** The outcome of an operation that may be refused. */
  datatype Result<+R, +E> = Success(value: R) | Failure(error: E)
}
