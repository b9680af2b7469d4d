/** Option and Result values used across the model. */
module Wrappers {

  /** A value that may be absent: a missing request field or query parameter, or a lookup that found nothing. */
  datatype Option<+T> = None | Some(value: T) {

    /** The encapsulated value, or `default` when there is none. */
    function GetOr(default: T): (r: T)
      ensures Some? ==> r == value
      ensures None? ==> r == default
    {
      match this
      case Some(v) => v
      case None => default
    }
  }

  /** The outcome of an operation that either produces a value or reports an error. */
  datatype Result<+R, +E> = Success(value: R) | Failure(error: E)
}
