/** Option and Result values used by the whole model in place of null and of
    raised errors. */
module Wrappers {

  /** A value that may be absent: SQL NULL, JavaScript null/undefined, Python None. */
  datatype Option<+T> = None | Some(value: T) {

    /** The value, or `default` when it is absent (the `??` operator of PHP and JavaScript). */
    function GetOr(default: T): T {
      match this
      case Some(v) => v
      case None => default
    }
  }

  /** The outcome of an operation that may be refused with an error. */
  datatype Result<+R, +E> = Success(value: R) | Failure(error: E)
}
