/** Failure-carrying values used across the model: Python's `None` and raised exceptions. */
module Wrappers {

  /** Python's `Optional[T]`. */
  datatype Option<+T> = None | Some(value: T) {

    /** `x if x is not None else default` */
    function GetOr(default: T): T {
      match this
      case Some(v) => v
      case None => default
    }
  }

  /** The outcome of a computation that may raise instead of returning. */
  datatype Result<+R, +E> = Ok(value: R) | Err(error: E)
}
