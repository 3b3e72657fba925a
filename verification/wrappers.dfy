/** The Option and Result datatypes shared by the host-runtime model and the conversions. */
module Wrappers {

  /** A value that may be absent. */
  datatype Option<+T> = None | Some(value: T) {

    /** The carried value, or `default` when there is none. */
    function GetOr(default: T): T {
      match this
      case Some(v) => v
      case None => default
    }
  }

  /** Either a success payload or a single failure descriptor (a `PyResult`). */
  datatype Result<+R, +E> = Success(value: R) | Failure(error: E)
}
