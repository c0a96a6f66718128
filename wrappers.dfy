/** Nullable values and fallible results shared by every module of the model. */
module Wrappers {

  /** A value that may be missing: a null cell of a frame column. */
  datatype Option<+T> = None | Some(value: T)
  {
    /** The value, or `default` when missing (`fill_null(default)` / `na.fill(default)`). */
    function GetOr(default: T): T
    {
      match this
      case Some(v) => v
      case None => default
    }
  }

  /** The outcome of an operation that can fail with an error of type `E`. */
  datatype Result<+R, +E> = Success(value: R) | Failure(error: E)
}
