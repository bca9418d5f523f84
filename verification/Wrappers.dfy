/** Nullable values and failing computations. */
module Wrappers {

  /** A nullable SQL or Python value. */
  datatype Option<+T> = None | Some(value: T) {
    /** COALESCE(this, fallback). */
    function Coalesce(fallback: T): T {
      match this
      case Some(v) => v
      case None => fallback
    }
  }

  /** A value, or the error raised instead of it. */
  datatype Result<+T, +E> = Ok(value: T) | Err(error: E)
}
