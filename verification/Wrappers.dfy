/** The optional and fallible values shared by the whole model. */
module Wrappers {

  /** Python's `None` or a value. */
  datatype Option<+T> = None | Some(value: T) {
    /** Python's `x if x is not None else default`. */
    function GetOr(default: T): T {
      if Some? then value else default
    }
  }

  /** A normal return, or the exception that was raised. */
  datatype Result<+T, +E> = Ok(value: T) | Err(error: E)
}
