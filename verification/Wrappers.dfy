/** The two result types shared by every module. */
module Wrappers {

  datatype Option<+T> = None | Some(value: T) {
    function GetOr(default: T): T {
      if Some? then value else default
    }
  }

  /** A value, or the Python exception a call raises instead. */
  datatype Result<+T, +E> = Ok(value: T) | Err(error: E)
}
