/** Option and Result types shared by the model. */
module Wrappers {

  datatype Option<+T> = None | Some(value: T) {

    function GetOr(default: T): T {
      match this
      case Some(v) => v
      case None => default
    }
  }

  /** A PHP function that returns either a value or a WP_Error carrying a code. */
  datatype Result<+T> = Ok(value: T) | Err(code: string)
}
