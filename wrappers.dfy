/** Option and Result, named as in Rust, for the values the modelled code returns. */
module Wrappers {

  datatype Option<+T> = None | Some(value: T) {

    /** The value, or a default when there is none (Rust's `unwrap_or`). */
    function GetOr(default: T): T {
      match this
      case Some(v) => v
      case None => default
    }
  }

  datatype Result<+T, +E> = Ok(value: T) | Err(error: E)
}
