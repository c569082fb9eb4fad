/** Option and Result values used in place of Rust's `Option` and `anyhow::Result`.
    An error carries the rendered error message as a string. */
module Wrappers {

  datatype Option<+T> = None | Some(value: T) {

    /** The wrapped value, or `default` when there is none (Rust's `unwrap_or`). */
    function GetOr(default: T): T {
      match this
      case Some(v) => v
      case None => default
    }
  }

  datatype Result<+T> = Ok(value: T) | Err(msg: string)

  /** The unit value of `Ok(())`. */
  datatype Unit = Unit
}
