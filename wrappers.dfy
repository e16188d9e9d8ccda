/** The optional value that Rust writes `Option<T>`. */
module Wrappers {

  datatype Option<T> = None | Some(value: T) {

    /** The value inside `Some`, or `default` for `None` (Rust's `unwrap_or`). */
    function GetOr(default: T): T {
      match this
      case Some(v) => v
      case None => default
    }
  }
}
