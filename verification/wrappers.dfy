/** Failure-carrying values shared by every module of the model.
    `Option` stands for a Python value that may be `None` (or a dictionary key that may be
    missing); `Result` stands for a call that either returns or raises. */
module Wrappers {

  datatype Option<+T> = None | Some(value: T) {

    /** The value, or `default` when there is none (Python's `d.get(key, default)`). */
    function GetOr(default: T): T {
      match this
      case Some(v) => v
      case None => default
    }
  }

  datatype Result<+T, +E> = Ok(value: T) | Err(error: E)
}
