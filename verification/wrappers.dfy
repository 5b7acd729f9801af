/** Failure-carrying wrappers shared by the model. `Option` stands for Rust's
    `Option`; `Result` stands for a `Result<_, Error>` whose error is kept only
    through its display text, which is all the controller ever reads of it. */
module Wrappers {

  datatype Option<+T> = None | Some(value: T)

  datatype Result<+T> = Ok(value: T) | Err(error: string) {

    /** The success value, or `default` when the call failed: the shape of a
        `let _ = ...` that discards an error and keeps the old value. */
    function GetOr(default: T): (r: T)
      ensures Ok? ==> r == value
      ensures Err? ==> r == default
    {
      match this
      case Ok(v) => v
      case Err(_) => default
    }
  }
}
