/** The two wrapper shapes the model uses: `Option` for JavaScript's
    null/undefined/NaN and `Result` for a value or a thrown error. */
module Wrappers {

  datatype Option<+T> = None | Some(value: T) {
    /** `x ?? default` on a value that may be absent. */
    function GetOr(default: T): T {
      if Some? then value else default
    }
  }

  datatype Result<+T, +E> = Ok(value: T) | Err(error: E)
}
