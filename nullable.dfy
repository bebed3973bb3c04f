/** JavaScript's `null`/`undefined` and thrown errors, as values. */
module Nullable {

  /** A value that may be absent (`null` or `undefined` in the source). */
  datatype Option<+T> = None | Some(value: T) {
    function GetOr(default: T): T {
      match this
      case Some(v) => v
      case None => default
    }
  }

  /** The outcome of an operation whose source version may throw. */
  datatype Result<+T> = Ok(value: T) | Err(error: string)
}
