/** Small shared vocabulary: optional values (the source's `null`/`undefined`). */
module Base {

  /** A value that may be absent, standing in for TypeScript's `T | null`. */
  datatype Option<+T> = None | Some(value: T) {

    /** The wrapped value, or `default` when absent. */
    function GetOr(default: T): T {
      match this
      case Some(v) => v
      case None => default
    }
  }

  /** A value or an error message, standing in for the `{ error }` / `{ success }` objects of the actions. */
  datatype Outcome<+T> = Ok(value: T) | Err(message: string)
}
