/** The optional value and the call result used for the source's `null`/`undefined` fields and lookups. */
module Wrappers {

  datatype Option<+T> = None | Some(value: T) {

    /** The wrapped value, or `default` when there is none. */
    function GetOr(default: T): T {
      match this
      case Some(v) => v
      case None => default
    }
  }

  /** The `{ data, error }` pair an external call resolves to. */
  datatype Result<+T> = Ok(value: T) | Err(message: string)
}
