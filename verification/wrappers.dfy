/** Option: the model of JavaScript's `undefined`/`null` results. */
module Wrappers {

  datatype Option<+T> = None | Some(value: T) {

    function GetOr(default: T): T {
      match this
      case Some(v) => v
      case None => default
    }
  }

  /** A thrown error (its message) or a value. */
  datatype Result<+T> = Ok(value: T) | Err(message: string)
}
