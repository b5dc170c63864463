/** Option and Result values used in place of `undefined`/`null` and thrown errors. */
module Wrappers {

  datatype Option<+T> = None | Some(value: T) {
    function GetOr(default: T): T {
      match this
      case Some(v) => v
      case None => default
    }
  }

  /** A rejected promise or a thrown error carries a `Failure`; its contents are opaque. */
  datatype Failure = Failure(reason: string)

  datatype Result<+R> = Ok(value: R) | Err(error: Failure)
}
