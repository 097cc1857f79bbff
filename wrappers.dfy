/**
 * Option: the model of JavaScript's `undefined` / `null` next to a present
 * value; Result: a value or the message of the `Error` thrown instead.
 */
module Wrappers {

  datatype Option<+T> = None | Some(value: T) {

    function GetOr(default: T): T {
      match this
      case Some(v) => v
      case None => default
    }
  }

  datatype Result<+T> = Success(value: T) | Failure(error: string)
}
