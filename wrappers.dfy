/** Option and Result, the failure-carrying values used across the model. */
module Wrappers {

  /** `null`/`undefined` in the source become `None`. */
  datatype Option<+T> = None | Some(value: T) {
    function GetOr(default: T): T {
      match this
      case Some(v) => v
      case None => default
    }
  }

  /** A nullable string inside a template literal: `null` prints as "null". */
  function NullableText(o: Option<string>): string
  {
    match o
    case Some(s) => s
    case None => "null"
  }

  /** A thrown `Error` in the source becomes `Failure` carrying its message. */
  datatype Result<+R> = Success(value: R) | Failure(message: string)
}
