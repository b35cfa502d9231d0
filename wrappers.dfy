/** Option and Result values for the optional request fields and the error replies of the controllers. */
module Wrappers {

  datatype Option<+T> = None | Some(value: T) {
    /** The value, or `default` when there is none (JavaScript's `x ?? default`). */
    function GetOr(default: T): T {
      match this
      case Some(v) => v
      case None => default
    }
  }

  /** A controller reply: `Success` carries the payload, `Failure` the error code. */
  datatype Result<+R, +E> = Success(value: R) | Failure(error: E)

  /** A form's text field as the browser posts it: an empty text is left out. */
  function TextOrNone(s: string): (r: Option<string>)
    ensures r.None? <==> s == ""
    ensures r.Some? ==> r.value == s
  {
    if s == "" then None else Some(s)
  }
}
