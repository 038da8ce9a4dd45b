/**
 * The values the front end catches: errors raised by the HTTP client, other
 * `Error` objects, and thrown primitives, with the fields the handlers read.
 */
module JsError {
  import opened Wrappers
  import opened Text

  /** A property that may be `undefined`, `null` or hold a value. */
  datatype Nullable<T> = Undefined | Null | Value(value: T)

  /** The body of an error response, as far as the handlers read it. */
  datatype ResponseData = ResponseData(
    message: Option<string>,
    code: Option<string>,
    details: Option<string>,
    validationErrors: Nullable<seq<string>>)

  datatype HttpResponse = HttpResponse(status: Option<int>, data: Option<ResponseData>)

  /**
   * A caught value. `ObjectError` is an object: `responseKey` says whether it
   * has a `response` property at all (the HTTP client sets it only when a
   * response arrived), `isError` whether it is an `Error` instance, `isAxios`
   * whether the HTTP client made it. `Primitive` is a thrown string or number.
   */
  datatype Thrown =
    | ObjectError(responseKey: bool, response: Option<HttpResponse>, message: Option<string>,
                  name: Option<string>, isError: bool, isAxios: bool)
    | Primitive

  /** A plain `new Error(message)`. */
  function PlainError(message: string): (r: Thrown)
    ensures r.ObjectError? && r.isError && !r.isAxios && !r.responseKey
    ensures r.message == Some(message)
  {
    ObjectError(false, None, Some(message), Some("Error"), true, false)
  }

  /** How a request to the server ends: with the response body, or with a thrown error. */
  datatype Outcome<T> = Answered(data: T) | Failed(error: Thrown)

  /** `error.response?.status`. */
  function Status(e: Thrown): Option<int> {
    if e.ObjectError? && e.response.Some? then e.response.value.status else None
  }

  /** `error.response?.data`. */
  function Data(e: Thrown): Option<ResponseData> {
    if e.ObjectError? && e.response.Some? then e.response.value.data else None
  }

  /** `error.response?.data?.message`. */
  function DataMessage(e: Thrown): Option<string> {
    if Data(e).Some? then Data(e).value.message else None
  }

  /** `error.message`. */
  function Message(e: Thrown): Option<string> {
    if e.ObjectError? then e.message else None
  }

  /** JavaScript's `a || b` on strings: `a` when it is truthy, else `b`. */
  function Or(a: Option<string>, b: Option<string>): (r: Option<string>)
    ensures Truthy(a) ==> r == a
    ensures !Truthy(a) ==> r == b
  {
    if Truthy(a) then a else b
  }

  /** `a || b || fallback` ending in a non-empty literal: always a non-empty string. */
  function OrElse(a: Option<string>, b: Option<string>, fallback: string): (r: string)
    requires fallback != ""
    ensures r != ""
    ensures Truthy(a) ==> r == a.value
    ensures !Truthy(a) && Truthy(b) ==> r == b.value
    ensures !Truthy(a) && !Truthy(b) ==> r == fallback
  {
    if Truthy(a) then a.value else if Truthy(b) then b.value else fallback
  }
}
