/**
 * `errorHandler`: turning a caught value into the message and code shown to
 * the user.
 */
module ErrorHandler {
  import opened Wrappers
  import opened Text
  import opened JsError

  /** The `ApiError` record; `None` fields are `undefined`. */
  datatype ApiError = ApiError(message: Option<string>, code: Option<string>, details: Option<ResponseData>)

  const UNKNOWN_ERROR: string := "UNKNOWN_ERROR"
  const UNEXPECTED: string := "An unexpected error occurred"

  /** An object with a `response` property (the first test of every handler). */
  predicate HasResponseKey(e: Thrown) {
    e.ObjectError? && e.responseKey
  }

  /**
   * `handleApiError`: an error with a `response` property keeps the server's
   * message (else its own) and the status as code; another `Error` keeps its
   * message with code `UNKNOWN_ERROR`; anything else gets the generic message.
   */
  function HandleApiError(e: Thrown): (r: ApiError)
    ensures HasResponseKey(e) ==> r.message == Or(DataMessage(e), Message(e)) && r.details == Data(e)
    ensures HasResponseKey(e) ==> (r.code.Some? <==> Status(e).Some?)
    ensures HasResponseKey(e) && Status(e).Some? ==> ParseInt(r.code.value) == Status(e)
    ensures !HasResponseKey(e) ==> r.code == Some(UNKNOWN_ERROR) && r.details == None
    ensures !HasResponseKey(e) && e.ObjectError? && e.isError ==> r.message == e.message
    ensures !HasResponseKey(e) && !(e.ObjectError? && e.isError) ==> r.message == Some(UNEXPECTED)
  {
    if HasResponseKey(e) then
      if Status(e).Some? then
        ParseIntOfIntToString(Status(e).value);
        ApiError(Or(DataMessage(e), Message(e)), Some(IntToString(Status(e).value)), Data(e))
      else
        ApiError(Or(DataMessage(e), Message(e)), None, Data(e))
    else if e.ObjectError? && e.isError then
      ApiError(e.message, Some(UNKNOWN_ERROR), None)
    else
      ApiError(Some(UNEXPECTED), Some(UNKNOWN_ERROR), None)
  }

  /** The fixed texts of `handleApiErrorOld` for statuses without a server message. */
  function StatusMessage(status: Option<int>): (r: string)
    ensures r != ""
  {
    if status == Some(400) then "Invalid request. Please check your input."
    else if status == Some(401) then "Unauthorized. Please log in again."
    else if status == Some(403) then "Access denied. You do not have permission to perform this action."
    else if status == Some(404) then "Resource not found."
    else if status == Some(500) then "Server error. Please try again later."
    else "An unexpected error occurred."
  }

  /** Only the five listed statuses have their own text; every other status gets the default one. */
  lemma StatusMessageDefault(status: Option<int>)
    ensures StatusMessage(status) == "An unexpected error occurred."
            <==> status !in {Some(400), Some(401), Some(403), Some(404), Some(500)}
  {
  }

  /**
   * `handleApiErrorOld`: the text passed to `setError`. For an error with a
   * `response` property: the validation errors joined by ", " when present,
   * else the server's message, else the status text.
   */
  function HandleApiErrorOld(e: Thrown): (r: string)
    ensures !HasResponseKey(e) ==> r == "An unexpected error occurred."
    ensures HasResponseKey(e) && Data(e).Some? && Data(e).value.validationErrors.Value?
            ==> r == Join(Data(e).value.validationErrors.value, ", ")
    ensures HasResponseKey(e) && !(Data(e).Some? && Data(e).value.validationErrors.Value?) && Truthy(DataMessage(e))
            ==> r == DataMessage(e).value
    ensures HasResponseKey(e) && !(Data(e).Some? && Data(e).value.validationErrors.Value?) && !Truthy(DataMessage(e))
            ==> r == StatusMessage(Status(e))
  {
    if !HasResponseKey(e) then "An unexpected error occurred."
    else
      var data := Data(e);
      if data.Some? && data.value.validationErrors.Value? then Join(data.value.validationErrors.value, ", ")
      else if Truthy(DataMessage(e)) then DataMessage(e).value
      else StatusMessage(Status(e))
  }

  /** `isValidationError`: the response data has a `validationErrors` property that is not `undefined` (`null` counts). */
  function IsValidationError(e: Thrown): (r: bool)
    ensures r ==> HasResponseKey(e) && Data(e).Some?
    // When the list is there, the text `handleApiErrorOld` shows is exactly that list.
    ensures r && !Data(e).value.validationErrors.Null? ==> HandleApiErrorOld(e) == Join(GetValidationErrors(e), ", ")
    ensures !r ==> GetValidationErrors(e) == []
  {
    HasResponseKey(e) && Data(e).Some? && !Data(e).value.validationErrors.Undefined?
  }

  /** `getValidationErrors`: the list, or the empty list when it is absent or `null`. */
  function GetValidationErrors(e: Thrown): (r: seq<string>)
    ensures HasResponseKey(e) && Data(e).Some? && Data(e).value.validationErrors.Value?
            ==> r == Data(e).value.validationErrors.value
    ensures !(HasResponseKey(e) && Data(e).Some? && Data(e).value.validationErrors.Value?) ==> r == []
  {
    if HasResponseKey(e) && Data(e).Some? && Data(e).value.validationErrors.Value? then
      Data(e).value.validationErrors.value
    else []
  }

  /** The two validation helpers agree: errors are only ever reported for a validation error. */
  lemma ValidationErrorsAgree(e: Thrown)
    ensures GetValidationErrors(e) != [] ==> IsValidationError(e)
    ensures IsValidationError(e) && GetValidationErrors(e) == []
            ==> Data(e).value.validationErrors.Null? || Data(e).value.validationErrors == Value([])
  {
  }
}
