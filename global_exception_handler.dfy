/**
 * The account service's exception handler: which status, error code and
 * message each kind of failure is answered with.
 */
module GlobalExceptionHandler {
  import opened Wrappers
  import opened JavaStrings

  const MALFORMED_BODY: string := "E003"
  const INTERNAL_SERVER_ERROR: string := "E001"
  const INVALID_URL: string := "E004"

  /** A field error of a failed validation: the constraint's code (may be null) and the field. */
  datatype FieldError = FieldError(code: Option<string>, field: string)

  /** The failures the handler distinguishes. */
  datatype Failure =
    | NoResourceFound
    | MethodArgumentNotValid(fieldErrors: seq<FieldError>)
    | MessageNotReadable(message: Option<string>, causeMessage: Option<Option<string>>)  // causeMessage None: no cause
    | Custom(status: int, code: Option<string>, message: Option<string>)
    | Other

  /** The body every handler answers with. */
  datatype ResponseCode = ResponseCode(code: Option<string>, message: Option<string>)

  datatype Handled = Handled(status: int, body: ResponseCode)

  /** `getMessage(fieldError)` */
  function GetMessage(e: FieldError): (r: string)
    ensures e.code in {Some("NotBlank"), Some("NotNull"), Some("NotEmpty")} ==> r == "Field {" + e.field + "} is mandatory"
    ensures e.code == Some("DatePattern") ==> r == "Field {" + e.field + "} has invalid format"
    ensures e.code !in {Some("NotBlank"), Some("NotNull"), Some("NotEmpty"), Some("DatePattern")} ==> r == "Bad Request"
  {
    match e.code
    case Some(c) =>
      if c == "NotBlank" || c == "NotNull" || c == "NotEmpty" then "Field {" + e.field + "} is mandatory"
      else if c == "DatePattern" then "Field {" + e.field + "} has invalid format"
      else "Bad Request"
    case None => "Bad Request"
  }

  /**
   * The response for a failure. A validation failure without field errors
   * makes `getFirst()` throw, and the handler answers nothing (None).
   */
  function Handle(f: Failure): (r: Option<Handled>)
    ensures r.None? <==> f.MethodArgumentNotValid? && f.fieldErrors == []
    ensures f.NoResourceFound? ==> r == Some(Handled(404, ResponseCode(Some(INVALID_URL), Some("Invalid URL"))))
    ensures f.Other? ==> r == Some(Handled(500, ResponseCode(Some(INTERNAL_SERVER_ERROR), Some("An unexpected error occurred."))))
    ensures f.Custom? ==> r == Some(Handled(f.status, ResponseCode(f.code, f.message)))
    ensures f.MethodArgumentNotValid? && f.fieldErrors != [] ==>
              r == Some(Handled(400, ResponseCode(Some(MALFORMED_BODY), Some(GetMessage(f.fieldErrors[0])))))
  {
    match f
    case NoResourceFound => Some(Handled(404, ResponseCode(Some(INVALID_URL), Some("Invalid URL"))))
    case MethodArgumentNotValid(errors) =>
      if errors == [] then None
      else Some(Handled(400, ResponseCode(Some(MALFORMED_BODY), Some(GetMessage(errors[0])))))
    case MessageNotReadable(message, cause) =>
      var detail := if cause.Some? then cause.value else message;
      Some(Handled(400, ResponseCode(Some(MALFORMED_BODY), Some("Failed to read request: " + StrOrNull(detail)))))
    case Custom(status, code, message) => Some(Handled(status, ResponseCode(code, message)))
    case Other => Some(Handled(500, ResponseCode(Some(INTERNAL_SERVER_ERROR), Some("An unexpected error occurred."))))
  }

  /** Only the first field error decides the message: the rest never change the answer. */
  lemma FirstFieldErrorOnly(first: FieldError, rest1: seq<FieldError>, rest2: seq<FieldError>)
    ensures Handle(MethodArgumentNotValid([first] + rest1)) == Handle(MethodArgumentNotValid([first] + rest2))
  {
  }

  /** An unreadable body is 400 E003, and the cause's message is preferred over the exception's own. */
  lemma UnreadableBody(message: Option<string>, causeMessage: Option<Option<string>>)
    ensures var r := Handle(MessageNotReadable(message, causeMessage));
            r.Some? && r.value.status == 400 && r.value.body.code == Some(MALFORMED_BODY)
            && r.value.body.message == Some("Failed to read request: " + StrOrNull(if causeMessage.Some? then causeMessage.value else message))
  {
  }

  /** Every answer the handler builds for the modelled exception kinds other than the custom one is 400, 404 or 500 with one of the three codes. */
  lemma StatusesAndCodes(f: Failure)
    requires !f.Custom?
    ensures var r := Handle(f);
            r.Some? ==> r.value.status in {400, 404, 500} && r.value.body.code in {Some(MALFORMED_BODY), Some(INVALID_URL), Some(INTERNAL_SERVER_ERROR)}
  {
  }

  /** The message for a missing mandatory field, on the account DTOs' `amount`. */
  lemma MandatoryMessageExample()
    ensures GetMessage(FieldError(Some("NotNull"), "amount")) == "Field {amount} is mandatory"
  {
  }

  /** The message for a badly formatted date field. */
  lemma FormatMessageExample()
    ensures GetMessage(FieldError(Some("DatePattern"), "date")) == "Field {date} has invalid format"
  {
  }

  /** Any other constraint, or none, gives the generic message. */
  lemma OtherMessageExamples()
    ensures GetMessage(FieldError(Some("Size"), "name")) == "Bad Request"
    ensures GetMessage(FieldError(None, "name")) == "Bad Request"
  {
  }
}
