/**
 * GlobalExceptionHandler (config/exception/GlobalExceptionHandler.java):
 * turns each handled exception kind into an HTTP status and a
 * `{status, code, message}` body.
 */
module GlobalExceptionHandler {
  import opened Common

  datatype HttpStatus = BAD_REQUEST | UNAUTHORIZED | INTERNAL_SERVER_ERROR

  /** `HttpStatus.name()`. */
  function Name(status: HttpStatus): string
  {
    match status
    case BAD_REQUEST => "BAD_REQUEST"
    case UNAUTHORIZED => "UNAUTHORIZED"
    case INTERNAL_SERVER_ERROR => "INTERNAL_SERVER_ERROR"
  }

  /** `HttpStatus.value()`. */
  function Value(status: HttpStatus): int
  {
    match status
    case BAD_REQUEST => 400
    case UNAUTHORIZED => 401
    case INTERNAL_SERVER_ERROR => 500
  }

  /** A value of the body map: a string, a number or a list of strings. */
  datatype BodyValue = Text(text: string) | Number(number: int) | TextList(texts: seq<string>)

  datatype ResponseEntity = ResponseEntity(body: map<string, BodyValue>, status: HttpStatus)

  /** `getErrorResponse(status, message)`. */
  function GetErrorResponse(status: HttpStatus, message: BodyValue): (r: ResponseEntity)
    ensures r.status == status
    ensures r.body.Keys == {"status", "code", "message"}
    ensures r.body["status"] == Text(Name(status))
    ensures r.body["code"] == Number(Value(status))
    ensures r.body["message"] == message
  {
    ResponseEntity(map["status" := Text(Name(status)), "code" := Number(Value(status)), "message" := message], status)
  }

  /** Distinct statuses have distinct names and distinct codes. */
  lemma NamesAndValuesDistinct(s1: HttpStatus, s2: HttpStatus)
    requires s1 != s2
    ensures Name(s1) != Name(s2) && Value(s1) != Value(s2)
  {
  }

  /** The body alone determines the status and the message it was built from. */
  lemma ErrorBodyDeterminesStatus(s1: HttpStatus, m1: BodyValue, s2: HttpStatus, m2: BodyValue)
    requires GetErrorResponse(s1, m1).body == GetErrorResponse(s2, m2).body
    ensures s1 == s2 && m1 == m2
  {
    assert GetErrorResponse(s1, m1).body["code"] == GetErrorResponse(s2, m2).body["code"];
    if s1 != s2 {
      NamesAndValuesDistinct(s1, s2);
    }
    assert GetErrorResponse(s1, m1).body["message"] == GetErrorResponse(s2, m2).body["message"];
  }

  /** The stream in `handleValidationFailed`: `field + ": " + defaultMessage`, in order. */
  function ValidationMessages(errors: seq<FieldError>): (r: seq<string>)
    ensures |r| == |errors|
    ensures forall i | 0 <= i < |errors| :: r[i] == errors[i].field + ": " + errors[i].defaultMessage
  {
    if errors == [] then []
    else [errors[0].field + ": " + errors[0].defaultMessage] + ValidationMessages(errors[1..])
  }

  /** `invalidRequestExceptionException`. */
  function HandleInvalidRequest(message: string): ResponseEntity
  {
    GetErrorResponse(BAD_REQUEST, Text(message))
  }

  /** `handleAuthException`. */
  function HandleAuth(message: string): ResponseEntity
  {
    GetErrorResponse(UNAUTHORIZED, Text(message))
  }

  /** `handleServerException`. */
  function HandleServer(message: string): ResponseEntity
  {
    GetErrorResponse(INTERNAL_SERVER_ERROR, Text(message))
  }

  /** `handleValidationFailed`. */
  function HandleValidationFailed(fieldErrors: seq<FieldError>): ResponseEntity
  {
    GetErrorResponse(BAD_REQUEST, TextList(ValidationMessages(fieldErrors)))
  }

  /**
   * Dispatch by exception kind. The admin gate's AuthException is another
   * class than the one handled here, so it has no handler (None).
   */
  function Handle(e: Error): (r: Option<ResponseEntity>)
    ensures r.None? <==> e.AccessDenied?
    ensures r.Some? ==>
      && r.value.body.Keys == {"status", "code", "message"}
      && r.value.body["status"] == Text(Name(r.value.status))
      && r.value.body["code"] == Number(Value(r.value.status))
    ensures e.InvalidRequest? ==> r.Some? && r.value.status == BAD_REQUEST && r.value.body["message"] == Text(e.message)
    ensures e.Auth? ==> r.Some? && r.value.status == UNAUTHORIZED && r.value.body["message"] == Text(e.message)
    ensures e.Server? ==> r.Some? && r.value.status == INTERNAL_SERVER_ERROR && r.value.body["message"] == Text(e.message)
    ensures e.ValidationFailed? ==>
      && r.Some? && r.value.status == BAD_REQUEST
      && r.value.body["message"] == TextList(ValidationMessages(e.fieldErrors))
  {
    match e
    case InvalidRequest(message) => Some(HandleInvalidRequest(message))
    case Auth(message) => Some(HandleAuth(message))
    case Server(message) => Some(HandleServer(message))
    case ValidationFailed(fieldErrors) => Some(HandleValidationFailed(fieldErrors))
    case AccessDenied(_) => None
  }
}
