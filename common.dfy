/**
 * Shared vocabulary of the model: optional values (Java's nullable
 * references), the failures the services raise, and null-safe id equality.
 */
module Common {

  /** A nullable reference: `None` stands for Java's `null`. */
  datatype Option<+T> = None | Some(value: T)

  /** A nullable `Long` id, as held by entities and the authenticated user. */
  type NullableId = Option<int>

  /** A nullable `String`, as carried by request bodies and entity columns. */
  type NullableString = Option<string>

  /** One field error of a failed bean validation: field name and default message. */
  datatype FieldError = FieldError(field: string, defaultMessage: string)

  /**
   * The exceptions the core raises, as a closed set of kinds.
   *   InvalidRequest   -- config.exception.custom.InvalidRequestException
   *   Auth             -- config.exception.custom.AuthException
   *   Server           -- config.exception.custom.ServerException
   *   ValidationFailed -- MethodArgumentNotValidException with its field errors
   *   AccessDenied     -- domain.auth.exception.AuthException, thrown by the admin gate
   */
  datatype Error =
    | InvalidRequest(message: string)
    | Auth(message: string)
    | Server(message: string)
    | ValidationFailed(fieldErrors: seq<FieldError>)
    | AccessDenied(message: string)

  /** A value or the exception that ended the call. */
  datatype Result<+T> = Ok(value: T) | Err(error: Error) {
    predicate IsFailure() { Err? }

    function PropagateFailure<U>(): Result<U>
      requires Err?
    {
      Err(error)
    }

    function Extract(): T
      requires Ok?
    {
      value
    }
  }

  /** A call that returns nothing (`void`) or throws. */
  datatype Outcome = Pass | Fail(error: Error)

  /**
   * Spring's `ObjectUtils.nullSafeEquals` on two boxed ids: two nulls are
   * equal, a null and a non-null are not, two values compare by `equals`.
   */
  function NullSafeEquals(a: NullableId, b: NullableId): (r: bool)
    ensures r <==> a == b
    ensures a.None? && b.None? ==> r
  {
    match (a, b)
    case (None, None) => true
    case (Some(x), Some(y)) => x == y
    case _ => false
  }
}
