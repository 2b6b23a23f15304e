/**
 * The error envelope: `errorHandler` turns any thrown error into a status and
 * an `{status: 'error', error: {message, code, details?}}` body, falling back
 * to defaults for every missing or falsy part; `notFound` and the `ApiError`
 * constructor and factories build the errors it receives.
 */
module ErrorHandler {
  import opened Wrappers

  /** The `errors` record attached to an error, as field name to text. */
  type Details = map<string, string>

  /**
   * An error as the handler sees it. `statusCode` and `code` may be absent;
   * `message` is always a string (empty when none was given).
   */
  datatype AppError = AppError(message: string, statusCode: Option<int>, code: Option<string>, errors: Option<Details>)

  /** The reply: HTTP status plus the `error` object of the body. */
  datatype ErrorReply = ErrorReply(status: int, message: string, code: string, details: Option<Details>)

  const DefaultStatus: int := 500
  const DefaultMessage: string := "Something went wrong"
  const DefaultCode: string := "SERVER_ERROR"

  /** `x || fallback` for a number: 0 and absence are falsy. */
  function OrStatus(x: Option<int>, fallback: int): int {
    if x.Some? && x.value != 0 then x.value else fallback
  }

  /** `x || fallback` for a string: "" and absence are falsy. */
  function OrText(x: Option<string>, fallback: string): string {
    if x.Some? && x.value != "" then x.value else fallback
  }

  /** errorHandler: each part of the reply is the error's own when truthy, else the default. */
  function Handle(err: AppError): (r: ErrorReply)
    ensures (err.statusCode.Some? && err.statusCode.value != 0) ==> r.status == err.statusCode.value
    ensures (err.statusCode.None? || err.statusCode.value == 0) ==> r.status == DefaultStatus
    ensures err.message != "" ==> r.message == err.message
    ensures err.message == "" ==> r.message == DefaultMessage
    ensures (err.code.Some? && err.code.value != "") ==> r.code == err.code.value
    ensures (err.code.None? || err.code.value == "") ==> r.code == DefaultCode
    ensures r.details == err.errors
    ensures r.status != 0 && r.message != "" && r.code != ""
  {
    ErrorReply(OrStatus(err.statusCode, DefaultStatus),
               OrText(Some(err.message), DefaultMessage),
               OrText(err.code, DefaultCode),
               err.errors)
  }

  /** notFound: the error forwarded for an unmatched route. */
  function NotFound(originalUrl: string): (err: AppError)
    ensures err.statusCode == Some(404) && err.code == Some("NOT_FOUND") && err.errors.None?
    ensures err.message == "Not Found - " + originalUrl
  {
    AppError("Not Found - " + originalUrl, Some(404), Some("NOT_FOUND"), None)
  }

  /** An unmatched route always answers 404 NOT_FOUND with the URL in the message and no details. */
  lemma NotFoundReply(originalUrl: string)
    ensures Handle(NotFound(originalUrl)) == ErrorReply(404, "Not Found - " + originalUrl, "NOT_FOUND", None)
  {
  }

  /**
   * `new ApiError(message, statusCode?, code?, errors?)`: JavaScript default
   * parameters apply only to omitted arguments, so an explicit 0 or "" is kept.
   */
  function NewApiError(message: string, statusCode: Option<int>, code: Option<string>, errors: Option<Details>): (err: AppError)
    ensures err.statusCode == Some(statusCode.GetOr(DefaultStatus))
    ensures err.code == Some(code.GetOr(DefaultCode))
    ensures err.message == message && err.errors == errors
  {
    AppError(message, Some(statusCode.GetOr(DefaultStatus)), Some(code.GetOr(DefaultCode)), errors)
  }

  datatype Factory = BadRequest | Unauthorized | Forbidden | NotFoundError

  function FactoryStatus(f: Factory): int {
    match f
    case BadRequest => 400
    case Unauthorized => 401
    case Forbidden => 403
    case NotFoundError => 404
  }

  function FactoryMessage(f: Factory): string {
    match f
    case BadRequest => "Bad Request"
    case Unauthorized => "Unauthorized"
    case Forbidden => "Forbidden"
    case NotFoundError => "Resource not found"
  }

  function FactoryCode(f: Factory): string {
    match f
    case BadRequest => "BAD_REQUEST"
    case Unauthorized => "UNAUTHORIZED"
    case Forbidden => "FORBIDDEN"
    case NotFoundError => "NOT_FOUND"
  }

  /** `ApiError.badRequest(message?, code?, errors?)` and its three siblings. */
  function Make(f: Factory, message: Option<string>, code: Option<string>, errors: Option<Details>): (err: AppError)
    ensures err.statusCode == Some(FactoryStatus(f))
    ensures err.message == message.GetOr(FactoryMessage(f))
    ensures err.code == Some(code.GetOr(FactoryCode(f)))
    ensures err.errors == errors
  {
    NewApiError(message.GetOr(FactoryMessage(f)), Some(FactoryStatus(f)), Some(code.GetOr(FactoryCode(f))), errors)
  }

  /** An error built with non-zero status and non-empty code reaches the client with both unchanged. */
  lemma ApiErrorKeepsStatusAndCode(message: string, statusCode: Option<int>, code: Option<string>, errors: Option<Details>)
    requires statusCode.None? || statusCode.value != 0
    requires code.None? || code.value != ""
    ensures Handle(NewApiError(message, statusCode, code, errors)).status == statusCode.GetOr(DefaultStatus)
    ensures Handle(NewApiError(message, statusCode, code, errors)).code == code.GetOr(DefaultCode)
    ensures Handle(NewApiError(message, statusCode, code, errors)).details == errors
  {
  }

  /** A factory error with its default arguments answers with the factory's status, message and code. */
  lemma FactoryDefaultsReachClient(f: Factory)
    ensures Handle(Make(f, None, None, None)) == ErrorReply(FactoryStatus(f), FactoryMessage(f), FactoryCode(f), None)
  {
  }

  /** An explicit zero status or empty code is replaced by the default on the way out. */
  lemma FalsyPartsFallBack(message: string)
    ensures Handle(NewApiError(message, Some(0), Some(""), None)) == ErrorReply(DefaultStatus, if message == "" then DefaultMessage else message, DefaultCode, None)
  {
  }
}
