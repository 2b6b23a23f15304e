/**
 * What the backend handlers share: the authenticated principal attached by
 * the auth middleware, the machine-readable error codes, and the
 * `{status: 'success', data} | {status: 'error', error: {message, code}}`
 * reply with its HTTP status.
 */
module Api {
  import opened Wrappers

  /** The decoded token payload (`UserPayload`): id, email and role. */
  datatype UserPayload = UserPayload(id: string, email: string, role: string)

  /** `req.user`: absent when no authentication middleware attached a user. */
  type Caller = Option<UserPayload>

  predicate IsAdmin(caller: Caller) {
    caller.Some? && caller.value.role == "admin"
  }

  datatype ErrorCode =
    | NotAuthenticated | NotAuthorized | InvalidToken
    | MissingFields | InvalidPrice | InvalidStatus | InvalidPricingType
    | ResourceNotFound | ResourceCreateError | ResourceUpdateError
    | MissingContent | CommentCreateError | CommentFetchError
    | AlreadyBookmarked | BookmarkNotFound | BookmarkCreateError | BookmarkFetchError
    | InvalidVoteType
    | DuplicateCategory | CategoryNotFound | CategoryCreateError | CategoryUpdateError
    | DuplicateResourceType | ResourceTypeNotFound | ResourceTypeCreateError | ResourceTypeUpdateError

  /** The `code` string a client sees. */
  function CodeName(c: ErrorCode): string {
    match c
    case NotAuthenticated => "NOT_AUTHENTICATED"
    case NotAuthorized => "NOT_AUTHORIZED"
    case InvalidToken => "INVALID_TOKEN"
    case MissingFields => "MISSING_FIELDS"
    case InvalidPrice => "INVALID_PRICE"
    case InvalidStatus => "INVALID_STATUS"
    case InvalidPricingType => "INVALID_PRICING_TYPE"
    case ResourceNotFound => "RESOURCE_NOT_FOUND"
    case ResourceCreateError => "RESOURCE_CREATE_ERROR"
    case ResourceUpdateError => "RESOURCE_UPDATE_ERROR"
    case MissingContent => "MISSING_CONTENT"
    case CommentCreateError => "COMMENT_CREATE_ERROR"
    case CommentFetchError => "COMMENT_FETCH_ERROR"
    case AlreadyBookmarked => "ALREADY_BOOKMARKED"
    case BookmarkNotFound => "BOOKMARK_NOT_FOUND"
    case BookmarkCreateError => "BOOKMARK_CREATE_ERROR"
    case BookmarkFetchError => "BOOKMARK_FETCH_ERROR"
    case InvalidVoteType => "INVALID_VOTE_TYPE"
    case DuplicateCategory => "DUPLICATE_CATEGORY"
    case CategoryNotFound => "CATEGORY_NOT_FOUND"
    case CategoryCreateError => "CATEGORY_CREATE_ERROR"
    case CategoryUpdateError => "CATEGORY_UPDATE_ERROR"
    case DuplicateResourceType => "DUPLICATE_RESOURCE_TYPE"
    case ResourceTypeNotFound => "RESOURCE_TYPE_NOT_FOUND"
    case ResourceTypeCreateError => "RESOURCE_TYPE_CREATE_ERROR"
    case ResourceTypeUpdateError => "RESOURCE_TYPE_UPDATE_ERROR"
  }

  /** A handler's answer: HTTP status plus data, or HTTP status plus error code. */
  datatype Reply<+T> = Ok(status: int, data: T) | Err(status: int, code: ErrorCode)

  /** A JavaScript string is truthy when present and non-empty. */
  predicate Truthy(s: Option<string>) {
    s.Some? && s.value != ""
  }
}
