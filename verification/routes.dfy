/**
 * The single-resource read route, `GET /resources/:id`, as the router wires
 * it: the handler runs with no middleware in front, so `req.user` is never
 * set and its admin branch can never be taken. The corrected wiring reads
 * the bearer header when there is one and serves anonymous callers as before.
 */
module Routes {
  import opened Wrappers
  import opened Api
  import opened Auth
  import opened ResourceSchema
  import opened ResourceController

  /** The route as written: the Authorization header is never looked at. */
  function GetByIdAsWritten(store: Store, header: Option<string>, verify: string -> Option<UserPayload>, id: string): (r: Reply<Resource>)
    ensures r.Ok? <==> id in store && store[id].status == Approved
    ensures r.Ok? ==> r == Ok(200, store[id])
    ensures r.Err? ==> r == Err(404, ResourceNotFound)
  {
    GetResourceById(store, None, id)
  }

  /**
   * Whatever token accompanies the request, even an administrator's, the
   * answer is the anonymous one: the administrator branch of the handler is
   * unreachable through this route.
   */
  lemma AsWrittenIgnoresCaller(store: Store, h1: Option<string>, v1: string -> Option<UserPayload>,
                               h2: Option<string>, v2: string -> Option<UserPayload>, id: string)
    ensures GetByIdAsWritten(store, h1, v1, id) == GetByIdAsWritten(store, h2, v2, id)
    ensures GetByIdAsWritten(store, h1, v1, id) == GetResourceById(store, None, id)
  {
  }

  /** A concrete administrator asking for a pending resource is refused. */
  lemma AdminRefusedPendingExample(r: Resource, verify: string -> Option<UserPayload>)
    requires r.status == Pending
    requires verify("t") == Some(UserPayload("u1", "admin@example.com", "admin"))
    ensures Protect(Some("Bearer t"), verify) == Next(Some(UserPayload("u1", "admin@example.com", "admin")))
    ensures GetByIdAsWritten(map["r1" := r], Some("Bearer t"), verify, "r1") == Err(404, ResourceNotFound)
  {
    ProtectAdmitsVerified("t", verify, UserPayload("u1", "admin@example.com", "admin"));
    assert BearerPrefix + "t" == "Bearer t";
  }

  /** Optional authentication: the verified caller when `protect` would pass, else anonymous. */
  function OptionalAuth(header: Option<string>, verify: string -> Option<UserPayload>): (c: Caller)
    ensures c.Some? <==> Protect(header, verify).Next?
    ensures c.Some? ==> c == Protect(header, verify).user
  {
    var g := Protect(header, verify);
    if g.Next? then g.user else None
  }

  /** The corrected route: the handler sees the caller the header proves. */
  function GetByIdCorrected(store: Store, header: Option<string>, verify: string -> Option<UserPayload>, id: string): (r: Reply<Resource>)
    ensures r.Err? <==> id !in store || (store[id].status != Approved && !IsAdmin(OptionalAuth(header, verify)))
    ensures r.Ok? ==> r == Ok(200, store[id])
  {
    GetResourceById(store, OptionalAuth(header, verify), id)
  }

  /** With the correction an administrator's token reaches every stored resource. */
  lemma CorrectedServesAdmins(store: Store, token: string, verify: string -> Option<UserPayload>, user: UserPayload, id: string)
    requires ' ' !in token && verify(token) == Some(user) && user.role == "admin"
    ensures GetByIdCorrected(store, Some(BearerPrefix + token), verify, id).Ok? <==> id in store
  {
    ProtectAdmitsVerified(token, verify, user);
  }

  /** Without an administrator's token the corrected route answers exactly as the written one. */
  lemma CorrectedAgreesForOthers(store: Store, header: Option<string>, verify: string -> Option<UserPayload>, id: string)
    requires !IsAdmin(OptionalAuth(header, verify))
    ensures GetByIdCorrected(store, header, verify, id) == GetByIdAsWritten(store, header, verify, id)
  {
  }
}
