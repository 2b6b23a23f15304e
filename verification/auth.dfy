/**
 * The two authentication middlewares: `protect` reads a bearer token from the
 * Authorization header and attaches the verified payload; `restrictTo` lets
 * only an admin through. A middleware either answers the request or hands it
 * on, never both: the `Gate` datatype has exactly those two shapes.
 */
module Auth {
  import opened Wrappers
  import opened Text
  import opened Api

  /** The middleware's effect: send an error reply, or call `next` with `req.user` as given. */
  datatype Gate = Respond(status: int, code: ErrorCode) | Next(user: Caller)

  const BearerPrefix: string := "Bearer "

  /** The token is the second piece of the header split at single spaces. */
  function BearerToken(header: string): (token: string)
    requires StartsWith(header, BearerPrefix)
    ensures ' ' !in token
  {
    assert header[6] == ' ';
    SplitHasSecond(header, ' ');
    Split(header, ' ')[1]
  }

  /**
   * protect: a missing, empty or non-bearer header is unauthenticated; a
   * token the verifier refuses is invalid; otherwise the payload becomes the
   * caller. `verify` stands for the JWT verifier.
   */
  function Protect(header: Option<string>, verify: string -> Option<UserPayload>): (g: Gate)
    ensures (!Truthy(header) || !StartsWith(header.value, BearerPrefix)) <==> g == Respond(401, NotAuthenticated)
    ensures g.Next? <==>
      Truthy(header) && StartsWith(header.value, BearerPrefix) && verify(BearerToken(header.value)).Some?
    ensures g.Next? ==> g.user == verify(BearerToken(header.value)) && g.user.Some?
    ensures g.Respond? ==> g.status == 401 && g.code in {NotAuthenticated, InvalidToken}
  {
    if !Truthy(header) || !StartsWith(header.value, BearerPrefix) then Respond(401, NotAuthenticated)
    else
      var decoded := verify(BearerToken(header.value));
      if decoded.None? then Respond(401, InvalidToken) else Next(decoded)
  }

  /** A header made of the prefix and a space-free token yields that token. */
  lemma {:induction false} BearerTokenRoundTrip(token: string)
    requires ' ' !in token
    ensures StartsWith(BearerPrefix + token, BearerPrefix)
    ensures BearerToken(BearerPrefix + token) == token
  {
    var header := BearerPrefix + token;
    assert header[..|BearerPrefix|] == BearerPrefix;
    assert header == "Bearer" + [' '] + token;
    SplitFirstPiece("Bearer", ' ', token);
    assert Split(token, ' ') == [token];
  }

  /** Only the first space-delimited word after the prefix is verified; the rest is ignored. */
  lemma {:induction false} TokenStopsAtSpace(token: string, rest: string)
    requires ' ' !in token
    ensures StartsWith(BearerPrefix + token + [' '] + rest, BearerPrefix)
    ensures BearerToken(BearerPrefix + token + [' '] + rest) == token
  {
    var header := BearerPrefix + token + [' '] + rest;
    assert header[..|BearerPrefix|] == BearerPrefix;
    var tail := token + [' '] + rest;
    assert header == "Bearer" + [' '] + tail;
    SplitFirstPiece("Bearer", ' ', tail);
    SplitFirstPiece(token, ' ', rest);
    assert Split(header, ' ')[1] == Split(header, ' ')[1..][0];
  }

  /** A verifiable token under the prefix lets the request through with its payload. */
  lemma ProtectAdmitsVerified(token: string, verify: string -> Option<UserPayload>, user: UserPayload)
    requires ' ' !in token && verify(token) == Some(user)
    ensures Protect(Some(BearerPrefix + token), verify) == Next(Some(user))
  {
    BearerTokenRoundTrip(token);
  }

  /** restrictTo: no caller is unauthenticated, a non-admin is forbidden, an admin passes unchanged. */
  function RestrictTo(user: Caller): (g: Gate)
    ensures user.None? <==> g == Respond(401, NotAuthenticated)
    ensures user.Some? && user.value.role != "admin" <==> g == Respond(403, NotAuthorized)
    ensures g.Next? <==> IsAdmin(user)
    ensures g.Next? ==> g.user == user
  {
    if user.None? then Respond(401, NotAuthenticated)
    else if user.value.role != "admin" then Respond(403, NotAuthorized)
    else Next(user)
  }

  /** `protect` then `restrictTo`, as the admin routes chain them. */
  function AdminOnly(header: Option<string>, verify: string -> Option<UserPayload>): Gate {
    var g := Protect(header, verify);
    if g.Respond? then g else RestrictTo(g.user)
  }

  /** The admin chain passes exactly the requests bearing a token the verifier maps to an admin. */
  lemma AdminOnlyPassesExactlyAdmins(header: Option<string>, verify: string -> Option<UserPayload>)
    ensures AdminOnly(header, verify).Next? <==>
      Truthy(header) && StartsWith(header.value, BearerPrefix)
      && IsAdmin(verify(BearerToken(header.value)))
    ensures AdminOnly(header, verify).Respond? && AdminOnly(header, verify).status == 403 ==>
      Protect(header, verify).Next? && !IsAdmin(Protect(header, verify).user)
  {
  }
}
