/** `verifyJWT`, the middleware that resolves a request's access token to a
    user. Signature and expiry checking are the abstract `verify` parameter. */
module AuthGate {
  import opened JsValues
  import opened Api
  import opened Users
  import Cloudinary

  /** What the gate reads from a request (the `accessToken` cookie and the
      `Authorization` header) and what it writes (`req.user`). */
  datatype Request = Request(
    accessTokenCookie: Nullable<string>,
    authorization: Nullable<string>,
    user: Nullable<PublicUser>)

  /** `jwt.verify(token, secret)`: it throws an error whose message names the
      reason (`"jwt expired"`, `"invalid signature"`, ...), or it returns a
      payload whose `_id` claim may be missing. */
  datatype Verdict = Invalid(error: string) | Valid(subject: Nullable<ObjectId>)

  /** The request after the gate, how often `next()` was called, and the
      error thrown, if any. */
  datatype GateOutcome = GateOutcome(request: Request, nextCalls: nat, failure: Nullable<Failure>)

  const BearerPrefix := "Bearer "
  const Unauthorized := ApiError(401, "Unauthorized request")
  const InvalidAccessToken := ApiError(401, "Invalid access token")

  /** `req.cookies?.accessToken || req.header("Authorization")?.replace("Bearer ", "")` */
  function ExtractToken(req: Request): (token: Nullable<string>)
    ensures Truthy(req.accessTokenCookie) ==> token == req.accessTokenCookie
    ensures !Truthy(req.accessTokenCookie) && req.authorization.Nullish? ==> token.Nullish?
    ensures !Truthy(req.accessTokenCookie) && req.authorization.Present? ==>
      token == Present(ReplaceFirst(req.authorization.value, BearerPrefix, ""))
  {
    if Truthy(req.accessTokenCookie) then req.accessTokenCookie
    else if req.authorization.Nullish? then Nullish
    else Present(ReplaceFirst(req.authorization.value, BearerPrefix, ""))
  }

  /** `verifyJWT`. The user collection is only read: it is not an output. */
  function VerifyJwt(users: UserStore, req: Request, verify: string -> Verdict): (o: GateOutcome)
    ensures o.nextCalls <= 1
    ensures o.nextCalls == 1 <==> o.failure.Nullish?
    ensures o.failure.Present? ==> o.request == req
    ensures o.request.(user := req.user) == req
    ensures !Truthy(ExtractToken(req)) ==> o.failure == Present(Unauthorized)
    ensures Truthy(ExtractToken(req)) && verify(ExtractToken(req).value).Invalid? ==>
      o.failure == Present(Rejection(verify(ExtractToken(req).value).error))
    ensures Truthy(ExtractToken(req)) && verify(ExtractToken(req).value).Valid? ==>
      var sub := verify(ExtractToken(req).value).subject;
      && (sub.Nullish? || sub.value !in users ==> o.failure == Present(InvalidAccessToken))
      && (sub.Present? && sub.value in users ==>
            o.failure.Nullish? && o.request.user == Present(Sanitize(sub.value, users[sub.value])))
  {
    var token := ExtractToken(req);
    if !Truthy(token) then GateOutcome(req, 0, Present(Unauthorized))
    else match verify(token.value)
      // not caught here: the verifier's own error propagates
      case Invalid(e) => GateOutcome(req, 0, Present(Rejection(e)))
      case Valid(sub) =>
        // `findById(undefined)` matches no document
        var found := if sub.Present? then FindById(users, sub.value) else Nullish;
        if found.Nullish? then GateOutcome(req, 0, Present(InvalidAccessToken))
        else GateOutcome(req.(user := Present(Sanitize(sub.value, found.value))), 1, Nullish)
  }

  /** A truthy cookie wins: the header is not consulted at all. */
  lemma CookieWinsOverHeader(users: UserStore, req: Request, verify: string -> Verdict, header: Nullable<string>)
    requires Truthy(req.accessTokenCookie)
    ensures ExtractToken(req.(authorization := header)) == req.accessTokenCookie
    ensures VerifyJwt(users, req.(authorization := header), verify).failure == VerifyJwt(users, req, verify).failure
    ensures VerifyJwt(users, req.(authorization := header), verify).request.user == VerifyJwt(users, req, verify).request.user
  {
  }

  /** Without a truthy cookie, `Bearer <t>` yields `<t>`. */
  lemma BearerHeaderYieldsToken(req: Request, t: string)
    requires !Truthy(req.accessTokenCookie)
    requires req.authorization == Present(BearerPrefix + t)
    ensures ExtractToken(req) == Present(t)
  {
    var h := BearerPrefix + t;
    assert h[0..|BearerPrefix|] == BearerPrefix;
    assert FirstOccurrence(h, BearerPrefix, 0);
    ReplaceFirstAtFirstMatch(h, BearerPrefix, "", 0);
    assert h[|BearerPrefix|..] == t;
    assert h[..0] + "" + h[0 + |BearerPrefix|..] == t;
  }

  /** A verifier failure is not masked: two verifiers that reject the same
      token give the same outcome exactly when their errors agree, so the
      reason (expired, bad signature, malformed) reaches the error handler. */
  lemma VerifierErrorPropagates(users: UserStore, req: Request, verify: string -> Verdict, verify': string -> Verdict)
    requires Truthy(ExtractToken(req))
    requires verify(ExtractToken(req).value).Invalid? && verify'(ExtractToken(req).value).Invalid?
    ensures VerifyJwt(users, req, verify) == VerifyJwt(users, req, verify') <==>
      verify(ExtractToken(req).value).error == verify'(ExtractToken(req).value).error
  {
  }

  /** A header that is exactly `Bearer ` leaves the empty token, which is
      refused as unauthorized without calling `next()`. */
  lemma BareBearerIsUnauthorized(users: UserStore, req: Request, verify: string -> Verdict)
    requires !Truthy(req.accessTokenCookie)
    requires req.authorization == Present(BearerPrefix)
    ensures VerifyJwt(users, req, verify) == GateOutcome(req, 0, Present(Unauthorized))
  {
    assert BearerPrefix + "" == BearerPrefix;
    BearerHeaderYieldsToken(req, "");
  }

  /** A header without `Bearer ` anywhere is used as the token unchanged. */
  lemma HeaderWithoutBearerUsedAsIs(req: Request)
    requires !Truthy(req.accessTokenCookie)
    requires req.authorization.Present? && NoOccurrence(req.authorization.value, BearerPrefix)
    ensures ExtractToken(req) == req.authorization
  {
    ReplaceFirstWithoutMatch(req.authorization.value, BearerPrefix, "");
  }

  /** What the gate attaches never depends on a stored password or refresh
      token: changing them in the store changes no outcome. */
  lemma GateIgnoresSecrets(users: UserStore, users': UserStore, req: Request, verify: string -> Verdict)
    requires users.Keys == users'.Keys
    requires forall id :: id in users ==> SameExceptSecrets(users[id], users'[id])
    ensures VerifyJwt(users, req, verify) == VerifyJwt(users', req, verify)
  {
    var token := ExtractToken(req);
    if Truthy(token) && verify(token.value).Valid? {
      var sub := verify(token.value).subject;
      if sub.Present? && sub.value in users {
        SanitizeDropsExactlySecrets(sub.value, users[sub.value], users'[sub.value]);
      }
    }
  }

  /** The gate looks at one record only: stores that agree on the token's
      subject give the same outcome. */
  lemma GateReadsOnlySubject(users: UserStore, users': UserStore, req: Request, verify: string -> Verdict, id: ObjectId)
    requires Truthy(ExtractToken(req)) && verify(ExtractToken(req).value) == Valid(Present(id))
    requires (id in users) == (id in users')
    requires id in users ==> users[id] == users'[id]
    ensures VerifyJwt(users, req, verify) == VerifyJwt(users', req, verify)
  {
  }

  /** A freshly registered user passes the gate with a token whose subject is
      the new id, and the gate attaches exactly the user the registration
      response showed. */
  lemma RegisteredUserPassesGate(
    users: UserStore, reg: RegisterRequest, avatarSdk: Cloudinary.SdkOutcome, coverSdk: Cloudinary.SdkOutcome,
    newId: ObjectId, req: Request, verify: string -> Verdict)
    requires Accepted(users, reg, newId)
    requires Truthy(ExtractToken(req)) && verify(ExtractToken(req).value) == Valid(Present(newId))
    ensures
      var s := RegisterUser(users, reg, avatarSdk, coverSdk, newId);
      var o := VerifyJwt(s.store, req, verify);
      && o.nextCalls == 1
      && o.request.user == Present(s.reply.data)
  {
    RegisteredUser(users, reg, avatarSdk, coverSdk, newId);
  }
}
