/**
  The two authentication gates in front of the message store: the live-channel handshake
  middleware (server.js, lines 37-48) and the HTTP `firebaseAuth` middleware
  (middleware/firebaseAuth.js). Both consult an external token verifier, modelled as a
  function from token to verdict; "the verifier is not called" is stated as "the outcome
  is the same whatever the verifier would answer".
*/
module Auth {
  import opened Options
  import opened Js

  /** The decoded identity token: stable user id plus the optional profile claims. */
  datatype Identity = Identity(uid: string, name: Option<string>, email: Option<string>, picture: Option<string>)

  /** What `verifyIdToken` does with a token: resolves to an identity or rejects. */
  datatype Verdict = Verified(identity: Identity) | Rejected(reason: string)

  type Verifier = string -> Verdict

  // ---------------------------------------------------------------------------
  // Live-channel handshake

  const MissingFirebaseToken: string := "Missing Firebase token"
  const AdminNotConfigured: string := "Firebase Admin ch\U{01B0}a c\U{1EA5}u h\U{00EC}nh"
  const InvalidFirebaseToken: string := "Invalid Firebase token"

  /** A connection either carries a verified identity in `socket.data.user` or was refused
      with the given error. */
  datatype Session = Authenticated(user: Identity) | Refused(error: string)

  /** The handshake gate for the token in `socket.handshake.auth.token` (`Undefined` when the
      handshake carries no `auth` object); `configured` is `admin.apps.length > 0`. A
      non-string token makes `verifyIdToken` throw. */
  function Handshake(token: JsValue, configured: bool, verify: Verifier): (s: Session)
    ensures s.Authenticated? <==> Truthy(token) && configured && token.Str? && verify(token.s).Verified?
    ensures s.Authenticated? ==> s.user == verify(token.s).identity
    ensures !Truthy(token) ==> s == Refused(MissingFirebaseToken)
    ensures Truthy(token) && !configured ==> s == Refused(AdminNotConfigured)
    ensures Truthy(token) && configured && s.Refused? ==> s.error == InvalidFirebaseToken
  {
    if !Truthy(token) then Refused(MissingFirebaseToken)
    else if !configured then Refused(AdminNotConfigured)
    else if !token.Str? then Refused(InvalidFirebaseToken)
    else
      match verify(token.s)
      case Verified(user) => Authenticated(user)
      case Rejected(_) => Refused(InvalidFirebaseToken)
  }

  /** A missing token is refused before the configuration is looked at or the verifier is
      consulted. */
  lemma HandshakeMissingTokenFirst(token: JsValue, c1: bool, c2: bool, v1: Verifier, v2: Verifier)
    requires !Truthy(token)
    ensures Handshake(token, c1, v1) == Handshake(token, c2, v2) == Refused(MissingFirebaseToken)
  {
  }

  // ---------------------------------------------------------------------------
  // HTTP middleware

  /** The parts of an HTTP request the middleware reads. */
  datatype Request = Request(verb: string, authorization: Option<string>)

  /** Either `next()` is called, with `req.firebaseUser` set when verification ran, or the
      middleware answers itself with a status, a message and an optional error detail. */
  datatype GateOutcome =
    | Next(user: Option<Identity>)
    | Deny(status: nat, message: string, detail: Option<string>)

  /** What a route answers: a JSON body with status 200, or an error status with its
      message and, when the handler adds one, the error's own text. */
  datatype Reply<+T> = Success(body: T) | Failure(status: nat, message: string, detail: Option<string>)

  /** The answer of a denying gate. */
  function Refusal<T>(g: GateOutcome): Reply<T>
    requires g.Deny?
  {
    Failure(g.status, g.message, g.detail)
  }

  const BearerPrefix: string := "Bearer "
  const MissingBearerToken: string := "Missing Bearer token"
  const AdminNotConfiguredHttp: string := "Firebase Admin ch\U{01B0}a \U{0111}\U{01B0}\U{1EE3}c c\U{1EA5}u h\U{00EC}nh"
  const InvalidToken: string := "Invalid token"

  /** `authHeader.startsWith('Bearer ') ? authHeader.substring(7) : null` on the
      `Authorization` header (an absent header reads as ""): the exact, case-sensitive
      scheme prefix of section 2.1 of RFC 6750, removed. */
  function BearerToken(header: Option<string>): (t: Option<string>)
    ensures t.Some? <==> header.Some? && |header.value| >= |BearerPrefix| && header.value[..|BearerPrefix|] == BearerPrefix
    ensures t.Some? ==> header.value == BearerPrefix + t.value
  {
    var h := header.GetOr("");
    if |h| >= |BearerPrefix| && h[..|BearerPrefix|] == BearerPrefix then
      assert h == h[..|BearerPrefix|] + h[|BearerPrefix|..];
      Some(h[|BearerPrefix|..])
    else None
  }

  /** Sending `Bearer <t>` hands the verifier exactly `t`. */
  lemma BearerTokenRoundTrip(t: string)
    ensures BearerToken(Some(BearerPrefix + t)) == Some(t)
  {
    assert (BearerPrefix + t)[..|BearerPrefix|] == BearerPrefix;
    assert (BearerPrefix + t)[|BearerPrefix|..] == t;
  }

  /** `firebaseAuth(req, res, next)`; `configured` is `admin.apps.length > 0`. */
  function FirebaseAuth(req: Request, configured: bool, verify: Verifier): (g: GateOutcome)
    ensures req.verb == "OPTIONS" ==> g == Next(None)
    ensures req.verb != "OPTIONS" ==>
              (g.Next? <==> && BearerToken(req.authorization).Some?
                            && BearerToken(req.authorization).value != ""
                            && configured
                            && verify(BearerToken(req.authorization).value).Verified?)
    ensures req.verb != "OPTIONS" && g.Next? ==>
              g.user == Some(verify(BearerToken(req.authorization).value).identity)
    ensures req.verb != "OPTIONS" && !Present(BearerToken(req.authorization)) ==>
              g == Deny(401, MissingBearerToken, None)
    ensures req.verb != "OPTIONS" && Present(BearerToken(req.authorization)) && !configured ==>
              g == Deny(500, AdminNotConfiguredHttp, None)
    ensures g.Deny? && configured && Present(BearerToken(req.authorization)) ==>
              g.status == 401 && g.message == InvalidToken
    ensures (req.verb != "OPTIONS" && configured && Present(BearerToken(req.authorization))
             && verify(BearerToken(req.authorization).value).Rejected?) ==>
              g.detail == Some(verify(BearerToken(req.authorization).value).reason)
  {
    if req.verb == "OPTIONS" then Next(None)
    else
      var token := BearerToken(req.authorization);
      if !Present(token) then Deny(401, MissingBearerToken, None)
      else if !configured then Deny(500, AdminNotConfiguredHttp, None)
      else
        match verify(token.value)
        case Verified(user) => Next(Some(user))
        case Rejected(reason) => Deny(401, InvalidToken, Some(reason))
  }

  /** The gate admits a request with this verb and header. */
  predicate Admitted(verb: string, authorization: Option<string>, configured: bool, verify: Verifier) {
    FirebaseAuth(Request(verb, authorization), configured, verify).Next?
  }

  /** The identity the gate admitted a request other than a preflight with. */
  function Requester(verb: string, authorization: Option<string>, configured: bool, verify: Verifier): (user: Identity)
    requires verb != "OPTIONS" && Admitted(verb, authorization, configured, verify)
    ensures FirebaseAuth(Request(verb, authorization), configured, verify) == Next(Some(user))
  {
    FirebaseAuth(Request(verb, authorization), configured, verify).user.value
  }

  /** A preflight request passes without the header, the configuration or the verifier
      being looked at. */
  lemma PreflightPasses(h1: Option<string>, h2: Option<string>, c1: bool, c2: bool, v1: Verifier, v2: Verifier)
    ensures FirebaseAuth(Request("OPTIONS", h1), c1, v1) == FirebaseAuth(Request("OPTIONS", h2), c2, v2) == Next(None)
  {
  }

  /** Without a usable bearer token the answer is 401 whatever the configuration and the
      verifier. */
  lemma MissingTokenIgnoresVerifier(req: Request, c1: bool, c2: bool, v1: Verifier, v2: Verifier)
    requires req.verb != "OPTIONS" && !Present(BearerToken(req.authorization))
    ensures FirebaseAuth(req, c1, v1) == FirebaseAuth(req, c2, v2) == Deny(401, MissingBearerToken, None)
  {
  }

  /** With no admin app the answer is 500 whatever the verifier. */
  lemma UnconfiguredIgnoresVerifier(req: Request, v1: Verifier, v2: Verifier)
    requires req.verb != "OPTIONS" && Present(BearerToken(req.authorization))
    ensures FirebaseAuth(req, false, v1) == FirebaseAuth(req, false, v2) == Deny(500, AdminNotConfiguredHttp, None)
  {
  }
}
