/**
 * The session layer: the signing-secret precondition, signing and verifying
 * session tokens, the session cookie, and resolving a request's cookie to the
 * signed-in user. The JWT and bcrypt libraries are uninterpreted: they are
 * given as values of arrow type, so nothing is assumed of them beyond what
 * each lemma states as a hypothesis.
 */
module Auth {
  import opened Js
  import opened Users

  const TokenName: string := "token"
  const OneWeek: int := 60 * 60 * 24 * 7

  /** A week in seconds: the token lifetime and the cookie's max-age. */
  lemma OneWeekInSeconds()
    ensures OneWeek == 604800
  {
  }

  /** The two environment variables the layer reads. */
  datatype Env = Env(jwtSecret: Option<string>, nodeEnv: Option<string>)

  /** The claims object `jwt.verify` hands back; its properties may be missing or of any JSON type. */
  datatype Payload = Payload(userId: Field, role: Field)

  /**
   * jsonwebtoken: `sign(payload, secret, expiresInSeconds)` and `verify(token, secret)`,
   * where `None` stands for every case in which `verify` throws (malformed, bad
   * signature, expired).
   */
  datatype Jwt = Jwt(sign: (Payload, string, int) -> string, verify: (string, string) -> Option<Payload>)

  /** bcryptjs: `hash(password, cost, salt)` (the salt is random in the library) and `compare(password, hash)`. */
  datatype Bcrypt = Bcrypt(hash: (string, int, string) -> string, compare: (string, string) -> bool)

  const SecretMissing: Thrown := OtherError("JWT_SECRET is not set")

  /** `ensureSecret`: throws unless JWT_SECRET is set to a non-empty value; otherwise the secret. */
  function EnsureSecret(env: Env): (r: Result<string>)
    ensures r.Ok? <==> Present(env.jwtSecret)
    ensures r.Ok? ==> r.value == env.jwtSecret.value
    ensures r.Throw? ==> r.error == SecretMissing
  {
    if !Present(env.jwtSecret) then Throw(SecretMissing) else Ok(env.jwtSecret.value)
  }

  /** The claims a session token is signed over: the user's id and role, nothing else. */
  function SessionClaims(user: PublicUser): (p: Payload)
    ensures p.userId == Str(user.id) && p.role == Str(RoleName(user.role))
  {
    Payload(Str(user.id), Str(RoleName(user.role)))
  }

  /** `signAuthToken` */
  function SignAuthToken(env: Env, jwt: Jwt, user: PublicUser): (r: Result<string>)
    ensures r.Ok? <==> Present(env.jwtSecret)
    ensures r.Throw? ==> r.error == SecretMissing
    ensures r.Ok? ==> r.value == jwt.sign(SessionClaims(user), env.jwtSecret.value, OneWeek)
  {
    var secret :- EnsureSecret(env);
    Ok(jwt.sign(SessionClaims(user), secret, OneWeek))
  }

  /** `verifyAuthToken`: a missing secret throws (the check is outside the `try`); any verification failure is null. */
  function VerifyAuthToken(env: Env, jwt: Jwt, token: string): (r: Result<Option<Payload>>)
    ensures r.Throw? <==> !Present(env.jwtSecret)
    ensures r.Throw? ==> r.error == SecretMissing
    ensures r.Ok? ==> r.value == jwt.verify(token, env.jwtSecret.value)
  {
    var secret :- EnsureSecret(env);
    Ok(jwt.verify(token, secret))
  }

  datatype Cookie = Cookie(name: string, value: string, httpOnly: bool, secure: bool,
                           sameSite: string, path: string, maxAge: int)

  /** `buildAuthCookie` */
  function BuildAuthCookie(env: Env, token: string): (c: Cookie)
    ensures c.name == TokenName && c.value == token && c.maxAge == OneWeek
    ensures c.httpOnly && c.sameSite == "lax" && c.path == "/"
    ensures c.secure <==> env.nodeEnv == Some("production")
  {
    Cookie(TokenName, token, true, env.nodeEnv == Some("production"), "lax", "/", OneWeek)
  }

  /** The incoming request: its cookie jar (name to value) and its JSON body; `None` when the body is not valid JSON. */
  datatype Request<B> = Request(cookies: map<string, string>, body: Option<B>)

  /** `cookies.get("token")?.value` */
  function TokenCookie(jar: map<string, string>): Option<string> {
    if TokenName in jar then Some(jar[TokenName]) else None
  }

  /** `findUnique({ where: { id: payload.userId }, select })`: an id that is not a string is rejected by the client library. */
  function FindSessionUser(users: UserTable, userId: Field): (r: Result<Option<PublicUser>>)
    requires Truthy(userId)
    ensures r.Throw? <==> !userId.Str?
    ensures r.Ok? ==> (r.value.Some? <==> userId.s in users.byId)
    ensures r.Ok? && r.value.Some? ==> r.value.value == Project(users.byId[userId.s])
  {
    if !userId.Str? then Throw(OtherError("Invalid value for argument id: expected String"))
    else match users.FindById(userId.s)
      case None => Ok(None)
      case Some(u) => Ok(Some(Project(u)))
  }

  /** `getUserFromRequest` */
  function GetUserFromRequest<B>(env: Env, jwt: Jwt, users: UserTable, request: Request<B>): (r: Result<Option<PublicUser>>)
    ensures !Present(TokenCookie(request.cookies)) ==> r == Ok(None)
    ensures Present(TokenCookie(request.cookies)) && !Present(env.jwtSecret) ==> r == Throw(SecretMissing)
    ensures r.Ok? && r.value.Some? ==>
      var p := jwt.verify(request.cookies[TokenName], env.jwtSecret.value);
      && Present(TokenCookie(request.cookies)) && Present(env.jwtSecret)
      && p.Some? && p.value.userId.Str? && p.value.userId.s in users.byId
      && r.value.value == Project(users.byId[p.value.userId.s])
    ensures Present(TokenCookie(request.cookies)) && Present(env.jwtSecret) ==>
      var p := jwt.verify(request.cookies[TokenName], env.jwtSecret.value);
      && (p.None? || !Truthy(p.value.userId) ==> r == Ok(None))
      && (p.Some? && Truthy(p.value.userId) ==> r == FindSessionUser(users, p.value.userId))
  {
    var token := TokenCookie(request.cookies);
    if !Present(token) then Ok(None)
    else
      var payload :- VerifyAuthToken(env, jwt, token.value);
      if payload.None? || !Truthy(payload.value.userId) then Ok(None)
      else FindSessionUser(users, payload.value.userId)
  }

  /** `currentUser`: the same resolution, reading the cookie jar of the request being rendered. */
  function CurrentUser(env: Env, jwt: Jwt, users: UserTable, jar: map<string, string>): (r: Result<Option<PublicUser>>)
    ensures !Present(TokenCookie(jar)) ==> r == Ok(None)
    ensures Present(TokenCookie(jar)) && !Present(env.jwtSecret) ==> r == Throw(SecretMissing)
    ensures Present(TokenCookie(jar)) && Present(env.jwtSecret) ==>
      var p := jwt.verify(jar[TokenName], env.jwtSecret.value);
      && (p.None? || !Truthy(p.value.userId) ==> r == Ok(None))
      && (p.Some? && Truthy(p.value.userId) ==> r == FindSessionUser(users, p.value.userId))
  {
    var token := TokenCookie(jar);
    if !Present(token) then Ok(None)
    else
      var payload :- VerifyAuthToken(env, jwt, token.value);
      if payload.None? || !Truthy(payload.value.userId) then Ok(None)
      else FindSessionUser(users, payload.value.userId)
  }

  /** `currentUser` and `getUserFromRequest` decide alike for the same cookies. */
  lemma CurrentUserAgrees<B>(env: Env, jwt: Jwt, users: UserTable, request: Request<B>)
    ensures CurrentUser(env, jwt, users, request.cookies) == GetUserFromRequest(env, jwt, users, request)
  {
  }

  /** The library behaves as a codec for the given secret: a token it signs is non-empty and verifies to the signed claims. */
  ghost predicate RoundTrips(jwt: Jwt, secret: string) {
    forall p: Payload {:trigger jwt.sign(p, secret, OneWeek)} ::
      jwt.sign(p, secret, OneWeek) != "" && jwt.verify(jwt.sign(p, secret, OneWeek), secret) == Some(p)
  }

  /** A token signed for a stored user, presented back as the cookie, resolves to that user's public record. */
  lemma SignedTokenResolves<B>(env: Env, jwt: Jwt, users: UserTable, u: UserRecord, request: Request<B>)
    requires u.id != "" && u.id in users.byId && users.byId[u.id] == u
    requires Present(env.jwtSecret) && RoundTrips(jwt, env.jwtSecret.value)
    requires var t := SignAuthToken(env, jwt, Project(u)); t.Ok? && TokenCookie(request.cookies) == Some(t.value)
    ensures GetUserFromRequest(env, jwt, users, request) == Ok(Some(Project(u)))
  {
    var claims := SessionClaims(Project(u));
    var token := jwt.sign(claims, env.jwtSecret.value, OneWeek);
    assert token != "" && jwt.verify(token, env.jwtSecret.value) == Some(claims);
    assert request.cookies[TokenName] == token;
  }
}
