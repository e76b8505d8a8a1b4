/**
 * How the handlers fit together over one user table: the cookie that sign-up
 * or sign-in sets resolves to the user it was issued for, the cookie sign-out
 * sets resolves to nobody, and a user who has just signed up can sign in with
 * the same credentials. Each rests on an explicit hypothesis about the token or
 * hash library, stated as a requirement, never as a fact.
 */
module Sessions {
  import opened Js
  import opened Users
  import opened Auth
  import opened Http
  import SignupRoute
  import SigninRoute
  import SignoutRoute

  /** A successful sign-in's cookie, presented on a later request, resolves to the user in the response body. */
  lemma SignInSessionResolves<B>(env: Env, jwt: Jwt, bcrypt: Bcrypt, users: UserTable,
                                 request: Request<SigninRoute.SigninBody>, next: Request<B>)
    requires users.Valid() && "" !in users.byId
    requires Present(env.jwtSecret) && RoundTrips(jwt, env.jwtSecret.value)
    requires var res := SigninRoute.Post(env, jwt, bcrypt, users, request);
      res.status == 200 && res.cookie.Some? && TokenCookie(next.cookies) == Some(res.cookie.value.value)
    ensures var res := SigninRoute.Post(env, jwt, bcrypt, users, request);
      res.body.UserBody? && GetUserFromRequest(env, jwt, users, next) == Ok(Some(res.body.user))
  {
    var b := request.body.value;
    var email := OptionalTrimLower(b.email).value.value;
    var user := users.FindByEmail(email).value;
    SignedTokenResolves(env, jwt, users, user, next);
  }

  /** After sign-out the browser holds an empty token, which resolves to no user and never throws, with or without a secret. */
  lemma SignOutEndsSession<B>(env: Env, jwt: Jwt, users: UserTable, next: Request<B>)
    requires TokenCookie(next.cookies) == Some(SignoutRoute.Post(env).cookie.value.value)
    ensures GetUserFromRequest(env, jwt, users, next) == Ok(None)
    ensures CurrentUser(env, jwt, users, next.cookies) == Ok(None)
  {
  }

  /** Signing in with an email that normalises to a stored user's and a password bcrypt accepts for them. */
  lemma SignInAs(env: Env, jwt: Jwt, bcrypt: Bcrypt, users: UserTable, user: UserRecord,
                 email: string, password: string, cookies: map<string, string>)
    requires users.Valid() && user.email != "" && password != ""
    requires user.email == ToLowerCase(Trim(email))
    requires users.FindByEmail(user.email) == Some(user)
    requires bcrypt.compare(password, user.password)
    ensures SigninRoute.Post(env, jwt, bcrypt, users, Request(cookies, Some(SigninRoute.SigninBody(Str(email), Str(password)))))
         == if Present(env.jwtSecret)
            then Response(200, UserBody(Project(user)),
                          Some(BuildAuthCookie(env, jwt.sign(SessionClaims(Project(user)), env.jwtSecret.value, OneWeek))))
            else SigninRoute.Unable
  {
    OptionalTrimLowerOfString(email);
    assert Present(Some(user.email)) && Truthy(Str(password));
  }

  /**
   * Sign-up followed by sign-in: if sign-up's normalised form `f` led it to
   * insert `u`, and bcrypt accepts a password against its own hash, then
   * signing in with any email that normalises to `u`'s (the one typed at
   * sign-up, or the stored one) and the same password succeeds for `u`, with
   * a cookie signed for `u`.
   */
  lemma SignUpThenSignIn(env: Env, jwt: Jwt, bcrypt: Bcrypt, users: UserTable,
                         f: SignupRoute.SignupForm, freshId: string, salt: string,
                         email: string, cookies: map<string, string>)
    requires users.Valid() && SignupRoute.Inserts(f, users, freshId)
    requires f.email == Some(ToLowerCase(Trim(email)))
    requires bcrypt.compare(f.password.s, bcrypt.hash(f.password.s, 10, salt))
    ensures var u := SignupRoute.NewUser(f, freshId, bcrypt, salt);
      var after := users.Insert(u).value;
      && after.Valid()
      && SigninRoute.Post(env, jwt, bcrypt, after, Request(cookies, Some(SigninRoute.SigninBody(Str(email), f.password))))
         == if Present(env.jwtSecret)
            then Response(200, UserBody(Project(u)),
                          Some(BuildAuthCookie(env, jwt.sign(SessionClaims(Project(u)), env.jwtSecret.value, OneWeek))))
            else SigninRoute.Unable
  {
    var u := SignupRoute.NewUser(f, freshId, bcrypt, salt);
    SignInAs(env, jwt, bcrypt, users.Insert(u).value, u, email, f.password.s, cookies);
  }

  /** The cookie sign-up sets for the user it inserted resolves to that user against the updated table. */
  lemma SignUpSessionResolves<B>(env: Env, jwt: Jwt, bcrypt: Bcrypt, users: UserTable,
                                 f: SignupRoute.SignupForm, freshId: string, salt: string, next: Request<B>)
    requires users.Valid() && freshId != "" && SignupRoute.Inserts(f, users, freshId)
    requires Present(env.jwtSecret) && RoundTrips(jwt, env.jwtSecret.value)
    requires var u := SignupRoute.NewUser(f, freshId, bcrypt, salt);
      TokenCookie(next.cookies) == Some(jwt.sign(SessionClaims(Project(u)), env.jwtSecret.value, OneWeek))
    ensures var u := SignupRoute.NewUser(f, freshId, bcrypt, salt);
      GetUserFromRequest(env, jwt, users.Insert(u).value, next) == Ok(Some(Project(u)))
  {
    var u := SignupRoute.NewUser(f, freshId, bcrypt, salt);
    SignedTokenResolves(env, jwt, users.Insert(u).value, u, next);
  }
}
