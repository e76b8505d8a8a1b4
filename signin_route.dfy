/**
 * POST /api/auth/signin: normalise the email, look the user up, check the
 * password, and set the session cookie. An unknown email and a wrong password
 * get the same answer. Nothing in the store changes.
 */
module SigninRoute {
  import opened Js
  import opened Users
  import opened Auth
  import opened Http

  datatype SigninBody = SigninBody(email: Field, password: Field)

  const Unable: Response := Response(500, ErrorBody("Unable to sign in"), None)
  const Incomplete: Response := Response(400, ErrorBody("Email and password are required"), None)
  const InvalidCredentials: Response := Response(401, ErrorBody("Invalid credentials"), None)

  /** The body of the `try`; a throw is caught by `Post`. */
  function Attempt(env: Env, jwt: Jwt, bcrypt: Bcrypt, users: UserTable, body: Option<SigninBody>): (r: Result<Response>)
    requires users.Valid()
    ensures body.None? ==> r == Throw(InvalidJson)
    ensures r.Throw? ==> r.error in {InvalidJson, NotAFunction, OtherError("Illegal arguments"), SecretMissing}
    ensures r.Ok? ==> r.value == Incomplete || r.value == InvalidCredentials || r.value.status == 200
    ensures r.Ok? && r.value.status == 200 ==>
      body.Some? && OptionalTrimLower(body.value.email).Ok? &&
      var email := OptionalTrimLower(body.value.email).value;
      && email.Some? && users.FindByEmail(email.value).Some? && body.value.password.Str?
      && bcrypt.compare(body.value.password.s, users.FindByEmail(email.value).value.password)
      && r.value.body == UserBody(Project(users.FindByEmail(email.value).value))
      && r.value.cookie.Some? && r.value.cookie.value.name == TokenName
  {
    var b :- if body.Some? then Ok(body.value) else Throw(InvalidJson);
    var email :- OptionalTrimLower(b.email);
    if !Present(email) || !Truthy(b.password) then Ok(Incomplete)
    else match users.FindByEmail(email.value)
      case None => Ok(InvalidCredentials)
      case Some(user) =>
        // bcrypt.compare rejects a password that is not a string
        var password :- if b.password.Str? then Ok(b.password.s) else Throw(OtherError("Illegal arguments"));
        if !bcrypt.compare(password, user.password) then Ok(InvalidCredentials)
        else
          var token :- SignAuthToken(env, jwt, Project(user));
          Ok(Response(200, UserBody(Project(user)), Some(BuildAuthCookie(env, token))))
  }

  /** POST /api/auth/signin */
  function Post(env: Env, jwt: Jwt, bcrypt: Bcrypt, users: UserTable, request: Request<SigninBody>): (res: Response)
    requires users.Valid()
    ensures request.body.None? ==> res == Unable
    ensures request.body.Some? && OptionalTrimLower(request.body.value.email).Throw? ==> res == Unable
    ensures request.body.Some? && OptionalTrimLower(request.body.value.email).Ok? ==>
      var email, password := OptionalTrimLower(request.body.value.email).value, request.body.value.password;
      && (!Present(email) || !Truthy(password) ==> res == Incomplete)
      && (Present(email) && Truthy(password) && users.FindByEmail(email.value).None? ==> res == InvalidCredentials)
      && (Present(email) && Truthy(password) && users.FindByEmail(email.value).Some? ==>
            var user := users.FindByEmail(email.value).value;
            && (!password.Str? ==> res == Unable)
            && (password.Str? && !bcrypt.compare(password.s, user.password) ==> res == InvalidCredentials)
            && (password.Str? && bcrypt.compare(password.s, user.password) ==>
                  res == if Present(env.jwtSecret)
                         then Response(200, UserBody(Project(user)),
                                       Some(BuildAuthCookie(env, jwt.sign(SessionClaims(Project(user)), env.jwtSecret.value, OneWeek))))
                         else Unable))
  {
    match Attempt(env, jwt, bcrypt, users, request.body)
    case Ok(res) => res
    case Throw(_) => Unable
  }
}
