/**
 * POST /api/auth/signup: normalise the form, reject incomplete forms (400)
 * and taken emails (409), insert the user with a hashed password, and set the
 * session cookie. Anything thrown on the way becomes a generic 500.
 */
module SignupRoute {
  import opened Js
  import opened Users
  import opened Auth
  import opened Http

  datatype SignupBody = SignupBody(name: Field, email: Field, password: Field, role: Field)

  /** The form after normalisation: name trimmed, email trimmed and lower-cased, password as sent, role coerced. */
  datatype SignupForm = SignupForm(name: Option<string>, email: Option<string>, password: Field, role: Role)

  /** The spellings of "ADMIN" that upper-case to it. */
  predicate SpellsAdmin(s: string) {
    && |s| == 5
    && s[0] in "Aa" && s[1] in "Dd" && s[2] in "Mm" && s[3] in "Ii\U{0131}" && s[4] in "Nn"
  }

  /** `body?.role?.toUpperCase() === "ADMIN" ? "ADMIN" : "USER"` */
  function CoerceRole(role: Field): (r: Result<Role>)
    ensures r.Throw? <==> role.Other?
    ensures r.Throw? ==> r.error == NotAFunction
    ensures r == Ok(ADMIN) ==> role.Str?
  {
    var upper :- OptionalUpper(role);
    Ok(if upper == Some("ADMIN") then ADMIN else USER)
  }

  /** The role is ADMIN exactly for the case-insensitive spellings of "ADMIN"; a missing role is USER, a non-string one throws. */
  lemma CoerceRoleSpelling(role: Field)
    ensures role.Str? ==> CoerceRole(role) == Ok(if SpellsAdmin(role.s) then ADMIN else USER)
    ensures (role.Undefined? || role.Null?) ==> CoerceRole(role) == Ok(USER)
    ensures role.Other? ==> CoerceRole(role) == Throw(NotAFunction)
  {
    if role.Str? {
      var s := role.s;
      if SpellsAdmin(s) {
        assert ToUpperCase(s) == "ADMIN";
      } else if |s| == 5 {
        var k :| 0 <= k < 5 && UpperChar(s[k]) != "ADMIN"[k];
        assert ToUpperCase(s)[k] != "ADMIN"[k];
      }
    }
  }

  function NormalizeSignup(body: Option<SignupBody>): (r: Result<SignupForm>)
    ensures body.None? ==> r == Throw(InvalidJson)
    ensures r.Throw? ==> r.error.OtherError?
    ensures r.Ok? <==> body.Some? && !body.value.name.Other? && !body.value.email.Other? && !body.value.role.Other?
    ensures r.Ok? ==>
      && OptionalTrim(body.value.name) == Ok(r.value.name)
      && OptionalTrimLower(body.value.email) == Ok(r.value.email)
      && r.value.password == body.value.password
      && CoerceRole(body.value.role) == Ok(r.value.role)
  {
    if body.None? then Throw(InvalidJson)
    else
      var b := body.value;
      var name, email, role := OptionalTrim(b.name), OptionalTrimLower(b.email), CoerceRole(b.role);
      if name.Throw? then Throw(name.error)
      else if email.Throw? then Throw(email.error)
      else if role.Throw? then Throw(role.error)
      else Ok(SignupForm(name.value, email.value, b.password, role.value))
  }

  /** `!name || !email || !password` fails */
  predicate Complete(f: SignupForm) {
    Present(f.name) && Present(f.email) && Truthy(f.password)
  }

  const Unable: Response := Response(500, ErrorBody("Unable to create account"), None)
  const Incomplete: Response := Response(400, ErrorBody("Name, email, and password are required"), None)
  const EmailTaken: Response := Response(409, ErrorBody("Email already in use"), None)

  /** The row sign-up inserts: normalised name, email and role, and the bcrypt hash (cost 10) of the password. */
  function NewUser(f: SignupForm, id: string, bcrypt: Bcrypt, salt: string): (u: UserRecord)
    requires Complete(f) && f.password.Str?
    ensures u.id == id && u.name == f.name.value && u.email == f.email.value && u.role == f.role
    ensures u.password == bcrypt.hash(f.password.s, 10, salt)
  {
    UserRecord(id, f.name.value, f.email.value, bcrypt.hash(f.password.s, 10, salt), f.role)
  }

  /** The sign-up reaches the insert and the insert succeeds. */
  predicate Inserts(f: SignupForm, users: UserTable, id: string)
    requires users.Valid()
  {
    && Complete(f) && users.FindByEmail(f.email.value).None?
    && f.password.Str? && id !in users.byId
  }

  /** POST /api/auth/signup; `freshId` and `salt` are what the database and bcrypt would generate. */
  method Post(store: UserStore, env: Env, jwt: Jwt, bcrypt: Bcrypt, request: Request<SignupBody>,
              freshId: string, salt: string)
    returns (res: Response)
    requires store.Valid()
    modifies store
    ensures store.Valid()
    ensures var f := NormalizeSignup(request.body);
      && (f.Throw? ==> res == Unable)
      && (f.Ok? && !Complete(f.value) ==> res == Incomplete)
      && (f.Ok? && Complete(f.value) && old(store.users).FindByEmail(f.value.email.value).Some? ==> res == EmailTaken)
    ensures var f := NormalizeSignup(request.body);
      f.Ok? && Inserts(f.value, old(store.users), freshId) ==>
        var u := NewUser(f.value, freshId, bcrypt, salt);
        && store.users == old(store.users).Insert(u).value
        && res == (if Present(env.jwtSecret)
                   then Response(200, UserBody(Project(u)),
                                 Some(BuildAuthCookie(env, jwt.sign(SessionClaims(Project(u)), env.jwtSecret.value, OneWeek))))
                   else Unable)
    ensures var f := NormalizeSignup(request.body);
      !(f.Ok? && Inserts(f.value, old(store.users), freshId)) ==> store.users == old(store.users) && res.status != 200
    ensures var f := NormalizeSignup(request.body);
      (f.Ok? && Complete(f.value) && old(store.users).FindByEmail(f.value.email.value).None?
       && !Inserts(f.value, old(store.users), freshId)) ==> res == Unable
  {
    var form := NormalizeSignup(request.body);
    if form.Throw? {
      return Unable;
    }
    var f := form.value;
    if !Present(f.name) || !Present(f.email) || !Truthy(f.password) {
      return Incomplete;
    }
    if store.users.FindByEmail(f.email.value).Some? {
      return EmailTaken;
    }
    if !f.password.Str? {
      // bcrypt.hash rejects a password that is not a string
      return Unable;
    }
    var hashed := bcrypt.hash(f.password.s, 10, salt);
    var user := store.Create(UserRecord(freshId, f.name.value, f.email.value, hashed, f.role));
    if user.Throw? {
      return Unable;
    }
    var token := SignAuthToken(env, jwt, user.value);
    if token.Throw? {
      // the user row is already written
      return Unable;
    }
    res := Response(200, UserBody(user.value), Some(BuildAuthCookie(env, token.value)));
  }
}
