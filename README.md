# Notes service: access policy, sessions and auth routes

A model of the server side of a small role-aware notes application (Next.js route
handlers over a Prisma database, bcrypt password hashes and JWT session cookies).

What it covers:

- **The notes library.** Every note operation runs a fixed chain of guards:
  - a signed-in user, else 401;
  - a note id, else 400;
  - an existing note, else 404;
  - ownership unless the user is an ADMIN, else 403.

  The note table is a `map` field of the class `Notes.NoteStore`. Create, update and delete change it in place.
- **The session layer.**
  - The signing-secret check and signing and verifying tokens.
  - The session cookie.
  - Resolving a request's cookie to the signed-in user. That user is projected to `{id, name, email, role}`, with no password.
- **The route handlers.**
  - `GET`/`POST /api/notes`, with the mapping of errors to statuses.
  - `POST /api/auth/signup`, which inserts into the user table (the class `Users.UserStore`).
  - `POST /api/auth/signin` and `POST /api/auth/signout`, which are pure.

Modules:

| module | file | models |
|---|---|---|
| `Js` | js.dfy | JSON body properties (`Field`), truthiness, thrown errors (`Thrown`, `Result`), `String.prototype.trim`, `toLowerCase`/`toUpperCase`, optional chaining |
| `Users` | users.dfy | the user table with its unique id and email indexes; `UserStore` |
| `Notes` | notes.dfy | `src/lib/notes.js` |
| `Auth` | auth.dfy | `src/lib/auth.js` |
| `Http` | http.dfy | response values `(status, body, cookie?)` |
| `NotesRoute` | notes_route.dfy | `src/app/api/notes/route.js` |
| `SignupRoute`, `SigninRoute`, `SignoutRoute` | signup_route.dfy, signin_route.dfy, signout_route.dfy | the three auth routes |
| `Sessions` | sessions.dfy | properties that span several routes: sign-up, then sign-in, then sign-out |

The libraries are uninterpreted, and so are the values a real run would generate:

- **jsonwebtoken and bcryptjs** are values of arrow type (`Auth.Jwt`, `Auth.Bcrypt`).
  - A lemma that needs `verify(sign(p)) == p` or `compare(p, hash(p))` states it as a requirement (`Auth.RoundTrips`).
  - A `jwt.verify` that throws (malformed, bad signature or expired token) is `None`.
- **Generated values are parameters:**
  - the database's generated ids (`freshId`);
  - the creation and update time (`now`);
  - bcrypt's random salt (`salt`).
- **The environment variables** `JWT_SECRET` and `NODE_ENV` are an `Auth.Env` parameter.

A JavaScript exception is a `Js.Thrown`:

- `HttpError(status, message)` for `HttpError`;
- `OtherError(message)` for everything else, such as a `TypeError` from `x?.trim()` on a non-string, a Prisma validation error or a missing secret.

Handlers that catch everything return a `Response`. The notes routes return `Result<Response>`, because their user resolution runs outside the `try` and its exceptions escape.

Behaviour of the code worth knowing, which the model follows:

- **Sign-up without `JWT_SECRET`.** The user row is inserted first. `signAuthToken` then throws, and the route answers 500 "Unable to create account", but the account exists (`SignupRoute.Post`).
- **Non-string fields.** A title, description, name, email or role that is present but not a string throws a `TypeError` at `?.trim()`/`?.toUpperCase()`, which becomes a 500.
- **Parse order in `POST /api/notes`.** The body is parsed before `createNoteForUser` runs its user check. So a malformed body answers 500 even when no one is signed in.
- **The 404/403 guards look the note up**, but never a user's existence: an ADMIN may name any truthy `userId` as a new note's owner. Only Prisma's type check (it must be a string) applies; the database's foreign key is not part of this model.

## Model

| member | source | states |
|---|---|---|
| Js.TrimStart | src/app/api/auth/signup/route.js:8-9 | `trim`'s leading half: the result is a suffix, and exactly the whitespace before it is dropped (ECMAScript's whitespace and line-terminator set) |
| Js.TrimEnd | src/app/api/auth/signup/route.js:8-9 | `trim`'s trailing half: the result is a prefix, and exactly the whitespace after it is dropped |
| Js.Trim | src/app/api/auth/signup/route.js:8-9 | `trim`: the result neither starts nor ends with whitespace (with `TrimPadded`: it is exactly the input without its surrounding whitespace) |
| Js.OptionalTrim | src/app/api/notes/route.js:35-36 | `x?.trim()`: throws a `TypeError` exactly for a present non-string; undefined for null or undefined; the trimmed text for a string |
| Js.ToLowerCase | src/app/api/auth/signin/route.js:8 | `toLowerCase`: same length; each ASCII capital becomes its own small letter and the Kelvin sign becomes 'k'; every other character is kept; no ASCII capital is left |
| Js.ToLowerCaseEqual | src/app/api/auth/signup/route.js:9 | two emails lower-case to the same key exactly when they agree character by character up to letter case, so the key is case-insensitive and merges no other emails |
| Js.ToUpperCase | src/app/api/auth/signup/route.js:11 | `toUpperCase`: same length; each ASCII small letter becomes its own capital, dotless ı becomes 'I' and long ſ becomes 'S'; every other character is kept; no ASCII small letter is left |
| Js.OptionalTrimLower | src/app/api/auth/signin/route.js:8 | `x?.trim().toLowerCase()`: throws exactly for a present non-string; undefined for null or undefined; the trimmed, lower-cased text for a string |
| Js.OptionalUpper | src/app/api/auth/signup/route.js:11 | `x?.toUpperCase()`: throws exactly for a present non-string; undefined for null or undefined; the upper-cased text for a string |
| Js.TrimPadded | src/app/api/notes/route.js:35-36 | trimming a string that is whitespace padding around a core returns exactly the core |
| Js.TrimWhitespaceOnly | src/app/api/notes/route.js:35-36 | a whitespace-only string trims to the empty string |
| Js.TrimIdempotent | src/app/api/auth/signup/route.js:8 | trimming twice is trimming once |
| Js.ToLowerCaseIdempotent | src/app/api/auth/signin/route.js:8 | lower-casing twice is lower-casing once |
| Js.TrimToLowerCaseCommute | src/app/api/auth/signin/route.js:8 | trimming and lower-casing commute |
| Js.TrimLowerIdempotent | src/app/api/auth/signup/route.js:9 | the normalised email (`trim().toLowerCase()`) is a fixed point of the same normalisation |
| Js.OptionalTrimLowerIdempotent | src/app/api/auth/signin/route.js:8 | the email sign-up stores (`email?.trim().toLowerCase()` of a string) comes out of sign-in's identical normalisation unchanged, so signing in with the stored email looks up the same row |
| Users.UserTable.FindById | src/lib/auth.js:58-61 | lookup by id finds the row exactly when the id is stored |
| Users.UserTable.FindByEmail | src/app/api/auth/signup/route.js:20 | lookup by email finds a row exactly when some stored row has that email, and the row found has it |
| Users.UserTable.Insert | src/app/api/auth/signup/route.js:29-32 | the insert succeeds exactly when neither the id nor the email is taken; it then adds that one row, keeps every other row and the table's index invariant, and the email now finds the new row |
| Users.UserStore.Create | src/app/api/auth/signup/route.js:29-32 | `prisma.user.create`: on success the table is the insert's result and the answer is the public projection; on failure the table is unchanged |
| Notes.AssertUser | src/lib/notes.js:10-14 | fails with 401 "Not authenticated" exactly when there is no user |
| Notes.AssertNoteAccess | src/lib/notes.js:16-23 | a missing note gives 404; an existing note passes exactly when the user is an ADMIN or its owner, and gives 403 otherwise |
| Notes.AssertNoteId | src/lib/notes.js:25-29 | fails with 400 "Note id is required" exactly when the id is missing or empty |
| Notes.ListScope | src/lib/notes.js:33 | the listing is unfiltered exactly for an ADMIN, and its filter admits a note exactly when the user may access it |
| Notes.InsertNewestFirst | src/lib/notes.js:37 | inserting into a newest-first list keeps it newest-first and adds exactly that note |
| Notes.TargetUserId | src/lib/notes.js:43-44 | a new note's owner is the requested one if and only if an ADMIN requests a truthy one; otherwise it is the caller |
| Notes.Patched | src/lib/notes.js:77-84 | `??` update: a field is replaced exactly when the patch gives a value (an empty string included); id, owner and creation time are kept |
| Notes.GetNote | src/lib/notes.js:60-69 | `getNoteForUser`: 401, then 400, then 404, then 403 unless the user may access the note, else the stored note |
| Notes.RemovedNoteIsNotFound | src/lib/notes.js:87-94 | once a note that could be read is removed, reading it again gives 404 |
| Notes.NoteStore.FindMany | src/lib/notes.js:34-38 | `findMany` with `orderBy createdAt desc`: every stored note in scope, each once, newest first |
| Notes.NoteStore.ListNotesForUser | src/lib/notes.js:31-39 | 401 without a user; otherwise the listing of the user's scope, which is every note for an ADMIN and exactly the user's own notes for anyone else; the table is not modified |
| Notes.NoteStore.CreateNoteForUser | src/lib/notes.js:41-58 | 401 first; then 400 when title or description is falsy; on success exactly one note is added, with the chosen owner and equal creation and update times; a signed-in caller who sent both fields fails only with a database error (never 401 or 400); on any failure the table is unchanged |
| Notes.NoteStore.UpdateNoteForUser | src/lib/notes.js:71-85 | fails exactly as `getNoteForUser` does, then without change; otherwise only that note is replaced, by its `??`-patched version |
| Notes.NoteStore.DeleteNoteForUser | src/lib/notes.js:87-94 | fails exactly as `getNoteForUser` does, then without change; otherwise exactly that note is removed and the answer is success |
| Auth.OneWeekInSeconds | src/lib/auth.js:7 | `ONE_WEEK` is 604800 seconds |
| Auth.EnsureSecret | src/lib/auth.js:9-13 | throws "JWT_SECRET is not set" exactly when the secret is unset or empty |
| Auth.SessionClaims | src/lib/auth.js:25-26 | a session token's claims are the user's id and role |
| Auth.SignAuthToken | src/lib/auth.js:23-30 | fails exactly when the secret is missing; otherwise it is the library's signature of the claims under the secret with a one-week lifetime |
| Auth.VerifyAuthToken | src/lib/auth.js:32-39 | throws exactly when the secret is missing, since the check sits outside the `try`; otherwise it is the library's verdict, with every verification failure as no payload |
| Auth.BuildAuthCookie | src/lib/auth.js:41-51 | the cookie is named "token", carries the token, is http-only, same-site lax, path "/", lives one week, and is secure exactly in production |
| Auth.FindSessionUser | src/lib/auth.js:58-61 | a non-string id is rejected by the client; a string id yields the stored user's public projection, or nothing when no such user exists |
| Auth.GetUserFromRequest | src/lib/auth.js:53-62 | no cookie gives no user; a cookie without a secret throws; a token that does not verify, or whose `userId` is falsy, gives no user; a verified truthy `userId` is looked up by `findUnique`; a user is returned only for a verified payload whose `userId` is a stored id, and it is that row's public projection |
| Auth.CurrentUser | src/lib/auth.js:64-77 | the same three outcomes read from the page's cookie jar: no cookie or an unverifiable or id-less token gives no user, a missing secret throws, a verified truthy `userId` is looked up |
| Auth.CurrentUserAgrees | src/lib/auth.js:64-77 | `currentUser` decides exactly as `getUserFromRequest` does on the same cookies |
| Auth.SignedTokenResolves | src/lib/auth.js:53-62 | provided the token library round-trips and the user's id is non-empty, a token signed for a stored user resolves back to that user's public record (an empty id is falsy, so its session never resolves) |
| NotesRoute.HandleError | src/app/api/notes/route.js:9-18 | an `HttpError` becomes a response with its own status and message; anything else becomes 500 "Internal server error" |
| NotesRoute.CreateInput | src/app/api/notes/route.js:33-37 | the body is accepted exactly when it is valid JSON whose title and description are strings or missing; invalid JSON and non-string title or description throw; otherwise title and description are trimmed and `userId` is passed through as sent |
| NotesRoute.BlankFieldIsMissing | src/app/api/notes/route.js:35-36 | a whitespace-only title or description reaches the create check as missing, so the create fails with 400 |
| NotesRoute.Get | src/app/api/notes/route.js:20-28 | a resolution failure escapes; no user gives 401; otherwise 200 with the user's listing |
| NotesRoute.Post | src/app/api/notes/route.js:30-43 | a resolution failure escapes without change; a bad body gives 500, no user 401, missing fields 400, an insert the database rejects (a non-string owner chosen by an ADMIN, a taken id) 500 "Internal server error"; 201 exactly when the create succeeds, with exactly the new note added; any other status leaves the table unchanged |
| SignupRoute.CoerceRole | src/app/api/auth/signup/route.js:11 | `role?.toUpperCase()` throws exactly for a role that is present but not a string; ADMIN is only ever chosen for a string |
| SignupRoute.CoerceRoleSpelling | src/app/api/auth/signup/route.js:11 | the role is ADMIN exactly for the spellings that upper-case to "ADMIN", and USER for every other string and for a missing role; a non-string role throws |
| SignupRoute.NormalizeSignup | src/app/api/auth/signup/route.js:7-11 | the body is accepted exactly when it is valid JSON whose name, email and role are strings or missing; the form is the trimmed name, the trimmed and lower-cased email, the password as sent and the coerced role; invalid JSON and non-string fields throw |
| SignupRoute.NewUser | src/app/api/auth/signup/route.js:28-30 | the inserted row holds the normalised name, email and role and the cost-10 bcrypt hash of the password, not the password |
| SignupRoute.Post | src/app/api/auth/signup/route.js:5-45 | a thrown error gives 500 (normalisation, a non-string password that bcrypt rejects, a failed insert, a missing secret), an incomplete form 400 and a taken email 409, all without change; on an insert, the table gains exactly the new user, and with a secret the answer is 200 with the public user and a cookie signed for them (without one it is 500); every path that does not insert leaves the table unchanged and does not answer 200 |
| SigninRoute.Attempt | src/app/api/auth/signin/route.js:6-33 | the `try` body: invalid JSON throws; it throws only the JSON, `TypeError`, bcrypt argument and missing-secret errors; it answers 400, 401 or 200, and 200 only when the normalised email finds a stored user, the password is a string and bcrypt accepts it against that user's hash, with that user's public record and the session cookie |
| SigninRoute.Post | src/app/api/auth/signin/route.js:5-41 | invalid JSON or a non-string email gives 500; a missing email or password 400; an unknown email and a wrong password both 401 "Invalid credentials"; a non-string password 500; a match 200 with the public user and a cookie signed for them (500 without a secret); the table is an input only |
| SignoutRoute.Post | src/app/api/auth/signout/route.js:4-9 | 200 `{success: true}` with a cookie named "token", value "" and max-age 0, whose other attributes are those of the session cookie |
| Sessions.SignInSessionResolves | src/app/api/auth/signin/route.js:28-33 | the cookie of a successful sign-in resolves, on a later request, to the user in the response, provided the token library round-trips and no stored user has the empty id |
| Sessions.SignOutEndsSession | src/app/api/auth/signout/route.js:5-7 | the cleared cookie resolves to no user and never throws, with or without a secret |
| Sessions.SignInAs | src/app/api/auth/signin/route.js:8-33 | signing in with an email that normalises to a stored user's email and a password bcrypt accepts for them gives 200 with that user's public record and a cookie signed for them (500 without a secret) |
| Sessions.SignUpThenSignIn | src/app/api/auth/signin/route.js:8-33 | after a sign-up's normalised form inserts a user, signing in with an email that normalises to theirs and the same password gives 200 with their public record and a cookie signed for them (500 without a secret), provided bcrypt accepts a password against its own hash |
| Sessions.SignUpSessionResolves | src/app/api/auth/signup/route.js:34-37 | the cookie sign-up sets resolves to the new user against the updated table, provided the token library round-trips |

## Left out

- **I/O and the framework.** Prisma's I/O, `NextResponse` and the cookie jar plumbing, `request.json()` and `console.error` are not modelled.
  - A response is a `(status, body, cookie?)` value.
  - A body that is not valid JSON is `None`.
- **Relation `include` on returned notes.** The notes library asks Prisma to attach the owner's public fields; the model returns the note row without them.
- **The database's foreign key from `note.userId` to a user** is not modelled. An ADMIN-chosen owner that does not exist is accepted by the model, whereas the database would reject it.
- **The issue time inside `jwt.sign`.** jsonwebtoken stamps each token with an `iat` claim read from the clock; the model's `sign` depends only on the claims, the secret and the lifetime. So two tokens signed for the same user at different times are equal in the model, and the sessions lemmas speak of "a cookie signed for the user" rather than of one particular token.
- **Token expiry and the clock inside `jwt.verify`.** These belong to the library. An expired token is one of the cases where `verify` gives `None`.
- **Cryptographic properties** of bcrypt and jsonwebtoken are not claimed. Lemmas that need a round trip take it as a requirement.
- **Concurrency.** The non-atomic read-then-write of update and delete is out of scope: each call is one atomic step.
- **Unicode case mapping.**
  - `toLowerCase`/`toUpperCase` map ASCII letters, plus the non-ASCII letters whose full mapping (the one `toLowerCase`/`toUpperCase` use) is a single ASCII letter: dotless ı and long ſ upper-case to I and S, and the Kelvin sign lower-cases to k.
  - Every other character is kept as it is. So other letters, `ß` → `SS` and dotted `İ` are not modelled.
  - The role check only ever compares with "ADMIN", so the model decides it exactly.
- **The `/api/notes/[id]` route** is not part of this model. `getNoteForUser`, `updateNoteForUser` and `deleteNoteForUser` are modelled at the library level.
- **Timestamps.** Prisma's `updatedAt` behaviour is taken to be "set to the time of the write". The time is the parameter `now`.
- Notes.NoteStore.UpdateNoteForUser: the patch values are strings or null/undefined; a non-string value, which Prisma would reject, is not modelled.
- Notes.NoteStore.FindMany: the order among notes with equal `createdAt` is left unspecified, as the query leaves it.
- **Pages and UI components** (the dashboard, the forms, date formatting) are not part of this model.
