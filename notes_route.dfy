/**
 * The notes collection route: GET lists the caller's notes, POST creates one.
 * The user is resolved before the `try`, so a failure there is not turned
 * into a response by `handleError`: the handler itself throws.
 */
module NotesRoute {
  import opened Js
  import opened Users
  import opened Notes
  import opened Auth
  import opened Http

  /** The POST body properties the route reads. */
  datatype PostBody = PostBody(title: Field, description: Field, userId: Field)

  /** `handleError`: an `HttpError` keeps its status and message; anything else is a generic 500. */
  function HandleError(e: Thrown): (r: Response)
    ensures e.HttpError? ==> r.status == e.status && r.body == ErrorBody(e.message)
    ensures e.OtherError? ==> r.status == 500 && r.body == ErrorBody("Internal server error")
    ensures r.cookie.None?
  {
    match e
    case HttpError(status, message) => Response(status, ErrorBody(message), None)
    case OtherError(_) => Response(500, ErrorBody("Internal server error"), None)
  }

  /** The `data` POST hands to `createNoteForUser`: title and description trimmed, `userId` passed through as sent. */
  function CreateInput(body: Option<PostBody>): (r: Result<NoteInput>)
    ensures body.None? ==> r == Throw(InvalidJson)
    ensures body.Some? && (body.value.title.Other? || body.value.description.Other?) ==> r == Throw(NotAFunction)
    ensures r.Throw? ==> r.error.OtherError?
    ensures r.Ok? <==> body.Some? && !body.value.title.Other? && !body.value.description.Other?
    ensures r.Ok? ==> r.value.userId == body.value.userId
    ensures r.Ok? ==> r.value.title == (if body.value.title.Str? then Some(Trim(body.value.title.s)) else None)
    ensures r.Ok? ==>
      r.value.description == (if body.value.description.Str? then Some(Trim(body.value.description.s)) else None)
  {
    var b :- if body.Some? then Ok(body.value) else Throw(InvalidJson);
    var title :- OptionalTrim(b.title);
    var description :- OptionalTrim(b.description);
    Ok(NoteInput(title, description, b.userId))
  }

  /** A title or description made only of whitespace reaches `createNoteForUser` as the empty string, which it rejects. */
  lemma BlankFieldIsMissing(b: PostBody)
    requires (b.title.Str? && AllWhitespace(b.title.s)) || (b.description.Str? && AllWhitespace(b.description.s))
    ensures var i := CreateInput(Some(b)); i.Ok? ==> !(Present(i.value.title) && Present(i.value.description))
  {
    if b.title.Str? && AllWhitespace(b.title.s) {
      TrimWhitespaceOnly(b.title.s);
    } else {
      TrimWhitespaceOnly(b.description.s);
    }
  }

  /** GET /api/notes */
  method Get<B>(env: Env, jwt: Jwt, users: UserTable, store: NoteStore, request: Request<B>)
    returns (r: Result<Response>)
    requires store.Valid()
    ensures var u := GetUserFromRequest(env, jwt, users, request);
      && (u.Throw? ==> r == Throw(u.error))
      && (u.Ok? && u.value.None? ==> r == Ok(Response(401, ErrorBody("Not authenticated"), None)))
      && (u.Ok? && u.value.Some? ==>
            && r.Ok? && r.value.status == 200 && r.value.cookie.None? && r.value.body.NotesBody?
            && IsListing(store.notes, ListScope(u.value.value), r.value.body.notes))
  {
    var user :- GetUserFromRequest(env, jwt, users, request);
    var notes := store.ListNotesForUser(user);
    if notes.Throw? {
      return Ok(HandleError(notes.error));
    }
    r := Ok(Response(200, NotesBody(notes.value), None));
  }

  /** POST /api/notes */
  method Post(env: Env, jwt: Jwt, users: UserTable, store: NoteStore, request: Request<PostBody>,
              freshId: string, now: int)
    returns (r: Result<Response>)
    requires store.Valid()
    modifies store
    ensures store.Valid()
    ensures var u := GetUserFromRequest(env, jwt, users, request);
      && (u.Throw? ==> r == Throw(u.error) && store.notes == old(store.notes))
      && (u.Ok? ==> r.Ok?)
    ensures var u, input := GetUserFromRequest(env, jwt, users, request), CreateInput(request.body);
      && (u.Ok? && input.Throw? ==> r == Ok(Response(500, ErrorBody("Internal server error"), None)))
      && (u.Ok? && input.Ok? && u.value.None? ==> r == Ok(Response(401, ErrorBody("Not authenticated"), None)))
      && (u.Ok? && input.Ok? && u.value.Some? && !(Present(input.value.title) && Present(input.value.description)) ==>
            r == Ok(Response(400, ErrorBody("Title and description are required"), None)))
    ensures var u, input := GetUserFromRequest(env, jwt, users, request), CreateInput(request.body);
      (u.Ok? && input.Ok? && u.value.Some? && Present(input.value.title) && Present(input.value.description)
       && !(TargetUserId(u.value.value, input.value.userId).Str? && freshId !in old(store.notes))) ==>
        r == Ok(Response(500, ErrorBody("Internal server error"), None))
    ensures r.Ok? && r.value.status != 201 ==> store.notes == old(store.notes)
    ensures var u, input := GetUserFromRequest(env, jwt, users, request), CreateInput(request.body);
      (r.Ok? && r.value.status == 201) <==>
        && u.Ok? && u.value.Some? && input.Ok?
        && Present(input.value.title) && Present(input.value.description)
        && TargetUserId(u.value.value, input.value.userId).Str? && freshId !in old(store.notes)
    ensures r.Ok? && r.value.status == 201 ==>
      var owner, input := GetUserFromRequest(env, jwt, users, request).value.value, CreateInput(request.body).value;
      var note := Note(freshId, input.title.value, input.description.value,
                       TargetUserId(owner, input.userId).s, now, now);
      && r.value == Response(201, NoteBody(note), None)
      && store.notes == old(store.notes)[freshId := note]
  {
    var user :- GetUserFromRequest(env, jwt, users, request);
    var input := CreateInput(request.body);
    if input.Throw? {
      return Ok(HandleError(input.error));
    }
    var note := store.CreateNoteForUser(user, input.value, freshId, now);
    if note.Throw? {
      return Ok(HandleError(note.error));
    }
    r := Ok(Response(201, NoteBody(note.value), None));
  }
}
