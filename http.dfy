/**
 * What a route handler hands back: a status, a JSON body and, for the auth
 * routes, the cookie it sets.
 */
module Http {
  import opened Js
  import opened Users
  import opened Notes
  import opened Auth

  datatype Body =
    | ErrorBody(error: string)
    | NotesBody(notes: seq<Note>)
    | NoteBody(note: Note)
    | UserBody(user: PublicUser)
    | SuccessBody(success: bool)

  datatype Response = Response(status: int, body: Body, cookie: Option<Cookie>)
}
