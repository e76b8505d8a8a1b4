/**
 * The notes library: the access policy (who may see or change which note) and
 * the five note operations over the note table. Every operation checks, in
 * this order: a signed-in user (401), a note id (400), an existing note (404),
 * ownership unless the user is an ADMIN (403).
 */
module Notes {
  import opened Js
  import opened Users

  datatype Note = Note(id: string, title: string, description: string, userId: string, createdAt: int, updatedAt: int)

  /** The note table, keyed by note id. */
  type Table = map<string, Note>

  ghost predicate WellKeyed(t: Table) {
    forall k :: k in t ==> t[k].id == k
  }

  const NotAuthenticated: Thrown := HttpError(401, "Not authenticated")
  const NoteNotFound: Thrown := HttpError(404, "Note not found")
  const AccessDenied: Thrown := HttpError(403, "You are not allowed to access this note")
  const IdRequired: Thrown := HttpError(400, "Note id is required")
  const FieldsRequired: Thrown := HttpError(400, "Title and description are required")

  /** The ownership rule: an ADMIN may act on any note, anyone else only on their own. */
  predicate MayAccess(user: PublicUser, note: Note) {
    user.role == ADMIN || note.userId == user.id
  }

  // ---------------------------------------------------------------------------
  // Guards

  function AssertUser(user: Option<PublicUser>): (r: Result<PublicUser>)
    ensures r.Ok? <==> user.Some?
    ensures r.Ok? ==> r.value == user.value
    ensures r.Throw? ==> r.error == NotAuthenticated
  {
    if user.None? then Throw(NotAuthenticated) else Ok(user.value)
  }

  function AssertNoteAccess(user: PublicUser, note: Option<Note>): (r: Result<Note>)
    ensures note.None? ==> r == Throw(NoteNotFound)
    ensures note.Some? ==> (r.Ok? <==> MayAccess(user, note.value))
    ensures note.Some? && r.Ok? ==> r.value == note.value
    ensures note.Some? && r.Throw? ==> r.error == AccessDenied
  {
    if note.None? then Throw(NoteNotFound)
    else if user.role != ADMIN && note.value.userId != user.id then Throw(AccessDenied)
    else Ok(note.value)
  }

  function AssertNoteId(id: Option<string>): (r: Result<string>)
    ensures r.Ok? <==> Present(id)
    ensures r.Ok? ==> r.value == id.value
    ensures r.Throw? ==> r.error == IdRequired
  {
    if !Present(id) then Throw(IdRequired) else Ok(id.value)
  }

  function Lookup(t: Table, id: string): Option<Note> {
    if id in t then Some(t[id]) else None
  }

  // ---------------------------------------------------------------------------
  // Listing

  /** The `where` filter of the listing query. */
  datatype Scope = AllNotes | OwnedBy(userId: string)

  predicate InScope(scope: Scope, n: Note) {
    match scope
    case AllNotes => true
    case OwnedBy(u) => n.userId == u
  }

  /** An ADMIN's listing is unfiltered; anyone else's is filtered to their own id. */
  function ListScope(user: PublicUser): (s: Scope)
    ensures s == AllNotes <==> user.role == ADMIN
    ensures forall n :: InScope(s, n) <==> MayAccess(user, n)
  {
    if user.role == ADMIN then AllNotes else OwnedBy(user.id)
  }

  ghost predicate NewestFirst(s: seq<Note>) {
    forall i, j :: 0 <= i < j < |s| ==> s[i].createdAt >= s[j].createdAt
  }

  ghost function Selected(t: Table, scope: Scope): set<Note> {
    set n | n in t.Values && InScope(scope, n)
  }

  /** `r` holds each note of the table that the scope admits exactly once, newest first. */
  ghost predicate IsListing(t: Table, scope: Scope, r: seq<Note>) {
    NewestFirst(r) && multiset(r) == multiset(Selected(t, scope))
  }

  /** The notes the scope admits whose ids are not among `pending`. */
  ghost function SelectedOutside(t: Table, scope: Scope, pending: set<string>): set<Note> {
    set n | n in t.Values && n.id !in pending && InScope(scope, n)
  }

  /** Taking key `k` out of `pending` adds its note, once, to the selection exactly when the scope admits it. */
  lemma SelectedOutsideStep(t: Table, scope: Scope, pending: set<string>, k: string)
    requires WellKeyed(t) && k in pending && pending <= t.Keys
    ensures multiset(SelectedOutside(t, scope, pending - {k})) ==
      multiset(SelectedOutside(t, scope, pending)) + (if InScope(scope, t[k]) then multiset{t[k]} else multiset{})
  {
    var before, after := SelectedOutside(t, scope, pending), SelectedOutside(t, scope, pending - {k});
    forall n | n in after ensures n in before || n == t[k] {
      if n.id == k {
        assert t[n.id] == n;
      }
    }
    if InScope(scope, t[k]) {
      assert after == before + {t[k]};
      assert t[k] !in before;
    } else {
      assert after == before;
    }
  }

  /** Places `n` after every note at least as new as it and before every older one. */
  function InsertNewestFirst(s: seq<Note>, n: Note): (r: seq<Note>)
    requires NewestFirst(s)
    ensures NewestFirst(r)
    ensures multiset(r) == multiset(s) + multiset{n}
    ensures |r| == |s| + 1 && (r[0] == n || (s != [] && r[0] == s[0]))
  {
    if s == [] then [n]
    else if s[0].createdAt < n.createdAt then [n] + s
    else
      var rest := InsertNewestFirst(s[1..], n);
      assert s == [s[0]] + s[1..];
      [s[0]] + rest
  }

  // ---------------------------------------------------------------------------
  // Creating and updating

  /** The fields `createNoteForUser` reads from its `data` argument. */
  datatype NoteInput = NoteInput(title: Option<string>, description: Option<string>, userId: Field)

  /** The fields `updateNoteForUser` reads; `None` is null or undefined. */
  datatype NotePatch = NotePatch(title: Option<string>, description: Option<string>)

  /** The owner of a new note: the requested one only when an ADMIN names one, otherwise the caller. */
  function TargetUserId(user: PublicUser, requested: Field): (r: Field)
    ensures user.role == ADMIN && Truthy(requested) ==> r == requested
    ensures !(user.role == ADMIN && Truthy(requested)) ==> r == Str(user.id)
  {
    if user.role == ADMIN && Truthy(requested) then requested else Str(user.id)
  }

  /** The note after a partial update: `??` keeps a field only when the patch leaves it null or undefined. */
  function Patched(note: Note, patch: NotePatch, now: int): (n: Note)
    ensures n.id == note.id && n.userId == note.userId && n.createdAt == note.createdAt
    ensures n.updatedAt == now
    ensures n.title == if patch.title.Some? then patch.title.value else note.title
    ensures n.description == if patch.description.Some? then patch.description.value else note.description
  {
    note.(title := if patch.title.Some? then patch.title.value else note.title,
          description := if patch.description.Some? then patch.description.value else note.description,
          updatedAt := now)
  }

  // ---------------------------------------------------------------------------
  // Reading one note

  /** `getNoteForUser`: the four guards in order, then the note itself. */
  function GetNote(t: Table, user: Option<PublicUser>, id: Option<string>): (r: Result<Note>)
    ensures user.None? ==> r == Throw(NotAuthenticated)
    ensures user.Some? && !Present(id) ==> r == Throw(IdRequired)
    ensures user.Some? && Present(id) && id.value !in t ==> r == Throw(NoteNotFound)
    ensures user.Some? && Present(id) && id.value in t ==>
      && (r.Ok? <==> MayAccess(user.value, t[id.value]))
      && (r.Ok? ==> r.value == t[id.value])
      && (r.Throw? ==> r.error == AccessDenied)
  {
    var u :- AssertUser(user);
    var key :- AssertNoteId(id);
    var note :- AssertNoteAccess(u, Lookup(t, key));
    Ok(note)
  }

  /** Once a note is gone, asking for it again fails with 404, whoever asks. */
  lemma RemovedNoteIsNotFound(t: Table, user: Option<PublicUser>, id: Option<string>)
    requires GetNote(t, user, id).Ok?
    ensures GetNote(t - {id.value}, user, id) == Throw(NoteNotFound)
  {
  }

  /** The note table of the database, changed in place by create, update and delete. */
  class NoteStore {
    var notes: Table

    ghost predicate Valid()
      reads this
    {
      WellKeyed(notes)
    }

    constructor ()
      ensures Valid() && notes == map[]
    {
      notes := map[];
    }

    /** `findMany({ where, orderBy: { createdAt: "desc" } })` */
    method FindMany(scope: Scope) returns (r: seq<Note>)
      requires Valid()
      ensures IsListing(notes, scope, r)
    {
      r := [];
      var pending := notes.Keys;
      while pending != {}
        invariant pending <= notes.Keys
        invariant NewestFirst(r)
        invariant multiset(r) == multiset(SelectedOutside(notes, scope, pending))
        decreases |pending|
      {
        var k :| k in pending;
        SelectedOutsideStep(notes, scope, pending, k);
        if InScope(scope, notes[k]) {
          r := InsertNewestFirst(r, notes[k]);
        }
        pending := pending - {k};
      }
      assert SelectedOutside(notes, scope, {}) == Selected(notes, scope);
    }

    /** `listNotesForUser` */
    method ListNotesForUser(user: Option<PublicUser>) returns (r: Result<seq<Note>>)
      requires Valid()
      ensures user.None? ==> r == Throw(NotAuthenticated)
      ensures user.Some? ==> r.Ok? && IsListing(notes, ListScope(user.value), r.value)
      ensures user.Some? && user.value.role == ADMIN ==>
        forall n :: n in r.value <==> n in notes.Values
      ensures user.Some? && user.value.role != ADMIN ==>
        forall n :: n in r.value <==> n in notes.Values && n.userId == user.value.id
    {
      var u :- AssertUser(user);
      var found := FindMany(ListScope(u));
      r := Ok(found);
      forall n ensures n in found <==> n in Selected(notes, ListScope(u)) {
        assert n in found <==> n in multiset(found);
      }
    }

    /** `createNoteForUser` */
    method CreateNoteForUser(user: Option<PublicUser>, data: NoteInput, freshId: string, now: int)
      returns (r: Result<Note>)
      requires Valid()
      modifies this
      ensures Valid()
      ensures user.None? ==> r == Throw(NotAuthenticated)
      ensures user.Some? && !(Present(data.title) && Present(data.description)) ==> r == Throw(FieldsRequired)
      ensures r.Ok? <==>
        && user.Some? && Present(data.title) && Present(data.description)
        && TargetUserId(user.value, data.userId).Str? && freshId !in old(notes)
      ensures r.Ok? ==>
        && r.value == Note(freshId, data.title.value, data.description.value,
                           TargetUserId(user.value, data.userId).s, now, now)
        && notes == old(notes)[freshId := r.value]
      ensures r.Throw? ==> notes == old(notes)
      ensures r.Throw? ==> r.error == NotAuthenticated || r.error == FieldsRequired || r.error.OtherError?
      ensures user.Some? && Present(data.title) && Present(data.description) && r.Throw? ==> r.error.OtherError?
    {
      var u :- AssertUser(user);
      var target := TargetUserId(u, data.userId);
      if !Present(data.title) || !Present(data.description) {
        return Throw(FieldsRequired);
      }
      if !target.Str? {
        return Throw(OtherError("Invalid value for argument userId: expected String"));
      }
      if freshId in notes {
        return Throw(OtherError("Unique constraint failed on the fields: (id)"));
      }
      var note := Note(freshId, data.title.value, data.description.value, target.s, now, now);
      notes := notes[freshId := note];
      r := Ok(note);
    }

    /** `updateNoteForUser` */
    method UpdateNoteForUser(user: Option<PublicUser>, id: Option<string>, patch: NotePatch, now: int)
      returns (r: Result<Note>)
      requires Valid()
      modifies this
      ensures Valid()
      ensures var g := GetNote(old(notes), user, id);
        && (g.Throw? ==> r == Throw(g.error) && notes == old(notes))
        && (g.Ok? ==> r == Ok(Patched(g.value, patch, now)) && notes == old(notes)[id.value := r.value])
    {
      var u :- AssertUser(user);
      var key :- AssertNoteId(id);
      var note :- AssertNoteAccess(u, Lookup(notes, key));
      var updated := Patched(note, patch, now);
      notes := notes[key := updated];
      r := Ok(updated);
    }

    /** `deleteNoteForUser`; `Ok(true)` is the `{ success: true }` it returns. */
    method DeleteNoteForUser(user: Option<PublicUser>, id: Option<string>) returns (r: Result<bool>)
      requires Valid()
      modifies this
      ensures Valid()
      ensures var g := GetNote(old(notes), user, id);
        && (g.Throw? ==> r == Throw(g.error) && notes == old(notes))
        && (g.Ok? ==> r == Ok(true) && notes == old(notes) - {id.value})
    {
      var u :- AssertUser(user);
      var key :- AssertNoteId(id);
      var _ :- AssertNoteAccess(u, Lookup(notes, key));
      notes := notes - {key};
      r := Ok(true);
    }
  }
}
