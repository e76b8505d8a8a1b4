/**
 * The user table of the record store: every user has a unique id and a unique
 * email, and the store can look a user up by either. The handlers only ever
 * hand out the public projection {id, name, email, role}; the stored password
 * is a bcrypt hash.
 */
module Users {
  import opened Js

  datatype Role = USER | ADMIN

  function RoleName(r: Role): string {
    match r
    case USER => "USER"
    case ADMIN => "ADMIN"
  }

  /** A user as `select: { id, name, email, role }` returns it: no password field. */
  datatype PublicUser = PublicUser(id: string, name: string, email: string, role: Role)

  /** A stored user row. */
  datatype UserRecord = UserRecord(id: string, name: string, email: string, password: string, role: Role)

  function Project(u: UserRecord): PublicUser {
    PublicUser(u.id, u.name, u.email, u.role)
  }

  /** The row set, with the unique index on email kept as a map from email to id. */
  datatype UserTable = UserTable(byId: map<string, UserRecord>, idByEmail: map<string, string>) {

    ghost predicate Valid() {
      && (forall id :: id in byId ==>
            byId[id].id == id && byId[id].email in idByEmail && idByEmail[byId[id].email] == id)
      && (forall e :: e in idByEmail ==> idByEmail[e] in byId && byId[idByEmail[e]].email == e)
    }

    /** `findUnique({ where: { id } })` */
    function FindById(id: string): (r: Option<UserRecord>)
      ensures r.Some? <==> id in byId
      ensures r.Some? ==> r.value == byId[id]
    {
      if id in byId then Some(byId[id]) else None
    }

    /** `findUnique({ where: { email } })`: the one row with that email, if any. */
    function FindByEmail(email: string): (r: Option<UserRecord>)
      requires Valid()
      ensures r.Some? <==> exists id :: id in byId && byId[id].email == email
      ensures r.Some? ==> r.value.email == email && r.value.id in byId && byId[r.value.id] == r.value
    {
      if email in idByEmail then Some(byId[idByEmail[email]]) else None
    }

    /** `create({ data })`: the insert fails on a duplicate id or a duplicate email, as the unique indexes make it. */
    function Insert(u: UserRecord): (r: Result<UserTable>)
      requires Valid()
      ensures r.Ok? <==> u.id !in byId && FindByEmail(u.email).None?
      ensures r.Ok? ==> r.value.Valid() && r.value.byId == byId[u.id := u]
      ensures r.Ok? ==> r.value.FindByEmail(u.email) == Some(u)
      ensures r.Ok? ==> forall id :: id in byId ==> r.value.FindById(id) == FindById(id)
    {
      if u.id in byId || u.email in idByEmail then Throw(OtherError("Unique constraint failed"))
      else Ok(UserTable(byId[u.id := u], idByEmail[u.email := u.id]))
    }
  }

  const EmptyTable: UserTable := UserTable(map[], map[])

  /** The user table as the database holds it; sign-up inserts into it. */
  class UserStore {
    var users: UserTable

    ghost predicate Valid()
      reads this
    {
      users.Valid()
    }

    constructor ()
      ensures Valid() && users == EmptyTable
    {
      users := EmptyTable;
    }

    /** `prisma.user.create` */
    method Create(u: UserRecord) returns (r: Result<PublicUser>)
      requires Valid()
      modifies this
      ensures Valid()
      ensures var ins := old(users).Insert(u);
        && (ins.Ok? ==> r == Ok(Project(u)) && users == ins.value)
        && (ins.Throw? ==> r == Throw(ins.error) && users == old(users))
    {
      var ins := users.Insert(u);
      if ins.Throw? {
        return Throw(ins.error);
      }
      users := ins.value;
      r := Ok(Project(u));
    }
  }
}
