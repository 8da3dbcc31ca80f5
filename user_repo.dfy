/** backend/repos/users.go: the UserRepository over the users table.
    Store I/O errors are parameters: a `...Fails` flag says that the store
    reports an error for that statement. */
module UserRepo {
  import opened Common
  import opened Schema
  import opened Decimal

  /** The `User` struct: a users row without its password hash. */
  datatype User = User(id: int, username: string, createdAt: string, tickets: int, role: string)

  function ToUser(row: UserRow): User {
    User(row.id, row.username, row.createdAt, row.tickets, row.role)
  }

  datatype UserError =
    | QueryFailed
    | AlreadyExists(username: string)
    | HashFailed
    | InsertFailed
    | DeleteFailed(id: int)
    | NoUserFound(id: int)
    | UpdateFailed(id: int)

  /** The text of the error, as `err.Error()` gives it (the wrapped driver
      error is not modelled). */
  function Message(e: UserError): string {
    match e
    case QueryFailed => "failed to retrieve users"
    case AlreadyExists(u) => "user '" + u + "' already exists"
    case HashFailed => "failed to hash password"
    case InsertFailed => "failed to create user"
    case DeleteFailed(id) => "failed to delete user id " + Format(id)
    case NoUserFound(id) => "no user found with id " + Format(id)
    case UpdateFailed(id) => "failed to update user id " + Format(id)
  }

  /** GetUserByUsername: the row with that username, nil when there is
      none, or the store's error. */
  function GetUserByUsername(users: seq<UserRow>, username: string, queryFails: bool): (r: Lookup<User>)
    requires Pairwise(users, UsernameDiffers)
    ensures r.LookupError? <==> queryFails
    ensures r.Absent? <==> !queryFails && !HasUsername(users, username)
    ensures forall u :: u in users && u.username == username && !queryFails ==> r == Found(ToUser(u))
  {
    if queryFails then LookupError
    else match FindByUsername(users, username)
      case None => Absent
      case Some(row) =>
        assert forall u :: u in users && u.username == username ==> u == row by {
          forall u | u in users && u.username == username ensures u == row {
            FoundByUsernameIsUnique(users, u);
          }
        }
        Found(ToUser(row))
  }

  /** GetUserById: the row with that id, nil when there is none, or the
      store's error. */
  function GetUserById(users: seq<UserRow>, id: int, queryFails: bool): (r: Lookup<User>)
    requires Pairwise(users, UserIdBefore)
    ensures r.LookupError? <==> queryFails
    ensures r.Absent? <==> !queryFails && id !in UserIds(users)
    ensures forall u :: u in users && u.id == id && !queryFails ==> r == Found(ToUser(u))
  {
    if queryFails then LookupError
    else match FindById(users, id)
      case None => Absent
      case Some(row) =>
        assert forall u :: u in users && u.id == id ==> u == row by {
          forall u | u in users && u.id == id ensures u == row {
            FoundByIdIsUnique(users, u);
          }
        }
        Found(ToUser(row))
  }

  /** IsAdmin fails closed: a lookup error or a missing user is "not admin". */
  function IsAdmin(users: seq<UserRow>, username: string, queryFails: bool): (b: bool)
    requires Pairwise(users, UsernameDiffers)
    ensures b <==> !queryFails && exists u :: u in users && u.username == username && u.role == AdminRole
  {
    match GetUserByUsername(users, username, queryFails)
    case Found(u) => u.role == AdminRole
    case _ => false
  }

  /** IsSameUser fails closed: true only when the user with that id exists
      and carries exactly that username. */
  function IsSameUser(users: seq<UserRow>, username: string, resourceOwnerId: int, queryFails: bool): (b: bool)
    requires Pairwise(users, UserIdBefore)
    ensures b <==> !queryFails && exists u :: u in users && u.id == resourceOwnerId && u.username == username
  {
    match GetUserById(users, resourceOwnerId, queryFails)
    case Found(u) => u.username == username
    case _ => false
  }

  /** GetAllUsers: one User per row, in table order. */
  method GetAllUsers(db: Database, queryFails: bool) returns (r: Result<seq<User>, UserError>)
    ensures queryFails <==> r.Err?
    ensures r.Err? ==> r.error == QueryFailed
    ensures r.Ok? ==> |r.value| == |db.users| && forall i :: 0 <= i < |db.users| ==> r.value[i] == ToUser(db.users[i])
  {
    if queryFails {
      return Err(QueryFailed);
    }
    var users: seq<User> := [];
    var i := 0;
    while i < |db.users|
      invariant 0 <= i <= |db.users|
      invariant |users| == i
      invariant forall k :: 0 <= k < i ==> users[k] == ToUser(db.users[k])
    {
      users := users + [ToUser(db.users[i])];
      i := i + 1;
    }
    r := Ok(users);
  }

  /** CreateUser. The existence check discards a lookup error and carries on
      as if the name were free; the UNIQUE constraint then still refuses a
      taken name. On success the result is the new row id, otherwise an HTTP
      status (400 for an existing name, 500 for the rest) with the error.
      `hashed` is the outcome of hashing the password. */
  method CreateUser(db: Database, username: string, password: string, hashed: Option<string>,
                    lookupFails: bool, insertFails: bool, now: string)
    returns (code: int, err: Option<UserError>)
    requires db.Valid()
    modifies db
    ensures db.Valid()
    ensures var taken := HasUsername(old(db.users), username);
      && (!lookupFails && taken ==> code == 400 && err == Some(AlreadyExists(username)))
      && ((lookupFails || !taken) && hashed.None? ==> code == 500 && err == Some(HashFailed))
      && ((lookupFails || !taken) && hashed.Some? && (insertFails || taken) ==> code == 500 && err == Some(InsertFailed))
      && (err.Some? ==> unchanged(db))
      && (err.None? <==> !taken && hashed.Some? && !insertFails)
    ensures err.None? ==>
      && code == old(db.nextUserId)
      && db.users == old(db.users) + [UserRow(code, username, hashed.value, DefaultRole, DefaultTickets, now)]
      && db.nextUserId == old(db.nextUserId) + 1
      && db.events == old(db.events) && db.translations == old(db.translations)
      && db.registrations == old(db.registrations) && db.nextEventId == old(db.nextEventId)
      && db.foreignKeys == old(db.foreignKeys) && db.tables == old(db.tables)
  {
    var existing := GetUserByUsername(db.users, username, lookupFails);
    if existing.Found? {
      return 400, Some(AlreadyExists(username));
    }
    if hashed.None? {
      return 500, Some(HashFailed);
    }
    if insertFails || HasUsername(db.users, username) {
      return 500, Some(InsertFailed);
    }
    var row := UserRow(db.nextUserId, username, hashed.value, DefaultRole, DefaultTickets, now);
    PairwiseAppend(db.users, row, UserIdBefore);
    PairwiseAppend(db.users, row, UsernameDiffers);
    assert UserIds(db.users) <= UserIds(db.users + [row]);
    code := db.nextUserId;
    db.users := db.users + [row];
    db.nextUserId := db.nextUserId + 1;
    err := None;
  }

  function OtherThanUser(id: int): UserRow -> bool {
    (u: UserRow) => u.id != id
  }

  /** DeleteUser. Deleting no row is an error ("no user found"); deleting
      the row cascades to the user's registrations. */
  method DeleteUser(db: Database, id: int, deleteFails: bool) returns (err: Option<UserError>)
    requires db.Valid()
    modifies db
    ensures db.Valid()
    ensures deleteFails ==> err == Some(DeleteFailed(id)) && unchanged(db)
    ensures !deleteFails && id !in old(UserIds(db.users)) ==> err == Some(NoUserFound(id)) && unchanged(db)
    ensures err.None? <==> !deleteFails && id in old(UserIds(db.users))
    ensures err.None? ==>
      && db.users == Filter(old(db.users), OtherThanUser(id))
      && db.registrations == WithoutUser(old(db.registrations), id)
      && db.events == old(db.events) && db.translations == old(db.translations)
      && db.nextUserId == old(db.nextUserId) && db.nextEventId == old(db.nextEventId)
      && db.foreignKeys == old(db.foreignKeys) && db.tables == old(db.tables)
  {
    if deleteFails {
      return Some(DeleteFailed(id));
    }
    if id !in UserIds(db.users) {
      return Some(NoUserFound(id));
    }
    var users' := Filter(db.users, OtherThanUser(id));
    FilterKeepsPairwise(db.users, OtherThanUser(id), UserIdBefore);
    FilterKeepsPairwise(db.users, OtherThanUser(id), UsernameDiffers);
    var regs' := WithoutUser(db.registrations, id);
    forall r | r in regs' ensures r.userId in UserIds(users') {
      var u :| u in db.users && u.id == r.userId;
      assert u in users';
    }
    db.users := users';
    db.registrations := regs';
    err := None;
  }

  /** The users table with `update` applied to the row(s) with that id. */
  function UpdateRow(users: seq<UserRow>, id: int, update: UserRow -> UserRow): (r: seq<UserRow>)
    ensures |r| == |users|
    ensures forall i :: 0 <= i < |users| ==> r[i] == if users[i].id == id then update(users[i]) else users[i]
  {
    seq(|users|, i requires 0 <= i < |users| => if users[i].id == id then update(users[i]) else users[i])
  }

  function SetRole(role: string): UserRow -> UserRow {
    (u: UserRow) => u.(role := role)
  }

  function TakeTicket(u: UserRow): UserRow {
    u.(tickets := u.tickets - 1)
  }

  /** An update that keeps ids and usernames keeps the table's constraints. */
  lemma UpdateRowKeepsKeys(db: Database, id: int, update: UserRow -> UserRow)
    requires db.Valid()
    requires forall u :: (update(u).id, update(u).username) == (u.id, u.username)
    ensures var us := UpdateRow(db.users, id, update);
      && Pairwise(us, UserIdBefore) && Pairwise(us, UsernameDiffers)
      && (forall u :: u in us ==> 1 <= u.id < db.nextUserId)
      && UserIds(us) == UserIds(db.users)
  {
    var us := UpdateRow(db.users, id, update);
    forall i, j | 0 <= i < j < |us| ensures UserIdBefore(us[i], us[j]) && UsernameDiffers(us[i], us[j]) {
      assert UserIdBefore(db.users[i], db.users[j]) && UsernameDiffers(db.users[i], db.users[j]);
    }
    forall x | x in UserIds(db.users) ensures x in UserIds(us) {
      var u :| u in db.users && u.id == x;
      var i :| 0 <= i < |db.users| && db.users[i] == u;
      assert us[i].id == x;
    }
  }

  /** UpdateUserRole: sets the role of that user; a missing id is not an
      error (the UPDATE just touches no row). */
  method UpdateUserRole(db: Database, id: int, role: string, updateFails: bool) returns (err: Option<UserError>)
    requires db.Valid()
    modifies db
    ensures db.Valid()
    ensures err.Some? <==> updateFails
    ensures err.Some? ==> err == Some(UpdateFailed(id)) && unchanged(db)
    ensures err.None? ==>
      && db.users == UpdateRow(old(db.users), id, SetRole(role))
      && db.events == old(db.events) && db.translations == old(db.translations)
      && db.registrations == old(db.registrations)
      && db.nextUserId == old(db.nextUserId) && db.nextEventId == old(db.nextEventId)
      && db.foreignKeys == old(db.foreignKeys) && db.tables == old(db.tables)
  {
    if updateFails {
      return Some(UpdateFailed(id));
    }
    UpdateRowKeepsKeys(db, id, SetRole(role));
    db.users := UpdateRow(db.users, id, SetRole(role));
    err := None;
  }

  /** RemoveOneTicketFromUser: `tickets = tickets - 1` with no lower bound. */
  method RemoveOneTicketFromUser(db: Database, id: int, updateFails: bool) returns (err: Option<UserError>)
    requires db.Valid()
    modifies db
    ensures db.Valid()
    ensures err.Some? <==> updateFails
    ensures err.Some? ==> err == Some(UpdateFailed(id)) && unchanged(db)
    ensures err.None? ==>
      && db.users == UpdateRow(old(db.users), id, TakeTicket)
      && db.events == old(db.events) && db.translations == old(db.translations)
      && db.registrations == old(db.registrations)
      && db.nextUserId == old(db.nextUserId) && db.nextEventId == old(db.nextEventId)
      && db.foreignKeys == old(db.foreignKeys) && db.tables == old(db.tables)
  {
    if updateFails {
      return Some(UpdateFailed(id));
    }
    UpdateRowKeepsKeys(db, id, TakeTicket);
    db.users := UpdateRow(db.users, id, TakeTicket);
    err := None;
  }

  /** The role update touches the role of the row with that id and nothing
      else: every other row, and every other column, is as before. */
  lemma SetRoleOnlyThatUser(users: seq<UserRow>, id: int, role: string, i: int)
    requires 0 <= i < |users|
    ensures var r := UpdateRow(users, id, SetRole(role));
      && r[i].id == users[i].id && r[i].username == users[i].username
      && r[i].tickets == users[i].tickets && r[i].passwordHash == users[i].passwordHash
      && r[i].createdAt == users[i].createdAt
      && r[i].role == (if users[i].id == id then role else users[i].role)
  {
  }

  /** A ticket decrement lowers that user's count by exactly one, even below
      zero, and leaves every other row as it was. */
  lemma TakeTicketExactlyOne(users: seq<UserRow>, id: int, i: int)
    requires 0 <= i < |users|
    ensures var r := UpdateRow(users, id, TakeTicket);
      && (users[i].id == id ==> r[i].tickets == users[i].tickets - 1 && r[i].(tickets := users[i].tickets) == users[i])
      && (users[i].id != id ==> r[i] == users[i])
  {
  }
}
