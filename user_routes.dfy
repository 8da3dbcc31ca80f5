/** backend/routes/users.go: the `/users` handlers. Request bodies arrive
    decoded (None when decoding fails). No gate is modelled in front of these
    handlers. */
module UserRoutes {
  import opened Common
  import opened Decimal
  import opened Schema
  import opened Http
  import opened UserRepo
  import Parsers

  /** The `UserResponse` written for one user. */
  datatype UserResponse = UserResponse(userId: int, role: string, username: string, createdAt: string, tickets: int)

  /** The JSON bodies these handlers write. */
  datatype UsersBody = UserList(users: seq<User>) | OneUser(user: UserResponse) | UserDeleted(message: string)

  datatype CreateRequest = CreateRequest(username: string, password: string)
  datatype RoleRequest = RoleRequest(userId: int, role: string)

  /** The response built from a fetched user. `Tickets` is never assigned,
      so it keeps Go's zero value whatever the row holds. */
  function ToResponse(u: User): (r: UserResponse)
    ensures r.tickets == 0
    ensures (r.userId, r.role, r.username, r.createdAt) == (u.id, u.role, u.username, u.createdAt)
  {
    UserResponse(u.id, u.role, u.username, u.createdAt, 0)
  }

  /** getAllUsers: every user, or 500. */
  method GetAllUsersHandler(db: Database, queryFails: bool) returns (resp: Response<UsersBody>)
    ensures queryFails ==> resp == Error(StatusInternalServerError, "Failed to get all users")
    ensures !queryFails ==>
      resp.Json? && resp.status == StatusOK && resp.body.UserList?
      && |resp.body.users| == |db.users|
      && forall i :: 0 <= i < |db.users| ==> resp.body.users[i] == ToUser(db.users[i])
  {
    var users := GetAllUsers(db, queryFails);
    if users.Err? {
      return Error(StatusInternalServerError, "Failed to get all users");
    }
    resp := Json(StatusOK, UserList(users.value));
  }

  /** createUser: both fields are required; every CreateUser error, a taken
      name included, is a 500 here; the new user is fetched back and returned
      with 201. */
  method CreateUserHandler(db: Database, req: Option<CreateRequest>, hashed: Option<string>,
                           lookupFails: bool, insertFails: bool, now: string, fetchFails: bool)
    returns (resp: Response<UsersBody>)
    requires db.Valid()
    modifies db
    ensures db.Valid()
    ensures req.None? ==> resp == Error(StatusBadRequest, "Invalid request") && unchanged(db)
    ensures req.Some? && (req.value.username == "" || req.value.password == "") ==>
      resp == Error(StatusBadRequest, "Missing username and password") && unchanged(db)
    ensures req.Some? && req.value.username != "" && req.value.password != "" ==>
      var created := !HasUsername(old(db.users), req.value.username) && hashed.Some? && !insertFails;
      && (!created ==> resp == Error(StatusInternalServerError, "Could not create user") && unchanged(db))
      && (created ==>
            && db.users == old(db.users) + [UserRow(old(db.nextUserId), req.value.username, hashed.value, DefaultRole, DefaultTickets, now)]
            && db.nextUserId == old(db.nextUserId) + 1
            && db.events == old(db.events) && db.translations == old(db.translations)
            && db.registrations == old(db.registrations) && db.nextEventId == old(db.nextEventId)
            && db.tables == old(db.tables) && db.foreignKeys == old(db.foreignKeys)
            && (fetchFails ==> resp == Error(StatusInternalServerError, "User creation succeeded but fetch failed"))
            && (!fetchFails ==> resp == Json(StatusCreated, OneUser(UserResponse(old(db.nextUserId), DefaultRole, req.value.username, now, 0)))))
  {
    if req.None? {
      return Error(StatusBadRequest, "Invalid request");
    }
    if req.value.username == "" || req.value.password == "" {
      return Error(StatusBadRequest, "Missing username and password");
    }
    var userId, err := CreateUser(db, req.value.username, req.value.password, hashed, lookupFails, insertFails, now);
    if err.Some? {
      return Error(StatusInternalServerError, "Could not create user");
    }
    var row := UserRow(userId, req.value.username, hashed.value, DefaultRole, DefaultTickets, now);
    assert row == db.users[|db.users| - 1];
    var user := GetUserById(db.users, userId, fetchFails);
    if user.LookupError? {
      return Error(StatusInternalServerError, "User creation succeeded but fetch failed");
    }
    // The row was just inserted, so the fetch cannot come back empty.
    assert user.Found?;
    resp := Json(StatusCreated, OneUser(ToResponse(user.value)));
  }

  /** getUser: 400 for an id that is not an int64, 500 on a store error,
      404 for a missing user. */
  method GetUserHandler(db: Database, idText: string, queryFails: bool) returns (resp: Response<UsersBody>)
    requires db.Valid()
    ensures ParseInt(idText).None? ==> resp == Error(StatusBadRequest, "Invalid user ID, pass a valid one")
    ensures ParseInt(idText).Some? ==>
      var id := ParseInt(idText).value;
      && (queryFails ==> resp == Error(StatusInternalServerError, "Could not retrieve user"))
      && (!queryFails && id !in UserIds(db.users) ==> resp == Error(StatusNotFound, "User not found"))
      && (forall u :: u in db.users && u.id == id && !queryFails ==> resp == Json(StatusOK, OneUser(ToResponse(ToUser(u)))))
  {
    var id := Parsers.ParseIdFromRoute(idText);
    if id.Err? {
      return Error(StatusBadRequest, "Invalid user ID, pass a valid one");
    }
    var user := GetUserById(db.users, id.value, queryFails);
    match user
    case LookupError => resp := Error(StatusInternalServerError, "Could not retrieve user");
    case Absent => resp := Error(StatusNotFound, "User not found");
    case Found(u) => resp := Json(StatusOK, OneUser(ToResponse(u)));
  }

  /** deleteUser: every DeleteUser error, "no user found" included, is a 500. */
  method DeleteUserHandler(db: Database, idText: string, deleteFails: bool) returns (resp: Response<UsersBody>)
    requires db.Valid()
    modifies db
    ensures db.Valid()
    ensures ParseInt(idText).None? ==> resp == Error(StatusBadRequest, "Invalid user ID, pass a valid one") && unchanged(db)
    ensures ParseInt(idText).Some? ==>
      var id := ParseInt(idText).value;
      && (deleteFails || id !in UserIds(old(db.users)) ==> resp == Error(StatusInternalServerError, "Could not delete the user") && unchanged(db))
      && (!deleteFails && id in UserIds(old(db.users)) ==>
            && resp == Json(StatusOK, UserDeleted("User deleted successfully"))
            && db.users == Filter(old(db.users), OtherThanUser(id))
            && db.registrations == WithoutUser(old(db.registrations), id)
            && db.events == old(db.events) && db.translations == old(db.translations)
            && db.nextUserId == old(db.nextUserId) && db.nextEventId == old(db.nextEventId)
            && db.tables == old(db.tables) && db.foreignKeys == old(db.foreignKeys))
  {
    var id := Parsers.ParseIdFromRoute(idText);
    if id.Err? {
      return Error(StatusBadRequest, "Invalid user ID, pass a valid one");
    }
    var err := DeleteUser(db, id.value, deleteFails);
    if err.Some? {
      return Error(StatusInternalServerError, "Could not delete the user");
    }
    resp := Json(StatusOK, UserDeleted("User deleted successfully"));
  }

  /** The checks updateUserRole makes before touching the store. */
  function CheckRoleRequest(req: RoleRequest): (r: Option<string>)
    ensures r.None? <==> req.userId != 0 && (req.role == AdminRole || req.role == UserRole)
  {
    if req.userId == 0 || req.role == "" then Some("Missing userId and role")
    else if req.role != AdminRole && req.role != UserRole then Some("invalid user role, role must be 'admin' or 'user'")
    else None
  }

  /** updateUserRole: check, update, fetch back. A valid request for a
      missing user passes the update and then dereferences the nil user the
      fetch returns; that input is excluded. */
  method UpdateUserRoleHandler(db: Database, req: Option<RoleRequest>, updateFails: bool, fetchFails: bool)
    returns (resp: Response<UsersBody>)
    requires db.Valid()
    requires req.Some? && CheckRoleRequest(req.value).None? && !updateFails && !fetchFails ==> req.value.userId in UserIds(db.users)
    modifies db
    ensures db.Valid()
    ensures req.None? ==> resp == Error(StatusBadRequest, "Invalid request") && unchanged(db)
    ensures req.Some? && CheckRoleRequest(req.value).Some? ==>
      resp == Error(StatusBadRequest, CheckRoleRequest(req.value).value) && unchanged(db)
    ensures req.Some? && CheckRoleRequest(req.value).None? ==>
      && (updateFails ==> resp == Error(StatusInternalServerError, "failed to update user role") && unchanged(db))
      && (!updateFails ==>
            && db.users == UpdateRow(old(db.users), req.value.userId, SetRole(req.value.role))
            && db.events == old(db.events) && db.translations == old(db.translations)
            && db.registrations == old(db.registrations)
            && db.nextUserId == old(db.nextUserId) && db.nextEventId == old(db.nextEventId)
            && db.tables == old(db.tables) && db.foreignKeys == old(db.foreignKeys))
      && (!updateFails && fetchFails ==> resp == Error(StatusInternalServerError, "User update succeeded but fetch failed"))
      && (!updateFails && !fetchFails ==>
            forall u :: u in old(db.users) && u.id == req.value.userId ==>
              resp == Json(StatusOK, OneUser(UserResponse(u.id, req.value.role, u.username, u.createdAt, 0))))
  {
    if req.None? {
      return Error(StatusBadRequest, "Invalid request");
    }
    var problem := CheckRoleRequest(req.value);
    if problem.Some? {
      return Error(StatusBadRequest, problem.value);
    }
    var err := UpdateUserRole(db, req.value.userId, req.value.role, updateFails);
    if err.Some? {
      return Error(StatusInternalServerError, "failed to update user role");
    }
    var user := GetUserById(db.users, req.value.userId, fetchFails);
    if user.LookupError? {
      return Error(StatusInternalServerError, "User update succeeded but fetch failed");
    }
    forall u | u in old(db.users) && u.id == req.value.userId
      ensures u.(role := req.value.role) in db.users
    {
      var i :| 0 <= i < |old(db.users)| && old(db.users)[i] == u;
      assert db.users[i] == u.(role := req.value.role);
    }
    assert user.Found?;
    resp := Json(StatusOK, OneUser(ToResponse(user.value)));
  }
}
