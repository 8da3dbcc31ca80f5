/** backend/repos/auth.go: the one query the login handler needs. */
module AuthRepo {
  import opened Common
  import opened Schema

  /** The `AuthUser` struct: a users row with its password hash and without
      its ticket count. */
  datatype AuthUser = AuthUser(id: int, passwordHash: string, username: string, createdAt: string, role: string)

  /** GetAuthUserByUsername: exact username match; no row gives (nil, nil),
      any other store error is returned with no user. */
  function GetAuthUserByUsername(users: seq<UserRow>, username: string, queryFails: bool): (r: Lookup<AuthUser>)
    ensures r.LookupError? <==> queryFails
    ensures r.Absent? <==> !queryFails && !HasUsername(users, username)
    ensures r.Found? ==> exists u :: u in users && u.username == username &&
                           r.value == AuthUser(u.id, u.passwordHash, u.username, u.createdAt, u.role)
    ensures r.Found? ==> r.value.username == username
  {
    if queryFails then LookupError
    else match FindByUsername(users, username)
      case None => Absent
      case Some(u) => Found(AuthUser(u.id, u.passwordHash, u.username, u.createdAt, u.role))
  }

  /** The user found is the one row with that name, whichever row it is. */
  lemma AuthLookupFindsTheRow(users: seq<UserRow>, u: UserRow)
    requires Pairwise(users, UsernameDiffers)
    requires u in users
    ensures GetAuthUserByUsername(users, u.username, false) == Found(AuthUser(u.id, u.passwordHash, u.username, u.createdAt, u.role))
  {
    FoundByUsernameIsUnique(users, u);
  }
}
