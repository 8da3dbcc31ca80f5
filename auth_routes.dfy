/** backend/routes/auth.go: `/auth/login` and `/auth/register`. Request
    bodies arrive decoded (None when decoding fails); `passwordMatches`
    stands for the bcrypt comparison of a password with a stored hash, and
    `sign` for signing token claims. */
module AuthRoutes {
  import opened Common
  import opened Schema
  import opened Http
  import opened AuthRepo
  import UserRepo
  import Jwt
  import Utf8

  datatype AuthRequest = AuthRequest(username: string, password: string)

  /** The `AuthResponse` body. */
  datatype TokenBody = TokenBody(token: string)

  const MissingCredentialsMessage: string := "missing username and password"
  const InvalidSchemaMessage: string := "invalid request, likey an invalid schema"
  const TokenFailedMessage: string := "failed to generate token"

  /** login: a pure chain of checks over the lookup, the password check and
      token signing; 201 with a token for the stored username. */
  function Login(users: seq<UserRow>, req: Option<AuthRequest>, queryFails: bool,
                 passwordMatches: (string, string) -> bool, now: int,
                 sign: Jwt.Token -> Option<string>): (r: Response<TokenBody>)
    ensures req.None? ==> r == Error(StatusBadRequest, InvalidSchemaMessage)
    ensures req.Some? && (req.value.username == "" || req.value.password == "") ==>
      r == Error(StatusBadRequest, MissingCredentialsMessage)
    ensures r.Json? ==> r.status == StatusCreated
    ensures req.Some? && req.value.username != "" && req.value.password != "" ==>
      var found := GetAuthUserByUsername(users, req.value.username, queryFails);
      && (queryFails ==> r == Error(StatusInternalServerError, "failed to get user"))
      && (!queryFails && !HasUsername(users, req.value.username) ==> r == Error(StatusUnauthorized, "user not found"))
      && (found.Found? && !passwordMatches(req.value.password, found.value.passwordHash) ==>
            r == Error(StatusUnauthorized, "invalid password"))
      && (found.Found? && passwordMatches(req.value.password, found.value.passwordHash) ==>
            r == match Jwt.CreateToken(found.value.username, now, sign)
                 case Ok(token) => Json(StatusCreated, TokenBody(token))
                 case Err(_) => Error(StatusInternalServerError, TokenFailedMessage))
  {
    if req.None? then Error(StatusBadRequest, InvalidSchemaMessage)
    else if req.value.username == "" || req.value.password == "" then Error(StatusBadRequest, MissingCredentialsMessage)
    else
      match GetAuthUserByUsername(users, req.value.username, queryFails)
      case LookupError => Error(StatusInternalServerError, "failed to get user")
      case Absent => Error(StatusUnauthorized, "user not found")
      case Found(user) =>
        if !passwordMatches(req.value.password, user.passwordHash) then Error(StatusUnauthorized, "invalid password")
        else
          match Jwt.CreateToken(user.username, now, sign)
          case Err(_) => Error(StatusInternalServerError, TokenFailedMessage)
          case Ok(token) => Json(StatusCreated, TokenBody(token))
  }

  /** A login succeeds only for a stored user whose hash matches the
      password, and the token it returns is the one signed for that stored
      username with an expiry 24 hours on. */
  lemma LoginIssuesTokenForStoredUser(users: seq<UserRow>, req: Option<AuthRequest>, queryFails: bool,
                                      passwordMatches: (string, string) -> bool, now: int,
                                      sign: Jwt.Token -> Option<string>)
    requires Pairwise(users, UsernameDiffers)
    requires Login(users, req, queryFails, passwordMatches, now, sign).Json?
    ensures req.Some? && !queryFails
    ensures exists u :: u in users && u.username == req.value.username && passwordMatches(req.value.password, u.passwordHash)
    ensures Login(users, req, queryFails, passwordMatches, now, sign).body.token
            == sign(Jwt.NewToken(req.value.username, now)).value
  {
    var found := GetAuthUserByUsername(users, req.value.username, queryFails);
    var u := FindByUsername(users, req.value.username).value;
    assert found == Found(AuthUser(u.id, u.passwordHash, u.username, u.createdAt, u.role));
  }

  /** The token a login returns opens the gate, as the logged-in user, for
      the next 24 hours, given that parsing a signed token gives back its
      claims with a valid signature. */
  lemma LoginTokenOpensTheGate(users: seq<UserRow>, req: AuthRequest, passwordMatches: (string, string) -> bool,
                               issued: int, now: int, sign: Jwt.Token -> Option<string>, decode: Bytes -> Jwt.Parsed)
    requires Pairwise(users, UsernameDiffers)
    requires Login(users, Some(req), false, passwordMatches, issued, sign).Json?
    requires forall t :: sign(t).Some? ==> decode(Utf8.Encode(sign(t).value)) == Jwt.Parsed(t, true)
    requires issued <= now < issued + Jwt.TokenLifetime
    ensures Jwt.ProtectedHandler(Utf8.Encode("Bearer " + Login(users, Some(req), false, passwordMatches, issued, sign).body.token),
                                 decode, now, None) == Jwt.Run(req.username)
  {
    LoginIssuesTokenForStoredUser(users, Some(req), false, passwordMatches, issued, sign);
    assert Jwt.CreateToken(req.username, issued, sign).Ok?;
    Jwt.IssuedTokenOpensTheGate(req.username, issued, now, sign, decode);
  }

  /** register: CreateUser's numeric result is the status of its error and
      the error text the message, so a taken name is a 400 "already exists";
      201 with a token for the requested username. The user stays created if
      signing then fails. */
  method Register(db: Database, req: Option<AuthRequest>, hashed: Option<string>, lookupFails: bool,
                  insertFails: bool, created: string, now: int, sign: Jwt.Token -> Option<string>)
    returns (resp: Response<TokenBody>)
    requires db.Valid()
    modifies db
    ensures db.Valid()
    ensures req.None? ==> resp == Error(StatusBadRequest, InvalidSchemaMessage) && unchanged(db)
    ensures req.Some? && (req.value.username == "" || req.value.password == "") ==>
      resp == Error(StatusBadRequest, MissingCredentialsMessage) && unchanged(db)
    ensures req.Some? && req.value.username != "" && req.value.password != "" ==>
      var name := req.value.username;
      var taken := HasUsername(old(db.users), name);
      && (!lookupFails && taken ==>
            resp == Error(StatusBadRequest, "user '" + name + "' already exists") && unchanged(db))
      && ((lookupFails || !taken) && hashed.None? ==>
            resp == Error(StatusInternalServerError, UserRepo.Message(UserRepo.HashFailed)) && unchanged(db))
      && ((lookupFails || !taken) && hashed.Some? && (insertFails || taken) ==>
            resp == Error(StatusInternalServerError, UserRepo.Message(UserRepo.InsertFailed)) && unchanged(db))
      && (!taken && hashed.Some? && !insertFails ==>
            && db.users == old(db.users) + [UserRow(old(db.nextUserId), name, hashed.value, DefaultRole, DefaultTickets, created)]
            && db.nextUserId == old(db.nextUserId) + 1
            && db.events == old(db.events) && db.translations == old(db.translations)
            && db.registrations == old(db.registrations) && db.nextEventId == old(db.nextEventId)
            && db.tables == old(db.tables) && db.foreignKeys == old(db.foreignKeys)
            && resp == match Jwt.CreateToken(name, now, sign)
                       case Ok(token) => Json(StatusCreated, TokenBody(token))
                       case Err(_) => Error(StatusInternalServerError, TokenFailedMessage))
  {
    if req.None? {
      return Error(StatusBadRequest, InvalidSchemaMessage);
    }
    if req.value.username == "" || req.value.password == "" {
      return Error(StatusBadRequest, MissingCredentialsMessage);
    }
    var status, err := UserRepo.CreateUser(db, req.value.username, req.value.password, hashed, lookupFails, insertFails, created);
    if err.Some? {
      return Error(status, UserRepo.Message(err.value));
    }
    var token := Jwt.CreateToken(req.value.username, now, sign);
    if token.Err? {
      return Error(StatusInternalServerError, TokenFailedMessage);
    }
    resp := Json(StatusCreated, TokenBody(token.value));
  }
}
