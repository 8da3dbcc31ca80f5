/** The relational store created by backend/db/db_init.go: four tables,
    their constraints (unique usernames, AUTOINCREMENT ids, the composite key
    of registrations, foreign keys with ON DELETE CASCADE) and the defaults of
    the users table, together with schema initialisation and the default
    admin account. */
module Schema {
  import opened Common

  const AdminRole: string := "admin"
  const UserRole: string := "user"
  /** `role TEXT NOT NULL DEFAULT 'user'` and `tickets INTEGER DEFAULT 999`. */
  const DefaultRole: string := UserRole
  const DefaultTickets: int := 999
  const DefaultAdminName: string := "admin"

  /** A row of `users`. */
  datatype UserRow = UserRow(id: int, username: string, passwordHash: string,
                             role: string, tickets: int, createdAt: string)

  /** A row of `events`; the price is kept only as a number compared with 0. */
  datatype EventRow = EventRow(id: int, name: string, description: string, category: string,
                               date: string, venue: string, price: int, image: Bytes)

  /** A row of `event_translations`; rows are kept in insertion (rowid) order. */
  datatype TranslationRow = TranslationRow(eventId: int, language: string, name: string,
                                           description: string, venue: string)

  /** A row of `registrations`, identified by its composite primary key. */
  datatype Registration = Registration(userId: int, eventId: int)

  datatype Table = Users | Events | EventTranslations | Registrations

  /** The CREATE TABLE IF NOT EXISTS statements, in the order they run. */
  const SchemaTables: seq<Table> := [Users, Events, EventTranslations, Registrations]

  function UserIds(users: seq<UserRow>): set<int> {
    set u | u in users :: u.id
  }

  function EventIds(events: seq<EventRow>): set<int> {
    set e | e in events :: e.id
  }

  predicate HasUsername(users: seq<UserRow>, username: string) {
    exists u :: u in users && u.username == username
  }

  /** What ON DELETE CASCADE leaves of the registrations when a user goes. */
  function WithoutUser(registrations: set<Registration>, userId: int): (r: set<Registration>)
    ensures forall x :: x in r <==> x in registrations && x.userId != userId
  {
    set x | x in registrations && x.userId != userId
  }

  /** What ON DELETE CASCADE leaves of the registrations when an event goes. */
  function WithoutEvent(registrations: set<Registration>, eventId: int): (r: set<Registration>)
    ensures forall x :: x in r <==> x in registrations && x.eventId != eventId
  {
    set x | x in registrations && x.eventId != eventId
  }

  function UserIdBefore(a: UserRow, b: UserRow): bool { a.id < b.id }
  function UsernameDiffers(a: UserRow, b: UserRow): bool { a.username != b.username }
  function EventIdBefore(a: EventRow, b: EventRow): bool { a.id < b.id }

  /** The first row with that username (the row `QueryRow` scans). */
  function FindByUsername(users: seq<UserRow>, username: string): (r: Option<UserRow>)
    ensures r.Some? ==> r.value in users && r.value.username == username
    ensures r.None? <==> !HasUsername(users, username)
  {
    if users == [] then None
    else if users[0].username == username then Some(users[0])
    else FindByUsername(users[1..], username)
  }

  /** The first row with that id. */
  function FindById(users: seq<UserRow>, id: int): (r: Option<UserRow>)
    ensures r.Some? ==> r.value in users && r.value.id == id
    ensures r.None? <==> id !in UserIds(users)
  {
    if users == [] then None
    else if users[0].id == id then Some(users[0])
    else FindById(users[1..], id)
  }

  function FindEvent(events: seq<EventRow>, id: int): (r: Option<EventRow>)
    ensures r.Some? ==> r.value in events && r.value.id == id
    ensures r.None? <==> id !in EventIds(events)
  {
    if events == [] then None
    else if events[0].id == id then Some(events[0])
    else FindEvent(events[1..], id)
  }

  /** In a table whose rows have distinct usernames, a row with the name is the one found. */
  lemma FoundByUsernameIsUnique(users: seq<UserRow>, u: UserRow)
    requires Pairwise(users, UsernameDiffers)
    requires u in users
    ensures FindByUsername(users, u.username) == Some(u)
  {
    var r := FindByUsername(users, u.username).value;
    var i :| 0 <= i < |users| && users[i] == u;
    var j :| 0 <= j < |users| && users[j] == r;
    assert i < j ==> UsernameDiffers(users[i], users[j]);
    assert j < i ==> UsernameDiffers(users[j], users[i]);
  }

  /** In a table with increasing ids, a row with the id is the one found. */
  lemma FoundByIdIsUnique(users: seq<UserRow>, u: UserRow)
    requires Pairwise(users, UserIdBefore)
    requires u in users
    ensures FindById(users, u.id) == Some(u)
  {
    var r := FindById(users, u.id).value;
    var i :| 0 <= i < |users| && users[i] == u;
    var j :| 0 <= j < |users| && users[j] == r;
    assert i < j ==> UserIdBefore(users[i], users[j]);
    assert j < i ==> UserIdBefore(users[j], users[i]);
  }

  /** The store. Every method of the repositories reassigns these fields. */
  class Database {
    /** Whether `PRAGMA foreign_keys = ON` has run. */
    var foreignKeys: bool
    /** The tables created so far. */
    var tables: set<Table>
    var users: seq<UserRow>
    var events: seq<EventRow>
    var translations: seq<TranslationRow>
    var registrations: set<Registration>
    /** The next AUTOINCREMENT ids; they never go back, even after deletes. */
    var nextUserId: int
    var nextEventId: int

    /** The constraints of the schema. */
    ghost predicate Valid()
      reads this
    {
      && 1 <= nextUserId && 1 <= nextEventId
      && Pairwise(users, UserIdBefore)
      && (forall u :: u in users ==> 1 <= u.id < nextUserId)
      && Pairwise(users, UsernameDiffers)
      && Pairwise(events, EventIdBefore)
      && (forall e :: e in events ==> 1 <= e.id < nextEventId)
      && (forall t :: t in translations ==> t.eventId in EventIds(events))
      && (forall r :: r in registrations ==> r.userId in UserIds(users) && r.eventId in EventIds(events))
    }

    /** A new, empty database file. */
    constructor ()
      ensures Valid()
      ensures !foreignKeys && tables == {}
      ensures users == [] && events == [] && translations == [] && registrations == {}
    {
      foreignKeys := false;
      tables := {};
      users, events, translations, registrations := [], [], [], {};
      nextUserId, nextEventId := 1, 1;
    }
  }

  datatype SchemaError = ForeignKeysFailed | SchemaCreationFailed

  /** How many CREATE TABLE statements succeed when statement `failAt` is the
      first one the store refuses (statement 0 is the PRAGMA). */
  function TablesCreated(failAt: Option<nat>): (n: nat)
    ensures n <= |SchemaTables|
  {
    if failAt.Some? && 1 <= failAt.value <= |SchemaTables| then failAt.value - 1
    else if failAt == Some(0) then 0
    else |SchemaTables|
  }

  /** initSchema: turn foreign keys on, then run each CREATE TABLE IF NOT
      EXISTS in turn, stopping at the first statement that fails. */
  method InitSchema(db: Database, failAt: Option<nat>) returns (err: Option<SchemaError>)
    modifies db
    ensures err == (if failAt == Some(0) then Some(ForeignKeysFailed)
                    else if failAt.Some? && failAt.value <= |SchemaTables| then Some(SchemaCreationFailed)
                    else None)
    ensures db.foreignKeys == (old(db.foreignKeys) || failAt != Some(0))
    ensures db.tables == old(db.tables) + set k | 0 <= k < TablesCreated(failAt) :: SchemaTables[k]
    ensures db.users == old(db.users) && db.events == old(db.events)
    ensures db.translations == old(db.translations) && db.registrations == old(db.registrations)
    ensures db.nextUserId == old(db.nextUserId) && db.nextEventId == old(db.nextEventId)
  {
    if failAt == Some(0) {
      return Some(ForeignKeysFailed);
    }
    db.foreignKeys := true;
    var i := 0;
    while i < |SchemaTables|
      invariant 0 <= i <= |SchemaTables|
      invariant i <= TablesCreated(failAt)
      invariant db.foreignKeys
      invariant db.tables == old(db.tables) + set k | 0 <= k < i :: SchemaTables[k]
      invariant db.users == old(db.users) && db.events == old(db.events)
      invariant db.translations == old(db.translations) && db.registrations == old(db.registrations)
      invariant db.nextUserId == old(db.nextUserId) && db.nextEventId == old(db.nextEventId)
    {
      if failAt == Some(i + 1) {
        return Some(SchemaCreationFailed);
      }
      db.tables := db.tables + {SchemaTables[i]};
      i := i + 1;
    }
    err := None;
  }

  /** The users table after `INSERT OR IGNORE INTO users (username,
      password_hash, role) VALUES ('admin', ?, 'admin')`, and the next id. */
  function WithDefaultAdmin(users: seq<UserRow>, nextId: int, hash: string, now: string): (r: (seq<UserRow>, int))
    ensures HasUsername(r.0, DefaultAdminName)
    ensures |users| <= |r.0| <= |users| + 1 && r.0[..|users|] == users
    ensures |r.0| == |users| + 1 <==> !HasUsername(users, DefaultAdminName)
    ensures |r.0| == |users| + 1 ==>
      r.0[|users|] == UserRow(nextId, DefaultAdminName, hash, AdminRole, DefaultTickets, now) && r.1 == nextId + 1
    ensures |r.0| == |users| ==> r.1 == nextId
  {
    if HasUsername(users, DefaultAdminName) then (users, nextId)
    else (users + [UserRow(nextId, DefaultAdminName, hash, AdminRole, DefaultTickets, now)], nextId + 1)
  }

  /** Running the default-admin insert again changes nothing, whatever
      password hash and clock the second run sees. */
  lemma DefaultAdminIdempotent(users: seq<UserRow>, nextId: int, hash: string, now: string, hash': string, now': string)
    ensures var (u1, n1) := WithDefaultAdmin(users, nextId, hash, now);
            WithDefaultAdmin(u1, n1, hash', now') == (u1, n1)
  {
    var (u1, n1) := WithDefaultAdmin(users, nextId, hash, now);
    if !HasUsername(users, DefaultAdminName) {
      assert u1[|users|] in u1;
    }
  }

  /** AddDefaultAdmin, given the hash of the password "admin" and the clock
      that fills `created_at`. */
  method AddDefaultAdmin(db: Database, hash: string, now: string)
    requires db.Valid()
    modifies db
    ensures db.Valid()
    ensures (db.users, db.nextUserId) == WithDefaultAdmin(old(db.users), old(db.nextUserId), hash, now)
    ensures db.events == old(db.events) && db.translations == old(db.translations)
    ensures db.registrations == old(db.registrations) && db.nextEventId == old(db.nextEventId)
    ensures db.foreignKeys == old(db.foreignKeys) && db.tables == old(db.tables)
  {
    if !HasUsername(db.users, DefaultAdminName) {
      var row := UserRow(db.nextUserId, DefaultAdminName, hash, AdminRole, DefaultTickets, now);
      PairwiseAppend(db.users, row, UserIdBefore);
      PairwiseAppend(db.users, row, UsernameDiffers);
      assert UserIds(db.users) <= UserIds(db.users + [row]);
      db.users := db.users + [row];
      db.nextUserId := db.nextUserId + 1;
    }
  }
}
