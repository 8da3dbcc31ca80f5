# Ticketing service: a Dafny model

This project models the core of a small event-ticketing service. Its Go backend keeps users, events, event translations and registrations in SQLite. It serves them over HTTP, behind a JWT gate. Its React frontend pages through the events, filters them by category, searches them and edits an event's translations.

The model has these parts:

- **The store** (`schema.dfy`) is a `Database` class. Its tables are sequences in rowid order, except registrations, which are a set. Its `Valid()` invariant holds the schema's constraints:
  - AUTOINCREMENT ids that only increase;
  - unique usernames;
  - the registrations' composite key;
  - the foreign keys.

  `InitSchema` and `AddDefaultAdmin` are methods on it.
- **The repositories** (`user_repo.dfy`, `event_repo.dfy`, `auth_repo.dfy`) are methods that change the store and state its whole new state, or functions where the source only queries.
  - Each `for rows.Next()` loop and each translation-insert loop is a `while` loop.
  - A unique, primary-key or foreign-key violation is computed from the state.
  - Any other store failure is a parameter: a `...Fails` flag for a single statement, or `failAt`, the index of the first statement the store refuses in a sequence of statements.
- **The gate** (`jwt.dfy`) covers token issue (`CreateToken`), claim verification (`VerifyToken`) and `ProtectedHandler`. Signing and signature checking are abstract function parameters (`sign`, `decode`). The `Authorization` header is a byte string, as Go sees it. Text is turned into bytes by the UTF-8 encoder in `utf8.dfy`, so the `Bearer ` slice drops 7 bytes, not 7 characters.
- **The body parser** (`parsers.dfy`) is a `Request` class whose body is read and put back.
- **The handlers** (`pagination.dfy`, `event_routes.dfy`, `user_routes.dfy`, `auth_routes.dfy`) map inputs and repository outcomes onto `Http.Response` values: an error with a status and message, or a JSON body with a status.
  - JSON request decoding, RFC 3339 date parsing and bcrypt are parameters.
  - Integer parsing (`strconv.Atoi`/`ParseInt`) is modelled concretely in `decimal.dfy`, together with its round trip with formatting.
- **The frontend** (`home.dfy`, `searchbar.dfy`, `event_form.dfy`) covers:
  - the dashboard's paging state, as a class;
  - the search bar's effect and clear button, as a class;
  - the translation-list editors of the event form, as pure functions.

Cross-component results:

- `Home.AllowedPagesAreServed`: any page the dashboard allows, sent with limit 8, is accepted by the server's page check.
- `Searchbar.CategoryRoundTrip`: the category query that Home builds is recognised by the search bar.
- `AuthRoutes.LoginTokenOpensTheGate`: a login token opens the gate for 24 hours.
- `EventRoutes.AssignRoute`: only the user, or an admin, can book on that user's behalf.

Read-only store access takes the database's fields (or the `Database` itself, in methods that do not modify it). The clock is a parameter: `now` is an integer in Unix seconds for tokens, and `created_at` is a timestamp text for new rows.

## Model

| member | source | states |
|---|---|---|
| Decimal.ParseInt | backend/routes/events.go:74-80 | `strconv.Atoi`: a signed decimal within int64 range, otherwise an error (the empty string included) |
| Decimal.ParseFormat | backend/helpers/parsers.go:40-47 | writing any int64 in decimal and parsing it back gives the same number |
| Decimal.FormatNatValue | backend/helpers/parsers.go:40-47 | the digits written for a natural number denote that number |
| Schema.FindByUsername | backend/repos/users.go:66-81 | the row a `WHERE username = ?` lookup returns exists and has that name; none iff no row has it |
| Schema.FindById | backend/repos/users.go:83-98 | the row a `WHERE id = ?` lookup returns exists and has that id; none iff no row has it |
| Schema.FoundByUsernameIsUnique | backend/db/db_init.go:47 | with UNIQUE usernames, a lookup of a row's username returns exactly that row |
| Schema.FoundByIdIsUnique | backend/db/db_init.go:46 | with distinct ids, a lookup of a row's id returns exactly that row |
| Schema.WithoutUser | backend/db/db_init.go:80 | ON DELETE CASCADE removes exactly the registrations of the deleted user |
| Schema.WithoutEvent | backend/db/db_init.go:81 | ON DELETE CASCADE removes exactly the registrations of the deleted event |
| Schema.Database.constructor | backend/db/db_init.go:17-18 | a new database file has no tables, no rows and foreign keys off |
| Schema.TablesCreated | backend/db/db_init.go:85-89 | how many schema statements succeed before the first failure |
| Schema.InitSchema | backend/db/db_init.go:38-93 | the PRAGMA runs first; a PRAGMA failure is "failed to enable foreign keys"; then the tables are created in order, and the loop stops at the first failing statement with "schema creation failed"; no data changes |
| Schema.WithDefaultAdmin | backend/db/db_init.go:102-108 | INSERT OR IGNORE: an `admin` row is present afterwards; exactly one row (role admin, 999 tickets, the next id) is added iff none existed; existing rows are kept as they were |
| Schema.DefaultAdminIdempotent | backend/db/db_init.go:102-108 | a second run changes nothing, whatever hash and clock it sees; an existing `admin` with role `user` is not promoted |
| Schema.AddDefaultAdmin | backend/db/db_init.go:95-111 | the users table and next id become WithDefaultAdmin of the old ones; everything else is unchanged; the constraints still hold |
| UserRepo.GetUserByUsername | backend/repos/users.go:66-81 | error iff the query fails; nil iff no such username; otherwise exactly that row, without its hash |
| UserRepo.GetUserById | backend/repos/users.go:83-98 | error iff the query fails; nil iff no such id; otherwise exactly that row |
| UserRepo.IsAdmin | backend/repos/users.go:128-138 | true iff the lookup succeeds and the user with that name has role `admin` (false on error or absence: fails closed) |
| UserRepo.IsSameUser | backend/repos/users.go:140-152 | true iff the lookup succeeds and the user with that id has exactly that username |
| UserRepo.GetAllUsers | backend/repos/users.go:25-42 | the scan loop returns one User per row, in table order, or the query error |
| UserRepo.CreateUser | backend/repos/users.go:44-64 | a taken name (lookup succeeded) gives 400 "user '…' already exists" and inserts nothing; a lookup error is ignored; a hash or insert failure (UNIQUE included) gives 500; success appends the row with role `user`, 999 tickets and the next id, and returns that id |
| UserRepo.DeleteUser | backend/repos/users.go:100-115 | no matching row gives "no user found with id N" and no change; otherwise the user is gone and so are the user's registrations |
| UserRepo.UpdateRow | backend/repos/users.go:117-126 | an UPDATE … WHERE id = ? applies the change to the matching row(s) only, keeping order and length |
| UserRepo.UpdateRowKeepsKeys | backend/db/db_init.go:46-47 | an update that keeps ids and usernames keeps the table's constraints |
| UserRepo.UpdateUserRole | backend/repos/users.go:117-126 | sets the role of that user only; a missing id is not an error; only a store failure is |
| UserRepo.SetRoleOnlyThatUser | backend/repos/users.go:117-126 | the role update changes one column of one row and nothing else |
| UserRepo.RemoveOneTicketFromUser | backend/repos/users.go:154-164 | `tickets = tickets - 1` on that user's row, with no lower bound; other rows unchanged |
| UserRepo.TakeTicketExactlyOne | backend/repos/users.go:154-164 | the decremented row has exactly one ticket less, even below zero, and is otherwise as before |
| AuthRepo.GetAuthUserByUsername | backend/repos/auth.go:24-39 | exact username match; absent gives (nil, nil); a store error gives an error and no user; a found user carries that row's id, hash, name, created_at and role |
| AuthRepo.AuthLookupFindsTheRow | backend/repos/auth.go:26-38 | under unique usernames, the found user is that row, whichever row it is |
| EventRepo.ScanEvents | backend/repos/events.go:42-51 | the scan loop gives one Event per row, in order, with translations unset |
| EventRepo.GetAllEvents | backend/repos/events.go:35-52 | every event, or the query error |
| EventRepo.GetEventsByCategory | backend/repos/events.go:72-89 | exactly the events whose category equals the argument, in table order |
| EventRepo.SearchEvents | backend/repos/events.go:181-203 | exactly the events whose name, description or venue contains the keyword, ignoring ASCII case |
| EventRepo.GetEventsForUser | backend/repos/events.go:216-236 | exactly the events that have a registration of that user |
| EventRepo.QueryResultExact | backend/repos/events.go:72-89 | an event is listed iff a row satisfying the query's condition scans to it (both directions) |
| EventRepo.LikeIgnoresKeywordCase | backend/repos/events.go:182-186 | LIKE ignores the letter case of the keyword |
| EventRepo.ContainsItself | backend/repos/events.go:182-186 | a keyword equal to the whole column matches it |
| EventRepo.ContainedIsNoLonger | backend/repos/events.go:182-186 | a keyword longer than a column never matches it |
| EventRepo.SearchExample | backend/repos/events.go:182-186 | "party" finds "Summer Party"; "parties" does not find "Party" |
| EventRepo.GetEventTranslations | backend/repos/events.go:238-255 | the scan loop returns the translation rows of that event, in insertion order |
| EventRepo.GetEventById | backend/repos/events.go:54-70 | a missing id is (nil, nil), not an error; a found event carries exactly its own translations; an error in either query is an error |
| EventRepo.InsertTranslations | backend/repos/events.go:106-115 | one row per translation, tied to the event id, stopping at the first refused insert; reports how many went in |
| EventRepo.CreateEvent | backend/repos/events.go:91-117 | the event row gets the next id; one translation row per translation follows; the new id is returned; a failing translation insert returns (0, error) and leaves the event row and earlier translations in place |
| EventRepo.CreateAttachesTranslations | backend/repos/events.go:106-116 | the translations stored for the new id are exactly the given ones |
| EventRepo.ReplaceEventRow | backend/repos/events.go:120-128 | the UPDATE overwrites every scalar column of the matching row and touches no other row |
| EventRepo.ReplaceEventRowKeepsIds | backend/db/db_init.go:55 | the update keeps the set of ids and their order |
| EventRepo.UpdateEvent | backend/repos/events.go:119-147 | overwrite, delete all of the event's translations, then insert the given ones; each failure is reported with the store state it leaves; a missing id makes the first translation insert fail (foreign key) |
| EventRepo.UpdateReplacesTranslations | backend/repos/events.go:130-145 | afterwards the event has exactly the supplied translations whatever it had before, and every other event keeps its own |
| EventRepo.DeleteEvent | backend/repos/events.go:149-155 | no error for an absent id; the event, its translations and its registrations are removed |
| EventRepo.RegisterUserToEvent | backend/repos/events.go:205-214 | adds exactly the pair; fails without change iff the pair exists (primary key), the user or event is missing (foreign keys), or the store fails |
| EventRepo.RegisterTwice | backend/db/db_init.go:79 | the first registration of a new pair succeeds; the second fails with the pair's error; exactly that one registration is added |
| Jwt.NewToken | backend/helpers/jwt.go:15-19 | HS256, with exactly the claims `username` and `exp`; `exp` is 24 hours after issue |
| Jwt.CreateToken | backend/helpers/jwt.go:14-27 | the signed text of those claims, or the signing error |
| Jwt.CheckTimes | backend/helpers/jwt.go:30-32 | the time claims jwt.Parse validates: `exp` after now, `nbf` not after now, each optional but numeric when present |
| Jwt.VerifyToken | backend/helpers/jwt.go:29-53 | accepted iff the token parses, uses HS256, has a valid signature and valid time claims, and has a string `username` claim; the result is that username |
| Jwt.OnlyHS256 | backend/helpers/jwt.go:30-32 | a token of any other algorithm is refused, whatever its claims |
| Jwt.IssuedTokenVerifies | backend/helpers/jwt.go:14-53 | a token CreateToken issued verifies as its username until 24 hours have passed and is "expired" after that |
| Utf8.EncodeChar | backend/helpers/jwt.go:62 | a character is 1 to 4 bytes, and 1 byte iff it is ASCII, with that byte equal to the code point |
| Utf8.Encode | backend/helpers/jwt.go:62 | a Go string's bytes: at least as many as characters, and exactly as many iff the text is ASCII |
| Utf8.EncodeAppend | backend/helpers/jwt.go:62 | the bytes of a concatenation are the concatenated bytes |
| Jwt.TokenText | backend/helpers/jwt.go:62 | the header's bytes minus the first 7 |
| Jwt.ProtectedHandler | backend/helpers/jwt.go:55-76 | the handler runs iff the header is non-empty, verification of the bytes after the first 7 succeeds, and the predicate is nil or accepts the username; every refusal is a 401 with its message |
| Jwt.QualifierRefusalDenies | backend/helpers/jwt.go:70-73 | a predicate that refuses gives 401 "you dont have permission for this route" |
| Jwt.SchemeIgnored | backend/helpers/jwt.go:62 | the 7 bytes before the token are never checked to be "Bearer " |
| Jwt.IssuedTokenOpensTheGate | backend/helpers/jwt.go:55-76 | the bytes of "Bearer " + a fresh token run a handler without predicate, as the issued user |
| Jwt.BearerDropsExactlyTheScheme | backend/helpers/jwt.go:62 | behind the ASCII "Bearer ", the gate reads exactly the token's bytes |
| Jwt.WideSchemeShiftsTheToken | backend/helpers/jwt.go:62 | behind "Béarer " (8 bytes), the gate reads a space followed by the token's bytes |
| Jwt.WideSchemeBytes | backend/helpers/jwt.go:62 | "Béarer " is the 8 bytes 42 C3 A9 61 72 65 72 20 |
| Parsers.UserIdOf | backend/helpers/parsers.go:18-38 | a read error, a decode error, a `userId` of 0 ("missing user id"), or the non-zero id |
| Parsers.ParseTheUserIdFromRequest | backend/helpers/parsers.go:18-38 | returns UserIdOf the body; after a successful read the body holds the same bytes as before |
| Parsers.ParseTwice | backend/helpers/parsers.go:24-26 | two parses in a row see the same body and give the same answer |
| Parsers.ParseIdFromRoute | backend/helpers/parsers.go:40-48 | the id is the int64 the text denotes, otherwise an error |
| Parsers.RouteIdRoundTrip | backend/helpers/parsers.go:40-48 | a path carrying a formatted id reads back as that id |
| Pagination.PositiveOr | backend/routes/events.go:74-80 | the parsed value when it parses and is > 0, otherwise the default; positive whenever the default is |
| Pagination.ReadPageParams | backend/routes/events.go:67-80 | page defaults to 1 and limit to 10; both are always ≥ 1 |
| Pagination.NoParamsMeansFirstTen | backend/routes/events.go:71-72 | without parameters it is page 1 of size 10 |
| Pagination.Paginate | backend/routes/events.go:89-101 | refused iff `len < limit*(page-1)`; otherwise the items are `all[(page-1)*limit ..]`, `min(limit, len-(page-1)*limit)` of them, and the count is the unpaginated length |
| Pagination.PageAtTheEndIsEmpty | backend/routes/events.go:89-97 | a page starting exactly at the end is an empty page, not an error |
| Pagination.EveryItemIsOnItsPage | backend/routes/events.go:95-97 | item j is served on page j/limit+1 at position j%limit |
| Pagination.PagesUpToIsPrefix | backend/routes/events.go:95-97 | pages 1..n concatenated are the first min(n·limit, len) items, without gaps or repeats |
| EventRoutes.ListResponse | backend/routes/events.go:82-104 | a store error is a 500 before any paging; otherwise a refused page is a 400 "requested page does not exist"; otherwise the page with the unpaginated count |
| EventRoutes.GetAllEventsHandler | backend/routes/events.go:67-105 | the list response over all events |
| EventRoutes.GetEventsByCategoryHandler | backend/routes/events.go:163-208 | the list response over the category's events, with its own 500 message |
| EventRoutes.SearchEventsHandler | backend/routes/events.go:285-331 | the list response over the matching events, with its own 500 message |
| EventRoutes.CheckEventRequest | backend/routes/events.go:115-124 | accepted iff the date is RFC 3339 and not zero, name, description, category and venue are non-empty, price ≠ 0, and (for an update, lines 225-234) the id ≠ 0; the stored date is the parsed time's text |
| EventRoutes.CreateEventHandler | backend/routes/events.go:107-138 | decode error or failed check gives 400 with no store change; else CreateEvent runs; 201 with the new id, or 500 |
| EventRoutes.GetEventHandler | backend/routes/events.go:140-161 | a bad id is 400; a store error is 500; a missing event is 404; otherwise 200 with the event and its translations |
| EventRoutes.UpdateEventHandler | backend/routes/events.go:210-248 | a bad id, decode error or failed check is 400 with no change; else UpdateEvent runs: a failed UPDATE changes nothing; a failed DELETE keeps the row overwritten and the old translations; otherwise the old translations are replaced by those inserted before the first failure; 200 with the id iff every statement succeeded, else 500 |
| EventRoutes.DeleteEventHandler | backend/routes/events.go:250-272 | a bad id is 400; a store failure is 500; otherwise 200 whether or not the event existed, with the cascade applied |
| EventRoutes.AssignEventHandler | backend/routes/events.go:333-381 | AssignOutcome, in order: a bad id or body is 400; a zero id is 400; a lookup error is 500; a missing user is 404; a failed registration is 500 with no decrement; then the decrement, whose failure is 500 with the registration kept; 200 after both; nothing else in the store changes |
| EventRoutes.AssignQualifier | backend/routes/events.go:56-64 | denies on a body parse error, otherwise allows iff IsSameUser or IsAdmin |
| EventRoutes.RouteQualifier | backend/routes/events.go:19-54 | create, update and delete require IsAdmin; the other token-only routes have no predicate |
| EventRoutes.AdminRoutesRefuseOthers | backend/routes/events.go:25-46 | a caller who is not an admin never reaches create, update or delete |
| EventRoutes.AssignRoute | backend/routes/events.go:56-64 | a gate refusal writes the gate's 401 and changes nothing; once the gate runs, the outcome is AssignOutcome on the body's user id; the only registration ever added is (body user, route event), and only for a verified caller who is that user or an admin |
| UserRoutes.ToResponse | backend/routes/users.go:62-67 | the response copies id, role, name and created_at; its tickets field is always 0 |
| UserRoutes.GetAllUsersHandler | backend/routes/users.go:26-36 | 500 on error, otherwise 200 with every user in order |
| UserRoutes.CreateUserHandler | backend/routes/users.go:38-71 | an empty field is 400 with no store call; every CreateUser error, a taken name included, is 500; otherwise 201 with the new user fetched back, tickets 0 |
| UserRoutes.GetUserHandler | backend/routes/users.go:73-100 | a non-integer id is 400; an error is 500; an absent user is 404; otherwise 200 with that user |
| UserRoutes.DeleteUserHandler | backend/routes/users.go:102-123 | every DeleteUser error, "no user found" included, is 500; otherwise 200 and the user and their registrations are gone |
| UserRoutes.CheckRoleRequest | backend/routes/users.go:132-140 | passes iff the userId ≠ 0 and the role is `admin` or `user` |
| UserRoutes.UpdateUserRoleHandler | backend/routes/users.go:125-163 | both checks come before any update (400, no change); then 500 or the role change, and 200 with the updated user |
| AuthRoutes.Login | backend/routes/auth.go:20-61 | 400 for a bad body or an empty field; 500 for a lookup error; 401 for an unknown user or a wrong password; 500 if signing fails; otherwise 201 with a token for the stored username |
| AuthRoutes.LoginIssuesTokenForStoredUser | backend/routes/auth.go:42-59 | a 201 means a stored user has that name and a matching hash, and the token is the one signed for that name at login time |
| AuthRoutes.LoginTokenOpensTheGate | backend/routes/auth.go:49-59 | the login token, sent as a bearer token within 24 hours, opens the gate as that user |
| AuthRoutes.Register | backend/routes/auth.go:63-93 | CreateUser's status and message are passed through, so a taken name is a 400 "user '…' already exists"; otherwise 201 with a token for the requested name; the user stays created if signing fails |
| Home.TotalPages | frontend/src/components/home/Home.tsx:27-29 | `max(ceil(count/8), 1)`: at least 1, enough pages for every event, and no empty trailing page unless there are no events |
| Home.AllowedPagesAreServed | frontend/src/components/home/Home.tsx:24-29 | a page in [1, totalPages], sent with limit 8, reads back as itself on the server, is accepted by the check at backend/routes/events.go:89, and is non-empty when there are events |
| Home.OnSearch | frontend/src/components/home/Home.tsx:77-87 | the empty query reloads the unfiltered list; any other query searches at the current page |
| Home.Dashboard.constructor | frontend/src/components/home/Home.tsx:19-21 | page 1, one page, empty query |
| Home.Dashboard.Prev | frontend/src/components/home/Home.tsx:117-118 | `max(1, page-1)`: never below 1 and never above totalPages when it was not |
| Home.Dashboard.Next | frontend/src/components/home/Home.tsx:131-132 | `min(totalPages, page+1)`: never above totalPages |
| Home.Dashboard.Focus | frontend/src/components/home/Home.tsx:76 | the search bar's focus resets the page to 1 and nothing else |
| Home.Dashboard.Receive | frontend/src/components/home/Home.tsx:26-29 | totalPages becomes TotalPages(count) |
| Home.Dashboard.FilterCategory | frontend/src/components/home/Home.tsx:109-113 | page becomes 1, the query `?category=` + c, and the route `/` + c |
| Home.PagingStaysServed | frontend/src/components/home/Home.tsx:115-140 | Prev and Next keep the page within [1, totalPages] |
| Searchbar.QueryEffect | frontend/src/components/home/Searchbar.tsx:17-27 | navigates to `/` + rest and disables iff the query starts with `?category=`; calls onSearch iff the first character is not `?`, the empty query included |
| Searchbar.CategoryQueryNeverSearches | frontend/src/components/home/Searchbar.tsx:19-26 | a category query never calls onSearch |
| Searchbar.CategoryRoundTrip | frontend/src/components/home/Searchbar.tsx:19-22 | for the query Home builds for category c (Home.tsx:111), the target is `/` + c, the input is disabled and nothing is searched |
| Searchbar.SearchBar.OnQueryChanged | frontend/src/components/home/Searchbar.tsx:17-27 | performs QueryEffect on the current query; disabling is sticky |
| Searchbar.SearchBar.Clear | frontend/src/components/home/Searchbar.tsx:42-45 | navigates to `/`, re-enables the input, empties the query |
| Searchbar.ClearThenEffect | frontend/src/components/home/Searchbar.tsx:17-27 | clearing a non-empty query re-runs the `[query]` effect, which makes the dashboard reload the unfiltered list (Home.tsx:77-79); clearing an empty query changes nothing the effect depends on, so nothing is dispatched; the input ends enabled and empty |
| EventForm.SetField | frontend/src/components/event/EventForm.tsx:57 | the spread sets exactly one field |
| EventForm.AddTranslation | frontend/src/components/event/EventForm.tsx:18-35 | appends one blank translation; earlier items unchanged and in order; other form data unchanged |
| EventForm.AddToUndefined | frontend/src/components/event/EventForm.tsx:26 | an undefined list becomes a one-element list |
| EventForm.DropIndex | frontend/src/components/event/EventForm.tsx:41 | filtering out an index drops exactly that item, or nothing when it is out of range |
| EventForm.RemoveTranslation | frontend/src/components/event/EventForm.tsx:37-43 | removes exactly item i, keeping the others in order; an out-of-range i or an undefined list changes nothing |
| EventForm.RemoveUndoesAdd | frontend/src/components/event/EventForm.tsx:18-43 | removing the item just added gives the form back |
| EventForm.MapAt | frontend/src/components/event/EventForm.tsx:56-58 | the map changes item `index` only |
| EventForm.ChangeTranslation | frontend/src/components/event/EventForm.tsx:45-60 | changes only the list, through MapAt; an undefined list stays undefined |
| EventForm.ChangeReadsBack | frontend/src/components/event/EventForm.tsx:45-60 | length preserved; item i's field is v and its other fields are unchanged; all other items unchanged |

## Left out

- SQL engine:
  - The engine itself, row scanning and `LastInsertId` are not modelled. Tables are sequences in rowid order, and a JOIN or an unordered SELECT returns rows in table order.
  - A failed scan, `rows.Err()` and `RowsAffected` errors are not modelled separately. They are folded into the per-statement failure flags.
- Foreign keys: `PRAGMA foreign_keys = ON` applies to one pooled connection. The model enforces foreign keys and ON DELETE CASCADE everywhere, as the schema intends.
- EventRepo.SearchEvents: `%` and `_` inside the keyword are treated as literal characters, not as LIKE wildcards. Case is folded for ASCII letters only, as SQLite does.
- GetUpcomingEvents: left out, because it depends on `datetime('now')` and the route that reaches it is commented out.
- Price: an integer that is only compared with 0. Floating point is not modelled.
- Jwt.VerifyToken:
  - Signing and signature checking (HMAC-SHA256 under the secret from the environment) are abstract parameters.
  - Times are whole Unix seconds.
  - `iat` is not checked, since jwt.Parse does not check it by default.
  - The order in which the library reports its errors is not modelled. Only accept or refuse, and the username, are.
- Password hashing and `CheckPasswordHash` (bcrypt) are parameters.
- JSON decoding of request bodies and encoding of responses are not modelled. A body is decoded into an `Option`; a response is an `Http.Response` value.
- Date parsing: `time.Parse` with RFC 3339 (section 5.6 of RFC 3339) is the abstract `parseDate` parameter.
- Jwt.ProtectedHandler: a non-empty `Authorization` header shorter than 7 bytes panics in the slice, so it is a precondition.
- UserRepo.Message: an error that wraps another (`%w`), such as a hash or insert failure in CreateUser, is modelled by its fixed prefix only. The driver or bcrypt text after `: ` is not modelled, so `AuthRoutes.Register` passes on only that prefix.
- UserRoutes.UpdateUserRoleHandler: a valid request for a user id that does not exist dereferences a nil user after the update, so that input is a precondition.
- Integer overflow: the Go `int` multiplication `limit*(page-1)` can overflow, and that is not modelled. The model's integers are unbounded; parsed values are bounded to int64.
- The `/users` routes are modelled without a gate. The router wiring in backend/main.go does not match the handler signatures, so which gate applies cannot be determined.
- Also not modelled:
  - `log.Fatal` in AddDefaultAdmin;
  - `NewDatabase`, `Ping` and `Close`;
  - `println` of the category.
- Route dispatch is not modelled: chi routing, `not_found.go`, `not_allowed.go` and `root.go`.
- Frontend:
  - The dashboard's Prev/Next methods model the click handlers. The disabled state of the buttons is exposed as `PrevEnabled`/`NextEnabled` rather than as a precondition.
  - Home.AllowedPagesAreServed assumes the server sees the same count that the dashboard last received; a change to the events in between is not modelled.
  - The asynchronous requests, toasts, React rendering, effects other than the search bar's, and the image upload (`toBase64`) are not modelled.
  - EventForm's submit passes the form data unchanged to `onSubmit`. It has no logic of its own, so it has no member.
  - The `Number(...)` price parsing is floating point and is not modelled.
