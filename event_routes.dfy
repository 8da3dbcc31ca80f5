/** backend/routes/events.go: the `/events` handlers. Each handler reads
    its inputs, calls the repository and maps the outcome onto a status
    code. JSON request bodies arrive already decoded (None when decoding
    fails), and `parseDate` stands for `time.Parse(time.RFC3339, ...)`. */
module EventRoutes {
  import opened Common
  import opened Decimal
  import opened Schema
  import opened Http
  import opened Pagination
  import opened EventRepo
  import UserRepo
  import Jwt
  import Parsers

  /** The JSON bodies these handlers write. */
  datatype EventsBody =
    | EventsPage(events: seq<Event>, count: int)
    | OneEvent(event: Event)
    | EventIdBody(eventId: int)
    | Deletion(id: int, message: string)

  const PageMissingMessage: string := "requested page does not exist"
  const InvalidSchemaMessage: string := "invalid request, likey an invalid schema"
  const InvalidIdMessage: string := "Invalid id, pass a valid one"
  const InvalidDateMessage: string := "invalid date format, only RFC3339 is supported"
  const DeletedMessage: string := "the event with the above id was deleted successfully"

  /** The three list handlers after the repository call: a store error is a
      500 with the handler's own message, before any paging; then the page
      check and the slice, with the unpaginated count. */
  function ListResponse(result: Result<seq<Event>, EventError>, pageText: string, limitText: string,
                        failMessage: string): (r: Response<EventsBody>)
    ensures result.Err? ==> r == Error(StatusInternalServerError, failMessage)
    ensures result.Ok? ==>
      var p := ReadPageParams(pageText, limitText);
      match Paginate(result.value, p.page, p.limit)
      case PageNotFound => r == Error(StatusBadRequest, PageMissingMessage)
      case Page(items, count) => r == Json(StatusOK, EventsPage(items, count)) && count == |result.value|
  {
    if result.Err? then Error(StatusInternalServerError, failMessage)
    else
      var p := ReadPageParams(pageText, limitText);
      match Paginate(result.value, p.page, p.limit)
      case PageNotFound => Error(StatusBadRequest, PageMissingMessage)
      case Page(items, count) => Json(StatusOK, EventsPage(items, count))
  }

  /** GetAllEvents: a page of all events. */
  method GetAllEventsHandler(db: Database, pageText: string, limitText: string, queryFails: bool)
    returns (resp: Response<EventsBody>)
    ensures queryFails ==> resp == Error(StatusInternalServerError, "Failed to get all events")
    ensures !queryFails ==> resp == ListResponse(Ok(ToEvents(db.events)), pageText, limitText, "Failed to get all events")
  {
    var events := GetAllEvents(db, queryFails);
    resp := ListResponse(events, pageText, limitText, "Failed to get all events");
  }

  /** GetEventsByCategory: a page of the events of one category. An empty
      page is written as an empty list; a Dafny sequence is never nil, so
      that replacement leaves nothing to model. */
  method GetEventsByCategoryHandler(db: Database, category: string, pageText: string, limitText: string, queryFails: bool)
    returns (resp: Response<EventsBody>)
    ensures queryFails ==> resp == Error(StatusInternalServerError, "this category has no events")
    ensures !queryFails ==>
      resp == ListResponse(Ok(ToEvents(Filter(db.events, InCategory(category)))), pageText, limitText, "this category has no events")
  {
    var events := GetEventsByCategory(db, category, queryFails);
    resp := ListResponse(events, pageText, limitText, "this category has no events");
  }

  /** SearchEvents: a page of the events matching a keyword. */
  method SearchEventsHandler(db: Database, keyword: string, pageText: string, limitText: string, queryFails: bool)
    returns (resp: Response<EventsBody>)
    ensures queryFails ==> resp == Error(StatusInternalServerError, "couldn't search events, please try again later")
    ensures !queryFails ==>
      resp == ListResponse(Ok(ToEvents(Filter(db.events, Matches(keyword)))), pageText, limitText,
                           "couldn't search events, please try again later")
  {
    var events := SearchEvents(db, keyword, queryFails);
    resp := ListResponse(events, pageText, limitText, "couldn't search events, please try again later");
  }

  /** The `CreateEvent`/`UpdateEvent` request body. */
  datatype EventRequest = EventRequest(name: string, description: string, category: string, date: string,
                                       venue: string, price: int, image: Bytes, translations: seq<Translation>)

  /** What `time.Parse(time.RFC3339, s)` gives: an error, or a time, whether
      it is the zero time, and its `String()` form. */
  datatype ParsedDate = DateInvalid | DateOk(isZero: bool, text: string)

  /** The fields check shared by create and update. `updateId` is the parsed
      path id of an update (which must not be 0), None for a create. The
      stored date is the parsed time's `String()`, not the request text. */
  function CheckEventRequest(req: EventRequest, parseDate: string -> ParsedDate, updateId: Option<int>): (r: Result<EventFields, string>)
    ensures parseDate(req.date).DateInvalid? ==> r == Err(InvalidDateMessage)
    ensures r.Ok? <==>
      && parseDate(req.date).DateOk? && !parseDate(req.date).isZero
      && req.name != "" && req.description != "" && req.category != "" && req.venue != ""
      && req.price != 0
      && (updateId.Some? ==> updateId.value != 0)
    ensures r.Ok? ==> r.value == EventFields(req.name, req.description, req.category, parseDate(req.date).text,
                                             req.venue, req.price, req.image)
  {
    var date := parseDate(req.date);
    if date.DateInvalid? then Err(InvalidDateMessage)
    else if (updateId.Some? && updateId.value == 0) || req.name == "" || req.description == "" || req.category == ""
            || date.isZero || req.venue == "" || req.price == 0 then
      Err(if updateId.Some? then "missing id, name, description, category, date, venue or price"
          else "missing name, description, category, date, venue or price")
    else Ok(EventFields(req.name, req.description, req.category, date.text, req.venue, req.price, req.image))
  }

  /** CreateEvent: decode, check, create; 201 with the new id. An invalid
      request never reaches the store. */
  method CreateEventHandler(db: Database, req: Option<EventRequest>, parseDate: string -> ParsedDate,
                            insertFails: bool, failAt: Option<nat>)
    returns (resp: Response<EventsBody>)
    requires db.Valid()
    modifies db
    ensures db.Valid()
    ensures req.None? ==> resp == Error(StatusBadRequest, InvalidSchemaMessage) && unchanged(db)
    ensures req.Some? && CheckEventRequest(req.value, parseDate, None).Err? ==>
      resp == Error(StatusBadRequest, CheckEventRequest(req.value, parseDate, None).error) && unchanged(db)
    ensures req.Some? && CheckEventRequest(req.value, parseDate, None).Ok? ==>
      var f := CheckEventRequest(req.value, parseDate, None).value;
      var ts := req.value.translations;
      && (insertFails ==> resp == Error(StatusInternalServerError, "could not create event") && unchanged(db))
      && (!insertFails ==>
            && db.events == old(db.events) + [NewEventRow(old(db.nextEventId), f)]
            && db.translations == old(db.translations) + TranslationRows(old(db.nextEventId), ts[..Inserted(|ts|, failAt)])
            && db.users == old(db.users) && db.registrations == old(db.registrations)
            && db.nextEventId == old(db.nextEventId) + 1 && db.nextUserId == old(db.nextUserId)
            && db.tables == old(db.tables) && db.foreignKeys == old(db.foreignKeys)
            && (Inserted(|ts|, failAt) == |ts| ==> resp == Json(StatusCreated, EventIdBody(old(db.nextEventId))))
            && (Inserted(|ts|, failAt) < |ts| ==> resp == Error(StatusInternalServerError, "could not create event")))
  {
    if req.None? {
      return Error(StatusBadRequest, InvalidSchemaMessage);
    }
    var checked := CheckEventRequest(req.value, parseDate, None);
    if checked.Err? {
      return Error(StatusBadRequest, checked.error);
    }
    var id, err := CreateEvent(db, checked.value, req.value.translations, insertFails, failAt);
    if err.Some? {
      return Error(StatusInternalServerError, "could not create event");
    }
    resp := Json(StatusCreated, EventIdBody(id));
  }

  /** GetEvent: 400 for an id that is not an int64, 500 on a store error,
      404 for a missing event, else the event with its translations. */
  method GetEventHandler(db: Database, idText: string, queryFails: bool, translationsFail: bool)
    returns (resp: Response<EventsBody>)
    requires db.Valid()
    ensures ParseInt(idText).None? ==> resp == Error(StatusBadRequest, InvalidIdMessage)
    ensures ParseInt(idText).Some? ==>
      var id := ParseInt(idText).value;
      && (queryFails || (id in EventIds(db.events) && translationsFail) ==>
            resp == Error(StatusInternalServerError, "couldn't get event"))
      && (!queryFails && id !in EventIds(db.events) ==> resp == Error(StatusNotFound, "Event not found"))
      && (forall row :: row in db.events && row.id == id && !queryFails && !translationsFail ==>
            resp == Json(StatusOK, OneEvent(RowToEvent(row).(translations := Some(TranslationsOf(db.translations, id))))))
  {
    var id := Parsers.ParseIdFromRoute(idText);
    if id.Err? {
      return Error(StatusBadRequest, InvalidIdMessage);
    }
    var event := GetEventById(db, id.value, queryFails, translationsFail);
    match event
    case LookupError => resp := Error(StatusInternalServerError, "couldn't get event");
    case Absent => resp := Error(StatusNotFound, "Event not found");
    case Found(e) => resp := Json(StatusOK, OneEvent(e));
  }

  /** UpdateEvent: parse the id, decode, check, update; 200 with the id.
      Updating a missing event is a 200 as long as no translation is sent,
      since no statement fails. */
  method UpdateEventHandler(db: Database, idText: string, req: Option<EventRequest>, parseDate: string -> ParsedDate,
                            updateFails: bool, deleteFails: bool, failAt: Option<nat>)
    returns (resp: Response<EventsBody>)
    requires db.Valid()
    modifies db
    ensures db.Valid()
    ensures ParseInt(idText).None? ==> resp == Error(StatusBadRequest, InvalidIdMessage) && unchanged(db)
    ensures ParseInt(idText).Some? && req.None? ==> resp == Error(StatusBadRequest, InvalidSchemaMessage) && unchanged(db)
    ensures ParseInt(idText).Some? && req.Some? && CheckEventRequest(req.value, parseDate, ParseInt(idText)).Err? ==>
      resp == Error(StatusBadRequest, CheckEventRequest(req.value, parseDate, ParseInt(idText)).error) && unchanged(db)
    ensures ParseInt(idText).Some? && req.Some? && CheckEventRequest(req.value, parseDate, ParseInt(idText)).Ok? ==>
      var id := ParseInt(idText).value;
      var f := CheckEventRequest(req.value, parseDate, ParseInt(idText)).value;
      var ts := req.value.translations;
      var k := UpdateInserted(old(db.events), id, |ts|, failAt);
      && (updateFails ==> unchanged(db))
      && (!updateFails ==> db.events == ReplaceEventRow(old(db.events), id, f))
      && (!updateFails && deleteFails ==> db.translations == old(db.translations))
      && (!updateFails && !deleteFails ==>
            db.translations == Filter(old(db.translations), NotOfEvent(id)) + TranslationRows(id, ts[..k]))
      && (!updateFails && !deleteFails && k == |ts| <==> resp == Json(StatusOK, EventIdBody(id)))
      && (resp.Error? ==> resp == Error(StatusInternalServerError, "could not update the event"))
      && db.users == old(db.users) && db.registrations == old(db.registrations)
      && db.nextEventId == old(db.nextEventId) && db.nextUserId == old(db.nextUserId)
      && db.tables == old(db.tables) && db.foreignKeys == old(db.foreignKeys)
  {
    var id := Parsers.ParseIdFromRoute(idText);
    if id.Err? {
      return Error(StatusBadRequest, InvalidIdMessage);
    }
    if req.None? {
      return Error(StatusBadRequest, InvalidSchemaMessage);
    }
    var checked := CheckEventRequest(req.value, parseDate, Some(id.value));
    if checked.Err? {
      return Error(StatusBadRequest, checked.error);
    }
    var err := UpdateEvent(db, id.value, checked.value, req.value.translations, updateFails, deleteFails, failAt);
    if err.Some? {
      return Error(StatusInternalServerError, "could not update the event");
    }
    resp := Json(StatusOK, EventIdBody(id.value));
  }

  /** DeleteEvent: 200 whether or not the event existed. */
  method DeleteEventHandler(db: Database, idText: string, deleteFails: bool) returns (resp: Response<EventsBody>)
    requires db.Valid()
    modifies db
    ensures db.Valid()
    ensures ParseInt(idText).None? ==> resp == Error(StatusBadRequest, InvalidIdMessage) && unchanged(db)
    ensures ParseInt(idText).Some? ==>
      var id := ParseInt(idText).value;
      && (deleteFails ==> resp == Error(StatusInternalServerError, "could not delete the event") && unchanged(db))
      && (!deleteFails ==>
            && resp == Json(StatusOK, Deletion(id, DeletedMessage))
            && db.events == Filter(old(db.events), OtherThanEvent(id))
            && db.translations == Filter(old(db.translations), NotOfEvent(id))
            && db.registrations == WithoutEvent(old(db.registrations), id)
            && db.users == old(db.users)
            && db.nextEventId == old(db.nextEventId) && db.nextUserId == old(db.nextUserId)
            && db.tables == old(db.tables) && db.foreignKeys == old(db.foreignKeys))
  {
    var id := Parsers.ParseIdFromRoute(idText);
    if id.Err? {
      return Error(StatusBadRequest, InvalidIdMessage);
    }
    assert id.value == ParseInt(idText).value;
    var err := DeleteEvent(db, id.value, deleteFails);
    if err.Some? {
      return Error(StatusInternalServerError, "could not delete the event");
    }
    resp := Json(StatusOK, Deletion(id.value, DeletedMessage));
  }

  /** The `%d` messages of AssignEvent. */
  function CouldNotFindUser(userId: int): string { "could not find the user with id '" + Format(userId) + "'" }
  function UserNotFound(userId: int): string { "user with id '" + Format(userId) + "' not found" }
  function CouldNotAssign(userId: int): string { "could not assign the event to the user with id '" + Format(userId) + "'" }

  /** Whether the registration insert goes through. */
  predicate RegistrationAccepted(db: Database, userId: int, eventId: int, registerFails: bool)
    reads db
  {
    !registerFails && Registration(userId, eventId) !in db.registrations
    && userId in UserIds(db.users) && eventId in EventIds(db.events)
  }

  /** What AssignEvent does, from the store before to the store after:
      checks run in order and each refusal leaves the store as it was; the
      ticket is taken only after the registration went in, and a failing
      decrement is a 500 that keeps the registration. */
  twostate predicate AssignOutcome(db: Database, idText: string, decodedUserId: Option<int>,
                                   lookupFails: bool, registerFails: bool, decrementFails: bool,
                                   new resp: Response<EventsBody>)
    reads db
  {
    && (ParseInt(idText).None? ==> resp == Error(StatusBadRequest, "invalid id, pass a valid one") && unchanged(db))
    && (ParseInt(idText).Some? && decodedUserId.None? ==> resp == Error(StatusBadRequest, InvalidSchemaMessage) && unchanged(db))
    && (ParseInt(idText).Some? && decodedUserId.Some? ==>
      var eventId := ParseInt(idText).value;
      var userId := decodedUserId.value;
      && (eventId == 0 || userId == 0 ==> resp == Error(StatusBadRequest, "missing event id or user id") && unchanged(db))
      && (eventId != 0 && userId != 0 ==>
            && (lookupFails ==> resp == Error(StatusInternalServerError, CouldNotFindUser(userId)) && unchanged(db))
            && (!lookupFails && userId !in UserIds(old(db.users)) ==>
                  resp == Error(StatusNotFound, UserNotFound(userId)) && unchanged(db))
            && (!lookupFails && userId in UserIds(old(db.users)) && !old(RegistrationAccepted(db, userId, eventId, registerFails)) ==>
                  resp == Error(StatusInternalServerError, CouldNotAssign(userId)) && unchanged(db))
            && (!lookupFails && old(RegistrationAccepted(db, userId, eventId, registerFails)) ==>
                  && db.registrations == old(db.registrations) + {Registration(userId, eventId)}
                  && db.events == old(db.events) && db.translations == old(db.translations)
                  && db.nextUserId == old(db.nextUserId) && db.nextEventId == old(db.nextEventId)
                  && db.tables == old(db.tables) && db.foreignKeys == old(db.foreignKeys)
                  && (decrementFails ==> resp == Error(StatusInternalServerError, CouldNotAssign(userId)) && db.users == old(db.users))
                  && (!decrementFails ==>
                        resp == Json(StatusOK, EventIdBody(eventId)) && db.users == UserRepo.UpdateRow(old(db.users), userId, UserRepo.TakeTicket)))))
  }

  /** AssignEvent: book a ticket, as AssignOutcome describes. `decodedUserId`
      is the decoded body's `userId`. */
  method AssignEventHandler(db: Database, idText: string, decodedUserId: Option<int>,
                            lookupFails: bool, registerFails: bool, decrementFails: bool)
    returns (resp: Response<EventsBody>)
    requires db.Valid()
    modifies db
    ensures db.Valid()
    ensures AssignOutcome(db, idText, decodedUserId, lookupFails, registerFails, decrementFails, resp)
  {
    var eventId := Parsers.ParseIdFromRoute(idText);
    if eventId.Err? {
      return Error(StatusBadRequest, "invalid id, pass a valid one");
    }
    if decodedUserId.None? {
      return Error(StatusBadRequest, InvalidSchemaMessage);
    }
    var userId := decodedUserId.value;
    if eventId.value == 0 || userId == 0 {
      return Error(StatusBadRequest, "missing event id or user id");
    }
    var user := UserRepo.GetUserById(db.users, userId, lookupFails);
    if user.LookupError? {
      return Error(StatusInternalServerError, CouldNotFindUser(userId));
    }
    if user.Absent? {
      return Error(StatusNotFound, UserNotFound(userId));
    }
    assert user.value.id == userId;
    var err := RegisterUserToEvent(db, user.value.id, eventId.value, registerFails);
    if err.Some? {
      return Error(StatusInternalServerError, CouldNotAssign(userId));
    }
    var err' := UserRepo.RemoveOneTicketFromUser(db, user.value.id, decrementFails);
    if err'.Some? {
      return Error(StatusInternalServerError, CouldNotAssign(userId));
    }
    resp := Json(StatusOK, EventIdBody(eventId.value));
  }

  /** The assign route's isQualifiedCallback: read the `userId` of the body;
      a read or decode error, or a zero id, denies; otherwise the caller must
      be that user or an admin. */
  function AssignQualifier(users: seq<UserRow>, body: Bytes, readFails: bool, decodeUserId: Bytes -> Option<int>,
                           sameFails: bool, adminFails: bool): (q: string -> bool)
    requires Pairwise(users, UserIdBefore) && Pairwise(users, UsernameDiffers)
    ensures forall username :: q(username) <==>
      && Parsers.UserIdOf(body, readFails, decodeUserId).Ok?
      && (UserRepo.IsSameUser(users, username, Parsers.UserIdOf(body, readFails, decodeUserId).value, sameFails)
          || UserRepo.IsAdmin(users, username, adminFails))
  {
    (username: string) =>
      match Parsers.UserIdOf(body, readFails, decodeUserId)
      case Err(_) => false
      case Ok(userId) => UserRepo.IsSameUser(users, username, userId, sameFails) || UserRepo.IsAdmin(users, username, adminFails)
  }

  /** The `/events` routes, and the callback each installs in front of its
      handler. */
  datatype EventRoute = ListAll | Create | GetOne | ByCategory | Update | Delete | Search | Assign

  /** Create, update and delete are for admins; assign has AssignQualifier;
      the rest only need a valid token. */
  function RouteQualifier(route: EventRoute, users: seq<UserRow>, adminFails: bool): (q: Option<string -> bool>)
    requires Pairwise(users, UsernameDiffers)
    requires route != Assign
    ensures q.Some? <==> route in {Create, Update, Delete}
    ensures q.Some? ==> forall username :: q.value(username) <==> UserRepo.IsAdmin(users, username, adminFails)
  {
    if route in {Create, Update, Delete} then Some((username: string) => UserRepo.IsAdmin(users, username, adminFails))
    else None
  }

  /** A caller that is not an admin never reaches the create, update or
      delete handler, however valid the token. */
  lemma AdminRoutesRefuseOthers(route: EventRoute, users: seq<UserRow>, adminFails: bool,
                                header: Bytes, decode: Bytes -> Jwt.Parsed, now: int)
    requires Pairwise(users, UsernameDiffers)
    requires route in {Create, Update, Delete}
    requires header == [] || |header| >= Jwt.SchemeLength
    requires Jwt.ProtectedHandler(header, decode, now, RouteQualifier(route, users, adminFails)).Run?
    ensures UserRepo.IsAdmin(users, Jwt.ProtectedHandler(header, decode, now, RouteQualifier(route, users, adminFails)).username, adminFails)
  {
  }

  /** POST /events/assign/{id}: the gate with AssignQualifier, then
      AssignEvent. The callback reads the body and puts it back, so the
      handler decodes the same bytes. Only the user themself or an admin can
      book on a user's behalf. */
  method AssignRoute(db: Database, req: Parsers.Request, idText: string, header: Bytes,
                     decode: Bytes -> Jwt.Parsed, now: int,
                     readFails: bool, decodeUserId: Bytes -> Option<int>, sameFails: bool, adminFails: bool,
                     lookupFails: bool, registerFails: bool, decrementFails: bool)
    returns (resp: Response<EventsBody>)
    requires db.Valid()
    requires header == [] || |header| >= Jwt.SchemeLength
    modifies db, req
    ensures db.Valid()
    ensures var gate := Jwt.ProtectedHandler(header, decode, now,
                          Some(AssignQualifier(old(db.users), old(req.body), readFails, decodeUserId, sameFails, adminFails)));
      && (gate.Deny? ==> resp == Error(gate.status, gate.message) && unchanged(db))
      && (gate.Run? ==>
            AssignOutcome(db, idText, decodeUserId(old(req.body)), lookupFails, registerFails, decrementFails, resp))
      && (db.registrations != old(db.registrations) ==>
            && gate.Run?
            && decodeUserId(old(req.body)).Some? && ParseInt(idText).Some?
            && db.registrations == old(db.registrations) + {Registration(decodeUserId(old(req.body)).value, ParseInt(idText).value)}
            && (UserRepo.IsSameUser(old(db.users), gate.username, decodeUserId(old(req.body)).value, sameFails)
                || UserRepo.IsAdmin(old(db.users), gate.username, adminFails)))
  {
    var qualify := AssignQualifier(db.users, req.body, readFails, decodeUserId, sameFails, adminFails);
    var gate := Jwt.ProtectedHandler(header, decode, now, Some(qualify));
    if gate.Deny? {
      return Error(gate.status, gate.message);
    }
    assert qualify(gate.username);
    // The callback's read of the body, which leaves the body in place.
    var parsed := Parsers.ParseTheUserIdFromRequest(req, readFails, decodeUserId);
    assert req.body == old(req.body);
    resp := AssignEventHandler(db, idText, decodeUserId(req.body), lookupFails, registerFails, decrementFails);
  }
}
