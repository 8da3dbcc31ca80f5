/** backend/repos/events.go: the EventRepository over the events,
    event_translations and registrations tables. Store I/O errors are
    parameters: a `...Fails` flag says the store reports an error for that
    statement, and `failAt` is the index of the first translation INSERT the
    store refuses, if any (each loop stops at its first failure). */
module EventRepo {
  import opened Common
  import opened Schema

  /** The `EventTranslation` struct. */
  datatype Translation = Translation(language: string, name: string, description: string, venue: string)

  /** The `Event` struct. `translations` is None for Go's nil slice (list
      queries never set it) and Some for a loaded list. */
  datatype Event = Event(id: int, name: string, description: string, category: string, date: string,
                         venue: string, price: int, image: Bytes, translations: Option<seq<Translation>>)

  /** The scalar columns written by CreateEvent and UpdateEvent. */
  datatype EventFields = EventFields(name: string, description: string, category: string, date: string,
                                     venue: string, price: int, image: Bytes)

  datatype EventError =
    | QueryFailed
    | CreateFailed
    | TranslationInsertFailed
    | UpdateFailed(id: int)
    | DeleteTranslationsFailed
    | DeleteFailed(id: int)
    | RegisterFailed(userId: int, eventId: int)

  /** A scanned events row; the scan does not touch translations. */
  function RowToEvent(r: EventRow): (e: Event)
    ensures e.translations.None?
  {
    Event(r.id, r.name, r.description, r.category, r.date, r.venue, r.price, r.image, None)
  }

  function ToEvents(rows: seq<EventRow>): (es: seq<Event>)
    ensures |es| == |rows|
    ensures forall i :: 0 <= i < |rows| ==> es[i] == RowToEvent(rows[i])
  {
    seq(|rows|, i requires 0 <= i < |rows| => RowToEvent(rows[i]))
  }

  function ToTranslation(t: TranslationRow): Translation {
    Translation(t.language, t.name, t.description, t.venue)
  }

  function ToTranslations(rows: seq<TranslationRow>): (ts: seq<Translation>)
    ensures |ts| == |rows|
    ensures forall i :: 0 <= i < |rows| ==> ts[i] == ToTranslation(rows[i])
  {
    seq(|rows|, i requires 0 <= i < |rows| => ToTranslation(rows[i]))
  }

  /** The rows `INSERT INTO event_translations` adds for `ts`, all tied to `eventId`. */
  function TranslationRows(eventId: int, ts: seq<Translation>): (rows: seq<TranslationRow>)
    ensures |rows| == |ts|
    ensures forall i :: 0 <= i < |ts| ==> rows[i] == TranslationRow(eventId, ts[i].language, ts[i].name, ts[i].description, ts[i].venue)
  {
    seq(|ts|, i requires 0 <= i < |ts| => TranslationRow(eventId, ts[i].language, ts[i].name, ts[i].description, ts[i].venue))
  }

  function OfEvent(id: int): TranslationRow -> bool {
    (t: TranslationRow) => t.eventId == id
  }

  function NotOfEvent(id: int): TranslationRow -> bool {
    (t: TranslationRow) => t.eventId != id
  }

  /** The translations stored for an event, in insertion order. */
  function TranslationsOf(rows: seq<TranslationRow>, id: int): seq<Translation> {
    ToTranslations(Filter(rows, OfEvent(id)))
  }

  function OtherThanEvent(id: int): EventRow -> bool {
    (e: EventRow) => e.id != id
  }

  function InCategory(category: string): EventRow -> bool {
    (e: EventRow) => e.category == category
  }

  function RegisteredBy(registrations: set<Registration>, userId: int): EventRow -> bool {
    (e: EventRow) => Registration(userId, e.id) in registrations
  }

  // SQLite's LIKE: `'%' || keyword || '%'`, case-insensitive for ASCII letters.

  function LowerAscii(c: char): char {
    if 'A' <= c <= 'Z' then (c as int - 'A' as int + 'a' as int) as char else c
  }

  function Fold(s: string): (r: string)
    ensures |r| == |s|
  {
    seq(|s|, i requires 0 <= i < |s| => LowerAscii(s[i]))
  }

  /** `pattern` occurs somewhere in `text`. */
  predicate Contains(text: string, pattern: string)
    decreases |text|
  {
    (|pattern| <= |text| && text[..|pattern|] == pattern) || (|text| > 0 && Contains(text[1..], pattern))
  }

  predicate Like(text: string, keyword: string) {
    Contains(Fold(text), Fold(keyword))
  }

  /** Folding twice is folding once, so the case of the keyword's letters
      never matters. */
  lemma LikeIgnoresKeywordCase(text: string, keyword: string)
    ensures Like(text, keyword) == Like(text, Fold(keyword))
  {
    assert Fold(Fold(keyword)) == Fold(keyword);
  }

  /** Any text contains itself, so every event matches its own name. */
  lemma {:induction false} ContainsItself(text: string)
    ensures Contains(text, text)
  {
    assert text[..|text|] == text;
  }

  /** A pattern only occurs in a text at least as long. */
  lemma {:induction false} ContainedIsNoLonger(text: string, pattern: string)
    ensures Contains(text, pattern) ==> |pattern| <= |text|
    decreases |text|
  {
    if |text| > 0 {
      ContainedIsNoLonger(text[1..], pattern);
    }
  }

  /** The search is case-insensitive: "party" finds "Summer Party", and a
      keyword longer than every column finds nothing. */
  lemma SearchExample()
    ensures Like("Summer Party", "party")
    ensures !Like("Party", "parties")
  {
    var t := Fold("Summer Party");
    assert t == "summer party";
    assert Fold("party") == "party";
    assert t[7..][..5] == "party";
    assert Contains(t[7..], "party");
    assert Contains(t[6..], "party");
    assert Contains(t[5..], "party");
    assert Contains(t[4..], "party");
    assert Contains(t[3..], "party");
    assert Contains(t[2..], "party");
    assert Contains(t[1..], "party");
    ContainedIsNoLonger(Fold("Party"), Fold("parties"));
  }

  function Matches(keyword: string): EventRow -> bool {
    (e: EventRow) => Like(e.name, keyword) || Like(e.description, keyword) || Like(e.venue, keyword)
  }

  /** The `for rows.Next()` loop shared by every list query: scan each row
      and append it. */
  method ScanEvents(rows: seq<EventRow>) returns (events: seq<Event>)
    ensures events == ToEvents(rows)
  {
    events := [];
    var i := 0;
    while i < |rows|
      invariant 0 <= i <= |rows|
      invariant events == ToEvents(rows[..i])
    {
      assert ToEvents(rows[..i + 1]) == events + [RowToEvent(rows[i])];
      events := events + [RowToEvent(rows[i])];
      i := i + 1;
    }
    assert rows[..i] == rows;
  }

  /** GetAllEvents: every events row, in table order, without translations. */
  method GetAllEvents(db: Database, queryFails: bool) returns (r: Result<seq<Event>, EventError>)
    ensures queryFails ==> r == Err(QueryFailed)
    ensures !queryFails ==> r == Ok(ToEvents(db.events))
  {
    if queryFails {
      return Err(QueryFailed);
    }
    var events := ScanEvents(db.events);
    r := Ok(events);
  }

  /** GetEventsByCategory: `WHERE category = ?`. */
  method GetEventsByCategory(db: Database, category: string, queryFails: bool) returns (r: Result<seq<Event>, EventError>)
    ensures queryFails ==> r == Err(QueryFailed)
    ensures !queryFails ==> r == Ok(ToEvents(Filter(db.events, InCategory(category))))
  {
    if queryFails {
      return Err(QueryFailed);
    }
    var events := ScanEvents(Filter(db.events, InCategory(category)));
    r := Ok(events);
  }

  /** SearchEvents: name, description or venue LIKE `%keyword%`. */
  method SearchEvents(db: Database, keyword: string, queryFails: bool) returns (r: Result<seq<Event>, EventError>)
    ensures queryFails ==> r == Err(QueryFailed)
    ensures !queryFails ==> r == Ok(ToEvents(Filter(db.events, Matches(keyword))))
  {
    if queryFails {
      return Err(QueryFailed);
    }
    var events := ScanEvents(Filter(db.events, Matches(keyword)));
    r := Ok(events);
  }

  /** GetEventsForUser: the events joined with a registration of that user. */
  method GetEventsForUser(db: Database, userId: int, queryFails: bool) returns (r: Result<seq<Event>, EventError>)
    ensures queryFails ==> r == Err(QueryFailed)
    ensures !queryFails ==> r == Ok(ToEvents(Filter(db.events, RegisteredBy(db.registrations, userId))))
  {
    if queryFails {
      return Err(QueryFailed);
    }
    var events := ScanEvents(Filter(db.events, RegisteredBy(db.registrations, userId)));
    r := Ok(events);
  }

  /** Membership in a query result: an event is listed iff some row that
      satisfies the query's condition scans to it. */
  lemma QueryResultExact(rows: seq<EventRow>, keep: EventRow -> bool, e: Event)
    ensures e in ToEvents(Filter(rows, keep)) <==> exists row :: row in rows && keep(row) && RowToEvent(row) == e
  {
    var f := Filter(rows, keep);
    if e in ToEvents(f) {
      var i :| 0 <= i < |f| && ToEvents(f)[i] == e;
      assert f[i] in rows && keep(f[i]);
    }
    if exists row :: row in rows && keep(row) && RowToEvent(row) == e {
      var row :| row in rows && keep(row) && RowToEvent(row) == e;
      var i :| 0 <= i < |f| && f[i] == row;
      assert ToEvents(f)[i] == e;
    }
  }

  /** GetEventTranslations: the translation rows of that event, in order. */
  method GetEventTranslations(db: Database, eventId: int, queryFails: bool) returns (r: Result<seq<Translation>, EventError>)
    ensures queryFails ==> r == Err(QueryFailed)
    ensures !queryFails ==> r == Ok(TranslationsOf(db.translations, eventId))
  {
    if queryFails {
      return Err(QueryFailed);
    }
    var rows := Filter(db.translations, OfEvent(eventId));
    var ts: seq<Translation> := [];
    var i := 0;
    while i < |rows|
      invariant 0 <= i <= |rows|
      invariant ts == ToTranslations(rows[..i])
    {
      assert ToTranslations(rows[..i + 1]) == ts + [ToTranslation(rows[i])];
      ts := ts + [ToTranslation(rows[i])];
      i := i + 1;
    }
    assert rows[..i] == rows;
    r := Ok(ts);
  }

  /** GetEventById: a missing id is (nil, nil), not an error; a found event
      carries exactly its own translations. */
  method GetEventById(db: Database, id: int, queryFails: bool, translationsFail: bool) returns (r: Lookup<Event>)
    requires db.Valid()
    ensures r.LookupError? <==> queryFails || (id in EventIds(db.events) && translationsFail)
    ensures r.Absent? <==> !queryFails && id !in EventIds(db.events)
    ensures forall row :: row in db.events && row.id == id && !queryFails && !translationsFail ==>
              r == Found(RowToEvent(row).(translations := Some(TranslationsOf(db.translations, id))))
  {
    if queryFails {
      return LookupError;
    }
    var found := FindEvent(db.events, id);
    if found.None? {
      return Absent;
    }
    var row := found.value;
    forall other | other in db.events && other.id == id ensures other == row {
      var i :| 0 <= i < |db.events| && db.events[i] == other;
      var j :| 0 <= j < |db.events| && db.events[j] == row;
      assert i < j ==> EventIdBefore(db.events[i], db.events[j]);
      assert j < i ==> EventIdBefore(db.events[j], db.events[i]);
    }
    var ts := GetEventTranslations(db, id, translationsFail);
    if ts.Err? {
      return LookupError;
    }
    r := Found(RowToEvent(row).(translations := Some(ts.value)));
  }

  /** The number of translation rows a loop inserts before the store refuses one. */
  function Inserted(n: nat, failAt: Option<nat>): (k: nat)
    ensures k <= n
  {
    if failAt.Some? && failAt.value < n then failAt.value else n
  }

  function NewEventRow(id: int, f: EventFields): EventRow {
    EventRow(id, f.name, f.description, f.category, f.date, f.venue, f.price, f.image)
  }

  /** The `for _, et := range eventTranslations` loop: one INSERT per
      translation, tied to `eventId`, stopping at the first one the store
      refuses (index `failAt`). Returns how many rows went in. */
  method InsertTranslations(db: Database, eventId: int, ts: seq<Translation>, failAt: Option<nat>) returns (k: nat)
    requires db.Valid() && eventId in EventIds(db.events)
    modifies db
    ensures db.Valid()
    ensures k == Inserted(|ts|, failAt)
    ensures db.translations == old(db.translations) + TranslationRows(eventId, ts[..k])
    ensures db.users == old(db.users) && db.events == old(db.events) && db.registrations == old(db.registrations)
    ensures db.nextUserId == old(db.nextUserId) && db.nextEventId == old(db.nextEventId)
    ensures db.foreignKeys == old(db.foreignKeys) && db.tables == old(db.tables)
  {
    k := 0;
    while k < |ts|
      invariant 0 <= k <= Inserted(|ts|, failAt)
      invariant db.Valid()
      invariant db.translations == old(db.translations) + TranslationRows(eventId, ts[..k])
      invariant db.users == old(db.users) && db.events == old(db.events) && db.registrations == old(db.registrations)
      invariant db.nextUserId == old(db.nextUserId) && db.nextEventId == old(db.nextEventId)
      invariant db.foreignKeys == old(db.foreignKeys) && db.tables == old(db.tables)
    {
      if failAt == Some(k) {
        return;
      }
      var t := TranslationRow(eventId, ts[k].language, ts[k].name, ts[k].description, ts[k].venue);
      assert TranslationRows(eventId, ts[..k + 1]) == TranslationRows(eventId, ts[..k]) + [t];
      db.translations := db.translations + [t];
      k := k + 1;
    }
  }

  /** CreateEvent: insert the event, then one translation row per given
      translation. A failing translation insert returns (0, error) and leaves
      the event row and the translations inserted before it in place. */
  method CreateEvent(db: Database, f: EventFields, ts: seq<Translation>, insertFails: bool, failAt: Option<nat>)
    returns (id: int, err: Option<EventError>)
    requires db.Valid()
    modifies db
    ensures db.Valid()
    ensures insertFails ==> id == 0 && err == Some(CreateFailed) && unchanged(db)
    ensures !insertFails ==>
      && db.events == old(db.events) + [NewEventRow(old(db.nextEventId), f)]
      && db.nextEventId == old(db.nextEventId) + 1
      && db.translations == old(db.translations) + TranslationRows(old(db.nextEventId), ts[..Inserted(|ts|, failAt)])
      && (err.None? <==> Inserted(|ts|, failAt) == |ts|)
      && (err.None? ==> id == old(db.nextEventId))
      && (err.Some? ==> id == 0 && err == Some(TranslationInsertFailed))
      && db.users == old(db.users) && db.registrations == old(db.registrations)
      && db.nextUserId == old(db.nextUserId)
      && db.foreignKeys == old(db.foreignKeys) && db.tables == old(db.tables)
  {
    if insertFails {
      return 0, Some(CreateFailed);
    }
    var newId := db.nextEventId;
    var row := NewEventRow(newId, f);
    PairwiseAppend(db.events, row, EventIdBefore);
    assert EventIds(db.events + [row]) == EventIds(db.events) + {newId};
    db.events := db.events + [row];
    db.nextEventId := newId + 1;
    var k := InsertTranslations(db, newId, ts, failAt);
    if k < |ts| {
      return 0, Some(TranslationInsertFailed);
    }
    return newId, None;
  }

  /** Every row with that id, with all scalar columns overwritten. */
  function ReplaceEventRow(events: seq<EventRow>, id: int, f: EventFields): (r: seq<EventRow>)
    ensures |r| == |events|
    ensures forall i :: 0 <= i < |events| ==> r[i] == if events[i].id == id then NewEventRow(id, f) else events[i]
  {
    seq(|events|, i requires 0 <= i < |events| => if events[i].id == id then NewEventRow(id, f) else events[i])
  }

  lemma ReplaceEventRowKeepsIds(events: seq<EventRow>, id: int, f: EventFields)
    ensures Pairwise(events, EventIdBefore) ==> Pairwise(ReplaceEventRow(events, id, f), EventIdBefore)
    ensures EventIds(ReplaceEventRow(events, id, f)) == EventIds(events)
  {
    var r := ReplaceEventRow(events, id, f);
    forall x | x in EventIds(events) ensures x in EventIds(r) {
      var e :| e in events && e.id == x;
      var i :| 0 <= i < |events| && events[i] == e;
      assert r[i].id == x;
    }
    if Pairwise(events, EventIdBefore) {
      forall i, j | 0 <= i < j < |r| ensures EventIdBefore(r[i], r[j]) {
        assert EventIdBefore(events[i], events[j]);
      }
    }
  }

  /** The number of translation rows UpdateEvent inserts: none when the
      event does not exist, since the foreign key refuses the first one. */
  function UpdateInserted(events: seq<EventRow>, id: int, n: nat, failAt: Option<nat>): (k: nat)
    ensures k <= n
  {
    if id in EventIds(events) then Inserted(n, failAt) else 0
  }

  /** UpdateEvent: overwrite the scalar columns, delete every translation of
      the event, then insert the given ones. A missing id is not an error as
      long as there is nothing to insert. */
  method UpdateEvent(db: Database, id: int, f: EventFields, ts: seq<Translation>,
                     updateFails: bool, deleteFails: bool, failAt: Option<nat>)
    returns (err: Option<EventError>)
    requires db.Valid()
    modifies db
    ensures db.Valid()
    ensures updateFails ==> err == Some(UpdateFailed(id)) && unchanged(db)
    ensures !updateFails ==> db.events == ReplaceEventRow(old(db.events), id, f)
    ensures !updateFails && deleteFails ==>
      err == Some(DeleteTranslationsFailed) && db.translations == old(db.translations)
    ensures !updateFails && !deleteFails ==>
      var k := UpdateInserted(old(db.events), id, |ts|, failAt);
      && db.translations == Filter(old(db.translations), NotOfEvent(id)) + TranslationRows(id, ts[..k])
      && (err.None? <==> k == |ts|)
      && (err.Some? ==> err == Some(TranslationInsertFailed))
    ensures db.users == old(db.users) && db.registrations == old(db.registrations)
    ensures db.nextUserId == old(db.nextUserId) && db.nextEventId == old(db.nextEventId)
    ensures db.foreignKeys == old(db.foreignKeys) && db.tables == old(db.tables)
  {
    if updateFails {
      return Some(UpdateFailed(id));
    }
    ReplaceEventRowKeepsIds(db.events, id, f);
    assert forall e :: e in ReplaceEventRow(db.events, id, f) ==> e in db.events || e.id == id;
    db.events := ReplaceEventRow(db.events, id, f);
    if deleteFails {
      return Some(DeleteTranslationsFailed);
    }
    var kept := Filter(db.translations, NotOfEvent(id));
    db.translations := kept;
    if id !in EventIds(db.events) {
      // The foreign key refuses the first translation row.
      if |ts| > 0 {
        return Some(TranslationInsertFailed);
      }
      return None;
    }
    var k := InsertTranslations(db, id, ts, failAt);
    if k < |ts| {
      return Some(TranslationInsertFailed);
    }
    err := None;
  }

  /** After an update the event has exactly the supplied translations,
      whatever it had before, and every other event keeps its own. */
  lemma {:induction false} UpdateReplacesTranslations(rows: seq<TranslationRow>, id: int, ts: seq<Translation>, other: int)
    ensures TranslationsOf(Filter(rows, NotOfEvent(id)) + TranslationRows(id, ts), id) == ts
    ensures other != id ==>
      TranslationsOf(Filter(rows, NotOfEvent(id)) + TranslationRows(id, ts), other) == TranslationsOf(rows, other)
  {
    var kept := Filter(rows, NotOfEvent(id));
    var added := TranslationRows(id, ts);
    FilterAppend(kept, added, OfEvent(id));
    FilterNone(kept, OfEvent(id));
    FilterAll(added, OfEvent(id));
    assert ToTranslations(added) == ts;
    if other != id {
      FilterAppend(kept, added, OfEvent(other));
      FilterNone(added, OfEvent(other));
      FilterFilterImplied(rows, NotOfEvent(id), OfEvent(other));
      assert Filter(kept, OfEvent(other)) + [] == Filter(rows, OfEvent(other));
    }
  }

  /** The translations CreateEvent stores are exactly the given ones: no
      earlier row can belong to the fresh id. */
  lemma CreateAttachesTranslations(rows: seq<TranslationRow>, events: seq<EventRow>, newId: int, ts: seq<Translation>)
    requires forall t :: t in rows ==> t.eventId in EventIds(events)
    requires newId !in EventIds(events)
    ensures TranslationsOf(rows + TranslationRows(newId, ts), newId) == ts
  {
    var added := TranslationRows(newId, ts);
    FilterAppend(rows, added, OfEvent(newId));
    FilterNone(rows, OfEvent(newId));
    FilterAll(added, OfEvent(newId));
    assert ToTranslations(added) == ts;
  }

  /** DeleteEvent: an absent id is not an error; the delete cascades to the
      event's translations and registrations. */
  method DeleteEvent(db: Database, id: int, deleteFails: bool) returns (err: Option<EventError>)
    requires db.Valid()
    modifies db
    ensures db.Valid()
    ensures err.Some? <==> deleteFails
    ensures err.Some? ==> err == Some(DeleteFailed(id)) && unchanged(db)
    ensures err.None? ==>
      && db.events == Filter(old(db.events), OtherThanEvent(id))
      && db.translations == Filter(old(db.translations), NotOfEvent(id))
      && db.registrations == WithoutEvent(old(db.registrations), id)
      && db.users == old(db.users)
      && db.nextUserId == old(db.nextUserId) && db.nextEventId == old(db.nextEventId)
      && db.foreignKeys == old(db.foreignKeys) && db.tables == old(db.tables)
  {
    if deleteFails {
      return Some(DeleteFailed(id));
    }
    var events' := Filter(db.events, OtherThanEvent(id));
    FilterKeepsPairwise(db.events, OtherThanEvent(id), EventIdBefore);
    var translations' := Filter(db.translations, NotOfEvent(id));
    var regs' := WithoutEvent(db.registrations, id);
    forall x | x in EventIds(db.events) && x != id ensures x in EventIds(events') {
      var e :| e in db.events && e.id == x;
      assert e in events';
    }
    db.events := events';
    db.translations := translations';
    db.registrations := regs';
    err := None;
  }

  /** RegisterUserToEvent: insert the pair. The composite primary key refuses
      a second registration of the same pair, and the foreign keys refuse a
      missing user or event. */
  method RegisterUserToEvent(db: Database, userId: int, eventId: int, insertFails: bool) returns (err: Option<EventError>)
    requires db.Valid()
    modifies db
    ensures db.Valid()
    ensures err.Some? <==>
      || insertFails
      || Registration(userId, eventId) in old(db.registrations)
      || userId !in UserIds(old(db.users))
      || eventId !in EventIds(old(db.events))
    ensures err.Some? ==> err == Some(RegisterFailed(userId, eventId)) && unchanged(db)
    ensures err.None? ==>
      && db.registrations == old(db.registrations) + {Registration(userId, eventId)}
      && Registration(userId, eventId) !in old(db.registrations)
      && db.users == old(db.users) && db.events == old(db.events) && db.translations == old(db.translations)
      && db.nextUserId == old(db.nextUserId) && db.nextEventId == old(db.nextEventId)
      && db.foreignKeys == old(db.foreignKeys) && db.tables == old(db.tables)
  {
    var reg := Registration(userId, eventId);
    if insertFails || reg in db.registrations || userId !in UserIds(db.users) || eventId !in EventIds(db.events) {
      return Some(RegisterFailed(userId, eventId));
    }
    db.registrations := db.registrations + {reg};
    err := None;
  }

  /** Two registrations of the same pair: the first succeeds, the second
      fails on the primary key, and a single registration row is added. */
  method RegisterTwice(db: Database, userId: int, eventId: int)
    returns (first: Option<EventError>, second: Option<EventError>)
    requires db.Valid()
    requires userId in UserIds(db.users) && eventId in EventIds(db.events)
    requires Registration(userId, eventId) !in db.registrations
    modifies db
    ensures first.None? && second == Some(RegisterFailed(userId, eventId))
    ensures db.registrations == old(db.registrations) + {Registration(userId, eventId)}
    ensures Registration(userId, eventId) in db.registrations
  {
    first := RegisterUserToEvent(db, userId, eventId, false);
    second := RegisterUserToEvent(db, userId, eventId, false);
  }
}
