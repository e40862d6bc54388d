/** The `/events` routes: the event listing, and its editing by administrators. */
module Events {
  import opened Wrappers
  import opened Text
  import opened Rows
  import opened Db
  import opened Order
  import opened Http
  import opened Gate

  /** `GET /events`: every event, ordered by date then start time. */
  function List(t: Tables, user: Option<SessionUser>): (r: Result<seq<Row<Event>>, Outcome>)
    ensures r.Failure? <==> user.None?
    ensures r.Failure? ==> r.error == ToLogin
    ensures r.Success? ==> multiset(r.value) == multiset(t.events)
    ensures r.Success? ==> EventsOrdered(r.value)
  {
    if user.None? then Failure(ToLogin) else Success(AllEvents(t))
  }

  /**
   * An event form, fields untrimmed. `date` is the parsed day (None when absent or empty);
   * `scheduleId` is `Number(…)` of a non-empty field (None when absent or empty).
   */
  datatype EventForm = EventForm(
    title: Option<string>, description: Option<string>, date: Option<int>,
    startTime: Option<string>, endTime: Option<string>, scheduleId: Option<int>, groupName: Option<string>)

  predicate EventIncomplete(f: EventForm) {
    !Truthy(f.title) || f.date.None? || !Truthy(f.startTime) || !Truthy(f.endTime)
  }

  /** The check of `POST /events/create` and the row it inserts; empty optional texts become NULL. */
  function ValidateCreate(f: EventForm): (r: Result<Event, Refusal>)
    ensures r.Failure? <==> EventIncomplete(f)
    ensures r.Failure? ==> r.error == MissingFields
    ensures r.Success? ==>
      && r.value.title == f.title.value != "" && r.value.date == f.date.value
      && r.value.startTime == f.startTime.value != "" && r.value.endTime == f.endTime.value != ""
      && r.value.description == OrNull(f.description) && r.value.groupName == OrNull(f.groupName)
      && r.value.scheduleId == f.scheduleId
  {
    if EventIncomplete(f) then Failure(MissingFields)
    else Success(Event(f.title.value, OrNull(f.description), f.date.value, f.startTime.value, f.endTime.value,
                       f.scheduleId, OrNull(f.groupName)))
  }

  /**
   * The new row of `POST /events/:id/update`: empty title, date and times keep the stored
   * value; a sent description is stored as sent, even empty; the schedule link and the group
   * are replaced by what the form holds, so leaving them out clears them.
   */
  function MergeEvent(row: Event, f: EventForm): (e: Event)
    ensures e.title == (if Truthy(f.title) then f.title.value else row.title)
    ensures e.description == (if f.description.Some? then f.description else row.description)
    ensures e.date == f.date.GetOr(row.date)
    ensures e.startTime == (if Truthy(f.startTime) then f.startTime.value else row.startTime)
    ensures e.endTime == (if Truthy(f.endTime) then f.endTime.value else row.endTime)
    ensures e.scheduleId == f.scheduleId && e.groupName == OrNull(f.groupName)
  {
    Event(
      if Truthy(f.title) then f.title.value else row.title,
      if f.description.Some? then f.description else row.description,
      if f.date.Some? then f.date.value else row.date,
      if Truthy(f.startTime) then f.startTime.value else row.startTime,
      if Truthy(f.endTime) then f.endTime.value else row.endTime,
      f.scheduleId,
      OrNull(f.groupName))
  }

  /** An edit that sends nothing keeps the event but unlinks it from its class and its group. */
  lemma MergeEventEmptyForm(row: Event)
    ensures MergeEvent(row, EventForm(None, None, None, None, None, None, None)) == row.(scheduleId := None, groupName := None)
  {
  }

  /** Submitting the same edit twice changes nothing the second time. */
  lemma MergeEventIdempotent(row: Event, f: EventForm)
    ensures MergeEvent(MergeEvent(row, f), f) == MergeEvent(row, f)
  {
  }

  /**
   * `POST /events/create` (administrators only). A link to a class that does not exist
   * fails the foreign key, which Express answers with 500.
   */
  method Create(db: Store, user: Option<SessionUser>, f: EventForm) returns (o: Outcome)
    requires db.Valid()
    modifies db`tables
    ensures db.Valid()
    ensures RequireRole([AdminRole], user).Some? ==>
      o == RequireRole([AdminRole], user).value && db.tables == old(db.tables)
    ensures RequireRole([AdminRole], user).None? ==>
      var v := ValidateCreate(f);
      && (v.Failure? ==> o == BadRequest(v.error) && db.tables == old(db.tables))
      && (v.Success? ==>
            var ins := InsertEvent(old(db.tables), v.value);
            && (ins.Failure? <==> f.scheduleId.Some? && f.scheduleId.value !in Ids(old(db.tables).schedules))
            && (ins.Failure? ==> o == ServerError && db.tables == old(db.tables))
            && (ins.Success? ==> o == ToDashboard && db.tables == ins.value))
  {
    var stop := RequireRole([AdminRole], user);
    if stop.Some? {
      return stop.value;
    }
    var v := ValidateCreate(f);
    if v.Failure? {
      return BadRequest(v.error);
    }
    var ins := InsertEvent(db.tables, v.value);
    if ins.Failure? {
      return ServerError;
    }
    db.tables := ins.value;
    o := ToDashboard;
  }

  /**
   * `POST /events/:id/update` (administrators only): 404 for a missing event; a link to a
   * class that does not exist fails the foreign key, answered with 500.
   */
  method Update(db: Store, user: Option<SessionUser>, id: int, f: EventForm) returns (o: Outcome)
    requires db.Valid()
    modifies db`tables
    ensures db.Valid()
    ensures RequireRole([AdminRole], user).Some? ==>
      o == RequireRole([AdminRole], user).value && db.tables == old(db.tables)
    ensures RequireRole([AdminRole], user).None? && id !in Ids(old(db.tables).events) ==>
      o == NotFound && db.tables == old(db.tables)
    ensures RequireRole([AdminRole], user).None? && id in Ids(old(db.tables).events)
            && f.scheduleId.Some? && f.scheduleId.value !in Ids(old(db.tables).schedules) ==>
      o == ServerError && db.tables == old(db.tables)
    ensures RequireRole([AdminRole], user).None? && id in Ids(old(db.tables).events)
            && (f.scheduleId.None? || f.scheduleId.value in Ids(old(db.tables).schedules)) ==>
      o == ToDashboard
      && db.tables == old(db.tables).(events := Replace(old(db.tables).events, id,
                                                     MergeEvent(Find(old(db.tables).events, id).value, f)))
  {
    var stop := RequireRole([AdminRole], user);
    if stop.Some? {
      return stop.value;
    }
    var row := Find(db.tables.events, id);
    if row.None? {
      return NotFound;
    }
    if !EventRefExists(db.tables, MergeEvent(row.value, f)) {
      return ServerError;
    }
    ReplaceEventValid(db.tables, id, MergeEvent(row.value, f));
    db.tables := db.tables.(events := Replace(db.tables.events, id, MergeEvent(row.value, f)));
    o := ToDashboard;
  }

  /** `POST /events/:id/delete` (administrators only): deleting a missing event changes nothing. */
  method Delete(db: Store, user: Option<SessionUser>, id: int) returns (o: Outcome)
    requires db.Valid()
    modifies db`tables
    ensures db.Valid()
    ensures RequireRole([AdminRole], user).Some? ==>
      o == RequireRole([AdminRole], user).value && db.tables == old(db.tables)
    ensures RequireRole([AdminRole], user).None? ==>
      o == ToDashboard && db.tables == old(db.tables).(events := Remove(old(db.tables).events, id))
  {
    var stop := RequireRole([AdminRole], user);
    if stop.Some? {
      return stop.value;
    }
    RemoveEventValid(db.tables, id);
    db.tables := db.tables.(events := Remove(db.tables.events, id));
    o := ToDashboard;
  }
}
