/** The `/schedule` routes: the timetable listing, and its editing by administrators. */
module Schedule {
  import opened Wrappers
  import opened Text
  import opened Rows
  import opened Db
  import opened Order
  import opened Http
  import opened Gate

  /** `GET /schedule`: a non-empty `groupName` query keeps that group's classes; rows in timetable order. */
  function List(t: Tables, user: Option<SessionUser>, groupName: Option<string>): (r: Result<seq<Row<Slot>>, Outcome>)
    ensures r.Failure? <==> user.None?
    ensures r.Failure? ==> r.error == ToLogin
    ensures r.Success? && Truthy(groupName) ==>
      forall x :: multiset(r.value)[x] == if x.val.groupName == groupName.value then multiset(t.schedules)[x] else 0
    ensures r.Success? && !Truthy(groupName) ==> multiset(r.value) == multiset(t.schedules)
    ensures r.Success? ==> SlotsOrdered(r.value)
  {
    if user.None? then Failure(ToLogin)
    else if Truthy(groupName) then Success(ScheduleOfGroup(t, groupName))
    else Success(AllSchedule(t))
  }

  /** A schedule form; absent fields are None. */
  datatype SlotForm = SlotForm(
    dayOfWeek: Option<string>, startTime: Option<string>, endTime: Option<string>,
    subject: Option<string>, groupName: Option<string>, room: Option<string>, teacherName: Option<string>)

  /** One of the five required fields is empty once trimmed. */
  predicate SlotIncomplete(f: SlotForm) {
    || Trimmed(f.dayOfWeek) == "" || Trimmed(f.startTime) == "" || Trimmed(f.endTime) == ""
    || Trimmed(f.subject) == "" || Trimmed(f.groupName) == ""
  }

  /** A trimmed optional field, NULL when empty. */
  function TrimmedOrNull(f: Option<string>): (r: Option<string>)
    ensures r.None? <==> Trimmed(f) == ""
    ensures r.Some? ==> r.value == Trimmed(f)
  {
    OrNull(Some(Trimmed(f)))
  }

  /** The checks of `POST /schedule/create` and the row it inserts, every text trimmed. */
  function ValidateCreate(f: SlotForm): (r: Result<Slot, Refusal>)
    ensures r == Failure(MissingFields) <==> SlotIncomplete(f)
    ensures r == Failure(BadGroupFormat) <==> !SlotIncomplete(f) && !IsFourDigits(Trimmed(f.groupName))
    ensures r.Failure? ==> r.error == MissingFields || r.error == BadGroupFormat
    ensures r.Success? ==>
      && r.value.dayOfWeek == Trimmed(f.dayOfWeek) != "" && r.value.startTime == Trimmed(f.startTime) != ""
      && r.value.endTime == Trimmed(f.endTime) != "" && r.value.subject == Trimmed(f.subject) != ""
      && r.value.groupName == Trimmed(f.groupName) && IsFourDigits(r.value.groupName)
      && r.value.room == TrimmedOrNull(f.room) && r.value.teacherName == TrimmedOrNull(f.teacherName)
  {
    if SlotIncomplete(f) then Failure(MissingFields)
    else if !IsFourDigits(Trimmed(f.groupName)) then Failure(BadGroupFormat)
    else Success(Slot(Trimmed(f.dayOfWeek), Trimmed(f.startTime), Trimmed(f.endTime), Trimmed(f.subject),
                      Trimmed(f.groupName), TrimmedOrNull(f.room), TrimmedOrNull(f.teacherName)))
  }

  /** `String(x).trim()` of a field that was sent, None when it was not. */
  function TrimIfSent(f: Option<string>): (r: Option<string>)
    ensures r.Some? <==> f.Some?
    ensures r.Some? ==> r.value == Trim(f.value)
  {
    if f.Some? then Some(Trim(f.value)) else None
  }

  /** A trimmed field, or the stored value when that is empty. */
  function TrimmedOr(f: Option<string>, stored: string): (r: string)
    ensures Trimmed(f) != "" ==> r == Trimmed(f)
    ensures Trimmed(f) == "" ==> r == stored
  {
    var s := Trimmed(f);
    if s != "" then s else stored
  }

  /**
   * The group check of `POST /schedule/:id/update` and the new row: empty required
   * fields keep the stored value; a sent room or teacher is stored trimmed, even when empty.
   */
  function MergeSlot(row: Slot, f: SlotForm): (r: Result<Slot, Refusal>)
    ensures r.Failure? <==> Truthy(TrimIfSent(f.groupName)) && !IsFourDigits(Trim(f.groupName.value))
    ensures r.Failure? ==> r.error == BadGroupFormat
    ensures r.Success? ==>
      && r.value.dayOfWeek == TrimmedOr(f.dayOfWeek, row.dayOfWeek)
      && r.value.startTime == TrimmedOr(f.startTime, row.startTime)
      && r.value.endTime == TrimmedOr(f.endTime, row.endTime)
      && r.value.subject == TrimmedOr(f.subject, row.subject)
      && r.value.groupName == TrimmedOr(f.groupName, row.groupName)
      && r.value.room == (if f.room.Some? then TrimIfSent(f.room) else row.room)
      && r.value.teacherName == (if f.teacherName.Some? then TrimIfSent(f.teacherName) else row.teacherName)
    ensures r.Success? && IsFourDigits(row.groupName) ==> IsFourDigits(r.value.groupName)
  {
    var group := TrimIfSent(f.groupName);
    if Truthy(group) && !IsFourDigits(group.value) then Failure(BadGroupFormat)
    else
      Success(Slot(
        TrimmedOr(f.dayOfWeek, row.dayOfWeek),
        TrimmedOr(f.startTime, row.startTime),
        TrimmedOr(f.endTime, row.endTime),
        TrimmedOr(f.subject, row.subject),
        if Truthy(group) then group.value else row.groupName,
        if f.room.Some? then TrimIfSent(f.room) else row.room,
        if f.teacherName.Some? then TrimIfSent(f.teacherName) else row.teacherName))
  }

  /** An edit that sends nothing leaves the class as it was. */
  lemma MergeSlotEmptyForm(row: Slot)
    ensures MergeSlot(row, SlotForm(None, None, None, None, None, None, None)) == Success(row)
  {
  }

  /** Sending an empty room clears it to the empty text, not to NULL as creation would. */
  lemma MergeSlotBlankRoom(row: Slot)
    ensures MergeSlot(row, SlotForm(None, None, None, None, None, Some(""), None)) == Success(row.(room := Some("")))
    ensures TrimmedOrNull(Some("")).None?
  {
    assert Trim("") == "";
  }

  /** `POST /schedule/create` (administrators only). */
  method Create(db: Store, user: Option<SessionUser>, f: SlotForm) returns (o: Outcome)
    requires db.Valid()
    modifies db`tables
    ensures db.Valid()
    ensures RequireRole([AdminRole], user).Some? ==>
      o == RequireRole([AdminRole], user).value && db.tables == old(db.tables)
    ensures RequireRole([AdminRole], user).None? ==>
      var v := ValidateCreate(f);
      && (v.Failure? ==> o == BadRequest(v.error) && db.tables == old(db.tables))
      && (v.Success? ==> o == ToDashboard && db.tables == InsertSlot(old(db.tables), v.value))
  {
    var stop := RequireRole([AdminRole], user);
    if stop.Some? {
      return stop.value;
    }
    var v := ValidateCreate(f);
    if v.Failure? {
      return BadRequest(v.error);
    }
    db.tables := InsertSlot(db.tables, v.value);
    o := ToDashboard;
  }

  /** `POST /schedule/:id/update` (administrators only): 404 comes before the group check. */
  method Update(db: Store, user: Option<SessionUser>, id: int, f: SlotForm) returns (o: Outcome)
    requires db.Valid()
    modifies db`tables
    ensures db.Valid()
    ensures RequireRole([AdminRole], user).Some? ==>
      o == RequireRole([AdminRole], user).value && db.tables == old(db.tables)
    ensures RequireRole([AdminRole], user).None? && id !in Ids(old(db.tables).schedules) ==>
      o == NotFound && db.tables == old(db.tables)
    ensures RequireRole([AdminRole], user).None? && id in Ids(old(db.tables).schedules) ==>
      var m := MergeSlot(Find(old(db.tables).schedules, id).value, f);
      && (m.Failure? ==> o == BadRequest(m.error) && db.tables == old(db.tables))
      && (m.Success? ==>
            o == ToDashboard && db.tables == old(db.tables).(schedules := Replace(old(db.tables).schedules, id, m.value)))
  {
    var stop := RequireRole([AdminRole], user);
    if stop.Some? {
      return stop.value;
    }
    var row := Find(db.tables.schedules, id);
    if row.None? {
      return NotFound;
    }
    var m := MergeSlot(row.value, f);
    if m.Failure? {
      return BadRequest(m.error);
    }
    ReplaceSlotValid(db.tables, id, m.value);
    db.tables := db.tables.(schedules := Replace(db.tables.schedules, id, m.value));
    o := ToDashboard;
  }

  /**
   * `POST /schedule/:id/delete` (administrators only): no existence check, so a missing id
   * changes nothing; otherwise the row's assignments go with it and events pointing at it
   * lose the link.
   */
  method Delete(db: Store, user: Option<SessionUser>, id: int) returns (o: Outcome)
    requires db.Valid()
    modifies db`tables
    ensures db.Valid()
    ensures RequireRole([AdminRole], user).Some? ==>
      o == RequireRole([AdminRole], user).value && db.tables == old(db.tables)
    ensures RequireRole([AdminRole], user).None? ==> o == ToDashboard && db.tables == DeleteSlot(old(db.tables), id)
    ensures id !in Ids(old(db.tables).schedules) ==> db.tables == old(db.tables)
  {
    var stop := RequireRole([AdminRole], user);
    if stop.Some? {
      return stop.value;
    }
    db.tables := DeleteSlot(db.tables, id);
    o := ToDashboard;
  }
}
