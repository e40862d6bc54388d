/**
 * The `/assignments` routes: listing (teachers their own, admins all), and
 * creating, editing and deleting homework, which only the teacher who set it may do.
 */
module Assignments {
  import opened Wrappers
  import opened Text
  import opened Seqs
  import opened Rows
  import opened Db
  import opened Order
  import opened Http
  import opened Gate

  /** `scheduleGroupMatches`: the schedule row exists and is a class of that group. */
  function ScheduleGroupMatches(t: Tables, scheduleId: int, groupName: string): (b: bool)
    requires IdsIncreasing(t.schedules)
    ensures b <==> exists i :: 0 <= i < |t.schedules| && t.schedules[i].id == scheduleId
                                && t.schedules[i].val.groupName == groupName
    ensures b ==> scheduleId in Ids(t.schedules)
  {
    FindEvery(t.schedules);
    var row := Find(t.schedules, scheduleId);
    row.Some? && row.value.groupName == groupName
  }

  /**
   * `GET /assignments`: a teacher gets the assignments they created, an admin all of them,
   * each joined to its schedule row and ordered by due date; any other role gets 403.
   */
  function List(t: Tables, user: Option<SessionUser>): (r: Result<seq<Row<Assignment>>, Outcome>)
    ensures user.None? <==> r == Failure(ToLogin)
    ensures r == Failure(Forbidden) <==> user.Some? && user.value.role != TeacherRole && user.value.role != AdminRole
    ensures r.Failure? ==> r.error == ToLogin || r.error == Forbidden
    ensures r.Success? ==>
      forall a :: multiset(r.value)[a] ==
        if a.val.scheduleId in Ids(t.schedules)
           && (user.value.role == TeacherRole ==> a.val.createdByUserId == user.value.id)
        then multiset(t.assignments)[a] else 0
    ensures r.Success? ==> AssignmentsOrdered(r.value)
  {
    if user.None? then Failure(ToLogin)
    else if user.value.role == TeacherRole then
      var rows := Filter(t.assignments, (a: Row<Assignment>) =>
        a.val.scheduleId in Ids(t.schedules) && a.val.createdByUserId == user.value.id);
      Success(SortAssignments(rows))
    else if user.value.role == AdminRole then
      Success(SortAssignments(Filter(t.assignments, (a: Row<Assignment>) => a.val.scheduleId in Ids(t.schedules))))
    else Failure(Forbidden)
  }

  /**
   * The body of `POST /assignments/create`. `scheduleId` is `Number(…)` (None when not a
   * number); `dueDate` is the parsed date (None when absent or blank).
   */
  datatype CreateForm = CreateForm(
    scheduleId: Option<int>, groupName: Option<string>, subjectText: Option<string>,
    homework: Option<string>, dueDate: Option<int>)

  /** A required field is missing: the schedule id is 0 or not a number, or a trimmed field is empty. */
  predicate CreateIncomplete(f: CreateForm) {
    || f.scheduleId.None? || f.scheduleId.value == 0
    || Trimmed(f.groupName) == "" || Trimmed(f.subjectText) == "" || Trimmed(f.homework) == ""
    || f.dueDate.None?
  }

  /** The checks of `POST /assignments/create`, in order, and the row it inserts. */
  function ValidateCreate(t: Tables, authorId: int, f: CreateForm): (r: Result<Assignment, Refusal>)
    requires IdsIncreasing(t.schedules)
    ensures r == Failure(MissingFields) <==> CreateIncomplete(f)
    ensures r == Failure(BadGroupFormat) <==> !CreateIncomplete(f) && !IsFourDigits(Trimmed(f.groupName))
    ensures r == Failure(GroupMismatch) <==>
      !CreateIncomplete(f) && IsFourDigits(Trimmed(f.groupName))
      && !ScheduleGroupMatches(t, f.scheduleId.value, Trimmed(f.groupName))
    ensures r.Failure? ==> r.error == MissingFields || r.error == BadGroupFormat || r.error == GroupMismatch
    ensures r.Success? ==>
      && r.value.scheduleId in Ids(t.schedules)
      && Find(t.schedules, r.value.scheduleId).value.groupName == Trimmed(f.groupName)
      && IsFourDigits(Trimmed(f.groupName))
      && r.value.homework == Trimmed(f.homework) != ""
      && r.value.subjectText == Some(Trimmed(f.subjectText))
      && r.value.dueDate == f.dueDate.value
      && r.value.createdByUserId == authorId
      && r.value.extendedDueDate.None? && r.value.extendedPenalty.None?
  {
    if CreateIncomplete(f) then Failure(MissingFields)
    else if !IsFourDigits(Trimmed(f.groupName)) then Failure(BadGroupFormat)
    else if !ScheduleGroupMatches(t, f.scheduleId.value, Trimmed(f.groupName)) then Failure(GroupMismatch)
    else
      FindEvery(t.schedules);
      Success(Assignment(f.scheduleId.value, Trimmed(f.homework), f.dueDate.value, None, None,
                         authorId, Some(Trimmed(f.subjectText))))
  }

  /**
   * `POST /assignments/create` (teachers only). The class was checked to exist; an author
   * missing from the users table fails the foreign key, which Express answers with 500.
   */
  method Create(db: Store, user: Option<SessionUser>, f: CreateForm) returns (o: Outcome)
    requires db.Valid()
    modifies db`tables
    ensures db.Valid()
    ensures RequireRole([TeacherRole], user).Some? ==>
      o == RequireRole([TeacherRole], user).value && db.tables == old(db.tables)
    ensures RequireRole([TeacherRole], user).None? ==>
      var v := ValidateCreate(old(db.tables), user.value.id, f);
      && (v.Failure? ==> o == BadRequest(v.error) && db.tables == old(db.tables))
      && (v.Success? ==>
            var ins := InsertAssignment(old(db.tables), v.value);
            && (ins.Failure? <==> user.value.id !in Ids(old(db.tables).users))
            && (ins.Failure? ==> o == ServerError && db.tables == old(db.tables))
            && (ins.Success? ==> o == ToDashboard && db.tables == ins.value))
  {
    var stop := RequireRole([TeacherRole], user);
    if stop.Some? {
      return stop.value;
    }
    var v := ValidateCreate(db.tables, user.value.id, f);
    if v.Failure? {
      return BadRequest(v.error);
    }
    var ins := InsertAssignment(db.tables, v.value);
    if ins.Failure? {
      return ServerError;
    }
    db.tables := ins.value;
    o := ToDashboard;
  }

  /** The body of `POST /assignments/:id/update`; absent or empty fields are None or "". */
  datatype UpdateForm = UpdateForm(
    homework: Option<string>, dueDate: Option<int>, extendedDueDate: Option<int>,
    extendedPenalty: Option<int>, subjectText: Option<string>)

  /** The row `id` if it exists (else 404) and was created by `authorId` (else 403). */
  function OwnedRow(t: Tables, authorId: int, id: int): (r: Result<Assignment, Outcome>)
    ensures r == Failure(NotFound) <==> id !in Ids(t.assignments)
    ensures r == Failure(Forbidden) <==>
      id in Ids(t.assignments) && Find(t.assignments, id).value.createdByUserId != authorId
    ensures r.Success? ==> Row(id, r.value) in t.assignments && r.value.createdByUserId == authorId
    ensures r.Failure? ==> r.error == NotFound || r.error == Forbidden
  {
    var row := Find(t.assignments, id);
    if row.None? then Failure(NotFound)
    else if row.value.createdByUserId != authorId then Failure(Forbidden)
    else Success(row.value)
  }

  /**
   * The new column values: an empty field keeps homework, due date and subject text,
   * while the extension date and penalty are replaced by what the form holds, or cleared.
   */
  function Merge(row: Assignment, f: UpdateForm): (a: Assignment)
    ensures a.scheduleId == row.scheduleId && a.createdByUserId == row.createdByUserId
    ensures a.homework == (if Truthy(f.homework) then f.homework.value else row.homework)
    ensures a.dueDate == f.dueDate.GetOr(row.dueDate)
    ensures a.extendedDueDate == f.extendedDueDate && a.extendedPenalty == f.extendedPenalty
    ensures a.subjectText == (if Truthy(f.subjectText) then f.subjectText else row.subjectText)
  {
    Assignment(
      row.scheduleId,
      if Truthy(f.homework) then f.homework.value else row.homework,
      if f.dueDate.Some? then f.dueDate.value else row.dueDate,
      f.extendedDueDate,
      f.extendedPenalty,
      row.createdByUserId,
      if Truthy(f.subjectText) then f.subjectText else row.subjectText)
  }

  /** Submitting the same form twice changes nothing the second time. */
  lemma MergeIdempotent(row: Assignment, f: UpdateForm)
    ensures Merge(Merge(row, f), f) == Merge(row, f)
  {
  }

  /** An empty form keeps the row except that it clears any extension. */
  lemma MergeEmptyForm(row: Assignment)
    ensures Merge(row, UpdateForm(None, None, None, None, None)) == row.(extendedDueDate := None, extendedPenalty := None)
  {
  }

  /** `POST /assignments/:id/update` (teachers only, and only the author). */
  method Update(db: Store, user: Option<SessionUser>, id: int, f: UpdateForm) returns (o: Outcome)
    requires db.Valid()
    modifies db`tables
    ensures db.Valid()
    ensures RequireRole([TeacherRole], user).Some? ==>
      o == RequireRole([TeacherRole], user).value && db.tables == old(db.tables)
    ensures RequireRole([TeacherRole], user).None? ==>
      var row := OwnedRow(old(db.tables), user.value.id, id);
      && (row.Failure? ==> o == row.error && db.tables == old(db.tables))
      && (row.Success? ==>
            o == ToDashboard && db.tables == old(db.tables).(assignments := Replace(old(db.tables).assignments, id, Merge(row.value, f))))
    ensures db.tables != old(db.tables) ==>
      user.Some? && user.value.role == TeacherRole
      && Find(old(db.tables).assignments, id).Some?
      && Find(old(db.tables).assignments, id).value.createdByUserId == user.value.id
  {
    var stop := RequireRole([TeacherRole], user);
    if stop.Some? {
      return stop.value;
    }
    var row := OwnedRow(db.tables, user.value.id, id);
    if row.Failure? {
      return row.error;
    }
    var t := db.tables;
    var merged := Merge(row.value, f);
    assert Row(id, row.value) in t.assignments;
    assert AssignmentRefsExist(t, merged);
    ReplaceAssignmentValid(t, id, merged);
    db.tables := t.(assignments := Replace(t.assignments, id, merged));
    o := ToDashboard;
  }

  /** `POST /assignments/:id/delete` (teachers only, and only the author). */
  method Delete(db: Store, user: Option<SessionUser>, id: int) returns (o: Outcome)
    requires db.Valid()
    modifies db`tables
    ensures db.Valid()
    ensures RequireRole([TeacherRole], user).Some? ==>
      o == RequireRole([TeacherRole], user).value && db.tables == old(db.tables)
    ensures RequireRole([TeacherRole], user).None? ==>
      var row := OwnedRow(old(db.tables), user.value.id, id);
      && (row.Failure? ==> o == row.error && db.tables == old(db.tables))
      && (row.Success? ==>
            o == ToDashboard && db.tables == old(db.tables).(assignments := Remove(old(db.tables).assignments, id)))
    ensures db.tables != old(db.tables) ==>
      user.Some? && user.value.role == TeacherRole
      && Find(old(db.tables).assignments, id).Some?
      && Find(old(db.tables).assignments, id).value.createdByUserId == user.value.id
  {
    var stop := RequireRole([TeacherRole], user);
    if stop.Some? {
      return stop.value;
    }
    var row := OwnedRow(db.tables, user.value.id, id);
    if row.Failure? {
      return row.error;
    }
    RemoveAssignmentValid(db.tables, id);
    db.tables := db.tables.(assignments := Remove(db.tables.assignments, id));
    o := ToDashboard;
  }
}
