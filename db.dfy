/**
 * The relational store of app/db.js: the four tables (users, schedules,
 * assignments, events), the constraints declared on them, the column
 * catalogue that `ensureColumn` extends, and the demo-schedule seeding.
 */
module Db {
  import opened Wrappers
  import opened Text
  import opened Seqs
  import opened Rows

  const StudentRole: string := "student"
  const TeacherRole: string := "teacher"
  const AdminRole: string := "admin"

  /** The users table's `CHECK(role IN ('student','teacher','admin'))`. */
  predicate ValidRole(role: string) {
    role == StudentRole || role == TeacherRole || role == AdminRole
  }

  datatype User = User(
    role: string, fullName: string, email: string, login: string, passwordHash: string,
    groupName: Option<string>, subject: Option<string>, phone: Option<string>)

  /** A schedules row: one weekly class of one group. */
  datatype Slot = Slot(
    dayOfWeek: string, startTime: string, endTime: string, subject: string, groupName: string,
    room: Option<string>, teacherName: Option<string>)

  /** An assignments row; `dueDate` and `extendedDueDate` are timestamps in milliseconds. */
  datatype Assignment = Assignment(
    scheduleId: int, homework: string, dueDate: int, extendedDueDate: Option<int>,
    extendedPenalty: Option<int>, createdByUserId: int, subjectText: Option<string>)

  /** An events row; `date` is a day number. */
  datatype Event = Event(
    title: string, description: Option<string>, date: int, startTime: string, endTime: string,
    scheduleId: Option<int>, groupName: Option<string>)

  /** The next id AUTOINCREMENT hands out in each table. */
  datatype NextIds = NextIds(user: int, schedule: int, assignment: int, event: int)

  datatype Tables = Tables(
    users: seq<Row<User>>, schedules: seq<Row<Slot>>, assignments: seq<Row<Assignment>>,
    events: seq<Row<Event>>, next: NextIds)

  const EmptyTables: Tables := Tables([], [], [], [], NextIds(1, 1, 1, 1))

  predicate Keyed<T>(t: seq<Row<T>>, next: int) {
    IdsIncreasing(t) && IdsBelow(t, next)
  }

  /** The role CHECK and the UNIQUE constraints on `login` and `email`. */
  predicate UsersValid(users: seq<Row<User>>) {
    && (forall i :: 0 <= i < |users| ==> ValidRole(users[i].val.role))
    && (forall i, j :: 0 <= i < j < |users| ==>
          users[i].val.login != users[j].val.login && users[i].val.email != users[j].val.email)
  }

  /** The foreign keys of an assignments row: its class and its author exist. */
  predicate AssignmentRefsExist(t: Tables, a: Assignment) {
    a.scheduleId in Ids(t.schedules) && a.createdByUserId in Ids(t.users)
  }

  /** The foreign key of an events row: a class it is linked to exists (NULL links to nothing). */
  predicate EventRefExists(t: Tables, e: Event) {
    e.scheduleId.None? || e.scheduleId.value in Ids(t.schedules)
  }

  /** The `assignments.scheduleId` and `assignments.createdByUserId` foreign keys hold for every row. */
  predicate AssignmentsLinked(t: Tables) {
    forall i :: 0 <= i < |t.assignments| ==> AssignmentRefsExist(t, t.assignments[i].val)
  }

  /** The `events.scheduleId` foreign key holds for every row. */
  predicate EventsLinked(t: Tables) {
    forall i :: 0 <= i < |t.events| ==> EventRefExists(t, t.events[i].val)
  }

  predicate TablesValid(t: Tables) {
    && Keyed(t.users, t.next.user)
    && Keyed(t.schedules, t.next.schedule)
    && Keyed(t.assignments, t.next.assignment)
    && Keyed(t.events, t.next.event)
    && UsersValid(t.users)
    && AssignmentsLinked(t)
    && EventsLinked(t)
  }

  lemma EmptyTablesValid()
    ensures TablesValid(EmptyTables)
  {
  }

  /** `INSERT INTO schedules`: the row gets the next id. */
  function InsertSlot(t: Tables, s: Slot): (r: Tables)
    ensures r.schedules == t.schedules + [Row(t.next.schedule, s)]
    ensures r.next == t.next.(schedule := t.next.schedule + 1)
    ensures r.users == t.users && r.assignments == t.assignments && r.events == t.events
    ensures TablesValid(t) ==> TablesValid(r) && Find(r.schedules, t.next.schedule) == Some(s)
  {
    var id := t.next.schedule;
    AppendFresh(t.schedules, id, s);
    t.(schedules := t.schedules + [Row(id, s)], next := t.next.(schedule := id + 1))
  }

  /**
   * `INSERT INTO assignments`, refused by the foreign keys when the class or the author
   * does not exist.
   */
  function InsertAssignment(t: Tables, a: Assignment): (r: Result<Tables, ConstraintError>)
    ensures r.Failure? <==> !AssignmentRefsExist(t, a)
    ensures r.Failure? ==> r.error == ForeignKeyViolation
    ensures r.Success? ==>
      && r.value.assignments == t.assignments + [Row(t.next.assignment, a)]
      && r.value.next == t.next.(assignment := t.next.assignment + 1)
      && r.value.users == t.users && r.value.schedules == t.schedules && r.value.events == t.events
    ensures r.Success? && TablesValid(t) ==>
      TablesValid(r.value) && Find(r.value.assignments, t.next.assignment) == Some(a)
  {
    if !AssignmentRefsExist(t, a) then Failure(ForeignKeyViolation)
    else
      var id := t.next.assignment;
      AppendFresh(t.assignments, id, a);
      Success(t.(assignments := t.assignments + [Row(id, a)], next := t.next.(assignment := id + 1)))
  }

  /** `INSERT INTO events`, refused by the foreign key when the linked class does not exist. */
  function InsertEvent(t: Tables, e: Event): (r: Result<Tables, ConstraintError>)
    ensures r.Failure? <==> !EventRefExists(t, e)
    ensures r.Failure? ==> r.error == ForeignKeyViolation
    ensures r.Success? ==>
      && r.value.events == t.events + [Row(t.next.event, e)]
      && r.value.next == t.next.(event := t.next.event + 1)
      && r.value.users == t.users && r.value.schedules == t.schedules && r.value.assignments == t.assignments
    ensures r.Success? && TablesValid(t) ==>
      TablesValid(r.value) && Find(r.value.events, t.next.event) == Some(e)
  {
    if !EventRefExists(t, e) then Failure(ForeignKeyViolation)
    else
      var id := t.next.event;
      AppendFresh(t.events, id, e);
      Success(t.(events := t.events + [Row(id, e)], next := t.next.(event := id + 1)))
  }

  datatype ConstraintError = UniqueViolation | CheckViolation | ForeignKeyViolation

  /** Some existing user already has `u`'s login or email. */
  predicate Conflicts(users: seq<Row<User>>, u: User) {
    exists i :: 0 <= i < |users| && (users[i].val.login == u.login || users[i].val.email == u.email)
  }

  /** `INSERT INTO users`, refused by the role CHECK or by the UNIQUE login/email constraints. */
  function InsertUser(t: Tables, u: User): (r: Result<Tables, ConstraintError>)
    ensures r == Failure(CheckViolation) <==> !ValidRole(u.role)
    ensures r == Failure(UniqueViolation) <==> ValidRole(u.role) && Conflicts(t.users, u)
    ensures r.Success? <==> ValidRole(u.role) && !Conflicts(t.users, u)
    ensures r.Success? ==> r.value.users == t.users + [Row(t.next.user, u)]
    ensures r.Success? ==> r.value.next == t.next.(user := t.next.user + 1)
    ensures r.Success? ==> r.value.schedules == t.schedules && r.value.assignments == t.assignments
                           && r.value.events == t.events
    ensures r.Success? && TablesValid(t) ==> TablesValid(r.value)
  {
    if !ValidRole(u.role) then Failure(CheckViolation)
    else if exists i :: 0 <= i < |t.users| && (t.users[i].val.login == u.login || t.users[i].val.email == u.email)
    then Failure(UniqueViolation)
    else
      var r := t.(users := t.users + [Row(t.next.user, u)], next := t.next.(user := t.next.user + 1));
      InsertUserValid(t, u, r);
      Success(r)
  }

  lemma InsertUserValid(t: Tables, u: User, r: Tables)
    requires ValidRole(u.role) && !Conflicts(t.users, u)
    requires r == t.(users := t.users + [Row(t.next.user, u)], next := t.next.(user := t.next.user + 1))
    ensures TablesValid(t) ==> TablesValid(r)
  {
    AppendFresh(t.users, t.next.user, u);
    if TablesValid(t) {
      assert Ids(t.users) <= Ids(r.users);
      AppendUserValid(t.users, Row(t.next.user, u));
    }
  }

  /** A user row with a valid role and a login and e-mail no one has keeps the users table valid. */
  lemma AppendUserValid(users: seq<Row<User>>, x: Row<User>)
    requires UsersValid(users) && ValidRole(x.val.role) && !Conflicts(users, x.val)
    ensures UsersValid(users + [x])
  {
    var r := users + [x];
    forall i, j | 0 <= i < j < |r| ensures r[i].val.login != r[j].val.login && r[i].val.email != r[j].val.email {
      if j == |users| {
        assert r[i] == users[i];
      }
    }
  }

  /** The update handlers' `UPDATE … WHERE id = ?` on each table keeps the tables valid. */
  lemma ReplaceSlotValid(t: Tables, id: int, s: Slot)
    requires TablesValid(t)
    ensures TablesValid(t.(schedules := Replace(t.schedules, id, s)))
  {
    ReplaceKeepsIds(t.schedules, id, s, t.next.schedule);
  }

  lemma ReplaceAssignmentValid(t: Tables, id: int, a: Assignment)
    requires TablesValid(t)
    requires AssignmentRefsExist(t, a)
    ensures TablesValid(t.(assignments := Replace(t.assignments, id, a)))
  {
    ReplaceKeepsIds(t.assignments, id, a, t.next.assignment);
  }

  lemma ReplaceEventValid(t: Tables, id: int, e: Event)
    requires TablesValid(t)
    requires EventRefExists(t, e)
    ensures TablesValid(t.(events := Replace(t.events, id, e)))
  {
    ReplaceKeepsIds(t.events, id, e, t.next.event);
  }

  lemma RemoveAssignmentValid(t: Tables, id: int)
    requires TablesValid(t)
    ensures TablesValid(t.(assignments := Remove(t.assignments, id)))
  {
    FilterKeepsIds(t.assignments, (x: Row<Assignment>) => x.id != id, t.next.assignment);
    var r := Remove(t.assignments, id);
    forall i | 0 <= i < |r| ensures AssignmentRefsExist(t, r[i].val) {
      assert r[i] in t.assignments;
    }
  }

  lemma RemoveEventValid(t: Tables, id: int)
    requires TablesValid(t)
    ensures TablesValid(t.(events := Remove(t.events, id)))
  {
    FilterKeepsIds(t.events, (x: Row<Event>) => x.id != id, t.next.event);
    var r := Remove(t.events, id);
    forall i | 0 <= i < |r| ensures EventRefExists(t, r[i].val) {
      assert r[i] in t.events;
    }
  }

  /** `ON DELETE SET NULL` on `events.scheduleId`: events of the deleted row lose their reference. */
  function ClearScheduleRef(events: seq<Row<Event>>, scheduleId: int): (r: seq<Row<Event>>)
    ensures |r| == |events|
    ensures forall i :: 0 <= i < |events| ==> r[i].id == events[i].id
    ensures forall i :: 0 <= i < |events| && events[i].val.scheduleId == Some(scheduleId) ==>
      r[i].val == events[i].val.(scheduleId := None)
    ensures forall i :: 0 <= i < |events| && events[i].val.scheduleId != Some(scheduleId) ==>
      r[i] == events[i]
  {
    if events == [] then []
    else
      var e := events[0];
      [if e.val.scheduleId == Some(scheduleId) then Row(e.id, e.val.(scheduleId := None)) else e]
      + ClearScheduleRef(events[1..], scheduleId)
  }

  /**
   * `DELETE FROM schedules WHERE id = ?` with the declared foreign-key actions: the row
   * goes, its assignments go with it (CASCADE), its events stay with no class (SET NULL).
   * When no row has that id nothing is deleted and no action fires.
   */
  function DeleteSlot(t: Tables, id: int): (r: Tables)
    ensures id !in Ids(t.schedules) ==> r == t
    ensures id in Ids(t.schedules) ==>
      && (forall x :: multiset(r.schedules)[x] == if x.id != id then multiset(t.schedules)[x] else 0)
      && (forall a :: multiset(r.assignments)[a] == if a.val.scheduleId != id then multiset(t.assignments)[a] else 0)
      && |r.events| == |t.events|
      && (forall i :: 0 <= i < |t.events| ==>
            r.events[i] == if t.events[i].val.scheduleId == Some(id)
                           then Row(t.events[i].id, t.events[i].val.(scheduleId := None)) else t.events[i])
    ensures Ids(r.schedules) == Ids(t.schedules) - {id}
    ensures r.users == t.users && r.next == t.next
    ensures TablesValid(t) ==> TablesValid(r)
  {
    if id !in Ids(t.schedules) then t
    else
      var r := t.(schedules := Remove(t.schedules, id),
                  assignments := Filter(t.assignments, (a: Row<Assignment>) => a.val.scheduleId != id),
                  events := ClearScheduleRef(t.events, id));
      DeleteSlotValid(t, id, r);
      r
  }

  lemma DeleteSlotValid(t: Tables, id: int, r: Tables)
    requires r == t.(schedules := Remove(t.schedules, id),
                     assignments := Filter(t.assignments, (a: Row<Assignment>) => a.val.scheduleId != id),
                     events := ClearScheduleRef(t.events, id))
    ensures TablesValid(t) ==> TablesValid(r)
  {
    if TablesValid(t) {
      forall i | 0 <= i < |r.schedules| ensures r.schedules[i].id < t.next.schedule {
        assert r.schedules[i] in t.schedules;
      }
      FilterKeepsIds(t.assignments, (a: Row<Assignment>) => a.val.scheduleId != id, t.next.assignment);
      ReplaceLikeKeepsIds(t.events, r.events, t.next.event);
      DeleteSlotLinked(t, id, r);
    }
  }

  /** After the cascade every assignment left belongs to a class left. */
  lemma DeleteSlotLinked(t: Tables, id: int, r: Tables)
    requires TablesValid(t)
    requires r == t.(schedules := Remove(t.schedules, id),
                     assignments := Filter(t.assignments, (a: Row<Assignment>) => a.val.scheduleId != id),
                     events := ClearScheduleRef(t.events, id))
    ensures AssignmentsLinked(r) && EventsLinked(r)
  {
    var keep := Ids(t.schedules) - {id};
    assert Ids(r.schedules) == keep;
    KeptAssignmentsLinked(t, id, r.assignments, keep);
    ClearedEventsLinked(t, id, r.events, keep);
  }

  /** After the cascade every assignment left belongs to a class left and to an existing author. */
  lemma KeptAssignmentsLinked(t: Tables, id: int, assignments: seq<Row<Assignment>>, keep: set<int>)
    requires AssignmentsLinked(t) && keep == Ids(t.schedules) - {id}
    requires forall x :: x in assignments ==> x in t.assignments && x.val.scheduleId != id
    ensures forall i :: 0 <= i < |assignments| ==>
      assignments[i].val.scheduleId in keep && assignments[i].val.createdByUserId in Ids(t.users)
  {
    forall i | 0 <= i < |assignments|
      ensures assignments[i].val.scheduleId in keep && assignments[i].val.createdByUserId in Ids(t.users)
    {
      var a := assignments[i];
      assert a in t.assignments;
      var j :| 0 <= j < |t.assignments| && t.assignments[j] == a;
      assert AssignmentRefsExist(t, t.assignments[j].val);
    }
  }

  /** After SET NULL every event left links to nothing or to a class left. */
  lemma ClearedEventsLinked(t: Tables, id: int, events: seq<Row<Event>>, keep: set<int>)
    requires EventsLinked(t) && keep == Ids(t.schedules) - {id}
    requires events == ClearScheduleRef(t.events, id)
    ensures forall i :: 0 <= i < |events| ==> events[i].val.scheduleId.None? || events[i].val.scheduleId.value in keep
  {
    forall i | 0 <= i < |events|
      ensures events[i].val.scheduleId.None? || events[i].val.scheduleId.value in keep
    {
      assert EventRefExists(t, t.events[i].val);
    }
  }

  /** A rewrite of the columns that keeps every row's id keeps the table keyed. */
  lemma ReplaceLikeKeepsIds<T>(t: seq<Row<T>>, r: seq<Row<T>>, next: int)
    requires |r| == |t| && forall i :: 0 <= i < |t| ==> r[i].id == t[i].id
    requires Keyed(t, next)
    ensures Keyed(r, next)
  {
  }

  // ---------------------------------------------------------------------------
  // Demo schedule seeding (seedScheduleIfEmpty)
  // ---------------------------------------------------------------------------

  const SeedDays: seq<string> := ["mon", "tue", "wed", "thu", "fri"]
  const SeedGroups: seq<string> := ["1011", "3011", "3051", "4051"]
  const SeedSubjects: seq<string> := ["Философия", "Математика", "Физика", "Программирование"]
  const TeacherBySubject: map<string, string> := map[
    "Философия" := "Спориш М. У.",
    "Математика" := "Иванова А. С.",
    "Физика" := "Петров Н. В.",
    "Программирование" := "Сидоров Д. К."]
  const SeedRooms: seq<string> := ["1-111", "2-203", "3-305", "4-407"]
  const SlotStarts: seq<string> := ["09:00", "10:40", "12:40", "14:20", "16:00", "17:40"]
  const SlotEnds: seq<string> := ["10:30", "12:10", "14:10", "15:50", "17:30", "19:10"]

  /** 5 days × 4 groups × 4 subjects. */
  const SeedCount: nat := 80

  /** `teacherBySubject[subject] || null`: each seeded subject has its teacher, any other subject none. */
  function TeacherFor(subject: string): (r: Option<string>)
    ensures r.Some? <==> subject in SeedSubjects
    ensures r.Some? ==> r.value != ""
  {
    if subject in TeacherBySubject then Some(TeacherBySubject[subject]) else None
  }

  /** The row inserted for day `di`, group `gi` and subject `si`: time slot and room both indexed by `gi + si`. */
  function SeedSlot(di: nat, gi: nat, si: nat): (s: Slot)
    requires di < |SeedDays| && gi < |SeedGroups| && si < |SeedSubjects|
    ensures s.dayOfWeek == SeedDays[di] && s.groupName == SeedGroups[gi] && s.subject == SeedSubjects[si]
    ensures s.startTime in SlotStarts && s.room.Some? && s.room.value in SeedRooms
  {
    var k := (gi + si) % |SlotStarts|;
    Slot(SeedDays[di], SlotStarts[k], SlotEnds[k], SeedSubjects[si], SeedGroups[gi],
         Some(SeedRooms[(gi + si) % |SeedRooms|]), TeacherFor(SeedSubjects[si]))
  }

  /** The `j`-th inserted row: days outermost, then groups, then subjects. */
  function SeedSlotAt(j: nat): Slot
    requires j < SeedCount
  {
    SeedSlot(j / 16, j / 4 % 4, j % 4)
  }

  /** The first `n` seeded rows, numbered from `first`. */
  function SeedRows(first: int, n: nat): seq<Row<Slot>>
    requires n <= SeedCount
  {
    seq(n, j requires 0 <= j < n => Row(first + j, SeedSlotAt(j)))
  }

  /** Row number `16 * di + 4 * gi + si` has the digits `di`, `gi`, `si` in base 16, 4, 4. */
  lemma SeedDigits(di: nat, gi: nat, si: nat)
    requires di < 5 && gi < 4 && si < 4
    ensures 16 * di + 4 * gi + si < SeedCount
    ensures (16 * di + 4 * gi + si) / 16 == di
    ensures (16 * di + 4 * gi + si) / 4 % 4 == gi
    ensures (16 * di + 4 * gi + si) % 4 == si
  {
    var j := 16 * di + 4 * gi + si;
    assert j == 4 * (4 * di + gi) + si;
    assert j / 4 == 4 * di + gi;
    assert j == 16 * di + (4 * gi + si) && 4 * gi + si < 16;
  }

  /** A row number is determined by its three digits. */
  lemma SeedDigitsDetermine(j1: nat, j2: nat)
    requires j1 < SeedCount && j2 < SeedCount
    requires j1 / 16 == j2 / 16 && j1 / 4 % 4 == j2 / 4 % 4 && j1 % 4 == j2 % 4
    ensures j1 == j2
  {
    assert j1 == 4 * (j1 / 4) + j1 % 4;
    assert j2 == 4 * (j2 / 4) + j2 % 4;
    assert j1 / 4 == 4 * (j1 / 16) + j1 / 4 % 4;
    assert j2 / 4 == 4 * (j2 / 16) + j2 / 4 % 4;
  }

  /** The nested loops' counters `di`, `gi`, `si` pick the row numbered `16 * di + 4 * gi + si`. */
  lemma SeedIndex(di: nat, gi: nat, si: nat, n: nat)
    requires di < 5 && gi < 4 && si < 4 && n == 16 * di + 4 * gi + si
    ensures n < SeedCount
    ensures SeedSlotAt(n) == SeedSlot(di, gi, si)
  {
    SeedDigits(di, gi, si);
    assert n / 16 == di && n / 4 % 4 == gi && n % 4 == si;
  }

  lemma SeedRowsGrow(first: int, n: nat)
    requires n < SeedCount
    ensures SeedRows(first, n + 1) == SeedRows(first, n) + [Row(first + n, SeedSlotAt(n))]
  {
  }

  /** Inserting the row of day `di`, group `gi`, subject `si` (row `n`) after the first `n` extends the seeded prefix by one row. */
  lemma SeedStep(t0: Tables, t: Tables, first: int, di: nat, gi: nat, si: nat, n: nat)
    requires di < 5 && gi < 4 && si < 4 && n == 16 * di + 4 * gi + si
    requires TablesValid(t)
    requires t == t0.(schedules := SeedRows(first, n), next := t0.next.(schedule := first + n))
    ensures n < SeedCount
    ensures TablesValid(InsertSlot(t, SeedSlot(di, gi, si)))
    ensures InsertSlot(t, SeedSlot(di, gi, si)) ==
      t0.(schedules := SeedRows(first, n + 1), next := t0.next.(schedule := first + n + 1))
  {
    SeedIndex(di, gi, si, n);
    SeedRowsGrow(first, n);
    InsertSlotAppends(t0, t, SeedRows(first, n), SeedRows(first, n + 1), first + n, SeedSlot(di, gi, si));
  }

  /** Appending one schedule row to a table whose rows and counter are known. */
  lemma InsertSlotAppends(t0: Tables, t: Tables, rows: seq<Row<Slot>>, rows': seq<Row<Slot>>, id: int, s: Slot)
    requires t == t0.(schedules := rows, next := t0.next.(schedule := id))
    requires rows' == rows + [Row(id, s)]
    ensures InsertSlot(t, s) == t0.(schedules := rows', next := t0.next.(schedule := id + 1))
  {
  }

  /** Every (day, group, subject) combination is seeded, at exactly one row. */
  lemma SeedOnePerCombination(j1: nat, j2: nat)
    requires j1 < SeedCount && j2 < SeedCount
    ensures SeedSlotAt(j1).dayOfWeek == SeedSlotAt(j2).dayOfWeek
         && SeedSlotAt(j1).groupName == SeedSlotAt(j2).groupName
         && SeedSlotAt(j1).subject == SeedSlotAt(j2).subject
         <==> j1 == j2
  {
    var a, b := SeedSlotAt(j1), SeedSlotAt(j2);
    if a.dayOfWeek == b.dayOfWeek && a.groupName == b.groupName && a.subject == b.subject {
      DistinctAt(SeedDays, j1 / 16, j2 / 16);
      DistinctAt(SeedGroups, j1 / 4 % 4, j2 / 4 % 4);
      DistinctAt(SeedSubjects, j1 % 4, j2 % 4);
      SeedDigitsDetermine(j1, j2);
    }
  }

  /** Within one day and one group the four subjects get four different time slots. */
  lemma SeedDistinctTimes(j1: nat, j2: nat)
    requires j1 < SeedCount && j2 < SeedCount && j1 != j2
    requires SeedSlotAt(j1).dayOfWeek == SeedSlotAt(j2).dayOfWeek
    requires SeedSlotAt(j1).groupName == SeedSlotAt(j2).groupName
    ensures SeedSlotAt(j1).startTime != SeedSlotAt(j2).startTime
  {
    var d1, g1, s1 := SeedFields(j1);
    var d2, g2, s2 := SeedFields(j2);
    SeedListsDistinct();
    assert d1 == d2 && g1 == g2;
    if s1 == s2 {
      SeedDigitsDetermine(j1, j2);
    }
    SlotIndexDistinct(g1, s1, s2);
  }

  /** Seeded row `j` in terms of its digits: day `d`, group `g`, subject `s`. */
  lemma SeedFields(j: nat) returns (d: nat, g: nat, s: nat)
    requires j < SeedCount
    ensures d == j / 16 && g == j / 4 % 4 && s == j % 4
    ensures d < 5 && g < 4 && s < 4
    ensures SeedSlotAt(j).dayOfWeek == SeedDays[d] && SeedSlotAt(j).groupName == SeedGroups[g]
    ensures SeedSlotAt(j).startTime == SlotStarts[(g + s) % 6]
  {
    d, g, s := j / 16, j / 4 % 4, j % 4;
    assert d < 5 by {
      assert j < 5 * 16;
    }
    var slot := SeedSlot(d, g, s);
    assert SeedSlotAt(j) == slot;
  }

  /** Slot index `(gi + si) % 6`: different subjects of one group never share a slot. */
  lemma SlotIndexDistinct(g: nat, s1: nat, s2: nat)
    requires g < 4 && s1 < 4 && s2 < 4 && s1 != s2
    ensures (g + s1) % 6 != (g + s2) % 6
  {
  }

  /** Every seeded group is a 4-digit code and every seeded subject has a teacher. */
  lemma SeedRowsWellFormed(j: nat)
    requires j < SeedCount
    ensures IsFourDigits(SeedSlotAt(j).groupName)
    ensures SeedSlotAt(j).teacherName.Some?
  {
    var g := j / 4 % 4;
    assert g == 0 || g == 1 || g == 2 || g == 3;
    var s := j % 4;
    assert s == 0 || s == 1 || s == 2 || s == 3;
  }

  /** The seed lists hold no repeats. */
  lemma DistinctAt(s: seq<string>, i: nat, j: nat)
    requires s == SeedDays || s == SeedGroups || s == SeedSubjects || s == SlotStarts
    requires i < |s| && j < |s| && s[i] == s[j]
    ensures i == j
  {
  }

  lemma SeedListsDistinct()
    ensures NoDuplicates(SeedDays) && NoDuplicates(SeedGroups) && NoDuplicates(SlotStarts)
  {
    forall i, j | 0 <= i < j < |SlotStarts| ensures SlotStarts[i] != SlotStarts[j] {
      if SlotStarts[i] == SlotStarts[j] {
        DistinctAt(SlotStarts, i, j);
      }
    }
    forall i, j | 0 <= i < j < |SeedDays| ensures SeedDays[i] != SeedDays[j] {
      if SeedDays[i] == SeedDays[j] {
        DistinctAt(SeedDays, i, j);
      }
    }
    forall i, j | 0 <= i < j < |SeedGroups| ensures SeedGroups[i] != SeedGroups[j] {
      if SeedGroups[i] == SeedGroups[j] {
        DistinctAt(SeedGroups, i, j);
      }
    }
  }

  // ---------------------------------------------------------------------------
  // The store
  // ---------------------------------------------------------------------------

  /** The four tables `initializeDatabase` creates. */
  datatype TableName = UsersTable | SchedulesTable | AssignmentsTable | EventsTable

  /** Columns each CREATE TABLE statement declares. */
  const UsersColumns: seq<string> :=
    ["id", "role", "fullName", "email", "login", "passwordHash", "groupName", "subject", "phone"]
  const SchedulesColumns: seq<string> := ["id", "dayOfWeek", "startTime", "endTime", "subject", "groupName"]
  const AssignmentsColumns: seq<string> :=
    ["id", "scheduleId", "homework", "dueDate", "extendedDueDate", "extendedPenalty", "createdByUserId"]
  const EventsColumns: seq<string> :=
    ["id", "title", "description", "date", "startTime", "endTime", "scheduleId", "groupName"]

  /** `PRAGMA table_info(table)`: the table's column names, none for a table that does not exist. */
  function TableInfo(columns: map<TableName, seq<string>>, table: TableName): seq<string> {
    if table in columns then columns[table] else []
  }

  /**
   * The columns of a table after one `ensureColumn` per optional column, in order: each
   * missing one is appended, each present one is left alone.
   */
  function AddMissing(cols: seq<string>, optional: seq<string>): seq<string>
    decreases |optional|
  {
    if optional == [] then cols
    else
      var acc := AddMissing(cols, optional[..|optional| - 1]);
      var c := optional[|optional| - 1];
      if c in acc then acc else acc + [c]
  }

  /**
   * `ensureColumn` keeps the existing columns in front, adds exactly the optional ones,
   * never a column twice, and changes nothing when every optional column is present.
   */
  lemma {:induction false} AddMissingFacts(cols: seq<string>, optional: seq<string>)
    ensures cols <= AddMissing(cols, optional)
    ensures forall c :: c in AddMissing(cols, optional) <==> c in cols || c in optional
    ensures NoDuplicates(cols) ==> NoDuplicates(AddMissing(cols, optional))
    ensures (forall c :: c in optional ==> c in cols) ==> AddMissing(cols, optional) == cols
    decreases |optional|
  {
    if optional != [] {
      var init := optional[..|optional| - 1];
      var c := optional[|optional| - 1];
      AddMissingFacts(cols, init);
      var acc := AddMissing(cols, init);
      assert optional == init + [c];
      if c !in acc {
        assert (acc + [c])[..|cols|] == acc[..|cols|];
      }
    }
  }

  /**
   * The catalogue after `CREATE TABLE IF NOT EXISTS table (declared)` and one `ensureColumn`
   * per optional column: an existing table keeps its columns, a new one gets `declared`.
   */
  function WithTable(columns: map<TableName, seq<string>>, table: TableName, declared: seq<string>,
                     optional: seq<string>): map<TableName, seq<string>>
  {
    columns[table := AddMissing(if table in columns then columns[table] else declared, optional)]
  }

  /** What one table's statements do to the catalogue. */
  lemma WithTableFacts(columns: map<TableName, seq<string>>, table: TableName, declared: seq<string>, optional: seq<string>)
    ensures WithTable(columns, table, declared, optional).Keys == columns.Keys + {table}
    ensures forall other :: other in columns && other != table ==>
      WithTable(columns, table, declared, optional)[other] == columns[other]
    ensures table in columns ==> columns[table] <= WithTable(columns, table, declared, optional)[table]
    ensures table !in columns ==> declared <= WithTable(columns, table, declared, optional)[table]
    ensures forall c :: c in optional ==> c in WithTable(columns, table, declared, optional)[table]
    ensures table in columns && (forall c :: c in optional ==> c in columns[table]) ==>
      WithTable(columns, table, declared, optional) == columns
  {
    AddMissingFacts(if table in columns then columns[table] else declared, optional);
  }

  /** One table of the schema: `CREATE TABLE IF NOT EXISTS` with `declared`, then one `ensureColumn` per optional column. */
  datatype TableDecl = TableDecl(table: TableName, declared: seq<string>, optional: seq<string>)

  const ScheduleExtras: seq<string> := ["room", "teacherName"]
  const AssignmentExtras: seq<string> := ["createdAt", "subjectText"]
  const EventExtras: seq<string> := ["createdAt"]

  /** The four tables of `initializeDatabase`, in the order it creates them. */
  const SchemaDecls: seq<TableDecl> := [
    TableDecl(UsersTable, UsersColumns, []),
    TableDecl(SchedulesTable, SchedulesColumns, ScheduleExtras),
    TableDecl(AssignmentsTable, AssignmentsColumns, AssignmentExtras),
    TableDecl(EventsTable, EventsColumns, EventExtras)]

  /** The catalogue after the statements of `decls`, one table after another. */
  function ApplyDecls(columns: map<TableName, seq<string>>, decls: seq<TableDecl>): map<TableName, seq<string>>
    decreases |decls|
  {
    if decls == [] then columns
    else ApplyDecls(WithTable(columns, decls[0].table, decls[0].declared, decls[0].optional), decls[1..])
  }

  /** The catalogue after the schema part of `initializeDatabase`, from the catalogue `columns` before it. */
  function Schema(columns: map<TableName, seq<string>>): map<TableName, seq<string>> {
    ApplyDecls(columns, SchemaDecls)
  }

  /** Every table of `decls` exists and has each of its optional columns. */
  predicate Declares(columns: map<TableName, seq<string>>, decls: seq<TableDecl>) {
    forall i, c :: 0 <= i < |decls| && c in decls[i].optional ==>
      decls[i].table in columns && c in columns[decls[i].table]
  }

  /**
   * Running the statements of `decls` keeps every table that existed with its columns in
   * front, creates only declared tables, leaves undeclared tables alone, and leaves every
   * declared table with its optional columns.
   */
  lemma {:induction false} ApplyDeclsFacts(columns: map<TableName, seq<string>>, decls: seq<TableDecl>)
    ensures forall t :: t in columns ==> t in ApplyDecls(columns, decls) && columns[t] <= ApplyDecls(columns, decls)[t]
    ensures forall t :: t in ApplyDecls(columns, decls) ==> t in columns || exists i :: 0 <= i < |decls| && decls[i].table == t
    ensures forall t :: t in columns && (forall i :: 0 <= i < |decls| ==> decls[i].table != t) ==>
      ApplyDecls(columns, decls)[t] == columns[t]
    ensures forall i :: 0 <= i < |decls| ==> decls[i].table in ApplyDecls(columns, decls)
    ensures Declares(ApplyDecls(columns, decls), decls)
    decreases |decls|
  {
    if decls != [] {
      var d := decls[0];
      var next := WithTable(columns, d.table, d.declared, d.optional);
      WithTableFacts(columns, d.table, d.declared, d.optional);
      ApplyDeclsFacts(next, decls[1..]);
      var r := ApplyDecls(columns, decls);
      assert r == ApplyDecls(next, decls[1..]);
      forall t | t in columns ensures t in r && columns[t] <= r[t] {
        PrefixTransitive(columns[t], next[t], r[t]);
      }
      forall t | t in r ensures t in columns || exists i :: 0 <= i < |decls| && decls[i].table == t {
        if t !in next {
          var i :| 0 <= i < |decls[1..]| && decls[1..][i].table == t;
          assert decls[i + 1].table == t;
        }
      }
      forall t | t in columns && (forall i :: 0 <= i < |decls| ==> decls[i].table != t)
        ensures r[t] == columns[t]
      {
        assert d.table != t;
        forall i | 0 <= i < |decls[1..]| ensures decls[1..][i].table != t {
          assert decls[1..][i] == decls[i + 1];
        }
      }
      forall i | 0 <= i < |decls| ensures decls[i].table in r {
        if i > 0 {
          assert decls[i] == decls[1..][i - 1];
        }
      }
      forall i, c | 0 <= i < |decls| && c in decls[i].optional
        ensures decls[i].table in r && c in r[decls[i].table]
      {
        if i == 0 {
          PrefixMember(c, next[d.table], r[d.table]);
        } else {
          assert decls[i] == decls[1..][i - 1];
        }
      }
    }
  }

  lemma PrefixTransitive(a: seq<string>, b: seq<string>, c: seq<string>)
    requires a <= b && b <= c
    ensures a <= c
  {
    assert c[..|a|] == c[..|b|][..|a|];
  }

  lemma PrefixMember(x: string, a: seq<string>, b: seq<string>)
    requires x in a && a <= b
    ensures x in b
  {
    var i :| 0 <= i < |a| && a[i] == x;
    assert b[..|a|][i] == x;
  }

  /** A catalogue that already has every declared table and optional column is left as it is. */
  lemma {:induction false} ApplyDeclsIdle(columns: map<TableName, seq<string>>, decls: seq<TableDecl>)
    requires Declares(columns, decls)
    requires forall i :: 0 <= i < |decls| ==> decls[i].table in columns
    ensures ApplyDecls(columns, decls) == columns
    decreases |decls|
  {
    if decls != [] {
      var d := decls[0];
      WithTableFacts(columns, d.table, d.declared, d.optional);
      assert WithTable(columns, d.table, d.declared, d.optional) == columns;
      forall i, c | 0 <= i < |decls[1..]| && c in decls[1..][i].optional
        ensures decls[1..][i].table in columns && c in columns[decls[1..][i].table]
      {
        assert decls[1..][i] == decls[i + 1];
      }
      ApplyDeclsIdle(columns, decls[1..]);
    }
  }

  /** Running the schema part twice is the same as running it once: `ensureColumn` never adds a column twice. */
  lemma SchemaIdempotent(columns: map<TableName, seq<string>>)
    ensures Schema(Schema(columns)) == Schema(columns)
  {
    var s := Schema(columns);
    ApplyDeclsFacts(columns, SchemaDecls);
    ApplyDeclsIdle(s, SchemaDecls);
  }

  /** After the schema part the four tables exist, with `room`, `teacherName`, `createdAt` and `subjectText` where added. */
  lemma SchemaAdds(columns: map<TableName, seq<string>>)
    ensures UsersTable in Schema(columns) && SchedulesTable in Schema(columns)
    ensures AssignmentsTable in Schema(columns) && EventsTable in Schema(columns)
    ensures "room" in Schema(columns)[SchedulesTable] && "teacherName" in Schema(columns)[SchedulesTable]
    ensures "createdAt" in Schema(columns)[AssignmentsTable] && "subjectText" in Schema(columns)[AssignmentsTable]
    ensures "createdAt" in Schema(columns)[EventsTable]
  {
    var s := Schema(columns);
    ApplyDeclsFacts(columns, SchemaDecls);
    assert SchemaDecls[1].optional[0] == "room" && SchemaDecls[1].optional[1] == "teacherName";
    assert SchemaDecls[2].optional[0] == "createdAt" && SchemaDecls[2].optional[1] == "subjectText";
    assert SchemaDecls[3].optional[0] == "createdAt";
    assert SchemaDecls[0].table == UsersTable && SchemaDecls[1].table == SchedulesTable;
    assert SchemaDecls[2].table == AssignmentsTable && SchemaDecls[3].table == EventsTable;
  }

  /** The four statements of the schema part, one after another, give `Schema`. */
  lemma SchemaSteps(c0: map<TableName, seq<string>>, c1: map<TableName, seq<string>>, c2: map<TableName, seq<string>>,
                    c3: map<TableName, seq<string>>, c4: map<TableName, seq<string>>)
    requires c1 == WithTable(c0, UsersTable, UsersColumns, [])
    requires c2 == WithTable(c1, SchedulesTable, SchedulesColumns, ScheduleExtras)
    requires c3 == WithTable(c2, AssignmentsTable, AssignmentsColumns, AssignmentExtras)
    requires c4 == WithTable(c3, EventsTable, EventsColumns, EventExtras)
    ensures c4 == Schema(c0)
  {
    ApplyFour(c0, c1, c2, c3, c4, SchemaDecls[0], SchemaDecls[1], SchemaDecls[2], SchemaDecls[3]);
  }

  /** Four statements one after another are `ApplyDecls` of their four declarations. */
  lemma ApplyFour(c0: map<TableName, seq<string>>, c1: map<TableName, seq<string>>, c2: map<TableName, seq<string>>,
                  c3: map<TableName, seq<string>>, c4: map<TableName, seq<string>>,
                  d0: TableDecl, d1: TableDecl, d2: TableDecl, d3: TableDecl)
    requires c1 == WithTable(c0, d0.table, d0.declared, d0.optional)
    requires c2 == WithTable(c1, d1.table, d1.declared, d1.optional)
    requires c3 == WithTable(c2, d2.table, d2.declared, d2.optional)
    requires c4 == WithTable(c3, d3.table, d3.declared, d3.optional)
    ensures c4 == ApplyDecls(c0, [d0, d1, d2, d3])
  {
    assert ApplyDecls(c3, [d3]) == c4 by {
      ApplyDeclsCons(c3, d3, []);
      assert [d3] + [] == [d3];
    }
    assert ApplyDecls(c2, [d2, d3]) == c4 by {
      ApplyDeclsCons(c2, d2, [d3]);
      assert [d2] + [d3] == [d2, d3];
    }
    assert ApplyDecls(c1, [d1, d2, d3]) == c4 by {
      ApplyDeclsCons(c1, d1, [d2, d3]);
      assert [d1] + [d2, d3] == [d1, d2, d3];
    }
    ApplyDeclsCons(c0, d0, [d1, d2, d3]);
    assert [d0] + [d1, d2, d3] == [d0, d1, d2, d3];
  }

  lemma ApplyDeclsCons(columns: map<TableName, seq<string>>, d: TableDecl, rest: seq<TableDecl>)
    ensures ApplyDecls(columns, [d] + rest) == ApplyDecls(WithTable(columns, d.table, d.declared, d.optional), rest)
  {
    assert ([d] + rest)[1..] == rest;
  }

  /** On a new database file every table gets its declared columns followed by the added ones. */
  lemma SchemaOfEmpty()
    ensures Schema(map[]) == map[
      UsersTable := UsersColumns,
      SchedulesTable := SchedulesColumns + ScheduleExtras,
      AssignmentsTable := AssignmentsColumns + AssignmentExtras,
      EventsTable := EventsColumns + EventExtras]
  {
    ExtrasFresh();
    AddMissingFresh(SchedulesColumns, ScheduleExtras);
    AddMissingFresh(AssignmentsColumns, AssignmentExtras);
    AddMissingFresh(EventsColumns, EventExtras);
    var c0: map<TableName, seq<string>> := map[];
    var c1 := WithTable(c0, UsersTable, UsersColumns, []);
    var c2 := WithTable(c1, SchedulesTable, SchedulesColumns, ScheduleExtras);
    var c3 := WithTable(c2, AssignmentsTable, AssignmentsColumns, AssignmentExtras);
    var c4 := WithTable(c3, EventsTable, EventsColumns, EventExtras);
    SchemaSteps(c0, c1, c2, c3, c4);
  }

  /** The added columns are distinct and none is already declared by its table. */
  lemma ExtrasFresh()
    ensures NoDuplicates(ScheduleExtras) && forall c :: c in ScheduleExtras ==> c !in SchedulesColumns
    ensures NoDuplicates(AssignmentExtras) && forall c :: c in AssignmentExtras ==> c !in AssignmentsColumns
    ensures NoDuplicates(EventExtras) && forall c :: c in EventExtras ==> c !in EventsColumns
  {
  }

  /** Optional columns that are all new and distinct are appended in order. */
  lemma {:induction false} AddMissingFresh(cols: seq<string>, optional: seq<string>)
    requires NoDuplicates(optional)
    requires forall c :: c in optional ==> c !in cols
    ensures AddMissing(cols, optional) == cols + optional
    decreases |optional|
  {
    if optional != [] {
      var init := optional[..|optional| - 1];
      var c := optional[|optional| - 1];
      assert optional == init + [c];
      AddMissingFresh(cols, init);
      assert c !in init;
    }
  }

  /** The database file the process opens: its rows and its column catalogue. */
  class Store {
    var tables: Tables
    var columns: map<TableName, seq<string>>

    ghost predicate Valid()
      reads this
    {
      TablesValid(tables)
    }

    /** A new, empty database file. */
    constructor ()
      ensures Valid() && tables == EmptyTables && columns == map[]
    {
      tables := EmptyTables;
      columns := map[];
    }

    /** `columnExists`: scans the table's columns for one with that name. */
    method ColumnExists(table: TableName, column: string) returns (found: bool)
      ensures found <==> column in TableInfo(columns, table)
    {
      var rows := TableInfo(columns, table);
      found := false;
      var i := 0;
      while i < |rows|
        invariant 0 <= i <= |rows|
        invariant found <==> column in rows[..i]
      {
        if rows[i] == column {
          found := true;
        }
        i := i + 1;
      }
      assert rows[..|rows|] == rows;
    }

    /**
     * `ensureColumn`: `ALTER TABLE … ADD COLUMN` only when the column is missing.
     * Altering a table that does not exist fails (`ok` is false) and changes nothing.
     */
    method EnsureColumn(table: TableName, column: string) returns (ok: bool)
      modifies this`columns
      ensures ok <==> table in old(columns)
      ensures column in old(TableInfo(columns, table)) || !ok ==> columns == old(columns)
      ensures column !in old(TableInfo(columns, table)) && ok ==>
        columns == old(columns)[table := old(columns)[table] + [column]]
      ensures ok ==> column in columns[table]
      ensures columns.Keys == old(columns).Keys
      ensures forall other :: other in old(columns) && other != table ==> columns[other] == old(columns)[other]
    {
      var exists_ := ColumnExists(table, column);
      ok := table in columns;
      if !exists_ && ok {
        columns := columns[table := columns[table] + [column]];
      }
    }

    /** `CREATE TABLE IF NOT EXISTS`: declares the table only when it is missing. */
    method CreateTableIfNotExists(table: TableName, declared: seq<string>)
      modifies this`columns
      ensures columns == if table in old(columns) then old(columns) else old(columns)[table := declared]
      ensures columns.Keys == old(columns).Keys + {table}
      ensures forall other :: other in old(columns) ==> columns[other] == old(columns)[other]
    {
      if table !in columns {
        columns := columns[table := declared];
      }
    }

    /** The first `n` seeded rows have been inserted into the tables `t0`, starting at id `first`. */
    ghost predicate SeededUpTo(t0: Tables, first: int, n: nat)
      reads this
    {
      && n <= SeedCount
      && TablesValid(tables)
      && tables == t0.(schedules := SeedRows(first, n), next := t0.next.(schedule := first + n))
    }

    /**
     * `seedScheduleIfEmpty`: on an empty schedules table inserts one row per day, group and
     * subject; on a non-empty one does nothing, so a second run never duplicates rows.
     */
    method SeedScheduleIfEmpty()
      requires Valid()
      modifies this`tables
      ensures Valid()
      ensures old(tables.schedules) != [] ==> tables == old(tables)
      ensures old(tables.schedules) == [] ==>
        tables == old(tables).(schedules := SeedRows(old(tables.next.schedule), SeedCount),
                               next := old(tables.next).(schedule := old(tables.next.schedule) + SeedCount))
      ensures |tables.schedules| > 0
    {
      if |tables.schedules| > 0 {
        return;
      }
      ghost var t0 := tables;
      var first := tables.next.schedule;
      var di := 0;
      while di < |SeedDays|
        invariant 0 <= di <= |SeedDays|
        invariant SeededUpTo(t0, first, 16 * di)
      {
        SeedDay(t0, first, di);
        di := di + 1;
      }
    }

    /** The `groups.forEach` loop of one day. */
    method SeedDay(ghost t0: Tables, first: int, di: nat)
      requires di < |SeedDays| && SeededUpTo(t0, first, 16 * di)
      modifies this`tables
      ensures SeededUpTo(t0, first, 16 * di + 16)
    {
      var gi := 0;
      while gi < |SeedGroups|
        invariant 0 <= gi <= |SeedGroups|
        invariant SeededUpTo(t0, first, 16 * di + 4 * gi)
      {
        SeedGroup(t0, first, di, gi);
        gi := gi + 1;
      }
    }

    /** The `subjects.forEach` loop of one day and group: one insert per subject. */
    method SeedGroup(ghost t0: Tables, first: int, di: nat, gi: nat)
      requires di < |SeedDays| && gi < |SeedGroups| && SeededUpTo(t0, first, 16 * di + 4 * gi)
      modifies this`tables
      ensures SeededUpTo(t0, first, 16 * di + 4 * gi + 4)
    {
      var si := 0;
      while si < |SeedSubjects|
        invariant 0 <= si <= |SeedSubjects|
        invariant SeededUpTo(t0, first, 16 * di + 4 * gi + si)
      {
        ghost var n := 16 * di + 4 * gi + si;
        SeedStep(t0, tables, first, di, gi, si, n);
        tables := InsertSlot(tables, SeedSlot(di, gi, si));
        assert SeededUpTo(t0, first, n + 1);
        si := si + 1;
      }
    }

    /** `CREATE TABLE IF NOT EXISTS` followed by one `ensureColumn` per optional column. */
    method CreateTableWithColumns(table: TableName, declared: seq<string>, optional: seq<string>)
      modifies this`columns
      ensures columns == WithTable(old(columns), table, declared, optional)
      ensures table in columns
      ensures forall c :: c in optional ==> c in columns[table]
      ensures forall other :: other in old(columns) && other != table ==> other in columns && columns[other] == old(columns)[other]
    {
      CreateTableIfNotExists(table, declared);
      ghost var start := columns;
      ghost var base := columns[table];
      var i := 0;
      while i < |optional|
        invariant 0 <= i <= |optional|
        invariant columns == start[table := AddMissing(base, optional[..i])]
      {
        assert optional[..i + 1][..i] == optional[..i];
        var ok := EnsureColumn(table, optional[i]);
        i := i + 1;
      }
      assert optional[..i] == optional;
      WithTableFacts(old(columns), table, declared, optional);
    }

    /** The schema part of `initializeDatabase`: the four tables and their optional columns. */
    method CreateSchema()
      modifies this`columns
      ensures columns == Schema(old(columns))
      ensures UsersTable in columns && SchedulesTable in columns && AssignmentsTable in columns && EventsTable in columns
      ensures "room" in columns[SchedulesTable] && "teacherName" in columns[SchedulesTable]
      ensures "createdAt" in columns[AssignmentsTable] && "subjectText" in columns[AssignmentsTable]
      ensures "createdAt" in columns[EventsTable]
    {
      ghost var c0 := columns;
      CreateTableWithColumns(UsersTable, UsersColumns, []);
      ghost var c1 := columns;
      CreateTableWithColumns(SchedulesTable, SchedulesColumns, ScheduleExtras);
      ghost var c2 := columns;
      CreateTableWithColumns(AssignmentsTable, AssignmentsColumns, AssignmentExtras);
      ghost var c3 := columns;
      CreateTableWithColumns(EventsTable, EventsColumns, EventExtras);
      SchemaSteps(c0, c1, c2, c3, columns);
      SchemaAdds(c0);
    }

    /** `initializeDatabase`: creates the schema, then seeds the schedule. */
    method InitializeDatabase()
      requires Valid()
      modifies this
      ensures Valid()
      ensures columns == Schema(old(columns))
      ensures UsersTable in columns && SchedulesTable in columns && AssignmentsTable in columns && EventsTable in columns
      ensures "room" in columns[SchedulesTable] && "teacherName" in columns[SchedulesTable]
      ensures "createdAt" in columns[AssignmentsTable] && "subjectText" in columns[AssignmentsTable]
      ensures "createdAt" in columns[EventsTable]
      ensures |tables.schedules| > 0
      ensures old(tables.schedules) != [] ==> tables == old(tables)
      ensures old(tables.schedules) == [] ==>
        tables == old(tables).(schedules := SeedRows(old(tables.next.schedule), SeedCount),
                               next := old(tables.next).(schedule := old(tables.next.schedule) + SeedCount))
    {
      CreateSchema();
      SeedScheduleIfEmpty();
    }
  }
}
