/**
 * `GET /dashboard`: one page per role for the week the query navigates to. A student
 * sees their group's timetable and the homework and events of that week; a teacher
 * the whole timetable, its groups and the homework they set; an administrator the
 * whole timetable and the week's events.
 */
module Dashboard {
  import opened Wrappers
  import opened Text
  import opened Seqs
  import opened Rows
  import opened Db
  import opened Order
  import opened Week
  import opened Http
  import opened Gate

  /** The `offset`, `amount` and `dir` query parameters; numbers already `parseInt`-ed (None when not a number). */
  datatype Query = Query(offset: Option<int>, amount: Option<int>, dir: Option<string>)

  /** The week a page shows and the offset and amount its navigation links carry. */
  datatype Nav = Nav(offset: int, amount: int, window: Window)

  datatype Page =
    | StudentPage(schedule: seq<Row<Slot>>, assignments: seq<Row<Assignment>>, events: seq<Row<Event>>, nav: Nav)
    | TeacherPage(schedule: seq<Row<Slot>>, groups: seq<string>, mySubject: Option<string>,
                  assignments: seq<Row<Assignment>>, events: seq<Row<Event>>, nav: Nav)
    | AdminPage(schedule: seq<Row<Slot>>, events: seq<Row<Event>>, nav: Nav)

  /** The ids of the classes of a group; a NULL group has none. */
  function GroupSlotIds(t: Tables, group: Option<string>): set<int> {
    set i | 0 <= i < |t.schedules| && group == Some(t.schedules[i].val.groupName) :: t.schedules[i].id
  }

  /** `schedule.map((s) => s.id)`. */
  function ScheduleIds(rows: seq<Row<Slot>>): (ids: seq<int>)
    ensures |ids| == |rows|
    ensures forall k :: k in ids <==> k in Ids(rows)
  {
    var ids := seq(|rows|, i requires 0 <= i < |rows| => rows[i].id);
    assert forall i :: 0 <= i < |rows| ==> ids[i] == rows[i].id;
    ids
  }

  /** The ids of a group's timetable rows are exactly the ids of that group's classes. */
  lemma GroupIds(t: Tables, group: Option<string>, rows: seq<Row<Slot>>)
    requires forall x :: x in rows <==> x in t.schedules && group == Some(x.val.groupName)
    ensures forall k :: k in Ids(rows) <==> k in GroupSlotIds(t, group)
  {
    forall k | k in Ids(rows) ensures k in GroupSlotIds(t, group) {
      var i :| 0 <= i < |rows| && rows[i].id == k;
      assert rows[i] in rows;
      var j :| 0 <= j < |t.schedules| && t.schedules[j] == rows[i];
    }
    forall k | k in GroupSlotIds(t, group) ensures k in Ids(rows) {
      var j :| 0 <= j < |t.schedules| && group == Some(t.schedules[j].val.groupName) && t.schedules[j].id == k;
      assert t.schedules[j] in rows;
      var i :| 0 <= i < |rows| && rows[i] == t.schedules[j];
    }
  }

  /** The student's homework: the week's assignments of the listed classes, by due date; none when the list is empty. */
  function StudentAssignments(t: Tables, ids: seq<int>, w: Window): (r: seq<Row<Assignment>>)
    ensures forall a :: multiset(r)[a] ==
              if a.val.scheduleId in ids && a.val.scheduleId in Ids(t.schedules) && InMs(w, a.val.dueDate)
              then multiset(t.assignments)[a] else 0
    ensures AssignmentsOrdered(r)
  {
    if |ids| == 0 then []
    else
      var rows := Filter(t.assignments, (a: Row<Assignment>) =>
        a.val.scheduleId in ids && a.val.scheduleId in Ids(t.schedules) && InMs(w, a.val.dueDate));
      SortAssignments(rows)
  }

  /** The event is dated in the window and linked to one of the classes, meant for everyone, or for the group. */
  predicate StudentSees(e: Row<Event>, ids: seq<int>, group: Option<string>, w: Window) {
    && ((e.val.scheduleId.Some? && e.val.scheduleId.value in ids) || e.val.groupName.None? || e.val.groupName == group)
    && InDays(w, e.val.date)
  }

  /**
   * The student's events: those of the week linked to one of the listed classes, meant for
   * everyone (no group) or for the student's group; the query without the class list when it is empty.
   */
  function StudentEvents(t: Tables, ids: seq<int>, group: Option<string>, w: Window): (r: seq<Row<Event>>)
    ensures forall e :: multiset(r)[e] == if StudentSees(e, ids, group, w) then multiset(t.events)[e] else 0
    ensures EventsOrdered(r)
  {
    var rows :=
      if |ids| > 0 then Filter(t.events, (e: Row<Event>) => StudentSees(e, ids, group, w))
      else Filter(t.events, (e: Row<Event>) => (e.val.groupName.None? || e.val.groupName == group) && InDays(w, e.val.date));
    assert forall e :: multiset(rows)[e] == if StudentSees(e, ids, group, w) then multiset(t.events)[e] else 0;
    SortEvents(rows)
  }

  /** The week's assignments created by the teacher, joined to their class, by due date. */
  function TeacherAssignments(t: Tables, teacherId: int, w: Window): (r: seq<Row<Assignment>>)
    ensures forall a :: multiset(r)[a] ==
              if a.val.createdByUserId == teacherId && a.val.scheduleId in Ids(t.schedules) && InMs(w, a.val.dueDate)
              then multiset(t.assignments)[a] else 0
    ensures AssignmentsOrdered(r)
  {
    var rows := Filter(t.assignments, (a: Row<Assignment>) =>
      a.val.createdByUserId == teacherId && a.val.scheduleId in Ids(t.schedules) && InMs(w, a.val.dueDate));
    SortAssignments(rows)
  }

  /** All events of the week, by date then start time. */
  function WeekEvents(t: Tables, w: Window): (r: seq<Row<Event>>)
    ensures forall e :: multiset(r)[e] == if InDays(w, e.val.date) then multiset(t.events)[e] else 0
    ensures EventsOrdered(r)
  {
    SortEvents(Filter(t.events, (e: Row<Event>) => InDays(w, e.val.date)))
  }

  /** Some class of the timetable belongs to group `g`. */
  predicate HasGroup(schedule: seq<Row<Slot>>, g: string) {
    exists i :: 0 <= i < |schedule| && schedule[i].val.groupName == g
  }

  /** `[...new Set(schedule.map((s) => s.groupName))].sort()`: each group of the timetable once, in text order. */
  function Groups(schedule: seq<Row<Slot>>): (g: seq<string>)
    ensures NoDuplicates(g)
    ensures forall x :: x in g <==> HasGroup(schedule, x)
    ensures forall i, j :: 0 <= i < j < |g| ==> LexLe(g[i], g[j]) && g[i] != g[j]
  {
    var names := seq(|schedule|, i requires 0 <= i < |schedule| => schedule[i].val.groupName);
    GroupNames(schedule, names);
    var d := Distinct(names);
    TextOrder();
    var g := SortBy(d, LexLe);
    SortedDistinct(d, g);
    g
  }

  /** The column of group names holds exactly the groups the timetable has. */
  lemma GroupNames(schedule: seq<Row<Slot>>, names: seq<string>)
    requires |names| == |schedule|
    requires forall i :: 0 <= i < |schedule| ==> names[i] == schedule[i].val.groupName
    ensures forall x :: x in names <==> HasGroup(schedule, x)
  {
    forall x | HasGroup(schedule, x) ensures x in names {
      var i :| 0 <= i < |schedule| && schedule[i].val.groupName == x;
      assert names[i] == x;
    }
  }

  /** Sorting names without repeats gives the same names, strictly increasing in text order. */
  lemma SortedDistinct(d: seq<string>, g: seq<string>)
    requires Transitive(LexLe) && NoDuplicates(d)
    requires SortedBy(g, LexLe) && multiset(g) == multiset(d)
    ensures forall x :: x in g <==> x in d
    ensures NoDuplicates(g)
    ensures forall i, j :: 0 <= i < j < |g| ==> LexLe(g[i], g[j])
  {
    PermutationNoDuplicates(d, g);
    forall i, j | 0 <= i < j < |g| ensures LexLe(g[i], g[j]) {
      SortedPairwise(g, LexLe, i, j);
    }
    assert forall x :: x in g <==> x in multiset(g);
    assert forall x :: x in d <==> x in multiset(d);
  }

  /** The navigation the query asks for, relative to the week containing `today`. */
  function Navigation(q: Query, today: int): (n: Nav)
    ensures n.offset == NavigatedOffset(q.offset, q.amount, q.dir)
    ensures n.amount == Amount(q.amount) && n.amount >= 1
    ensures DayOfWeek(n.window.startDay) == 1 && n.window.endDay == n.window.startDay + 6
    ensures InDays(n.window, today + 7 * n.offset)
  {
    var offset := NavigatedOffset(q.offset, q.amount, q.dir);
    Nav(offset, Amount(q.amount), WeekWindow(today, offset))
  }

  /** The dashboard of the signed-in user on day `today`. */
  function Dashboard(t: Tables, user: Option<SessionUser>, q: Query, today: int): (r: Result<Page, Outcome>)
    ensures r == Failure(ToLogin) <==> user.None?
    ensures r == Failure(Redirect("/")) <==> user.Some? && !ValidRole(user.value.role)
    ensures r.Failure? ==> r.error == ToLogin || r.error == Redirect("/")
    ensures r.Success? ==>
      && (r.value.StudentPage? <==> user.value.role == StudentRole)
      && (r.value.TeacherPage? <==> user.value.role == TeacherRole)
      && (r.value.AdminPage? <==> user.value.role == AdminRole)
    ensures r.Success? ==>
      var n := r.value.nav;
      && n.amount == Amount(q.amount) && n.offset == NavigatedOffset(q.offset, q.amount, q.dir)
      && DayOfWeek(n.window.startDay) == 1 && n.window.endDay == n.window.startDay + 6
      && InDays(n.window, today + 7 * n.offset)
    ensures r.Success? && r.value.StudentPage? ==>
      var p, w, group := r.value, r.value.nav.window, user.value.groupName;
      && (forall x :: multiset(p.schedule)[x] ==
            if group == Some(x.val.groupName) then multiset(t.schedules)[x] else 0)
      && SlotsOrdered(p.schedule)
      && (forall a :: multiset(p.assignments)[a] ==
            if a.val.scheduleId in GroupSlotIds(t, group) && InMs(w, a.val.dueDate)
            then multiset(t.assignments)[a] else 0)
      && AssignmentsOrdered(p.assignments)
      && (forall e :: multiset(p.events)[e] ==
            if && InDays(w, e.val.date)
               && ((e.val.scheduleId.Some? && e.val.scheduleId.value in GroupSlotIds(t, group))
                   || e.val.groupName.None? || e.val.groupName == group)
            then multiset(t.events)[e] else 0)
      && EventsOrdered(p.events)
    ensures r.Success? && r.value.TeacherPage? ==>
      var p, w := r.value, r.value.nav.window;
      && multiset(p.schedule) == multiset(t.schedules) && SlotsOrdered(p.schedule)
      && NoDuplicates(p.groups)
      && (forall x :: x in p.groups <==> HasGroup(t.schedules, x))
      && (forall i, j :: 0 <= i < j < |p.groups| ==> LexLe(p.groups[i], p.groups[j]))
      && p.mySubject == user.value.subject
      && (forall a :: multiset(p.assignments)[a] ==
            if a.val.createdByUserId == user.value.id && a.val.scheduleId in Ids(t.schedules) && InMs(w, a.val.dueDate)
            then multiset(t.assignments)[a] else 0)
      && AssignmentsOrdered(p.assignments)
      && (forall e :: multiset(p.events)[e] == if InDays(w, e.val.date) then multiset(t.events)[e] else 0)
      && EventsOrdered(p.events)
    ensures r.Success? && r.value.AdminPage? ==>
      var p, w := r.value, r.value.nav.window;
      && multiset(p.schedule) == multiset(t.schedules) && SlotsOrdered(p.schedule)
      && (forall e :: multiset(p.events)[e] == if InDays(w, e.val.date) then multiset(t.events)[e] else 0)
      && EventsOrdered(p.events)
  {
    if user.None? then Failure(ToLogin)
    else
      var u := user.value;
      var nav := Navigation(q, today);
      if u.role == StudentRole then
        var schedule := ScheduleOfGroup(t, u.groupName);
        var ids := ScheduleIds(schedule);
        GroupIds(t, u.groupName, schedule);
        GroupSlotIdsExist(t, u.groupName);
        Success(StudentPage(schedule, StudentAssignments(t, ids, nav.window),
                            StudentEvents(t, ids, u.groupName, nav.window), nav))
      else if u.role == TeacherRole then
        var schedule := AllSchedule(t);
        var groups := Groups(schedule);
        SameGroups(t.schedules, schedule);
        Success(TeacherPage(schedule, groups, u.subject, TeacherAssignments(t, u.id, nav.window),
                            WeekEvents(t, nav.window), nav))
      else if u.role == AdminRole then
        Success(AdminPage(AllSchedule(t), WeekEvents(t, nav.window), nav))
      else Failure(Redirect("/"))
  }

  lemma GroupSlotIdsExist(t: Tables, group: Option<string>)
    ensures forall k :: k in GroupSlotIds(t, group) ==> k in Ids(t.schedules)
  {
  }

  /** Reordering the timetable does not change which groups it mentions. */
  lemma SameGroups(s: seq<Row<Slot>>, r: seq<Row<Slot>>)
    requires multiset(r) == multiset(s)
    ensures forall x :: HasGroup(r, x) <==> HasGroup(s, x)
  {
    forall x | HasGroup(r, x) ensures HasGroup(s, x) {
      var i :| 0 <= i < |r| && r[i].val.groupName == x;
      assert r[i] in multiset(s);
      var j :| 0 <= j < |s| && s[j] == r[i];
    }
    forall x | HasGroup(s, x) ensures HasGroup(r, x) {
      var i :| 0 <= i < |s| && s[i].val.groupName == x;
      assert s[i] in multiset(r);
      var j :| 0 <= j < |r| && r[j] == s[i];
    }
  }
}
