/**
 * The ORDER BY clauses of the listings: schedule rows by day rank
 * (`CASE dayOfWeek WHEN 'mon' THEN 1 … WHEN 'sun' THEN 7 END`) then start time,
 * events by date then start time, assignments by due date; and the two schedule
 * queries the dashboard and the schedule listing share.
 */
module Order {
  import opened Wrappers
  import opened Text
  import opened Seqs
  import opened Rows
  import opened Db

  const DayNames: seq<string> := ["mon", "tue", "wed", "thu", "fri", "sat", "sun"]

  /**
   * The CASE rank of a day name. Any other text ranks NULL, which SQLite puts before
   * every number in ascending order; 0 stands for it.
   */
  function DayRank(day: string): (r: int)
    ensures 0 <= r <= |DayNames|
    ensures r > 0 ==> DayNames[r - 1] == day
    ensures r == 0 ==> day !in DayNames
  {
    if day == "mon" then 1
    else if day == "tue" then 2
    else if day == "wed" then 3
    else if day == "thu" then 4
    else if day == "fri" then 5
    else if day == "sat" then 6
    else if day == "sun" then 7
    else 0
  }

  /** Schedule order: day rank, then start time as text. */
  predicate SlotLe(a: Row<Slot>, b: Row<Slot>) {
    DayRank(a.val.dayOfWeek) < DayRank(b.val.dayOfWeek)
    || (DayRank(a.val.dayOfWeek) == DayRank(b.val.dayOfWeek) && LexLe(a.val.startTime, b.val.startTime))
  }

  /** Event order: date, then start time as text. */
  predicate EventLe(a: Row<Event>, b: Row<Event>) {
    a.val.date < b.val.date || (a.val.date == b.val.date && LexLe(a.val.startTime, b.val.startTime))
  }

  /** Assignment order: due date. */
  predicate AssignmentLe(a: Row<Assignment>, b: Row<Assignment>) {
    a.val.dueDate <= b.val.dueDate
  }

  /** Every row is ordered before every later one. */
  predicate SlotsOrdered(s: seq<Row<Slot>>) {
    forall i, j :: 0 <= i < j < |s| ==> SlotLe(s[i], s[j])
  }

  predicate EventsOrdered(s: seq<Row<Event>>) {
    forall i, j :: 0 <= i < j < |s| ==> EventLe(s[i], s[j])
  }

  predicate AssignmentsOrdered(s: seq<Row<Assignment>>) {
    forall i, j :: 0 <= i < j < |s| ==> s[i].val.dueDate <= s[j].val.dueDate
  }

  /** Text order is a total preorder, so sorting by it is well defined. */
  lemma TextOrder()
    ensures Total(LexLe) && Transitive(LexLe)
  {
    forall a: string, b: string ensures LexLe(a, b) || LexLe(b, a) {
      LexLeTotal(a, b);
    }
    forall a: string, b: string, c: string | LexLe(a, b) && LexLe(b, c) ensures LexLe(a, c) {
      LexLeTransitive(a, b, c);
    }
  }

  lemma SlotOrder()
    ensures Total(SlotLe) && Transitive(SlotLe)
  {
    forall a: Row<Slot>, b: Row<Slot> ensures SlotLe(a, b) || SlotLe(b, a) {
      LexLeTotal(a.val.startTime, b.val.startTime);
    }
    forall a: Row<Slot>, b: Row<Slot>, c: Row<Slot> | SlotLe(a, b) && SlotLe(b, c) ensures SlotLe(a, c) {
      if LexLe(a.val.startTime, b.val.startTime) && LexLe(b.val.startTime, c.val.startTime) {
        LexLeTransitive(a.val.startTime, b.val.startTime, c.val.startTime);
      }
    }
  }

  lemma EventOrder()
    ensures Total(EventLe) && Transitive(EventLe)
  {
    forall a: Row<Event>, b: Row<Event> ensures EventLe(a, b) || EventLe(b, a) {
      LexLeTotal(a.val.startTime, b.val.startTime);
    }
    forall a: Row<Event>, b: Row<Event>, c: Row<Event> | EventLe(a, b) && EventLe(b, c) ensures EventLe(a, c) {
      if LexLe(a.val.startTime, b.val.startTime) && LexLe(b.val.startTime, c.val.startTime) {
        LexLeTransitive(a.val.startTime, b.val.startTime, c.val.startTime);
      }
    }
  }

  /** Schedule rows in schedule order: every row is ordered before every later one. */
  function SortSlots(rows: seq<Row<Slot>>): (r: seq<Row<Slot>>)
    ensures multiset(r) == multiset(rows)
    ensures SlotsOrdered(r)
  {
    SlotOrder();
    var r := SortBy(rows, SlotLe);
    forall i, j | 0 <= i < j < |r| ensures SlotLe(r[i], r[j]) {
      SortedPairwise(r, SlotLe, i, j);
    }
    r
  }

  function SortEvents(rows: seq<Row<Event>>): (r: seq<Row<Event>>)
    ensures multiset(r) == multiset(rows)
    ensures EventsOrdered(r)
  {
    EventOrder();
    var r := SortBy(rows, EventLe);
    forall i, j | 0 <= i < j < |r| ensures EventLe(r[i], r[j]) {
      SortedPairwise(r, EventLe, i, j);
    }
    r
  }

  function SortAssignments(rows: seq<Row<Assignment>>): (r: seq<Row<Assignment>>)
    ensures multiset(r) == multiset(rows)
    ensures AssignmentsOrdered(r)
  {
    assert Total(AssignmentLe) && Transitive(AssignmentLe);
    var r := SortBy(rows, AssignmentLe);
    forall i, j | 0 <= i < j < |r| ensures AssignmentLe(r[i], r[j]) {
      SortedPairwise(r, AssignmentLe, i, j);
    }
    r
  }

  /** `getScheduleByGroup`: `WHERE groupName = ?`; a NULL group matches no row. */
  function ScheduleOfGroup(t: Tables, group: Option<string>): (r: seq<Row<Slot>>)
    ensures forall x :: x in r <==> x in t.schedules && group == Some(x.val.groupName)
    ensures forall x :: multiset(r)[x] == if group == Some(x.val.groupName) then multiset(t.schedules)[x] else 0
    ensures SlotsOrdered(r)
  {
    var r := SortSlots(Filter(t.schedules, (x: Row<Slot>) => group == Some(x.val.groupName)));
    CountMembers(r, t.schedules, (x: Row<Slot>) => group == Some(x.val.groupName));
    r
  }

  /** `getAllSchedule`: every schedule row, in schedule order. */
  function AllSchedule(t: Tables): (r: seq<Row<Slot>>)
    ensures multiset(r) == multiset(t.schedules)
    ensures SlotsOrdered(r)
  {
    SortSlots(t.schedules)
  }

  /** Every event, in event order (`ORDER BY e.date, e.startTime`). */
  function AllEvents(t: Tables): (r: seq<Row<Event>>)
    ensures multiset(r) == multiset(t.events)
    ensures EventsOrdered(r)
  {
    SortEvents(t.events)
  }
}
