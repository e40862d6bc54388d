/**
 * Week navigation of the dashboard: the Monday of the current week, the
 * `offset`/`amount`/`dir` query parameters, and the Monday–Sunday window.
 * Days are numbered from 1 January 1970 (a Thursday); timestamps are milliseconds.
 */
module Week {
  import opened Wrappers

  const MsPerDay: int := 86_400_000

  /** dayjs `day()`: 0 = Sunday, 1 = Monday, …, 6 = Saturday. */
  function DayOfWeek(day: int): (dow: int)
    ensures 0 <= dow <= 6
  {
    (day + 4) % 7
  }

  lemma DayOfWeekPeriodic(day: int, weeks: int)
    ensures DayOfWeek(day + 7 * weeks) == DayOfWeek(day)
  {
    var q := (day + 4) / 7;
    var r := (day + 4) % 7;
    assert day + 4 + 7 * weeks == 7 * (q + weeks) + r;
  }

  /** `(dow + 6) % 7`: how many days have passed since Monday. */
  function DaysSinceMonday(dow: int): (delta: int)
    requires 0 <= dow <= 6
    ensures 0 <= delta <= 6
    ensures delta == 0 <==> dow == 1
    ensures dow == 0 ==> delta == 6
    ensures dow > 0 ==> delta == dow - 1
  {
    (dow + 6) % 7
  }

  /** `getMonday`: the Monday of the week (Monday to Sunday) that contains `day`. */
  function GetMonday(day: int): (m: int)
    ensures DayOfWeek(m) == 1
    ensures m <= day < m + 7
  {
    var delta := DaysSinceMonday(DayOfWeek(day));
    DayOfWeekShift(day, delta);
    day - delta
  }

  lemma DayOfWeekShift(day: int, delta: int)
    requires delta == DaysSinceMonday(DayOfWeek(day))
    ensures DayOfWeek(day - delta) == 1
  {
    var q := (day + 4) / 7;
    assert day + 4 == 7 * q + DayOfWeek(day);
  }

  /** Exactly one Monday lies within the seven days ending on `day`. */
  lemma MondayUnique(day: int, m: int)
    requires DayOfWeek(m) == 1 && m <= day < m + 7
    ensures m == GetMonday(day)
  {
    var g := GetMonday(day);
    var q1, q2 := (m + 4) / 7, (g + 4) / 7;
    assert m + 4 == 7 * q1 + 1 && g + 4 == 7 * q2 + 1;
    assert -7 < m - g < 7;
    assert m - g == 7 * (q1 - q2);
  }

  /** `Math.max(1, parseInt(amount) || 1)`: a missing, unparsable, zero or negative amount counts as 1. */
  function Amount(param: Option<int>): (a: int)
    ensures a >= 1
    ensures param.Some? && param.value >= 1 ==> a == param.value
    ensures param.None? || param.value < 1 ==> a == 1
  {
    var n := if param.Some? && param.value != 0 then param.value else 1;
    if 1 >= n then 1 else n
  }

  /** `parseInt(offset) || 0`. */
  function CurrentOffset(param: Option<int>): int {
    param.GetOr(0)
  }

  /** The offset after navigating: `prev` moves back by the amount, `next` forward, anything else stays. */
  function NavigatedOffset(offset: Option<int>, amount: Option<int>, dir: Option<string>): (o: int)
    ensures dir == Some("prev") ==> o == CurrentOffset(offset) - Amount(amount)
    ensures dir == Some("next") ==> o == CurrentOffset(offset) + Amount(amount)
    ensures dir != Some("prev") && dir != Some("next") ==> o == CurrentOffset(offset)
  {
    var cur := CurrentOffset(offset);
    if dir == Some("prev") then cur - Amount(amount)
    else if dir == Some("next") then cur + Amount(amount)
    else cur
  }

  /** From offset 0, `next` with amount 2 lands on offset 2. */
  lemma NavigateExample()
    ensures NavigatedOffset(Some(0), Some(2), Some("next")) == 2
  {
  }

  /** `next` then `prev` with the same amount comes back to the starting week. */
  lemma NavigateRoundTrip(offset: int, amount: Option<int>)
    ensures NavigatedOffset(Some(NavigatedOffset(Some(offset), amount, Some("next"))), amount, Some("prev")) == offset
  {
  }

  /** The days a dashboard shows: `weekStart` to `weekEnd`, both inclusive. */
  datatype Window = Window(startDay: int, endDay: int)

  /** The week `offset` weeks from the one containing `today`. */
  function WeekWindow(today: int, offset: int): (w: Window)
    ensures DayOfWeek(w.startDay) == 1 && DayOfWeek(w.endDay) == 0
    ensures w.endDay == w.startDay + 6
    ensures w.startDay <= today + 7 * offset <= w.endDay
  {
    var m := GetMonday(today);
    DayOfWeekPeriodic(m, offset);
    DayOfWeekPeriodic(m + 7 * offset, 1);
    Window(m + 7 * offset, m + 7 * offset + 6)
  }

  predicate InDays(w: Window, day: int) {
    w.startDay <= day <= w.endDay
  }

  /** `weekStart.toISOString()`: the first millisecond of the window. */
  function StartMs(w: Window): int {
    w.startDay * MsPerDay
  }

  /** `weekEnd.endOf('day').toISOString()`: the last millisecond of the window. */
  function EndMs(w: Window): int {
    (w.endDay + 1) * MsPerDay - 1
  }

  predicate InMs(w: Window, ts: int) {
    StartMs(w) <= ts <= EndMs(w)
  }

  /** The day a timestamp falls on. */
  function DayOf(ts: int): int {
    ts / MsPerDay
  }

  /** The timestamp bounds used for due dates and the day bounds used for event dates select the same week. */
  lemma SameWeek(w: Window, ts: int)
    ensures InMs(w, ts) <==> InDays(w, DayOf(ts))
  {
    var d := DayOf(ts);
    assert d * MsPerDay <= ts < (d + 1) * MsPerDay;
    if w.startDay <= d {
      assert w.startDay * MsPerDay <= d * MsPerDay;
    } else {
      assert ts < (d + 1) * MsPerDay <= w.startDay * MsPerDay;
    }
    if d <= w.endDay {
      assert (d + 1) * MsPerDay <= (w.endDay + 1) * MsPerDay;
    } else {
      assert ts >= d * MsPerDay >= (w.endDay + 1) * MsPerDay;
    }
  }
}
