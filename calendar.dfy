/** The calendar arithmetic the client pages share. A time is an integer
    number of milliseconds of local time since 1970-01-01 00:00, a Thursday;
    a day is a whole number of days since then. Two times are on the same
    date (`toDateString` equal) exactly when they fall on the same day. */
module Calendar {
  import opened Common

  const HOUR := 3600000
  const DAY := 86400000

  /** The day a time falls on. */
  function DayOf(t: int): int {
    t / DAY
  }

  /** `getHours()`: the hour of the day, 0 to 23. */
  function HourOf(t: int): (h: int)
    ensures 0 <= h < 24
  {
    (t % DAY) / HOUR
  }

  /** `getDay()`: 0 for Sunday up to 6 for Saturday. */
  function WeekDayOf(day: int): (w: int)
    ensures 0 <= w < 7
  {
    (day + 4) % 7
  }

  /** `setHours(hour, 0, 0, 0)` on a date of day `day`. */
  function At(day: int, hour: int): int {
    day * DAY + hour * HOUR
  }

  /** A time set to a whole hour of a day is on that day, at that hour. */
  lemma AtFacts(day: int, hour: int)
    requires 0 <= hour < 24
    ensures DayOf(At(day, hour)) == day && HourOf(At(day, hour)) == hour
  {
    var t := At(day, hour);
    assert 0 <= hour * HOUR < DAY;
    assert t / DAY == day;
    assert t % DAY == hour * HOUR;
  }

  /** A time within day `day` is on that day, at the hour of its offset. */
  lemma WithinDay(day: int, offset: int)
    requires 0 <= offset < DAY
    ensures DayOf(day * DAY + offset) == day && HourOf(day * DAY + offset) == offset / HOUR
  {
    var t := day * DAY + offset;
    assert t / DAY == day;
    assert t % DAY == offset;
  }

  /** A day later is the next day. */
  lemma NextDay(t: int)
    ensures DayOf(t + DAY) == DayOf(t) + 1
  {
  }

  /** A slot as the client receives it. */
  datatype SlotView = SlotView(
    id: string,
    start: int,
    end: int,
    duration: int,
    kind: string,
    location: string,
    meetingLink: string,
    notes: string,
    isBooked: bool)

  /** The rule of both calendar grids: a slot fills the cell of hour `hour`
      on day `day` when it starts that day, at or before that hour, and ends
      at a later hour of the clock; minutes are ignored. */
  predicate Covers(s: SlotView, day: int, hour: int) {
    DayOf(s.start) == day && HourOf(s.start) <= hour && HourOf(s.end) > hour
  }

  /** The position of the first slot from `from` on that fills the cell. */
  function FirstCovering(slots: seq<SlotView>, day: int, hour: int, from: nat): (r: Option<nat>)
    requires from <= |slots|
    ensures r.Some? ==> from <= r.value < |slots| && Covers(slots[r.value], day, hour)
    ensures r.Some? ==> forall k :: from <= k < r.value ==> !Covers(slots[k], day, hour)
    ensures r.None? ==> forall k :: from <= k < |slots| ==> !Covers(slots[k], day, hour)
    decreases |slots| - from
  {
    if from == |slots| then None
    else if Covers(slots[from], day, hour) then Some(from)
    else FirstCovering(slots, day, hour, from + 1)
  }

  /** `getSlotAtTime`: the first slot in list order that fills the cell,
      if any. */
  function SlotAtTime(slots: seq<SlotView>, day: int, hour: int): (r: Option<SlotView>)
    ensures r.None? <==> forall k :: 0 <= k < |slots| ==> !Covers(slots[k], day, hour)
    ensures r.Some? ==> exists k :: (0 <= k < |slots| && slots[k] == r.value && Covers(r.value, day, hour) &&
      forall j :: 0 <= j < k ==> !Covers(slots[j], day, hour))
  {
    var i := FirstCovering(slots, day, hour, 0);
    if i.Some? then Some(slots[i.value]) else None
  }

  /** A slot starting on a whole hour of a day fills the cells of its own
      hours there. */
  lemma SlotFillsItsHours(s: SlotView, day: int, h1: int, h2: int, hour: int)
    requires 0 <= h1 <= hour < h2 < 24
    requires s.start == At(day, h1) && s.end == At(day, h2)
    ensures Covers(s, day, hour)
  {
    AtFacts(day, h1);
    AtFacts(day, h2);
  }

  /** `hours`: the grid rows, 8:00 to 17:00. */
  const Hours: seq<int> := seq(10, i => 8 + i)

  lemma HoursAre()
    ensures |Hours| == 10
    ensures forall i :: 0 <= i < 10 ==> Hours[i] == 8 + i
    ensures forall h :: h in Hours <==> 8 <= h <= 17
  {
    forall h | 8 <= h <= 17 ensures h in Hours {
      assert Hours[h - 8] == h;
    }
  }

  /** The first day of the week `getWeekDays` shows: today's date minus
      today's weekday, plus one, plus seven days per week of offset. */
  function WeekStart(today: int, currentWeek: int): int {
    today - WeekDayOf(today) + 1 + 7 * currentWeek
  }

  /** `getWeekDays`: seven consecutive days from the week start. */
  method GetWeekDays(today: int, currentWeek: int) returns (days: seq<int>)
    ensures |days| == 7
    ensures forall i :: 0 <= i < 7 ==> days[i] == WeekStart(today, currentWeek) + i
  {
    var monday := WeekStart(today, currentWeek);
    days := [];
    var i := 0;
    while i < 7
      invariant 0 <= i <= 7 && |days| == i
      invariant forall k :: 0 <= k < i ==> days[k] == monday + k
    {
      days := days + [monday + i];
      i := i + 1;
    }
  }

  /** From Monday to Saturday the week shown starts on a Monday, and in week
      0 it holds today. */
  lemma WeekStartMonday(today: int, currentWeek: int)
    requires WeekDayOf(today) != 0
    ensures WeekDayOf(WeekStart(today, currentWeek)) == 1
    ensures currentWeek == 0 ==> WeekStart(today, 0) <= today < WeekStart(today, 0) + 7
  {
    var w := WeekDayOf(today);
    assert today + 4 == 7 * ((today + 4) / 7) + w;
    assert WeekStart(today, currentWeek) + 4 == 7 * ((today + 4) / 7 + currentWeek) + 1;
  }

  /** On a Sunday, week 0 starts tomorrow: today is not among the days
      shown. */
  lemma SundayShowsNextWeek(today: int)
    requires WeekDayOf(today) == 0
    ensures WeekStart(today, 0) == today + 1
    ensures !(WeekStart(today, 0) <= today < WeekStart(today, 0) + 7)
  {
  }

  /** The week start evidently meant: the Monday on or before today, plus
      seven days per week of offset. */
  function IntendedWeekStart(today: int, currentWeek: int): int {
    today - (WeekDayOf(today) + 6) % 7 + 7 * currentWeek
  }

  /** The intended week always starts on a Monday and, in week 0, holds
      today; it differs from the computed one only on Sundays. */
  lemma IntendedWeekStartMonday(today: int, currentWeek: int)
    ensures WeekDayOf(IntendedWeekStart(today, currentWeek)) == 1
    ensures IntendedWeekStart(today, 0) <= today < IntendedWeekStart(today, 0) + 7
    ensures WeekDayOf(today) != 0 ==> IntendedWeekStart(today, currentWeek) == WeekStart(today, currentWeek)
    ensures WeekDayOf(today) == 0 ==> IntendedWeekStart(today, currentWeek) == WeekStart(today, currentWeek) - 7
  {
    var w := WeekDayOf(today);
    assert today + 4 == 7 * ((today + 4) / 7) + w;
    if w == 0 {
      assert IntendedWeekStart(today, currentWeek) + 4 == 7 * ((today + 4) / 7 + currentWeek - 1) + 1;
    } else {
      assert (w + 6) % 7 == w - 1;
      assert IntendedWeekStart(today, currentWeek) + 4 == 7 * ((today + 4) / 7 + currentWeek) + 1;
    }
  }
}
