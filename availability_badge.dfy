/** The badge on a mentor's card: whether the mentor has a free slot ahead
    and how soon the first one is. */
module AvailabilityBadge {
  import opened Common
  import opened Calendar

  /** How soon the next slot is, as the badge words it. */
  datatype TimeLabel = Today | Tomorrow | InDays(n: int) | OnDate(start: int)

  /** What the badge shows: a failed request, no free slot, or the first
      free slot with its label and the number of free slots. */
  datatype BadgeStatus =
    | InfoUnavailable
    | Unavailable
    | Available(timeLabel: TimeLabel, nextSlot: SlotView, slotsCount: nat)

  /** `daysUntil`: the time to the start in days, rounded up. */
  function DaysUntil(start: int, now: int): (d: int)
    ensures (d - 1) * DAY < start - now <= d * DAY
  {
    CeilDiv(start - now, DAY)
  }

  /** The label as the badge computes it, from the rounded-up number of
      days: a start within the coming 24 hours reads "tomorrow", and only a
      start no later than now reads "today". */
  function BadgeLabel(start: int, now: int): (l: TimeLabel)
    ensures l == Today <==> now - DAY < start <= now
    ensures l == Tomorrow <==> now < start <= now + DAY
    ensures l.InDays? <==> (start <= now - DAY || now + DAY < start <= now + 6 * DAY)
    ensures l.InDays? ==> l.n == DaysUntil(start, now) && l.n != 0 && l.n != 1 && l.n < 7
    ensures l.OnDate? <==> now + 6 * DAY < start
    ensures l.OnDate? ==> l.start == start
  {
    var d := DaysUntil(start, now);
    if d == 0 then Today
    else if d == 1 then Tomorrow
    else if d < 7 then InDays(d)
    else OnDate(start)
  }

  /** `loadStatus`: `response` is the list of free slots, earliest first,
      or None when the request fails. */
  function LoadStatus(response: Option<seq<SlotView>>, now: int): (r: BadgeStatus)
    ensures r == InfoUnavailable <==> response.None?
    ensures r == Unavailable <==> response == Some([])
    ensures r.Available? <==> response.Some? && response.value != []
    ensures r.Available? ==> r.nextSlot == response.value[0] && r.slotsCount == |response.value|
    ensures r.Available? ==> r.timeLabel == BadgeLabel(response.value[0].start, now)
  {
    if response.None? then InfoUnavailable
    else if response.value == [] then Unavailable
    else Available(BadgeLabel(response.value[0].start, now), response.value[0], |response.value|)
  }

  /** The free slots come from a server that only lists slots starting
      after the moment it answered, so by the time the badge renders them
      a slot that has not begun can never read "today". */
  lemma NotYetStartedNeverToday(response: seq<SlotView>, now: int)
    requires response != [] && response[0].start > now
    ensures LoadStatus(Some(response), now).timeLabel != Today
  {
  }

  /** A slot later on the same day reads "tomorrow": at 8:00, a slot at
      10:00 the same day. */
  lemma LaterTodayReadsTomorrow(day: int)
    ensures DayOf(At(day, 10)) == DayOf(At(day, 8))
    ensures BadgeLabel(At(day, 10), At(day, 8)) == Tomorrow
  {
    AtFacts(day, 10);
    AtFacts(day, 8);
  }

  /** The label evidently intended: by calendar days between the two dates,
      as the slot preview compares them. */
  function CalendarLabel(start: int, now: int): (l: TimeLabel)
    ensures l == Today <==> DayOf(start) == DayOf(now)
    ensures l == Tomorrow <==> DayOf(start) == DayOf(now) + 1
    ensures l.InDays? <==> (DayOf(start) < DayOf(now) || DayOf(now) + 1 < DayOf(start) < DayOf(now) + 7)
    ensures l.InDays? ==> l.n == DayOf(start) - DayOf(now)
    ensures l.OnDate? <==> DayOf(now) + 7 <= DayOf(start)
  {
    var d := DayOf(start) - DayOf(now);
    if d == 0 then Today
    else if d == 1 then Tomorrow
    else if d < 7 then InDays(d)
    else OnDate(start)
  }

  /** With the calendar label, the same 10:00 slot seen at 8:00 reads
      "today", and a slot on the next date reads "tomorrow" whatever the
      hours. */
  lemma CalendarLabelOfLaterToday(day: int, h1: int, h2: int)
    requires 0 <= h1 < 24 && 0 <= h2 < 24
    ensures CalendarLabel(At(day, h2), At(day, h1)) == Today
    ensures CalendarLabel(At(day + 1, h2), At(day, h1)) == Tomorrow
  {
    AtFacts(day, h1);
    AtFacts(day, h2);
    AtFacts(day + 1, h2);
  }
}
