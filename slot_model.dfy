/** The availability-slot document: a mentor's bookable time range, its
    meeting type, and the booking that fills it. */
module SlotModel {
  import opened Common
  import opened Base

  /** The meeting-type enum shared by slots and appointments. */
  predicate IsMeetingType(t: string) {
    t == "virtual" || t == "in-person"
  }

  /** Times are milliseconds since the epoch; `duration` is in minutes. */
  datatype Slot = Slot(
    mentorId: Id,
    start: int,
    end: int,
    meetingType: string,
    location: string,
    meetingLink: string,
    isBooked: bool,
    appointmentId: Option<Id>,
    studentId: Option<Id>,
    notes: string,
    duration: int,
    createdAt: int,
    updatedAt: int)

  /** The values a new slot document is built from; `None` is a value left
      undefined. */
  datatype SlotInit = SlotInit(
    mentorId: Option<Id>,
    start: Option<int>,
    end: Option<int>,
    meetingType: Option<string>,
    location: Option<string>,
    meetingLink: Option<string>,
    notes: Option<string>,
    duration: Option<int>)

  /** What validation on save demands of a slot whose required paths are
      set: a type from the enum. */
  predicate SlotAccepted(s: Slot) {
    IsMeetingType(s.meetingType)
  }

  /** A slot names its student and its appointment exactly when it is
      booked. */
  predicate BookingConsistent(s: Slot) {
    (s.isBooked <==> s.studentId.Some?) && (s.isBooked <==> s.appointmentId.Some?)
  }

  /** Building and saving a new slot at time `now`: `None` when validation
      rejects it, otherwise the document with the schema's defaults filled in. */
  function NewSlot(init: SlotInit, now: int): (r: Option<Slot>)
    ensures r.Some? <==> init.mentorId.Some? && init.start.Some? && init.end.Some? &&
                         init.duration.Some? && init.meetingType.Some? &&
                         IsMeetingType(init.meetingType.value)
    ensures r.Some? ==> var s := r.value;
      && s.mentorId == init.mentorId.value && s.start == init.start.value
      && s.end == init.end.value && s.duration == init.duration.value
      && s.meetingType == init.meetingType.value
      && s.location == OrElse(init.location, "")
      && s.meetingLink == OrElse(init.meetingLink, "")
      && s.notes == OrElse(init.notes, "")
      && !s.isBooked && s.appointmentId.None? && s.studentId.None?
      && s.createdAt == now && s.updatedAt == now
    ensures r.Some? ==> SlotAccepted(r.value) && BookingConsistent(r.value)
  {
    if init.mentorId.None? || init.start.None? || init.end.None? || init.duration.None? ||
       init.meetingType.None? || !IsMeetingType(init.meetingType.value)
    then None
    else Some(Slot(init.mentorId.value, init.start.value, init.end.value,
                   init.meetingType.value, OrElse(init.location, ""),
                   OrElse(init.meetingLink, ""), false, None, None,
                   OrElse(init.notes, ""), init.duration.value, now, now))
  }

  /** The pre-save hook: `updatedAt` becomes the time of the save and
      nothing else changes. */
  function SlotTouched(s: Slot, now: int): (r: Slot)
    ensures r.updatedAt == now
    ensures r.(updatedAt := s.updatedAt) == s
  {
    s.(updatedAt := now)
  }

  /** The duration in minutes derived from a time range: `Math.round` of the
      length in milliseconds over 60000. */
  function DurationMinutes(start: int, end: int): (m: int)
    ensures 120000 * m <= 2 * (end - start) + 60000 < 120000 * (m + 1)
    ensures start < end ==> m >= 0
  {
    RoundDiv(end - start, 60000)
  }
}
