/** The appointment document: a session between a student and a mentor at
    a scheduled time, with its meeting details and status. */
module AppointmentModel {
  import opened Common
  import opened Base
  import opened SlotModel

  /** The status enum; an appointment is created `confirmed` unless told
      otherwise. */
  predicate IsStatus(s: string) {
    s == "pending" || s == "confirmed" || s == "cancelled" || s == "completed"
  }

  datatype Appointment = Appointment(
    studentId: Id,
    mentorId: Id,
    meetingType: string,
    scheduledDate: int,
    duration: int,
    location: string,
    meetingLink: string,
    status: string,
    notes: string,
    createdAt: int,
    updatedAt: int)

  datatype AppointmentInit = AppointmentInit(
    studentId: Option<Id>,
    mentorId: Option<Id>,
    meetingType: Option<string>,
    scheduledDate: Option<int>,
    duration: Option<int>,
    location: Option<string>,
    meetingLink: Option<string>,
    status: Option<string>,
    notes: Option<string>)

  /** What validation on save demands of a stored appointment. */
  predicate AppointmentAccepted(a: Appointment) {
    IsMeetingType(a.meetingType) && IsStatus(a.status)
  }

  /** Building and saving a new appointment at time `now`: `None` when a
      required value is missing or an enum is violated, otherwise the document
      with the defaults filled in (30 minutes, `confirmed`, empty strings). */
  function NewAppointment(init: AppointmentInit, now: int): (r: Option<Appointment>)
    ensures r.Some? <==> init.studentId.Some? && init.mentorId.Some? && init.scheduledDate.Some? &&
                         init.meetingType.Some? && IsMeetingType(init.meetingType.value) &&
                         IsStatus(OrElse(init.status, "confirmed"))
    ensures r.Some? ==> var a := r.value;
      && a.studentId == init.studentId.value && a.mentorId == init.mentorId.value
      && a.meetingType == init.meetingType.value && a.scheduledDate == init.scheduledDate.value
      && a.duration == OrElse(init.duration, 30)
      && a.location == OrElse(init.location, "")
      && a.meetingLink == OrElse(init.meetingLink, "")
      && a.status == OrElse(init.status, "confirmed")
      && a.notes == OrElse(init.notes, "")
      && a.createdAt == now && a.updatedAt == now
    ensures r.Some? ==> AppointmentAccepted(r.value)
  {
    if init.studentId.None? || init.mentorId.None? || init.scheduledDate.None? ||
       init.meetingType.None? || !IsMeetingType(init.meetingType.value) ||
       !IsStatus(OrElse(init.status, "confirmed"))
    then None
    else Some(Appointment(init.studentId.value, init.mentorId.value, init.meetingType.value,
                          init.scheduledDate.value, OrElse(init.duration, 30),
                          OrElse(init.location, ""), OrElse(init.meetingLink, ""),
                          OrElse(init.status, "confirmed"), OrElse(init.notes, ""), now, now))
  }

  /** The pre-save hook: `updatedAt` becomes the time of the save and
      nothing else changes. */
  function AppointmentTouched(a: Appointment, now: int): (r: Appointment)
    ensures r.updatedAt == now
    ensures r.(updatedAt := a.updatedAt) == a
  {
    a.(updatedAt := now)
  }
}
