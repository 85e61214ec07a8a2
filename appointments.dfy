/** The appointment handlers: a student books a session with a connected
    mentor at a free time, either participant cancels it, and a mentor
    publishes weekly availability settings. */
module Appointments {
  import opened Common
  import opened Base
  import opened Sorting
  import opened SlotModel
  import opened AppointmentModel
  import opened UserModel
  import opened Store

  /** The placeholder meeting service a virtual session gets a link on. */
  const MEET_URL := "https://meet.example.com/"

  /** The mentor already has a session at exactly that time that is not
      cancelled. */
  predicate Clash(appointments: map<Id, Appointment>, mentorId: Id, date: int) {
    exists i :: i in appointments && Busy(appointments[i], mentorId, date)
  }

  predicate Busy(a: Appointment, mentorId: Id, date: int) {
    a.mentorId == mentorId && a.scheduledDate == date && a.status != "cancelled"
  }

  /** The document a booking asks for: a link on the meeting service, made
      from the given unique token, for a virtual session only, and the
      location for an in-person session only. */
  function SessionInit(student: Id, mentorId: Id, meetingType: Option<string>, date: int,
                       duration: Option<int>, location: Option<string>, notes: Option<string>,
                       token: string): (init: AppointmentInit)
    ensures init.meetingLink.Some? && (init.meetingLink.value != "" <==> meetingType == Some("virtual"))
    ensures init.location == if meetingType == Some("in-person") then location else Some("")
    ensures init.status == Some("confirmed") && init.scheduledDate == Some(date)
  {
    AppointmentInit(Some(student), Some(mentorId), meetingType, Some(date), duration,
                    if meetingType == Some("in-person") then location else Some(""),
                    Some(if meetingType == Some("virtual") then MEET_URL + token else ""),
                    Some("confirmed"), notes)
  }

  /** The database after a booking stores the session `x` under the next id
      and notifies the mentor, then the student, under the two ids after it. */
  function SessionBookedState(st: DbState, me: Id, mentorId: Id, x: Appointment, now: int): DbState {
    var a := st.nextId;
    st.(appointments := st.appointments[a := x],
        notifications := st.notifications[a + 1 := NewNotification(Some(mentorId), "appointment", a, now)]
                                         [a + 2 := NewNotification(Some(me), "appointment", a, now)],
        nextId := a + 3)
  }

  /** Storing an accepted session with its two notifications keeps the
      invariant. */
  lemma SessionBookedValid(st: DbState, me: Id, mentorId: Id, x: Appointment, now: int)
    requires ValidState(st) && AppointmentAccepted(x)
    ensures ValidState(SessionBookedState(st, me, mentorId, x, now))
  {
    var r := SessionBookedState(st, me, mentorId, x, now);
    assert r.users == st.users && r.slots == st.slots && r.internships == st.internships && r.messages == st.messages;
    assert AppointmentsOk(r.appointments);
    assert IdsBelow(r);
  }

  /** The write phase of a booking. */
  method StoreSession(db: Db, me: Id, mentorId: Id, x: Appointment, now: int) returns (a: Id)
    requires db.Valid() && AppointmentAccepted(x)
    modifies db
    ensures db.Valid()
    ensures a == old(db.nextId)
    ensures db.State() == SessionBookedState(old(db.State()), me, mentorId, x, now)
  {
    ghost var st := db.State();
    SessionBookedValid(st, me, mentorId, x, now);
    a := db.nextId;
    db.appointments := db.appointments[a := x];
    db.notifications := db.notifications[a + 1 := NewNotification(Some(mentorId), "appointment", a, now)]
                                        [a + 2 := NewNotification(Some(me), "appointment", a, now)];
    db.nextId := a + 3;
    assert db.State() == SessionBookedState(st, me, mentorId, x, now);
  }

  /** The guard chain of a booking, in its fixed order: the target is a
      mentor (404), the requester's own document is found (500 otherwise, as
      reading its connections fails), the requester is connected to the
      mentor (403), the date is a date (500), the mentor is free at that time
      (400). */
  function SessionGuard(st: DbState, me: Id, mentorId: Id, scheduledDate: Option<int>): (status: int)
    ensures status == NOT_FOUND <==> mentorId !in st.users || st.users[mentorId].role != "mentor"
    ensures status == FORBIDDEN <==> (mentorId in st.users && st.users[mentorId].role == "mentor" &&
                                      me in st.users && mentorId !in st.users[me].connections)
    ensures status == BAD_REQUEST <==> (mentorId in st.users && st.users[mentorId].role == "mentor" &&
      me in st.users && mentorId in st.users[me].connections && scheduledDate.Some? &&
      Clash(st.appointments, mentorId, scheduledDate.value))
    ensures status == OK <==> (mentorId in st.users && st.users[mentorId].role == "mentor" &&
      me in st.users && mentorId in st.users[me].connections && scheduledDate.Some? &&
      !Clash(st.appointments, mentorId, scheduledDate.value))
    ensures status in {NOT_FOUND, SERVER_ERROR, FORBIDDEN, BAD_REQUEST, OK}
  {
    if mentorId !in st.users || st.users[mentorId].role != "mentor" then NOT_FOUND
    else if me !in st.users then SERVER_ERROR
    else if mentorId !in st.users[me].connections then FORBIDDEN
    else if scheduledDate.None? then SERVER_ERROR
    else if Clash(st.appointments, mentorId, scheduledDate.value) then BAD_REQUEST
    else OK
  }

  /** Book a session: the guard chain, then validation of the session type
      (500). A booking creates a `confirmed` appointment and notifies both
      participants. */
  method BookAppointment(db: Db, me: Id, mentorId: Id, meetingType: Option<string>, scheduledDate: Option<int>,
                         duration: Option<int>, location: Option<string>, notes: Option<string>,
                         token: string, now: int)
    returns (status: int, id: Option<Id>)
    requires db.Valid()
    modifies db
    ensures db.Valid()
    ensures SessionGuard(old(db.State()), me, mentorId, scheduledDate) != OK ==>
              status == SessionGuard(old(db.State()), me, mentorId, scheduledDate)
    ensures status == CREATED <==> (SessionGuard(old(db.State()), me, mentorId, scheduledDate) == OK &&
                                    meetingType.Some? && IsMeetingType(meetingType.value))
    ensures status != CREATED ==> id.None? && db.State() == old(db.State())
    ensures status == CREATED ==> id == Some(old(db.nextId))
    ensures status == CREATED ==>
      var made := NewAppointment(SessionInit(me, mentorId, meetingType, scheduledDate.value, duration,
                                             location, notes, token), now);
      made.Some? && db.State() == SessionBookedState(old(db.State()), me, mentorId, made.value, now)
  {
    status := SessionGuard(db.State(), me, mentorId, scheduledDate);
    if status != OK {
      return status, None;
    }
    var date := scheduledDate.value;
    var made := NewAppointment(SessionInit(me, mentorId, meetingType, date, duration, location, notes, token), now);
    if made.None? {
      return SERVER_ERROR, None;
    }
    var a := StoreSession(db, me, mentorId, made.value, now);
    return CREATED, Some(a);
  }

  /** The query of "my appointments": the requester takes part, the status
      is the one asked for when one is asked for, and the session is not in
      the past when only upcoming ones are asked for. */
  predicate Mine(a: Appointment, me: Id, status: Option<string>, upcoming: Option<string>, now: int) {
    && (a.studentId == me || a.mentorId == me)
    && (Truthy(status) ==> a.status == status.value)
    && (upcoming == Some("true") ==> a.scheduledDate >= now)
  }

  function DateOf(e: (Id, Appointment)): int {
    e.1.scheduledDate
  }

  /** The requester's appointments, by scheduled date. */
  method GetMyAppointments(db: Db, me: Id, status: Option<string>, upcoming: Option<string>, now: int)
    returns (r: seq<(Id, Appointment)>)
    requires db.Valid()
    ensures forall k :: 0 <= k < |r| ==> r[k].0 in db.appointments && db.appointments[r[k].0] == r[k].1
    ensures forall k :: 0 <= k < |r| ==> Mine(r[k].1, me, status, upcoming, now)
    ensures forall i :: i in db.appointments && Mine(db.appointments[i], me, status, upcoming, now) ==>
              (i, db.appointments[i]) in r
    ensures forall a, b :: 0 <= a < b < |r| ==> r[a].0 != r[b].0
    ensures SortedBy(r, DateOf)
  {
    r := SelectSorted(db.appointments, db.nextId, (a: Appointment) => Mine(a, me, status, upcoming, now), DateOf);
  }

  /** The database after `me` cancels appointment `id`: it is `cancelled`
      and saved, and the other participant is notified under the next id. */
  function CancelledState(st: DbState, me: Id, id: Id, now: int): DbState
    requires id in st.appointments
  {
    var a := st.appointments[id];
    var other := if a.studentId == me then a.mentorId else a.studentId;
    st.(appointments := st.appointments[id := AppointmentTouched(a.(status := "cancelled"), now)],
        notifications := st.notifications[st.nextId := NewNotification(Some(other), "appointment", id, now)],
        nextId := st.nextId + 1)
  }

  /** Cancelling keeps the invariant. */
  lemma CancelledStateValid(st: DbState, me: Id, id: Id, now: int)
    requires ValidState(st) && id in st.appointments
    ensures ValidState(CancelledState(st, me, id, now))
  {
    var r := CancelledState(st, me, id, now);
    assert r.users == st.users && r.slots == st.slots && r.internships == st.internships && r.messages == st.messages;
    assert AppointmentsOk(r.appointments);
    assert IdsBelow(r);
  }

  /** Cancel an appointment one takes part in, whatever its status: the
      status becomes `cancelled`, nothing else about it changes but the
      save time, and the other participant is notified. */
  method CancelAppointment(db: Db, me: Id, id: Id, now: int) returns (status: int, other: Option<Id>)
    requires db.Valid()
    modifies db
    ensures db.Valid()
    ensures status == NOT_FOUND <==> id !in old(db.appointments)
    ensures status == FORBIDDEN <==> (id in old(db.appointments) &&
      old(db.appointments[id]).studentId != me && old(db.appointments[id]).mentorId != me)
    ensures status == OK <==> (id in old(db.appointments) &&
      (old(db.appointments[id]).studentId == me || old(db.appointments[id]).mentorId == me))
    ensures status != OK ==> other.None? && db.State() == old(db.State())
    ensures status == OK ==> other == Some(if old(db.appointments[id]).studentId == me
                                           then old(db.appointments[id]).mentorId
                                           else old(db.appointments[id]).studentId)
    ensures status == OK ==> db.State() == CancelledState(old(db.State()), me, id, now)
  {
    if id !in db.appointments {
      return NOT_FOUND, None;
    }
    var a := db.appointments[id];
    if a.studentId != me && a.mentorId != me {
      return FORBIDDEN, None;
    }
    ghost var st := db.State();
    CancelledStateValid(st, me, id, now);
    other := Some(if a.studentId == me then a.mentorId else a.studentId);
    var n := db.nextId;
    db.appointments := db.appointments[id := AppointmentTouched(a.(status := "cancelled"), now)];
    db.notifications := db.notifications[n := NewNotification(other, "appointment", id, now)];
    db.nextId := n + 1;
    assert db.State() == CancelledState(st, me, id, now);
    status := OK;
  }

  /** A mentor's weekly availability settings: 404 for anyone but a mentor;
      nothing on offer while they are disabled. */
  method GetMentorAvailability(db: Db, mentorId: Id)
    returns (status: int, available: bool, virtualCoffeeSlots: seq<WeeklySlot>, inPersonSlots: seq<WeeklySlot>)
    ensures status == NOT_FOUND <==> mentorId !in db.users || db.users[mentorId].role != "mentor"
    ensures status == OK <==> mentorId in db.users && db.users[mentorId].role == "mentor"
    ensures status == OK ==>
      var av := db.users[mentorId].mentorInfo.availability;
      && available == av.enabled
      && virtualCoffeeSlots == (if av.enabled then av.virtualCoffeeSlots else [])
      && inPersonSlots == (if av.enabled then av.inPersonSlots else [])
    ensures status == NOT_FOUND ==> !available && virtualCoffeeSlots == [] && inPersonSlots == []
  {
    if mentorId !in db.users || db.users[mentorId].role != "mentor" {
      return NOT_FOUND, false, [], [];
    }
    var av := db.users[mentorId].mentorInfo.availability;
    if !av.enabled {
      return OK, false, [], [];
    }
    return OK, true, av.virtualCoffeeSlots, av.inPersonSlots;
  }

  /** The settings after an update: `enabled` is kept when not given, and
      each list is kept when not given; the assigned object is cast by the
      schema, which drops a virtual slot's location and an in-person slot's
      duration. */
  function NewAvailability(old_: Availability, enabled: Option<bool>, virtualCoffeeSlots: Option<seq<WeeklySlot>>,
                           inPersonSlots: Option<seq<WeeklySlot>>): (av: Availability)
    ensures av.enabled == OrElse(enabled, old_.enabled)
    ensures av.virtualCoffeeSlots == StrictVirtual(OrElse(virtualCoffeeSlots, old_.virtualCoffeeSlots))
    ensures av.inPersonSlots == StrictInPerson(OrElse(inPersonSlots, old_.inPersonSlots))
  {
    StrictAvailability(Availability(OrElse(enabled, old_.enabled), OrElse(virtualCoffeeSlots, old_.virtualCoffeeSlots),
                                    OrElse(inPersonSlots, old_.inPersonSlots)))
  }

  /** Replace the requester's weekly availability settings: 403 for anyone
      but a mentor, 500 when a day of the week is out of range. */
  method UpdateAvailability(db: Db, me: Id, enabled: Option<bool>, virtualCoffeeSlots: Option<seq<WeeklySlot>>,
                            inPersonSlots: Option<seq<WeeklySlot>>, now: int)
    returns (status: int)
    requires db.Valid()
    modifies db
    ensures db.Valid()
    ensures status == FORBIDDEN <==> me !in old(db.users) || old(db.users[me]).role != "mentor"
    ensures status == OK <==> (me in old(db.users) && old(db.users[me]).role == "mentor" &&
      AvailabilityAccepted(NewAvailability(old(db.users[me]).mentorInfo.availability, enabled,
                                           virtualCoffeeSlots, inPersonSlots)))
    ensures status in {FORBIDDEN, SERVER_ERROR, OK}
    ensures status != OK ==> db.State() == old(db.State())
    ensures status == OK ==>
      var u := old(db.users[me]);
      var av := NewAvailability(u.mentorInfo.availability, enabled, virtualCoffeeSlots, inPersonSlots);
      db.State() == old(db.State()).(users := old(db.users)[me := UserTouched(u.(mentorInfo := u.mentorInfo.(availability := av)), now)])
  {
    if me !in db.users || db.users[me].role != "mentor" {
      return FORBIDDEN;
    }
    var u := db.users[me];
    var av := NewAvailability(u.mentorInfo.availability, enabled, virtualCoffeeSlots, inPersonSlots);
    var updated := UserTouched(u.(mentorInfo := u.mentorInfo.(availability := av)), now);
    assert UserAccepted(u);
    if !AvailabilityAccepted(av) {
      return SERVER_ERROR;
    }
    ghost var st := db.State();
    PutUserValid(st, me, updated);
    db.users := db.users[me := updated];
    assert db.State() == st.(users := st.users[me := updated]);
    status := OK;
  }
}
