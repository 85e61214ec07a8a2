/** The availability-slot handlers: a mentor publishes, edits, moves and
    deletes time ranges; a student books one, which creates its appointment,
    and either party cancels the booking. Every handler answers with an HTTP
    status and leaves the database unchanged unless it reports success. */
module Availability {
  import opened Common
  import opened Base
  import opened Sorting
  import opened SlotModel
  import opened AppointmentModel
  import opened Store

  const DAY_MS := 86400000

  /** The guard chain shared by update, move and delete, in its fixed order:
      the slot exists, the requester is its mentor, it is not booked. */
  function SlotGuard(slots: map<Id, Slot>, me: Id, slotId: Id): (status: int)
    ensures status == NOT_FOUND <==> slotId !in slots
    ensures status == FORBIDDEN <==> slotId in slots && slots[slotId].mentorId != me
    ensures status == BAD_REQUEST <==> slotId in slots && slots[slotId].mentorId == me && slots[slotId].isBooked
    ensures status == OK <==> slotId in slots && slots[slotId].mentorId == me && !slots[slotId].isBooked
  {
    if slotId !in slots then NOT_FOUND
    else if slots[slotId].mentorId != me then FORBIDDEN
    else if slots[slotId].isBooked then BAD_REQUEST
    else OK
  }

  /** Create a slot for the requester: 400 without both dates or when the
      range is empty, 500 when validation rejects the type, else 201 with a
      new unbooked slot whose duration is the range in minutes. */
  method CreateSlot(db: Db, me: Id, start: Option<int>, end: Option<int>, meetingType: Option<string>,
                    location: Option<string>, meetingLink: Option<string>, notes: Option<string>, now: int)
    returns (status: int, id: Option<Id>)
    requires db.Valid()
    modifies db
    ensures db.Valid()
    ensures status == BAD_REQUEST <==> start.None? || end.None? || start.value >= end.value
    ensures status == CREATED <==> start.Some? && end.Some? && start.value < end.value &&
                                   meetingType.Some? && IsMeetingType(meetingType.value)
    ensures status == BAD_REQUEST || status == CREATED || status == SERVER_ERROR
    ensures status != CREATED ==> id.None? && db.State() == old(db.State())
    ensures status == CREATED ==>
      id.Some? && id.value !in old(db.slots) && id.value in db.slots &&
      var s := db.slots[id.value];
      && db.State() == old(db.State()).(slots := old(db.slots)[id.value := s], nextId := id.value + 1)
      && s.mentorId == me && s.start == start.value && s.end == end.value
      && s.meetingType == meetingType.value
      && s.duration == DurationMinutes(start.value, end.value) && s.duration >= 0
      && s.location == OrElse(location, "") && s.meetingLink == OrElse(meetingLink, "")
      && s.notes == OrElse(notes, "")
      && !s.isBooked && s.studentId.None? && s.appointmentId.None?
      && s.createdAt == now && s.updatedAt == now
  {
    if start.None? || end.None? {
      return BAD_REQUEST, None;
    }
    if start.value >= end.value {
      return BAD_REQUEST, None;
    }
    var duration := DurationMinutes(start.value, end.value);
    var slot := NewSlot(SlotInit(Some(me), start, end, meetingType, location, meetingLink, notes, Some(duration)), now);
    if slot.None? {
      return SERVER_ERROR, None;
    }
    var newId := db.nextId;
    ghost var st := db.State();
    assert ValidState(st.(slots := st.slots[newId := slot.value], nextId := newId + 1)) by {
      var r := st.(slots := st.slots[newId := slot.value], nextId := newId + 1);
      assert r.users == st.users && r.appointments == st.appointments && r.internships == st.internships;
      assert SlotsOk(r.slots);
      assert IdsBelow(r);
    }
    db.slots := db.slots[newId := slot.value];
    db.nextId := newId + 1;
    assert db.State() == st.(slots := st.slots[newId := slot.value], nextId := newId + 1);
    return CREATED, Some(newId);
  }

  /** The query of the availability listing: the mentor's unbooked slots that
      start on the given day, or, without a day, from now on. */
  predicate Open(s: Slot, mentorId: Id, date: Option<int>, now: int) {
    && s.mentorId == mentorId && !s.isBooked
    && if date.Some? then
         var dayStart := date.value / DAY_MS * DAY_MS;
         dayStart <= s.start <= dayStart + DAY_MS - 1
       else s.start >= now
  }

  function StartOf(e: (Id, Slot)): int {
    e.1.start
  }

  /** The open slots of a mentor, listed by start time. */
  method GetAvailableSlots(db: Db, mentorId: Id, date: Option<int>, now: int) returns (r: seq<(Id, Slot)>)
    requires db.Valid()
    ensures forall k :: 0 <= k < |r| ==> r[k].0 in db.slots && db.slots[r[k].0] == r[k].1
    ensures forall k :: 0 <= k < |r| ==> Open(r[k].1, mentorId, date, now)
    ensures forall i :: i in db.slots && Open(db.slots[i], mentorId, date, now) ==> (i, db.slots[i]) in r
    ensures forall a, b :: 0 <= a < b < |r| ==> r[a].0 != r[b].0
    ensures SortedBy(r, StartOf)
  {
    r := SelectSorted(db.slots, db.nextId, (s: Slot) => Open(s, mentorId, date, now), StartOf);
  }

  /** The slot after an edit: a start, end or type replaces the old one when
      given and non-empty; location, link and notes whenever given; the
      duration is recomputed from the edited range when either date was
      given. Nothing about the booking changes. */
  function Edited(s: Slot, start: Option<int>, end: Option<int>, meetingType: Option<string>,
                  location: Option<string>, meetingLink: Option<string>, notes: Option<string>): (r: Slot)
    ensures r.start == OrElse(start, s.start) && r.end == OrElse(end, s.end)
    ensures r.meetingType == if Truthy(meetingType) then meetingType.value else s.meetingType
    ensures r.location == OrElse(location, s.location)
    ensures r.meetingLink == OrElse(meetingLink, s.meetingLink)
    ensures r.notes == OrElse(notes, s.notes)
    ensures r.duration == if start.Some? || end.Some? then DurationMinutes(r.start, r.end) else s.duration
    ensures r.mentorId == s.mentorId && r.isBooked == s.isBooked
    ensures r.studentId == s.studentId && r.appointmentId == s.appointmentId
    ensures r.createdAt == s.createdAt && r.updatedAt == s.updatedAt
  {
    var t := s.(start := OrElse(start, s.start), end := OrElse(end, s.end),
                meetingType := if Truthy(meetingType) then meetingType.value else s.meetingType,
                location := OrElse(location, s.location),
                meetingLink := OrElse(meetingLink, s.meetingLink),
                notes := OrElse(notes, s.notes));
    if start.Some? || end.Some? then t.(duration := DurationMinutes(t.start, t.end)) else t
  }

  /** Edit an unbooked slot of one's own. The edited range is not checked:
      an edit may leave the end before the start. */
  method UpdateSlot(db: Db, me: Id, slotId: Id, start: Option<int>, end: Option<int>,
                    meetingType: Option<string>, location: Option<string>, meetingLink: Option<string>,
                    notes: Option<string>, now: int)
    returns (status: int)
    requires db.Valid()
    modifies db
    ensures db.Valid()
    ensures SlotGuard(old(db.slots), me, slotId) != OK ==> status == SlotGuard(old(db.slots), me, slotId)
    ensures status == OK <==>
      SlotGuard(old(db.slots), me, slotId) == OK &&
      IsMeetingType(Edited(old(db.slots[slotId]), start, end, meetingType, location, meetingLink, notes).meetingType)
    ensures (SlotGuard(old(db.slots), me, slotId) == OK &&
             !IsMeetingType(Edited(old(db.slots[slotId]), start, end, meetingType, location, meetingLink, notes).meetingType))
            ==> status == SERVER_ERROR
    ensures status != OK ==> db.State() == old(db.State())
    ensures status == OK ==> db.State() == old(db.State()).(slots := old(db.slots)[slotId :=
      SlotTouched(Edited(old(db.slots[slotId]), start, end, meetingType, location, meetingLink, notes), now)])
  {
    status := SlotGuard(db.slots, me, slotId);
    if status != OK {
      return;
    }
    var edited := Edited(db.slots[slotId], start, end, meetingType, location, meetingLink, notes);
    if !IsMeetingType(edited.meetingType) {
      return SERVER_ERROR;
    }
    db.slots := db.slots[slotId := SlotTouched(edited, now)];
  }

  /** Move an unbooked slot of one's own to a new range, keeping everything
      else; a missing date is an invalid date, which the save rejects. */
  method MoveSlot(db: Db, me: Id, slotId: Id, newStart: Option<int>, newEnd: Option<int>, now: int)
    returns (status: int)
    requires db.Valid()
    modifies db
    ensures db.Valid()
    ensures SlotGuard(old(db.slots), me, slotId) != OK ==> status == SlotGuard(old(db.slots), me, slotId)
    ensures status == OK <==> SlotGuard(old(db.slots), me, slotId) == OK && newStart.Some? && newEnd.Some?
    ensures SlotGuard(old(db.slots), me, slotId) == OK && (newStart.None? || newEnd.None?) ==> status == SERVER_ERROR
    ensures status != OK ==> db.State() == old(db.State())
    ensures status == OK ==>
      var s := old(db.slots[slotId]);
      db.State() == old(db.State()).(slots := old(db.slots)[slotId := SlotTouched(
        s.(start := newStart.value, end := newEnd.value,
           duration := DurationMinutes(newStart.value, newEnd.value)), now)])
  {
    status := SlotGuard(db.slots, me, slotId);
    if status != OK {
      return;
    }
    if newStart.None? || newEnd.None? {
      return SERVER_ERROR;
    }
    var s := db.slots[slotId];
    var moved := s.(start := newStart.value, end := newEnd.value,
                    duration := DurationMinutes(newStart.value, newEnd.value));
    db.slots := db.slots[slotId := SlotTouched(moved, now)];
  }

  /** Delete an unbooked slot of one's own. */
  method DeleteSlot(db: Db, me: Id, slotId: Id) returns (status: int)
    requires db.Valid()
    modifies db
    ensures db.Valid()
    ensures status == SlotGuard(old(db.slots), me, slotId)
    ensures status != OK ==> db.State() == old(db.State())
    ensures status == OK ==> db.State() == old(db.State()).(slots := old(db.slots) - {slotId})
  {
    status := SlotGuard(db.slots, me, slotId);
    if status != OK {
      return;
    }
    db.slots := db.slots - {slotId};
  }

  /** The appointment a booking creates: the student, the slot's mentor,
      type, start, duration, location and link, `confirmed`, and the
      student's notes unless they are empty, in which case the slot's. */
  function Booking(s: Slot, student: Id, notes: Option<string>, now: int): (a: Appointment)
    requires SlotAccepted(s)
    ensures a.studentId == student && a.mentorId == s.mentorId
    ensures a.meetingType == s.meetingType && a.scheduledDate == s.start && a.duration == s.duration
    ensures a.location == s.location && a.meetingLink == s.meetingLink
    ensures a.status == "confirmed"
    ensures a.notes == if Truthy(notes) then notes.value else s.notes
    ensures a.createdAt == now && a.updatedAt == now
    ensures AppointmentAccepted(a)
  {
    NewAppointment(AppointmentInit(Some(student), Some(s.mentorId), Some(s.meetingType), Some(s.start),
                                   Some(s.duration), Some(s.location), Some(s.meetingLink), Some("confirmed"),
                                   Some(if Truthy(notes) then notes.value else s.notes)), now).value
  }

  /** The database after the two writes of a booking of the free slot
      `slotId` by the student `me`: the appointment under the next id, and
      the slot booked by `me` for it. */
  function TakenState(st: DbState, me: Id, slotId: Id, notes: Option<string>, now: int): DbState
    requires slotId in st.slots && SlotAccepted(st.slots[slotId])
  {
    var s := st.slots[slotId];
    var a := st.nextId;
    st.(appointments := st.appointments[a := Booking(s, me, notes, now)],
        slots := st.slots[slotId := SlotTouched(s.(isBooked := true, appointmentId := Some(a), studentId := Some(me)), now)],
        nextId := a + 1)
  }

  /** The database after a whole booking: the two writes, then a
      notification to the mentor about the appointment. */
  function BookedState(st: DbState, me: Id, slotId: Id, notes: Option<string>, now: int): DbState
    requires slotId in st.slots && SlotAccepted(st.slots[slotId])
  {
    Notified(TakenState(st, me, slotId, notes, now), Some(st.slots[slotId].mentorId), "appointment", st.nextId, now)
  }

  /** Booking keeps the invariant, after the two writes and after the
      notification. */
  lemma BookedStateValid(st: DbState, me: Id, slotId: Id, notes: Option<string>, now: int)
    requires ValidState(st) && slotId in st.slots && !st.slots[slotId].isBooked
    ensures ValidState(TakenState(st, me, slotId, notes, now))
    ensures ValidState(BookedState(st, me, slotId, notes, now))
  {
    var r := TakenState(st, me, slotId, notes, now);
    assert r.users == st.users && r.internships == st.internships && r.messages == st.messages;
    assert AppointmentsOk(r.appointments) && SlotsOk(r.slots);
    assert IdsBelow(r);
    NotifiedValid(r, Some(st.slots[slotId].mentorId), "appointment", st.nextId, now);
  }

  /** Book a free slot: 404 for an unknown slot, 400 for a booked one;
      otherwise the appointment is created and the slot records it and the
      student. The notification names the student, so without a user
      document for the student the handler fails after those writes;
      otherwise the mentor is notified. Then the handler emits through a
      `global.io` that no module of the server assigns, which throws, so
      every booking of a free slot answers 500 after its writes. */
  method BookSlot(db: Db, me: Id, slotId: Id, notes: Option<string>, now: int)
    returns (status: int, appointmentId: Option<Id>)
    requires db.Valid()
    modifies db
    ensures db.Valid()
    ensures status != OK
    ensures status == NOT_FOUND <==> slotId !in old(db.slots)
    ensures status == BAD_REQUEST <==> slotId in old(db.slots) && old(db.slots[slotId]).isBooked
    ensures status == SERVER_ERROR <==> slotId in old(db.slots) && !old(db.slots[slotId]).isBooked
    ensures status == NOT_FOUND || status == BAD_REQUEST ==>
      appointmentId.None? && db.State() == old(db.State())
    ensures status == SERVER_ERROR ==> appointmentId == Some(old(db.nextId))
    ensures status == SERVER_ERROR && me !in old(db.users) ==>
      db.State() == TakenState(old(db.State()), me, slotId, notes, now)
    ensures status == SERVER_ERROR && me in old(db.users) ==>
      db.State() == BookedState(old(db.State()), me, slotId, notes, now)
  {
    if slotId !in db.slots {
      return NOT_FOUND, None;
    }
    if db.slots[slotId].isBooked {
      return BAD_REQUEST, None;
    }
    var _, a := CompleteBooking(db, me, slotId, notes, now);
    return SERVER_ERROR, Some(a);
  }

  /** The booking handler as evidently intended, with an emitter that
      exists: the same checks and writes, and 200 whenever the mentor's
      notification is stored. */
  method IntendedBookSlot(db: Db, me: Id, slotId: Id, notes: Option<string>, now: int)
    returns (status: int, appointmentId: Option<Id>)
    requires db.Valid()
    modifies db
    ensures db.Valid()
    ensures status == NOT_FOUND <==> slotId !in old(db.slots)
    ensures status == BAD_REQUEST <==> slotId in old(db.slots) && old(db.slots[slotId]).isBooked
    ensures status == SERVER_ERROR <==>
      slotId in old(db.slots) && !old(db.slots[slotId]).isBooked && me !in old(db.users)
    ensures status == OK <==>
      slotId in old(db.slots) && !old(db.slots[slotId]).isBooked && me in old(db.users)
    ensures status == NOT_FOUND || status == BAD_REQUEST ==>
      appointmentId.None? && db.State() == old(db.State())
    ensures status == SERVER_ERROR || status == OK ==> appointmentId == Some(old(db.nextId))
    ensures status == SERVER_ERROR ==> db.State() == TakenState(old(db.State()), me, slotId, notes, now)
    ensures status == OK ==> db.State() == BookedState(old(db.State()), me, slotId, notes, now)
  {
    if slotId !in db.slots {
      return NOT_FOUND, None;
    }
    if db.slots[slotId].isBooked {
      return BAD_REQUEST, None;
    }
    var notified, a := CompleteBooking(db, me, slotId, notes, now);
    return if notified then OK else SERVER_ERROR, Some(a);
  }

  /** The writes of a booking of a free slot, and the mentor's notification
      when the student has a user document. */
  method CompleteBooking(db: Db, me: Id, slotId: Id, notes: Option<string>, now: int)
    returns (notified: bool, a: Id)
    requires db.Valid() && slotId in db.slots && !db.slots[slotId].isBooked
    modifies db
    ensures db.Valid()
    ensures a == old(db.nextId)
    ensures notified <==> me in old(db.users)
    ensures !notified ==> db.State() == TakenState(old(db.State()), me, slotId, notes, now)
    ensures notified ==> db.State() == BookedState(old(db.State()), me, slotId, notes, now)
  {
    var s := db.slots[slotId];
    ghost var st := db.State();
    BookedStateValid(st, me, slotId, notes, now);
    a := TakeSlot(db, me, slotId, notes, now);
    if me !in db.users {
      return false, a;
    }
    db.notifications := db.notifications[db.nextId := NewNotification(Some(s.mentorId), "appointment", a, now)];
    db.nextId := db.nextId + 1;
    assert db.State() == Notified(TakenState(st, me, slotId, notes, now), Some(s.mentorId), "appointment", a, now);
    return true, a;
  }

  /** The two writes of a booking. */
  method TakeSlot(db: Db, me: Id, slotId: Id, notes: Option<string>, now: int) returns (a: Id)
    requires db.Valid() && slotId in db.slots && !db.slots[slotId].isBooked
    modifies db
    ensures a == old(db.nextId)
    ensures db.State() == TakenState(old(db.State()), me, slotId, notes, now)
  {
    var s := db.slots[slotId];
    a := db.nextId;
    ghost var st := db.State();
    db.appointments := db.appointments[a := Booking(s, me, notes, now)];
    db.slots := db.slots[slotId := SlotTouched(s.(isBooked := true, appointmentId := Some(a), studentId := Some(me)), now)];
    db.nextId := a + 1;
    assert db.State() == TakenState(st, me, slotId, notes, now);
  }

  /** The database after the two writes of a cancel of the booking of slot
      `slotId`: its appointment is deleted and the slot is free again. */
  function ResetState(st: DbState, slotId: Id, now: int): DbState
    requires slotId in st.slots && st.slots[slotId].appointmentId.Some?
  {
    var s := st.slots[slotId];
    st.(appointments := st.appointments - {s.appointmentId.value},
        slots := st.slots[slotId := SlotTouched(s.(isBooked := false, appointmentId := None, studentId := None), now)])
  }

  /** The database after a whole cancel: the two writes, then a notification
      for `recipient` about the slot. */
  function UnbookedState(st: DbState, slotId: Id, recipient: Option<Id>, now: int): DbState
    requires slotId in st.slots && st.slots[slotId].appointmentId.Some?
  {
    Notified(ResetState(st, slotId, now), recipient, "appointment", slotId, now)
  }

  /** Cancelling a booking keeps the invariant, after the two writes and
      after the notification. */
  lemma UnbookedStateValid(st: DbState, slotId: Id, recipient: Option<Id>, now: int)
    requires ValidState(st) && slotId in st.slots && st.slots[slotId].isBooked
    ensures BookingConsistent(st.slots[slotId]) && st.slots[slotId].appointmentId.Some?
    ensures ValidState(ResetState(st, slotId, now))
    ensures ValidState(UnbookedState(st, slotId, recipient, now))
  {
    assert BookingConsistent(st.slots[slotId]);
    var r := ResetState(st, slotId, now);
    assert r.users == st.users && r.internships == st.internships && r.messages == st.messages;
    assert AppointmentsOk(r.appointments) && SlotsOk(r.slots);
    assert IdsBelow(r);
    NotifiedValid(r, recipient, "appointment", slotId, now);
  }

  /** The recipient of the cancel notification, read from the slot after its
      student has been cleared: the mentor when the student cancels, nobody
      when the mentor does. */
  function CancelRecipient(s: Slot, me: Id): (r: Option<Id>)
    ensures r == if s.mentorId == me then None else Some(s.mentorId)
  {
    var reset := s.(isBooked := false, appointmentId := None, studentId := None);
    if reset.mentorId == me then reset.studentId else Some(reset.mentorId)
  }

  /** When the mentor cancels a booking, nobody is notified, although the
      booking had a student. */
  lemma MentorCancelNotifiesNobody(s: Slot)
    requires s.isBooked && BookingConsistent(s)
    ensures s.studentId.Some? && CancelRecipient(s, s.mentorId).None?
  {
  }

  /** The recipient evidently intended, read from the slot before it is
      reset: the other party of the booking. */
  function IntendedCancelRecipient(s: Slot, me: Id): Option<Id> {
    if s.mentorId == me then s.studentId else Some(s.mentorId)
  }

  /** With the intended recipient, whichever party cancels a booking, the
      other party is notified. */
  lemma IntendedCancelNotifiesOtherParty(s: Slot, me: Id)
    requires s.isBooked && BookingConsistent(s) && (s.mentorId == me || s.studentId == Some(me))
    ensures IntendedCancelRecipient(s, me).Some?
    ensures me == s.mentorId ==> IntendedCancelRecipient(s, me) == s.studentId
    ensures me != s.mentorId ==> IntendedCancelRecipient(s, me) == Some(s.mentorId)
  {
  }

  /** The rights check of a cancel, in its fixed order: the slot exists
      (404); a requester who is not its mentor makes the comparison with a
      missing student fail (500); a requester who is neither party gets 403;
      an unbooked slot 400. */
  function CancelGuard(slots: map<Id, Slot>, me: Id, slotId: Id): (status: int)
    ensures status == NOT_FOUND <==> slotId !in slots
    ensures slotId in slots ==>
      var s := slots[slotId];
      && (status == SERVER_ERROR <==> s.mentorId != me && s.studentId.None?)
      && (status == FORBIDDEN <==> s.mentorId != me && s.studentId.Some? && s.studentId.value != me)
      && (status == BAD_REQUEST <==> (s.mentorId == me || s.studentId == Some(me)) && !s.isBooked)
      && (status == OK <==> (s.mentorId == me || s.studentId == Some(me)) && s.isBooked)
  {
    if slotId !in slots then NOT_FOUND
    else if slots[slotId].mentorId != me && slots[slotId].studentId.None? then SERVER_ERROR
    else if slots[slotId].mentorId != me && slots[slotId].studentId.value != me then FORBIDDEN
    else if !slots[slotId].isBooked then BAD_REQUEST
    else OK
  }

  /** Cancel a booking: the rights check, then the appointment is deleted
      and the slot is free again. The notification names the requester, so
      without a user document for the requester the handler fails after
      those writes; otherwise the recipient is notified. Then the handler
      emits through the unassigned `global.io`, which throws, so every
      cancel that passes the check answers 500 after its writes. */
  method CancelBooking(db: Db, me: Id, slotId: Id, now: int) returns (status: int, recipient: Option<Id>)
    requires db.Valid()
    modifies db
    ensures db.Valid()
    ensures status != OK
    ensures CancelGuard(old(db.slots), me, slotId) != OK ==>
      status == CancelGuard(old(db.slots), me, slotId) && recipient.None? && db.State() == old(db.State())
    ensures CancelGuard(old(db.slots), me, slotId) == OK ==>
      status == SERVER_ERROR && old(db.slots[slotId]).appointmentId.Some?
    ensures CancelGuard(old(db.slots), me, slotId) == OK && me !in old(db.users) ==>
      recipient.None? && db.State() == ResetState(old(db.State()), slotId, now)
    ensures CancelGuard(old(db.slots), me, slotId) == OK && me in old(db.users) ==>
      && recipient == CancelRecipient(old(db.slots[slotId]), me)
      && db.State() == UnbookedState(old(db.State()), slotId, recipient, now)
  {
    status := CancelGuard(db.slots, me, slotId);
    if status != OK {
      return status, None;
    }
    var _, r := CompleteCancel(db, me, slotId, now);
    return SERVER_ERROR, r;
  }

  /** The cancel handler as evidently intended, with an emitter that
      exists: the same check and writes, and 200 whenever the notification
      is stored. */
  method IntendedCancelBooking(db: Db, me: Id, slotId: Id, now: int) returns (status: int, recipient: Option<Id>)
    requires db.Valid()
    modifies db
    ensures db.Valid()
    ensures CancelGuard(old(db.slots), me, slotId) != OK ==>
      status == CancelGuard(old(db.slots), me, slotId) && recipient.None? && db.State() == old(db.State())
    ensures CancelGuard(old(db.slots), me, slotId) == OK ==> old(db.slots[slotId]).appointmentId.Some?
    ensures CancelGuard(old(db.slots), me, slotId) == OK && me !in old(db.users) ==>
      status == SERVER_ERROR && recipient.None? && db.State() == ResetState(old(db.State()), slotId, now)
    ensures CancelGuard(old(db.slots), me, slotId) == OK && me in old(db.users) ==>
      && status == OK
      && recipient == CancelRecipient(old(db.slots[slotId]), me)
      && db.State() == UnbookedState(old(db.State()), slotId, recipient, now)
  {
    status := CancelGuard(db.slots, me, slotId);
    if status != OK {
      return status, None;
    }
    var notified, r := CompleteCancel(db, me, slotId, now);
    return if notified then OK else SERVER_ERROR, r;
  }

  /** The writes of a cancel that passed the check, and the notification
      when the requester has a user document. */
  method CompleteCancel(db: Db, me: Id, slotId: Id, now: int) returns (notified: bool, recipient: Option<Id>)
    requires db.Valid() && CancelGuard(db.slots, me, slotId) == OK
    modifies db
    ensures db.Valid()
    ensures old(db.slots[slotId]).appointmentId.Some?
    ensures notified <==> me in old(db.users)
    ensures !notified ==> recipient.None? && db.State() == ResetState(old(db.State()), slotId, now)
    ensures notified ==>
      && recipient == CancelRecipient(old(db.slots[slotId]), me)
      && db.State() == UnbookedState(old(db.State()), slotId, recipient, now)
  {
    ghost var st := db.State();
    UnbookedStateValid(st, slotId, None, now);
    var s := ResetSlot(db, slotId, now);
    if me !in db.users {
      return false, None;
    }
    recipient := CancelRecipient(s, me);
    UnbookedStateValid(st, slotId, recipient, now);
    db.notifications := db.notifications[db.nextId := NewNotification(recipient, "appointment", slotId, now)];
    db.nextId := db.nextId + 1;
    assert db.State() == Notified(ResetState(st, slotId, now), recipient, "appointment", slotId, now);
    notified := true;
  }

  /** The two writes of a cancel; `s` is the slot as it was. */
  method ResetSlot(db: Db, slotId: Id, now: int) returns (s: Slot)
    requires db.Valid() && slotId in db.slots && db.slots[slotId].isBooked
    modifies db
    ensures s == old(db.slots[slotId]) && s.appointmentId.Some?
    ensures db.State() == ResetState(old(db.State()), slotId, now)
  {
    s := db.slots[slotId];
    ghost var st := db.State();
    assert BookingConsistent(s);
    db.appointments := db.appointments - {s.appointmentId.value};
    db.slots := db.slots[slotId := SlotTouched(s.(isBooked := false, appointmentId := None, studentId := None), now)];
    assert db.State() == ResetState(st, slotId, now);
  }

  /** The slots the requester has booked, by start time. */
  method GetStudentBookings(db: Db, me: Id) returns (r: seq<(Id, Slot)>)
    requires db.Valid()
    ensures forall k :: 0 <= k < |r| ==> r[k].0 in db.slots && db.slots[r[k].0] == r[k].1
    ensures forall k :: 0 <= k < |r| ==> r[k].1.studentId == Some(me) && r[k].1.isBooked
    ensures forall i :: i in db.slots && db.slots[i].studentId == Some(me) && db.slots[i].isBooked ==>
              (i, db.slots[i]) in r
    ensures forall a, b :: 0 <= a < b < |r| ==> r[a].0 != r[b].0
    ensures SortedBy(r, StartOf)
  {
    r := SelectSorted(db.slots, db.nextId, (s: Slot) => s.studentId == Some(me) && s.isBooked, StartOf);
  }
}
