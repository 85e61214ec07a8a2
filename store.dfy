/** The database the controllers work on: one map from id to document per
    collection and the counter that hands out new ids, with the invariant
    every handler preserves. */
module Store {
  import opened Common
  import opened Base
  import opened SlotModel
  import opened AppointmentModel
  import opened UserModel
  import opened InternshipModel

  /** A chat message; unread when stored, dated at the time it was sent. */
  datatype Message = Message(
    senderId: Id,
    receiverId: Id,
    content: string,
    read: bool,
    timestamp: int)

  /** A notification addressed to a user. The handlers that create one give
      its recipient, its kind, the document it is about and nothing else the
      model keeps; the recipient may be `null`. */
  datatype Notification = Notification(
    userId: Option<Id>,
    kind: string,
    relatedId: Id,
    read: bool,
    createdAt: int)

  function NewNotification(userId: Option<Id>, kind: string, relatedId: Id, now: int): (n: Notification)
    ensures n.userId == userId && n.kind == kind && n.relatedId == relatedId
    ensures !n.read && n.createdAt == now
  {
    Notification(userId, kind, relatedId, false, now)
  }

  /** The connection lists of user `a`: no id twice in either list, every
      connection is a user who lists `a` back, no pending request comes from
      a connection, and only mentors receive requests. */
  predicate LinksOk(users: map<Id, User>, a: Id)
    requires a in users
  {
    var u := users[a];
    && NoDup(u.connections) && NoDup(u.pendingConnections)
    && (forall x :: x in u.connections ==> x in users && a in users[x].connections)
    && (forall x :: x in u.pendingConnections ==> x !in u.connections)
    && (u.role == "student" ==> u.pendingConnections == [])
  }

  predicate ConnectionGraph(users: map<Id, User>) {
    forall a {:trigger LinksOk(users, a)} :: a in users ==> LinksOk(users, a)
  }

  datatype DbState = DbState(
    users: map<Id, User>,
    slots: map<Id, Slot>,
    appointments: map<Id, Appointment>,
    internships: map<Id, Internship>,
    messages: map<Id, Message>,
    notifications: map<Id, Notification>,
    nextId: nat)

  predicate IdsBelow(st: DbState) {
    && (forall i :: i in st.users ==> i < st.nextId)
    && (forall i :: i in st.slots ==> i < st.nextId)
    && (forall i :: i in st.appointments ==> i < st.nextId)
    && (forall i :: i in st.internships ==> i < st.nextId)
    && (forall i :: i in st.messages ==> i < st.nextId)
    && (forall i :: i in st.notifications ==> i < st.nextId)
  }

  predicate SlotsOk(slots: map<Id, Slot>) {
    forall i :: i in slots ==> BookingConsistent(slots[i]) && SlotAccepted(slots[i])
  }

  predicate UsersOk(users: map<Id, User>) {
    forall i {:trigger UserAccepted(users[i])} :: i in users ==> UserAccepted(users[i])
  }

  predicate AppointmentsOk(appointments: map<Id, Appointment>) {
    forall i :: i in appointments ==> AppointmentAccepted(appointments[i])
  }

  predicate InternshipsOk(internships: map<Id, Internship>) {
    forall i :: i in internships ==>
      InternshipAccepted(internships[i]) && OneApplicationEach(internships[i].applicants)
  }

  /** Ids below the counter; every stored document passes validation; a slot
      names its student and appointment exactly when it is booked; no
      student applied twice to an internship; and the connection lists form
      a symmetric graph. */
  predicate ValidState(st: DbState) {
    && IdsBelow(st)
    && SlotsOk(st.slots) && UsersOk(st.users)
    && AppointmentsOk(st.appointments) && InternshipsOk(st.internships)
    && ConnectionGraph(st.users)
  }

  // Each change a handler makes keeps the invariant when the document it
  // stores passes validation.

  /** Storing a user document that passes validation keeps every stored
      user valid. */
  lemma PutUserAccepted(users: map<Id, User>, id: Id, u: User)
    requires UsersOk(users) && UserAccepted(u)
    ensures UsersOk(users[id := u])
  {
    var users' := users[id := u];
    forall i | i in users' ensures UserAccepted(users'[i]) {
      if i != id {
        assert UserAccepted(users[i]);
      }
    }
  }

  lemma PutInternshipValid(st: DbState, id: Id, x: Internship)
    requires ValidState(st) && id < st.nextId && InternshipAccepted(x) && OneApplicationEach(x.applicants)
    ensures ValidState(st.(internships := st.internships[id := x]))
  {
    var st' := st.(internships := st.internships[id := x]);
    assert st'.users == st.users;
  }

  /** The database after a notification for `userId` is stored under the
      next id. */
  function Notified(st: DbState, userId: Option<Id>, kind: string, relatedId: Id, now: int): (r: DbState)
    ensures r.notifications == st.notifications[st.nextId := NewNotification(userId, kind, relatedId, now)]
    ensures r.nextId == st.nextId + 1
    ensures r.(notifications := st.notifications, nextId := st.nextId) == st
  {
    st.(notifications := st.notifications[st.nextId := NewNotification(userId, kind, relatedId, now)],
        nextId := st.nextId + 1)
  }

  lemma NotifiedValid(st: DbState, userId: Option<Id>, kind: string, relatedId: Id, now: int)
    requires ValidState(st)
    ensures ValidState(Notified(st, userId, kind, relatedId, now))
  {
    var r := Notified(st, userId, kind, relatedId, now);
    assert r.users == st.users && r.slots == st.slots && r.internships == st.internships;
    assert IdsBelow(r);
  }

  lemma PutMessageValid(st: DbState, id: Id, m: Message)
    requires ValidState(st) && id < st.nextId
    ensures ValidState(st.(messages := st.messages[id := m]))
  {
    var st' := st.(messages := st.messages[id := m]);
    assert st'.users == st.users;
  }

  /** Rewriting or dropping messages keeps the invariant. */
  lemma WithMessagesValid(st: DbState, messages: map<Id, Message>)
    requires ValidState(st) && messages.Keys <= st.messages.Keys
    ensures ValidState(st.(messages := messages))
  {
    var st' := st.(messages := messages);
    assert st'.users == st.users;
  }

  /** Rewriting or dropping notifications keeps the invariant. */
  lemma WithNotificationsValid(st: DbState, notifications: map<Id, Notification>)
    requires ValidState(st) && notifications.Keys <= st.notifications.Keys
    ensures ValidState(st.(notifications := notifications))
  {
    var st' := st.(notifications := notifications);
    assert st'.users == st.users;
  }

  /** Replacing a user by a document with the same role and the same two
      lists keeps the connection graph. */
  lemma SameLinksGraph(users: map<Id, User>, id: Id, u: User)
    requires ConnectionGraph(users) && id in users
    requires u.role == users[id].role && u.connections == users[id].connections
    requires u.pendingConnections == users[id].pendingConnections
    ensures ConnectionGraph(users[id := u])
  {
    var users' := users[id := u];
    forall a | a in users' ensures LinksOk(users', a) {
      assert LinksOk(users, a);
      forall x | x in users'[a].connections ensures x in users' && a in users'[x].connections {
        assert x in users[a].connections;
      }
    }
  }

  /** Storing an accepted user whose role and lists are unchanged keeps the
      invariant. */
  lemma PutUserValid(st: DbState, id: Id, u: User)
    requires ValidState(st) && id in st.users && UserAccepted(u)
    requires u.role == st.users[id].role && u.connections == st.users[id].connections
    requires u.pendingConnections == st.users[id].pendingConnections
    ensures ValidState(st.(users := st.users[id := u]))
  {
    SameLinksGraph(st.users, id, u);
  }

  class Db {
    var users: map<Id, User>
    var slots: map<Id, Slot>
    var appointments: map<Id, Appointment>
    var internships: map<Id, Internship>
    var messages: map<Id, Message>
    var notifications: map<Id, Notification>
    var nextId: nat

    function State(): DbState
      reads this
    {
      DbState(users, slots, appointments, internships, messages, notifications, nextId)
    }

    ghost predicate Valid()
      reads this
    {
      ValidState(State())
    }

    constructor ()
      ensures State() == DbState(map[], map[], map[], map[], map[], map[], 0)
      ensures Valid()
    {
      users, slots, appointments, internships := map[], map[], map[], map[];
      messages, notifications, nextId := map[], map[], 0;
    }
  }
}
