/** The user handlers: reading a profile (which repairs a mentor's pending
    list), editing one's own profile, searching mentors, and the connection
    protocol between a student and a mentor: a request lands in the mentor's
    pending list, an accept moves it into both connection lists. */
module Users {
  import opened Common
  import opened Base
  import opened Sorting
  import opened UserModel
  import opened Store

  /** A user as the handlers return it, with `.select('-password')`: the
      password is left out. */
  function WithoutPassword(u: User): (r: User)
    ensures r.password == [] && r.(password := u.password) == u
  {
    u.(password := [])
  }

  // ---- Reading a profile ---------------------------------------------------

  /** The pending ids that are not already connections. */
  function Unconnected(u: User): (r: seq<Id>)
    ensures forall x :: x in r <==> x in u.pendingConnections && x !in u.connections
    ensures |r| <= |u.pendingConnections|
  {
    Where(u.pendingConnections, (x: Id) => x !in u.connections)
  }

  /** The repair a profile read makes: a mentor's pending ids that are
      already connections are dropped, and the document is saved only when
      the list got shorter and the save passes validation. */
  function ProfileReadState(st: DbState, id: Id, now: int): DbState {
    if id in st.users && st.users[id].role == "mentor" && st.users[id].pendingConnections != [] &&
       |Unconnected(st.users[id])| != |st.users[id].pendingConnections| &&
       UserAccepted(st.users[id])
    then st.(users := st.users[id := UserTouched(st.users[id].(pendingConnections := Unconnected(st.users[id])), now)])
    else st
  }

  /** Under the invariant no pending id is a connection, so the repair never
      changes anything. */
  lemma ProfileReadChangesNothing(st: DbState, id: Id, now: int)
    requires ValidState(st)
    ensures ProfileReadState(st, id, now) == st
  {
    if id in st.users {
      var u := st.users[id];
      assert LinksOk(st.users, id);
      WhereAll(u.pendingConnections, (x: Id) => x !in u.connections);
    }
  }

  /** A list that lost no element through a filter is the list itself, so a
      repair that saves has removed at least one connected id. */
  lemma ProfileRepairRemoves(st: DbState, id: Id, now: int)
    requires ProfileReadState(st, id, now) != st
    ensures id in st.users
    ensures exists x :: x in st.users[id].pendingConnections && x in st.users[id].connections
  {
    var u := st.users[id];
    if forall x :: x in u.pendingConnections ==> x !in u.connections {
      WhereAll(u.pendingConnections, (x: Id) => x !in u.connections);
      assert false;
    }
  }

  /** Under the invariant the cleaned pending list keeps its length. */
  lemma ProfileReadUnneeded(st: DbState, id: Id)
    requires ValidState(st) && id in st.users
    ensures |Unconnected(st.users[id])| == |st.users[id].pendingConnections|
  {
    var u := st.users[id];
    assert LinksOk(st.users, id);
    WhereAll(u.pendingConnections, (x: Id) => x !in u.connections);
  }

  /** `getUserProfile`: 404 for an unknown id; 500 when the repair's save is
      rejected; otherwise the repaired user without the password. */
  method GetUserProfile(db: Db, id: Id, now: int) returns (status: int, profile: Option<User>)
    modifies db
    ensures status == NOT_FOUND <==> id !in old(db.users)
    ensures status in {NOT_FOUND, SERVER_ERROR, OK}
    ensures status == SERVER_ERROR <==>
      id in old(db.users) && old(db.users[id]).role == "mentor" &&
      |Unconnected(old(db.users[id]))| != |old(db.users[id]).pendingConnections| &&
      !UserAccepted(old(db.users[id]))
    ensures old(db.Valid()) && id in old(db.users) ==> status == OK && db.State() == old(db.State())
    ensures status == SERVER_ERROR ==> db.State() == old(db.State())
    ensures status == OK ==> db.State() == ProfileReadState(old(db.State()), id, now)
    ensures status == OK ==> id in db.users && profile == Some(WithoutPassword(db.users[id]))
    ensures status != OK ==> profile.None?
  {
    if id !in db.users {
      return NOT_FOUND, None;
    }
    var u := db.users[id];
    if db.Valid() {
      ProfileReadUnneeded(db.State(), id);
    }
    if u.role == "mentor" && u.pendingConnections != [] {
      var kept := Unconnected(u);
      if |kept| != |u.pendingConnections| {
        if !UserAccepted(u) {
          return SERVER_ERROR, None;
        }
        db.users := db.users[id := UserTouched(u.(pendingConnections := kept), now)];
      }
    }
    return OK, Some(WithoutPassword(db.users[id]));
  }

  // ---- Editing one's own profile -------------------------------------------

  /** The keys a request body gives for `studentInfo`; a key that is absent
      keeps the stored value. */
  datatype StudentInfoPatch = StudentInfoPatch(
    educationLevel: Option<string>,
    interests: Option<seq<string>>,
    goals: Option<string>,
    age: Option<int>)

  datatype MentorInfoPatch = MentorInfoPatch(
    currentJob: Option<string>,
    company: Option<string>,
    industry: Option<string>,
    expertise: Option<seq<string>>,
    bio: Option<string>,
    communicationPreferences: Option<seq<string>>,
    availability: Option<Availability>,
    offersInternship: Option<bool>)

  /** A given key replaces the stored value. */
  function Override<T>(given: Option<T>, stored: Option<T>): (r: Option<T>)
    ensures given.Some? ==> r == given
    ensures given.None? ==> r == stored
  {
    if given.Some? then given else stored
  }

  /** `{ ...info, ...patch }`. */
  function MergeStudentInfo(info: StudentInfo, p: StudentInfoPatch): (r: StudentInfo)
    ensures r.educationLevel == Override(p.educationLevel, info.educationLevel)
    ensures r.interests == OrElse(p.interests, info.interests)
    ensures r.goals == Override(p.goals, info.goals)
    ensures r.age == Override(p.age, info.age)
  {
    StudentInfo(Override(p.educationLevel, info.educationLevel), OrElse(p.interests, info.interests),
                Override(p.goals, info.goals), Override(p.age, info.age))
  }

  function MergeMentorInfo(info: MentorInfo, p: MentorInfoPatch): (r: MentorInfo)
    ensures r.currentJob == Override(p.currentJob, info.currentJob)
    ensures r.company == Override(p.company, info.company)
    ensures r.industry == Override(p.industry, info.industry)
    ensures r.expertise == OrElse(p.expertise, info.expertise)
    ensures r.bio == Override(p.bio, info.bio)
    ensures r.communicationPreferences == OrElse(p.communicationPreferences, info.communicationPreferences)
    ensures r.availability == if p.availability.Some? then StrictAvailability(p.availability.value) else info.availability
    ensures r.offersInternship == OrElse(p.offersInternship, info.offersInternship)
  {
    MentorInfo(Override(p.currentJob, info.currentJob), Override(p.company, info.company),
               Override(p.industry, info.industry), OrElse(p.expertise, info.expertise),
               Override(p.bio, info.bio), OrElse(p.communicationPreferences, info.communicationPreferences),
               if p.availability.Some? then StrictAvailability(p.availability.value) else info.availability,
               OrElse(p.offersInternship, info.offersInternship))
  }

  /** A shallow merge is idempotent, and an empty body keeps everything. */
  lemma MergeIdempotent(s: StudentInfo, ps: StudentInfoPatch, m: MentorInfo, pm: MentorInfoPatch)
    ensures MergeStudentInfo(MergeStudentInfo(s, ps), ps) == MergeStudentInfo(s, ps)
    ensures MergeMentorInfo(MergeMentorInfo(m, pm), pm) == MergeMentorInfo(m, pm)
    ensures MergeStudentInfo(s, StudentInfoPatch(None, None, None, None)) == s
    ensures MergeMentorInfo(m, MentorInfoPatch(None, None, None, None, None, None, None, None)) == m
  {
  }

  /** The edited document: a name or picture replaces the stored one only
      when it is non-empty (the names are trimmed by their setters), and the
      info of the user's own role is merged with the given keys. */
  function Edited(u: User, firstName: Option<string>, lastName: Option<string>, profilePicture: Option<string>,
                  studentInfo: Option<StudentInfoPatch>, mentorInfo: Option<MentorInfoPatch>): (r: User)
    ensures r.firstName == Trim(if Truthy(firstName) then firstName.value else u.firstName)
    ensures r.lastName == Trim(if Truthy(lastName) then lastName.value else u.lastName)
    ensures r.profilePicture == if Truthy(profilePicture) then profilePicture.value else u.profilePicture
    ensures r.studentInfo == if u.role == "student" && studentInfo.Some?
                             then MergeStudentInfo(u.studentInfo, studentInfo.value) else u.studentInfo
    ensures r.mentorInfo == if u.role == "mentor" && mentorInfo.Some?
                            then MergeMentorInfo(u.mentorInfo, mentorInfo.value) else u.mentorInfo
    ensures r.email == u.email && r.password == u.password && r.role == u.role
    ensures r.connections == u.connections && r.pendingConnections == u.pendingConnections
    ensures r.createdAt == u.createdAt && r.updatedAt == u.updatedAt
  {
    u.(firstName := Trim(if Truthy(firstName) then firstName.value else u.firstName),
       lastName := Trim(if Truthy(lastName) then lastName.value else u.lastName),
       profilePicture := if Truthy(profilePicture) then profilePicture.value else u.profilePicture,
       studentInfo := if u.role == "student" && studentInfo.Some?
                      then MergeStudentInfo(u.studentInfo, studentInfo.value) else u.studentInfo,
       mentorInfo := if u.role == "mentor" && mentorInfo.Some?
                     then MergeMentorInfo(u.mentorInfo, mentorInfo.value) else u.mentorInfo)
  }

  /** `updateProfile`: 404 for a missing document, 500 when validation
      rejects the edit (a name that trims to nothing, an unknown
      communication type, a day of the week out of range), else the edited
      document is saved. */
  method UpdateProfile(db: Db, me: Id, firstName: Option<string>, lastName: Option<string>,
                       profilePicture: Option<string>, studentInfo: Option<StudentInfoPatch>,
                       mentorInfo: Option<MentorInfoPatch>, now: int)
    returns (status: int)
    requires db.Valid()
    modifies db
    ensures db.Valid()
    ensures status == NOT_FOUND <==> me !in old(db.users)
    ensures status == OK <==> (me in old(db.users) &&
      UserAccepted(Edited(old(db.users[me]), firstName, lastName, profilePicture, studentInfo, mentorInfo)))
    ensures status in {NOT_FOUND, SERVER_ERROR, OK}
    ensures status != OK ==> db.State() == old(db.State())
    ensures status == OK ==> db.State() == old(db.State()).(users := old(db.users)[me :=
      UserTouched(Edited(old(db.users[me]), firstName, lastName, profilePicture, studentInfo, mentorInfo), now)])
  {
    if me !in db.users {
      return NOT_FOUND;
    }
    var edited := Edited(db.users[me], firstName, lastName, profilePicture, studentInfo, mentorInfo);
    if !UserAccepted(edited) {
      return SERVER_ERROR;
    }
    var saved := UserTouched(edited, now);
    ghost var st := db.State();
    TouchedUserValid(st, me, edited, now);
    db.users := db.users[me := saved];
    assert db.State() == st.(users := st.users[me := saved]);
    status := OK;
  }

  /** Saving an accepted edit that keeps the role and both lists keeps the
      database valid. */
  lemma TouchedUserValid(st: DbState, me: Id, edited: User, now: int)
    requires ValidState(st) && me in st.users && UserAccepted(edited)
    requires edited.role == st.users[me].role && edited.connections == st.users[me].connections
    requires edited.pendingConnections == st.users[me].pendingConnections
    ensures ValidState(st.(users := st.users[me := UserTouched(edited, now)]))
  {
    var saved := UserTouched(edited, now);
    assert saved == edited.(updatedAt := now);
    assert UserAccepted(saved);
    PutUserValid(st, me, saved);
  }

  // ---- Searching mentors ---------------------------------------------------

  predicate MatchesSet(field: Option<string>, pattern: string) {
    field.Some? && Matches(field.value, pattern)
  }

  /** The mentor search query: each filter applies only when given. */
  predicate MentorQuery(u: User, search: Option<string>, industry: Option<string>, expertise: Option<string>,
                        offersInternship: Option<string>) {
    && u.role == "mentor"
    && (Truthy(search) ==>
          Matches(u.firstName, search.value) || Matches(u.lastName, search.value) ||
          MatchesSet(u.mentorInfo.currentJob, search.value) || MatchesSet(u.mentorInfo.company, search.value))
    && (Truthy(industry) ==> MatchesSet(u.mentorInfo.industry, industry.value))
    && (Truthy(expertise) ==>
          exists i :: 0 <= i < |u.mentorInfo.expertise| && Matches(u.mentorInfo.expertise[i], expertise.value))
    && (offersInternship == Some("true") ==> u.mentorInfo.offersInternship)
  }

  /** The query as the value handed to `find`. */
  function MentorFilter(search: Option<string>, industry: Option<string>, expertise: Option<string>,
                        offersInternship: Option<string>): (q: User -> bool)
    ensures forall u :: q(u) == MentorQuery(u, search, industry, expertise, offersInternship)
  {
    u => MentorQuery(u, search, industry, expertise, offersInternship)
  }

  /** `sort({ createdAt: -1 })`. */
  function NewestUserFirst(e: (Id, User)): int {
    -e.1.createdAt
  }

  /** Rows of users with the password left out. */
  function Hidden(rows: seq<(Id, User)>): (r: seq<(Id, User)>)
    ensures |r| == |rows|
    ensures forall k :: 0 <= k < |r| ==> r[k] == (rows[k].0, WithoutPassword(rows[k].1))
  {
    if rows == [] then [] else [(rows[0].0, WithoutPassword(rows[0].1))] + Hidden(rows[1..])
  }

  /** A page of a newest-first list of stored users passing `q`, with the
      passwords left out: at most `limit` rows, each a stored user passing
      `q`, newest first. */
  lemma UserPage(all: seq<(Id, User)>, users: map<Id, User>, q: User -> bool, page: int, limit: int)
    requires page >= 1 && limit >= 1 && SortedBy(all, NewestUserFirst)
    requires forall k :: 0 <= k < |all| ==> all[k].0 in users && users[all[k].0] == all[k].1 && q(all[k].1)
    ensures var rows := Hidden(Page(all, page, limit));
      && |rows| <= limit
      && (forall k :: 0 <= k < |rows| ==>
            rows[k].0 in users && rows[k].1 == WithoutPassword(users[rows[k].0]) && q(users[rows[k].0]))
      && (forall i, j :: 0 <= i < j < |rows| ==> rows[i].1.createdAt >= rows[j].1.createdAt)
  {
    var page' := Page(all, page, limit);
    var rows := Hidden(page');
    PageSorted(all, page, limit, NewestUserFirst);
    assert forall k :: 0 <= k < |rows| ==> rows[k].1.createdAt == page'[k].1.createdAt;
    forall k | 0 <= k < |rows|
      ensures rows[k].0 in users && rows[k].1 == WithoutPassword(users[rows[k].0]) && q(users[rows[k].0])
    {
      assert page'[k] == all[Skip(page, limit) + k];
    }
  }

  /** `searchMentors`: the requested page of the matching mentors, newest
      first, without passwords; the number of matches; and the page count
      `Math.ceil(total / limit)`. */
  method SearchMentors(db: Db, search: Option<string>, industry: Option<string>, expertise: Option<string>,
                       offersInternship: Option<string>, page: int, limit: int)
    returns (mentors: seq<(Id, User)>, totalPages: int, total: nat)
    requires page >= 1 && limit >= 1
    ensures var all := SelectSorted(db.users, db.nextId, MentorFilter(search, industry, expertise, offersInternship),
                                    NewestUserFirst);
      && total == |all|
      && mentors == Hidden(Page(all, page, limit))
    ensures |mentors| <= limit
    ensures forall k :: 0 <= k < |mentors| ==>
      mentors[k].0 in db.users && mentors[k].1 == WithoutPassword(db.users[mentors[k].0]) &&
      MentorQuery(db.users[mentors[k].0], search, industry, expertise, offersInternship)
    ensures forall i, j :: 0 <= i < j < |mentors| ==> mentors[i].1.createdAt >= mentors[j].1.createdAt
    ensures totalPages == TotalPages(total, limit)
  {
    var query := MentorFilter(search, industry, expertise, offersInternship);
    var all := SelectSorted(db.users, db.nextId, query, NewestUserFirst);
    mentors := Hidden(Page(all, page, limit));
    total := |all|;
    totalPages := TotalPages(total, limit);
    UserPage(all, db.users, query, page, limit);
  }

  // ---- Requesting a connection ---------------------------------------------

  /** The checks of a request, in order: the target is a mentor (404), the
      requester's document is found (500 otherwise, as reading its
      connections fails), they are not connected yet (400), no request is
      pending (400). */
  function RequestGuard(users: map<Id, User>, me: Id, mentorId: Id): (status: int)
    ensures status == NOT_FOUND <==> mentorId !in users || users[mentorId].role != "mentor"
    ensures status == SERVER_ERROR <==> mentorId in users && users[mentorId].role == "mentor" && me !in users
    ensures status == BAD_REQUEST <==> (mentorId in users && users[mentorId].role == "mentor" && me in users &&
      (mentorId in users[me].connections || me in users[mentorId].pendingConnections))
    ensures status == OK <==> (mentorId in users && users[mentorId].role == "mentor" && me in users &&
      mentorId !in users[me].connections && me !in users[mentorId].pendingConnections)
  {
    if mentorId !in users || users[mentorId].role != "mentor" then NOT_FOUND
    else if me !in users then SERVER_ERROR
    else if mentorId in users[me].connections then BAD_REQUEST
    else if me in users[mentorId].pendingConnections then BAD_REQUEST
    else OK
  }

  /** The database after a request: the requester appended to the mentor's
      pending list, and a `connection` notification about the requester for
      the mentor under the next id. */
  function RequestedState(st: DbState, me: Id, mentorId: Id, now: int): DbState
    requires mentorId in st.users
  {
    var m := st.users[mentorId];
    st.(users := st.users[mentorId := UserTouched(m.(pendingConnections := m.pendingConnections + [me]), now)],
        notifications := st.notifications[st.nextId := NewNotification(Some(mentorId), "connection", me, now)],
        nextId := st.nextId + 1)
  }

  /** A request that passed the checks keeps the invariant; the requester is
      then pending with the mentor exactly once, and every other user is as
      before. */
  lemma RequestedStateValid(st: DbState, me: Id, mentorId: Id, now: int)
    requires ValidState(st) && RequestGuard(st.users, me, mentorId) == OK
    ensures var r := RequestedState(st, me, mentorId, now);
      && ValidState(r)
      && me in r.users[mentorId].pendingConnections
      && NoDup(r.users[mentorId].pendingConnections)
      && r.users[mentorId].connections == st.users[mentorId].connections
      && forall a :: a in st.users && a != mentorId ==> r.users[a] == st.users[a]
  {
    var m := st.users[mentorId];
    var users' := st.users[mentorId := UserTouched(m.(pendingConnections := m.pendingConnections + [me]), now)];
    RequestedGraph(st.users, me, mentorId, now);
    assert UserAccepted(m);
    PutUserAccepted(st.users, mentorId, users'[mentorId]);
    var r := RequestedState(st, me, mentorId, now);
    assert r.users == users';
    assert r.slots == st.slots && r.appointments == st.appointments && r.internships == st.internships;
    assert IdsBelow(r);
  }

  /** Appending a requester who is neither connected nor pending to a
      mentor's pending list keeps the connection graph. */
  lemma RequestedGraph(users: map<Id, User>, me: Id, mentorId: Id, now: int)
    requires ConnectionGraph(users) && RequestGuard(users, me, mentorId) == OK
    ensures var m := users[mentorId];
      var users' := users[mentorId := UserTouched(m.(pendingConnections := m.pendingConnections + [me]), now)];
      ConnectionGraph(users') && NoDup(users'[mentorId].pendingConnections)
  {
    var m := users[mentorId];
    var users' := users[mentorId := UserTouched(m.(pendingConnections := m.pendingConnections + [me]), now)];
    assert LinksOk(users, me) && LinksOk(users, mentorId);
    assert me !in m.connections;
    assert AddOnce(m.pendingConnections, me) == m.pendingConnections + [me];
    forall a | a in users' ensures LinksOk(users', a) {
      assert LinksOk(users, a);
      forall x | x in users'[a].connections ensures x in users' && a in users'[x].connections {
        assert x in users[a].connections;
      }
    }
  }

  /** `requestConnection`: the checks, then the request is recorded and the
      mentor notified. */
  method RequestConnection(db: Db, me: Id, mentorId: Id, now: int) returns (status: int)
    requires db.Valid()
    modifies db
    ensures db.Valid()
    ensures status == RequestGuard(old(db.users), me, mentorId)
    ensures status != OK ==> db.State() == old(db.State())
    ensures status == OK ==> db.State() == RequestedState(old(db.State()), me, mentorId, now)
  {
    status := RequestGuard(db.users, me, mentorId);
    if status != OK {
      return;
    }
    ghost var st := db.State();
    RequestedStateValid(st, me, mentorId, now);
    var m := db.users[mentorId];
    db.users := db.users[mentorId := UserTouched(m.(pendingConnections := m.pendingConnections + [me]), now)];
    db.notifications := db.notifications[db.nextId := NewNotification(Some(mentorId), "connection", me, now)];
    db.nextId := db.nextId + 1;
    assert db.State() == RequestedState(st, me, mentorId, now);
  }

  // ---- Accepting a connection ----------------------------------------------

  /** The checks of an accept, in order: the target is a student (404), the
      requester's document is found (500 otherwise), they are not connected
      yet (400). A pending request is not required. */
  function AcceptGuard(users: map<Id, User>, me: Id, studentId: Id): (status: int)
    ensures status == NOT_FOUND <==> studentId !in users || users[studentId].role != "student"
    ensures status == SERVER_ERROR <==> studentId in users && users[studentId].role == "student" && me !in users
    ensures status == BAD_REQUEST <==> (studentId in users && users[studentId].role == "student" && me in users &&
      studentId in users[me].connections)
    ensures status == OK <==> (studentId in users && users[studentId].role == "student" && me in users &&
      studentId !in users[me].connections)
  {
    if studentId !in users || users[studentId].role != "student" then NOT_FOUND
    else if me !in users then SERVER_ERROR
    else if studentId in users[me].connections then BAD_REQUEST
    else OK
  }

  /** Already connected: the student is dropped from the pending list and
      the mentor's document saved. */
  function AlreadyConnectedState(st: DbState, me: Id, studentId: Id, now: int): DbState
    requires me in st.users
  {
    var m := st.users[me];
    st.(users := st.users[me := UserTouched(m.(pendingConnections := Remove(m.pendingConnections, studentId)), now)])
  }

  lemma AlreadyConnectedStateValid(st: DbState, me: Id, studentId: Id, now: int)
    requires ValidState(st) && me in st.users
    ensures ValidState(AlreadyConnectedState(st, me, studentId, now))
    ensures studentId !in AlreadyConnectedState(st, me, studentId, now).users[me].pendingConnections
  {
    var m := st.users[me];
    var users' := st.users[me := UserTouched(m.(pendingConnections := Remove(m.pendingConnections, studentId)), now)];
    forall a | a in users' ensures LinksOk(users', a) {
      assert LinksOk(st.users, a);
      forall x | x in users'[a].connections ensures x in users' && a in users'[x].connections {
        assert x in st.users[a].connections;
      }
    }
    assert UserAccepted(m);
    PutUserAccepted(st.users, me, users'[me]);
    var r := AlreadyConnectedState(st, me, studentId, now);
    assert r.users == users';
    assert r.slots == st.slots && r.appointments == st.appointments && r.internships == st.internships;
    assert UsersOk(r.users);
    assert IdsBelow(r);
  }

  /** The two saves of an accept. The mentor's document is saved with the
      student dropped from its pending list and added to its connections;
      the student's document, loaded before that save, is saved with the
      mentor added to its connections, which writes that one list over
      whatever the first save stored. */
  function Linked(users: map<Id, User>, me: Id, studentId: Id, now: int): map<Id, User>
    requires me in users && studentId in users
  {
    var m := users[me];
    var s := users[studentId];
    var users1 := users[me := UserTouched(m.(pendingConnections := Remove(m.pendingConnections, studentId),
                                             connections := AddOnce(m.connections, studentId)), now)];
    users1[studentId := users1[studentId].(connections := AddOnce(s.connections, me), updatedAt := now)]
  }

  /** The lists `Linked` writes: one new edge each way and the student no
      longer pending; roles and every other user are kept. */
  lemma LinkedShape(users: map<Id, User>, me: Id, studentId: Id, now: int)
    requires me in users && studentId in users
    ensures var r := Linked(users, me, studentId, now);
      && r.Keys == users.Keys
      && (forall a :: a in users ==> r[a].role == users[a].role)
      && (forall a :: a in users && a != me && a != studentId ==> r[a] == users[a])
      && r[studentId].connections == AddOnce(users[studentId].connections, me)
      && (me != studentId ==> r[me].connections == AddOnce(users[me].connections, studentId))
      && r[me].pendingConnections == Remove(users[me].pendingConnections, studentId)
      && (me != studentId ==> r[studentId].pendingConnections == users[studentId].pendingConnections)
  {
    var m := users[me];
    var s := users[studentId];
    var pending := Remove(m.pendingConnections, studentId);
    var conns := AddOnce(m.connections, studentId);
    var m1 := m.(pendingConnections := pending, connections := conns, updatedAt := now);
    var users1 := users[me := m1];
    var s1 := users1[studentId].(connections := AddOnce(s.connections, me), updatedAt := now);
    var r := users1[studentId := s1];
    assert Linked(users, me, studentId, now) == r;
    assert r[studentId] == s1;
    assert me != studentId ==> r[me] == m1;
  }

  /** The conditions under which `r` is `users` with one new edge between a
      student and a user they are not connected to, whatever else the two new
      pending lists hold. */
  predicate NewEdge(users: map<Id, User>, r: map<Id, User>, me: Id, studentId: Id) {
    && me in users && studentId in users && r.Keys == users.Keys
    && users[studentId].role == "student" && studentId !in users[me].connections
    && (forall a :: a in users ==> r[a].role == users[a].role)
    && (forall a :: a in users && a != me && a != studentId ==> r[a] == users[a])
    && r[studentId].connections == users[studentId].connections + [me]
    && (me != studentId ==> r[me].connections == users[me].connections + [studentId])
    && NoDup(r[me].pendingConnections)
    && (forall x :: x in r[me].pendingConnections ==> x in users[me].pendingConnections && x != studentId)
    && (users[me].role == "student" ==> r[me].pendingConnections == [])
    && (me != studentId ==> r[studentId].pendingConnections == users[studentId].pendingConnections)
  }

  /** One new edge keeps every user's links valid. */
  lemma NewEdgeLinksOk(users: map<Id, User>, r: map<Id, User>, me: Id, studentId: Id, a: Id)
    requires ConnectionGraph(users) && NewEdge(users, r, me, studentId) && a in r
    ensures LinksOk(r, a)
  {
    assert LinksOk(users, a) && LinksOk(users, me) && LinksOk(users, studentId);
    forall x | x in r[a].connections ensures x in r && a in r[x].connections {
      if x in users[a].connections {
        assert LinksOk(users, x);
      }
    }
  }

  lemma NewEdgeGraph(users: map<Id, User>, r: map<Id, User>, me: Id, studentId: Id)
    requires ConnectionGraph(users) && NewEdge(users, r, me, studentId)
    ensures ConnectionGraph(r)
  {
    forall a | a in r ensures LinksOk(r, a) {
      NewEdgeLinksOk(users, r, me, studentId, a);
    }
  }

  /** Linking a student to a user they are not connected to keeps the
      connection graph: both now list each other, the student is no longer
      pending, and the lists of everybody else are unchanged. */
  lemma LinkedGraph(users: map<Id, User>, me: Id, studentId: Id, now: int)
    requires ConnectionGraph(users) && me in users && studentId in users
    requires users[studentId].role == "student" && studentId !in users[me].connections
    ensures var r := Linked(users, me, studentId, now);
      && ConnectionGraph(r)
      && r.Keys == users.Keys
      && studentId in r[me].connections && me in r[studentId].connections
      && studentId !in r[me].pendingConnections
      && forall a :: a in users && a != me && a != studentId ==> r[a] == users[a]
  {
    var m := users[me];
    var s := users[studentId];
    var r := Linked(users, me, studentId, now);
    LinkedShape(users, me, studentId, now);
    assert LinksOk(users, me) && LinksOk(users, studentId);
    assert me !in s.connections;
    assert r[me].connections == m.connections + [studentId] || me == studentId;
    assert r[studentId].connections == s.connections + [me];
    assert m.role == "student" ==> m.pendingConnections == [];
    NewEdgeGraph(users, r, me, studentId);
  }

  /** The database after an accept: the two saves, then a `connection`
      notification about the mentor for the student under the next id. */
  function AcceptedState(st: DbState, me: Id, studentId: Id, now: int): DbState
    requires me in st.users && studentId in st.users
  {
    st.(users := Linked(st.users, me, studentId, now),
        notifications := st.notifications[st.nextId := NewNotification(Some(studentId), "connection", me, now)],
        nextId := st.nextId + 1)
  }

  /** Both saves of an accept store documents that pass validation. */
  lemma LinkedUsersOk(users: map<Id, User>, me: Id, studentId: Id, now: int)
    requires UsersOk(users) && me in users && studentId in users
    ensures UsersOk(Linked(users, me, studentId, now))
  {
    var m := users[me];
    var s := users[studentId];
    var users1 := users[me := UserTouched(m.(pendingConnections := Remove(m.pendingConnections, studentId),
                                             connections := AddOnce(m.connections, studentId)), now)];
    assert UserAccepted(m) && UserAccepted(s);
    PutUserAccepted(users, me, users1[me]);
    PutUserAccepted(users1, studentId, users1[studentId].(connections := AddOnce(s.connections, me), updatedAt := now));
  }

  lemma AcceptedStateValid(st: DbState, me: Id, studentId: Id, now: int)
    requires ValidState(st) && AcceptGuard(st.users, me, studentId) == OK
    ensures ValidState(AcceptedState(st, me, studentId, now))
  {
    LinkedGraph(st.users, me, studentId, now);
    LinkedUsersOk(st.users, me, studentId, now);
    var r := AcceptedState(st, me, studentId, now);
    assert r.slots == st.slots && r.appointments == st.appointments && r.internships == st.internships;
    assert IdsBelow(r);
  }

  /** `acceptConnection`: the checks; when already connected the pending
      request is dropped and 400 answered; otherwise both saves and the
      student is notified. */
  method AcceptConnection(db: Db, me: Id, studentId: Id, now: int) returns (status: int)
    requires db.Valid()
    modifies db
    ensures db.Valid()
    ensures status == AcceptGuard(old(db.users), me, studentId)
    ensures status == NOT_FOUND || status == SERVER_ERROR ==> db.State() == old(db.State())
    ensures status == BAD_REQUEST ==> db.State() == AlreadyConnectedState(old(db.State()), me, studentId, now)
    ensures status == OK ==> db.State() == AcceptedState(old(db.State()), me, studentId, now)
  {
    status := AcceptGuard(db.users, me, studentId);
    if status == NOT_FOUND || status == SERVER_ERROR {
      return;
    }
    ghost var st := db.State();
    var m := db.users[me];
    if status == BAD_REQUEST {
      AlreadyConnectedStateValid(st, me, studentId, now);
      db.users := db.users[me := UserTouched(m.(pendingConnections := Remove(m.pendingConnections, studentId)), now)];
      assert db.State() == AlreadyConnectedState(st, me, studentId, now);
      return;
    }
    AcceptedStateValid(st, me, studentId, now);
    var s := db.users[studentId];
    db.users := db.users[me := UserTouched(m.(pendingConnections := Remove(m.pendingConnections, studentId),
                                              connections := AddOnce(m.connections, studentId)), now)];
    db.users := db.users[studentId := db.users[studentId].(connections := AddOnce(s.connections, me), updatedAt := now)];
    db.notifications := db.notifications[db.nextId := NewNotification(Some(studentId), "connection", me, now)];
    db.nextId := db.nextId + 1;
    assert db.State() == AcceptedState(st, me, studentId, now);
  }

  // ---- Recommendations -----------------------------------------------------

  /** The recommendation query: a mentor who is neither the student nor one
      of their connections, with an expertise or an industry among the
      student's interests. */
  predicate Recommendable(u: User, id: Id, student: User, studentId: Id) {
    && u.role == "mentor"
    && id != studentId && id !in student.connections
    && ((exists e :: e in u.mentorInfo.expertise && e in student.studentInfo.interests) ||
        (u.mentorInfo.industry.Some? && u.mentorInfo.industry.value in student.studentInfo.interests))
  }

  /** The documents below `n` passing a query on id and document, in id
      order. */
  function SelectById(m: map<Id, User>, n: nat, p: (Id, User) -> bool): (r: seq<(Id, User)>)
    ensures forall k :: 0 <= k < |r| ==> r[k].0 in m && r[k].0 < n && m[r[k].0] == r[k].1 && p(r[k].0, r[k].1)
    ensures forall i :: i in m && i < n && p(i, m[i]) ==> (i, m[i]) in r
    ensures forall a, b :: 0 <= a < b < |r| ==> r[a].0 < r[b].0
  {
    if n == 0 then []
    else
      var prev := SelectById(m, n - 1, p);
      if n - 1 in m && p(n - 1, m[n - 1]) then prev + [(n - 1, m[n - 1])] else prev
  }

  /** The recommendation query as the value handed to `find`. */
  function RecommendFilter(student: User, studentId: Id): (q: (Id, User) -> bool)
    ensures forall i, u :: q(i, u) == Recommendable(u, i, student, studentId)
  {
    (i: Id, u: User) => Recommendable(u, i, student, studentId)
  }

  /** `.limit(10)` on the documents passing `p`, in natural order, with the
      passwords left out. */
  function FirstTen(users: map<Id, User>, n: nat, p: (Id, User) -> bool): seq<(Id, User)> {
    Hidden(Page(SelectById(users, n, p), 1, 10))
  }

  /** At most ten rows, each a stored user passing `p` without its
      password. */
  lemma FirstTenRows(users: map<Id, User>, n: nat, p: (Id, User) -> bool)
    ensures var rows := FirstTen(users, n, p);
      && |rows| <= 10
      && forall k :: 0 <= k < |rows| ==>
           rows[k].0 in users && rows[k].1 == WithoutPassword(users[rows[k].0]) && p(rows[k].0, users[rows[k].0])
  {
    var all := SelectById(users, n, p);
    var rows := FirstTen(users, n, p);
    FirstRows(all, 10);
    forall k | 0 <= k < |rows|
      ensures rows[k].0 in users && rows[k].1 == WithoutPassword(users[rows[k].0]) && p(rows[k].0, users[rows[k].0])
    {
      assert rows[k] == (all[k].0, WithoutPassword(all[k].1));
    }
  }

  /** The rows come in id order. */
  lemma FirstTenOrder(users: map<Id, User>, n: nat, p: (Id, User) -> bool)
    ensures var rows := FirstTen(users, n, p);
      forall a, b :: 0 <= a < b < |rows| ==> rows[a].0 < rows[b].0
  {
    var all := SelectById(users, n, p);
    var rows := FirstTen(users, n, p);
    FirstRows(all, 10);
    forall a, b | 0 <= a < b < |rows| ensures rows[a].0 < rows[b].0 {
      assert rows[a].0 == all[a].0 && rows[b].0 == all[b].0;
    }
  }

  /** When fewer than ten rows come back, every stored user passing `p` is
      among them. */
  lemma FirstTenComplete(users: map<Id, User>, n: nat, p: (Id, User) -> bool)
    requires forall i :: i in users ==> i < n
    ensures var rows := FirstTen(users, n, p);
      |rows| < 10 ==> forall i :: i in users && p(i, users[i]) ==> (i, WithoutPassword(users[i])) in rows
  {
    var all := SelectById(users, n, p);
    FirstRows(all, 10);
    if |FirstTen(users, n, p)| < 10 {
      assert FirstTen(users, n, p) == Hidden(all);
      AllRowsHidden(all, users, n, p);
    }
  }

  /** The first page of `limit` rows is a prefix: the whole list when it is
      shorter than `limit`. */
  lemma FirstRows<T>(all: seq<T>, limit: int)
    requires limit >= 1
    ensures forall k :: 0 <= k < |Page(all, 1, limit)| ==> Page(all, 1, limit)[k] == all[k]
    ensures |Page(all, 1, limit)| < limit ==> Page(all, 1, limit) == all
  {
    assert Skip(1, limit) == 0;
  }

  /** Every stored user passing `p` appears, password left out, in the rows
      of the whole selection. */
  lemma AllRowsHidden(all: seq<(Id, User)>, users: map<Id, User>, n: nat, p: (Id, User) -> bool)
    requires forall i :: i in users ==> i < n
    requires all == SelectById(users, n, p)
    ensures forall i :: i in users && p(i, users[i]) ==> (i, WithoutPassword(users[i])) in Hidden(all)
  {
    forall i | i in users && p(i, users[i]) ensures (i, WithoutPassword(users[i])) in Hidden(all) {
      var k :| 0 <= k < |all| && all[k] == (i, users[i]);
      assert Hidden(all)[k] == (i, WithoutPassword(users[i]));
    }
  }

  /** `getRecommendations`: nothing for a missing student; otherwise the
      first ten matching mentors in natural order, without passwords. */
  method GetRecommendations(db: Db, me: Id) returns (mentors: seq<(Id, User)>)
    requires db.Valid()
    ensures me !in db.users ==> mentors == []
    ensures me in db.users ==> mentors == FirstTen(db.users, db.nextId, RecommendFilter(db.users[me], me))
    ensures |mentors| <= 10
    ensures forall k :: 0 <= k < |mentors| ==>
      me in db.users && mentors[k].0 in db.users && mentors[k].1 == WithoutPassword(db.users[mentors[k].0]) &&
      Recommendable(db.users[mentors[k].0], mentors[k].0, db.users[me], me)
    ensures forall a, b :: 0 <= a < b < |mentors| ==> mentors[a].0 < mentors[b].0
    ensures |mentors| < 10 ==> forall i :: (i in db.users && me in db.users &&
      Recommendable(db.users[i], i, db.users[me], me)) ==> (i, WithoutPassword(db.users[i])) in mentors
  {
    if me !in db.users {
      return [];
    }
    var query := RecommendFilter(db.users[me], me);
    mentors := FirstTen(db.users, db.nextId, query);
    assert IdsBelow(db.State());
    FirstTenRows(db.users, db.nextId, query);
    FirstTenOrder(db.users, db.nextId, query);
    FirstTenComplete(db.users, db.nextId, query);
  }
}
