/** The internship controller: the public listing of offers, a mentor
    publishing an offer, a student applying to one, and the mentor deciding
    on an application. */
module Internships {
  import opened Common
  import opened Base
  import opened Sorting
  import opened UserModel
  import opened InternshipModel
  import opened Store

  // ---- Listing offers ------------------------------------------------------

  /** The listing query: an exact industry, a case-insensitive location
      pattern, and a search pattern found in the title, the company or the
      description; each filter applies only when given. */
  predicate InternshipQuery(x: Internship, industry: Option<string>, location: Option<string>,
                            search: Option<string>) {
    && (Truthy(industry) ==> x.industry == industry.value)
    && (Truthy(location) ==> Matches(x.location, location.value))
    && (Truthy(search) ==>
          Matches(x.title, search.value) || Matches(x.company, search.value) ||
          Matches(x.description, search.value))
  }

  /** The query as the value handed to `find` and `countDocuments`. */
  function InternshipFilter(industry: Option<string>, location: Option<string>,
                            search: Option<string>): (q: Internship -> bool)
    ensures forall x :: q(x) == InternshipQuery(x, industry, location, search)
  {
    x => InternshipQuery(x, industry, location, search)
  }

  /** `sort({ createdAt: -1 })`. */
  function NewestInternshipFirst(e: (Id, Internship)): int {
    -e.1.createdAt
  }

  /** A page of a newest-first list of stored offers passing `q`: at most
      `limit` rows, each a stored offer passing `q`, newest first. */
  lemma InternshipPage(all: seq<(Id, Internship)>, internships: map<Id, Internship>, q: Internship -> bool,
                       page: int, limit: int)
    requires page >= 1 && limit >= 1 && SortedBy(all, NewestInternshipFirst)
    requires forall k :: 0 <= k < |all| ==>
      all[k].0 in internships && internships[all[k].0] == all[k].1 && q(all[k].1)
    ensures var rows := Page(all, page, limit);
      && |rows| <= limit
      && (forall k :: 0 <= k < |rows| ==>
            rows[k].0 in internships && internships[rows[k].0] == rows[k].1 && q(rows[k].1))
      && (forall i, j :: 0 <= i < j < |rows| ==> rows[i].1.createdAt >= rows[j].1.createdAt)
  {
    var rows := Page(all, page, limit);
    PageSorted(all, page, limit, NewestInternshipFirst);
    assert forall i, j :: 0 <= i < j < |rows| ==> NewestInternshipFirst(rows[i]) <= NewestInternshipFirst(rows[j]);
    StoredPage(all, internships, q, page, limit);
  }

  /** No match is lost to paging: every stored offer passing the query is on
      some page between 1 and the page count reported. */
  lemma EveryInternshipListed(internships: map<Id, Internship>, n: nat, q: Internship -> bool, id: Id, limit: int)
    requires limit >= 1 && id in internships && id < n && q(internships[id])
    ensures var all := SelectSorted(internships, n, q, NewestInternshipFirst);
      exists p :: 1 <= p <= TotalPages(|all|, limit) && (id, internships[id]) in Page(all, p, limit)
  {
    var all := SelectSorted(internships, n, q, NewestInternshipFirst);
    OnSomePage(all, limit, (id, internships[id]));
  }

  /** `getInternships`: the requested page of the matching offers, newest
      first; the number of matches; and the page count
      `Math.ceil(total / limit)`. */
  method GetInternships(db: Db, industry: Option<string>, location: Option<string>, search: Option<string>,
                        page: int, limit: int)
    returns (internships: seq<(Id, Internship)>, totalPages: int, total: nat)
    requires page >= 1 && limit >= 1
    ensures var all := SelectSorted(db.internships, db.nextId, InternshipFilter(industry, location, search),
                                    NewestInternshipFirst);
      && total == |all|
      && internships == Page(all, page, limit)
    ensures |internships| <= limit
    ensures forall k :: 0 <= k < |internships| ==>
      internships[k].0 in db.internships && db.internships[internships[k].0] == internships[k].1 &&
      InternshipQuery(internships[k].1, industry, location, search)
    ensures forall i, j :: 0 <= i < j < |internships| ==> internships[i].1.createdAt >= internships[j].1.createdAt
    ensures totalPages == TotalPages(total, limit)
  {
    var query := InternshipFilter(industry, location, search);
    var all := SelectSorted(db.internships, db.nextId, query, NewestInternshipFirst);
    internships := Page(all, page, limit);
    total := |all|;
    totalPages := TotalPages(total, limit);
    InternshipPage(all, db.internships, query, page, limit);
  }

  // ---- Publishing an offer -------------------------------------------------

  /** The document built from the request body, owned by the requester
      whatever the body says. */
  function OwnedBy(body: InternshipInit, me: Id): (init: InternshipInit)
    ensures init.mentorId == Some(me)
    ensures init.(mentorId := body.mentorId) == body
  {
    body.(mentorId := Some(me))
  }

  /** The checks of `createInternship`, in order: the requester is a mentor
      (403), and the body, owned by the requester, passes validation (500). */
  function CreateGuard(users: map<Id, User>, me: Id, body: InternshipInit, now: int): (status: int)
    ensures status == FORBIDDEN <==> me !in users || users[me].role != "mentor"
    ensures status == SERVER_ERROR <==>
      me in users && users[me].role == "mentor" && NewInternship(OwnedBy(body, me), now).None?
    ensures status == CREATED <==>
      me in users && users[me].role == "mentor" && NewInternship(OwnedBy(body, me), now).Some?
  {
    if me !in users || users[me].role != "mentor" then FORBIDDEN
    else if NewInternship(OwnedBy(body, me), now).None? then SERVER_ERROR
    else CREATED
  }

  /** `createInternship`: a refused request changes nothing; otherwise the
      offer is stored under the next id with no applicants (201). */
  method CreateInternship(db: Db, me: Id, body: InternshipInit, now: int) returns (status: int, id: Option<Id>)
    requires db.Valid()
    modifies db
    ensures db.Valid()
    ensures status == CreateGuard(old(db.users), me, body, now)
    ensures status != CREATED ==> id.None? && db.State() == old(db.State())
    ensures status == CREATED ==> id == Some(old(db.nextId))
    ensures status == CREATED ==> db.State() == old(db.State()).(
      internships := old(db.internships)[old(db.nextId) := NewInternship(OwnedBy(body, me), now).value],
      nextId := old(db.nextId) + 1)
  {
    status := CreateGuard(db.users, me, body, now);
    if status != CREATED {
      return status, None;
    }
    var x := NewInternship(OwnedBy(body, me), now).value;
    var newId := StoreInternship(db, x);
    id := Some(newId);
  }

  /** Stores a valid offer without applicants under the next id. */
  method StoreInternship(db: Db, x: Internship) returns (newId: Id)
    requires db.Valid() && InternshipAccepted(x) && x.applicants == []
    modifies db
    ensures db.Valid()
    ensures newId == old(db.nextId)
    ensures db.State() == old(db.State()).(internships := old(db.internships)[newId := x], nextId := newId + 1)
  {
    newId := db.nextId;
    ghost var st := db.State();
    CreatedStateValid(st, x);
    db.internships := db.internships[newId := x];
    db.nextId := newId + 1;
    assert db.State() == st.(internships := st.internships[newId := x], nextId := newId + 1);
  }

  /** Storing a valid offer without applicants under the next id keeps the
      database valid. */
  lemma CreatedStateValid(st: DbState, x: Internship)
    requires ValidState(st) && InternshipAccepted(x) && x.applicants == []
    ensures ValidState(st.(internships := st.internships[st.nextId := x], nextId := st.nextId + 1))
  {
    var bumped := st.(nextId := st.nextId + 1);
    assert IdsBelow(bumped);
    assert OneApplicationEach(x.applicants);
    PutInternshipValid(bumped, st.nextId, x);
    assert bumped.(internships := bumped.internships[st.nextId := x]) ==
      st.(internships := st.internships[st.nextId := x], nextId := st.nextId + 1);
  }

  // ---- Applying ------------------------------------------------------------

  /** The checks of an application, in order: the requester is a student
      (403), the offer exists (404), the student has not applied yet (400),
      and the accepted applicants have not filled the places (400). */
  function ApplyGuard(users: map<Id, User>, internships: map<Id, Internship>, me: Id, id: Id): (status: int)
    ensures status == FORBIDDEN <==> me !in users || users[me].role != "student"
    ensures status == NOT_FOUND <==> me in users && users[me].role == "student" && id !in internships
    ensures status == BAD_REQUEST <==> (me in users && users[me].role == "student" && id in internships &&
      (HasApplied(internships[id].applicants, me) ||
       AcceptedCount(internships[id].applicants) >= internships[id].maxStudents))
    ensures status == OK <==> (me in users && users[me].role == "student" && id in internships &&
      !HasApplied(internships[id].applicants, me) &&
      AcceptedCount(internships[id].applicants) < internships[id].maxStudents)
  {
    if me !in users || users[me].role != "student" then FORBIDDEN
    else if id !in internships then NOT_FOUND
    else if HasApplied(internships[id].applicants, me) then BAD_REQUEST
    else if AcceptedCount(internships[id].applicants) >= internships[id].maxStudents then BAD_REQUEST
    else OK
  }

  /** The offer after `me` applied at time `now` and it was saved. */
  function Applied(x: Internship, me: Id, now: int): (r: Internship)
    ensures r.applicants == x.applicants + [NewApplicant(me, now)]
    ensures r.updatedAt == now
    ensures r.(applicants := x.applicants, updatedAt := x.updatedAt) == x
  {
    InternshipTouched(x.(applicants := x.applicants + [NewApplicant(me, now)]), now)
  }

  /** An accepted application: the student now has exactly one application,
      the last one, pending; the places taken are as before; and the offer
      still passes validation. */
  lemma AppliedFacts(x: Internship, me: Id, now: int)
    requires InternshipAccepted(x) && OneApplicationEach(x.applicants) && !HasApplied(x.applicants, me)
    ensures var r := Applied(x, me, now);
      && HasApplied(r.applicants, me)
      && FirstApplication(r.applicants, me) == |x.applicants|
      && r.applicants[|x.applicants|].status == Some("pending")
      && OneApplicationEach(r.applicants)
      && AcceptedCount(r.applicants) == AcceptedCount(x.applicants)
      && InternshipAccepted(r)
  {
    var r := Applied(x, me, now);
    var a := NewApplicant(me, now);
    assert r.applicants[|x.applicants|] == a;
    AppendOneApplication(x.applicants, a);
    assert forall i :: 0 <= i < |x.applicants| ==> r.applicants[i] == x.applicants[i];
    AcceptedCountAppendPending(x.applicants, a);
  }

  /** The database after `me` applied to offer `id`: the application
      appended, and an `internship` notification about the offer for its
      mentor under the next id. */
  function AppliedState(st: DbState, me: Id, id: Id, now: int): DbState
    requires id in st.internships
  {
    var x := st.internships[id];
    Notified(st.(internships := st.internships[id := Applied(x, me, now)]), Some(x.mentorId), "internship", id, now)
  }

  lemma AppliedStateValid(st: DbState, me: Id, id: Id, now: int)
    requires ValidState(st) && ApplyGuard(st.users, st.internships, me, id) == OK
    ensures ValidState(AppliedState(st, me, id, now))
  {
    var x := st.internships[id];
    AppliedFacts(x, me, now);
    PutInternshipValid(st, id, Applied(x, me, now));
    NotifiedValid(st.(internships := st.internships[id := Applied(x, me, now)]), Some(x.mentorId), "internship", id, now);
  }

  /** Applying again to the same offer is refused. */
  lemma ApplyOnce(st: DbState, me: Id, id: Id, now: int)
    requires ValidState(st) && ApplyGuard(st.users, st.internships, me, id) == OK
    ensures var st' := AppliedState(st, me, id, now);
      ApplyGuard(st'.users, st'.internships, me, id) == BAD_REQUEST
  {
    AppliedFacts(st.internships[id], me, now);
  }

  /** `applyToInternship`: the checks, then the application is appended and
      the mentor notified (200). */
  method ApplyToInternship(db: Db, me: Id, id: Id, now: int) returns (status: int)
    requires db.Valid()
    modifies db
    ensures db.Valid()
    ensures status == ApplyGuard(old(db.users), old(db.internships), me, id)
    ensures status != OK ==> db.State() == old(db.State())
    ensures status == OK ==> db.State() == AppliedState(old(db.State()), me, id, now)
  {
    status := ApplyGuard(db.users, db.internships, me, id);
    if status != OK {
      return;
    }
    var x := db.internships[id];
    ghost var st := db.State();
    AppliedStateValid(st, me, id, now);
    db.internships := db.internships[id := Applied(x, me, now)];
    db.notifications := db.notifications[db.nextId := NewNotification(Some(x.mentorId), "internship", id, now)];
    db.nextId := db.nextId + 1;
    assert db.State() == AppliedState(st, me, id, now);
  }

  // ---- Deciding on an application ------------------------------------------

  /** The checks of a decision, in order: the offer exists (404), the
      requester is its mentor (403), the student applied (404). */
  function ManageGuard(internships: map<Id, Internship>, me: Id, id: Id, studentId: Id): (status: int)
    ensures status == FORBIDDEN <==> id in internships && internships[id].mentorId != me
    ensures status == NOT_FOUND <==>
      id !in internships || (internships[id].mentorId == me && !HasApplied(internships[id].applicants, studentId))
    ensures status == OK <==>
      id in internships && internships[id].mentorId == me && HasApplied(internships[id].applicants, studentId)
  {
    if id !in internships then NOT_FOUND
    else if internships[id].mentorId != me then FORBIDDEN
    else if !HasApplied(internships[id].applicants, studentId) then NOT_FOUND
    else OK
  }

  /** Whether the decision passes the status enum on save; an undefined
      decision unsets the status and passes. */
  predicate DecisionAccepted(decision: Option<string>) {
    decision.Some? ==> IsApplicantStatus(decision.value)
  }

  /** The offer after the application of `studentId` got `decision` and was
      saved at time `now`. */
  function Managed(x: Internship, studentId: Id, decision: Option<string>, now: int): (r: Internship)
    requires HasApplied(x.applicants, studentId)
    ensures r.applicants == WithStatus(x.applicants, studentId, decision)
    ensures r.updatedAt == now
    ensures r.(applicants := x.applicants, updatedAt := x.updatedAt) == x
  {
    InternshipTouched(x.(applicants := WithStatus(x.applicants, studentId, decision)), now)
  }

  /** A decision touches the application of that student and no other; the
      students who applied, and when, are unchanged. */
  lemma ManagedOnly(x: Internship, studentId: Id, decision: Option<string>, now: int)
    requires HasApplied(x.applicants, studentId) && OneApplicationEach(x.applicants)
    ensures var r := Managed(x, studentId, decision, now);
      && |r.applicants| == |x.applicants|
      && forall i :: 0 <= i < |r.applicants| ==>
           && r.applicants[i].studentId == x.applicants[i].studentId
           && r.applicants[i].appliedAt == x.applicants[i].appliedAt
           && r.applicants[i].status == if x.applicants[i].studentId == studentId then decision
                                        else x.applicants[i].status
  {
    var k := FirstApplication(x.applicants, studentId);
    assert forall i :: 0 <= i < |x.applicants| && x.applicants[i].studentId == studentId ==> i == k;
  }

  /** A decision moves the count of taken places by the change of that one
      application, with no check against `maxStudents`. */
  lemma ManagedCount(x: Internship, studentId: Id, decision: Option<string>, now: int)
    requires HasApplied(x.applicants, studentId)
    ensures var k := FirstApplication(x.applicants, studentId);
      AcceptedCount(Managed(x, studentId, decision, now).applicants) ==
        AcceptedCount(x.applicants)
        - (if IsAccepted(x.applicants[k]) then 1 else 0)
        + (if decision == Some("accepted") then 1 else 0)
  {
    var k := FirstApplication(x.applicants, studentId);
    assert WithStatus(x.applicants, studentId, decision) == x.applicants[k := x.applicants[k].(status := decision)];
    AcceptedCountSetStatus(x.applicants, k, decision);
  }

  /** Deciding twice the same way is deciding once. */
  lemma ManagedIdempotent(x: Internship, studentId: Id, decision: Option<string>, now: int, later: int)
    requires HasApplied(x.applicants, studentId)
    ensures var r := Managed(x, studentId, decision, now);
      HasApplied(r.applicants, studentId) &&
      Managed(r, studentId, decision, later) == r.(updatedAt := later)
  {
    var r := Managed(x, studentId, decision, now);
    var k := FirstApplication(x.applicants, studentId);
    assert r.applicants[k].studentId == studentId;
    var k' := FirstApplication(r.applicants, studentId);
    assert k' == k;
    assert WithStatus(r.applicants, studentId, decision) == r.applicants;
  }

  /** Accepting a student can fill an offer beyond its places: with one
      place taken out of one, accepting a second applicant is carried out. */
  lemma ManageOverCapacity()
    ensures var x := Internship(0, "t", "c", "d", "1", "l", "i", [], 1,
                                [Applicant(1, Some("accepted"), 0), Applicant(2, Some("pending"), 0)], 0, 0);
      && ManageGuard(map[5 := x], 0, 5, 2) == OK
      && AcceptedCount(x.applicants) == x.maxStudents
      && AcceptedCount(Managed(x, 2, Some("accepted"), 1).applicants) == x.maxStudents + 1
  {
    var x := Internship(0, "t", "c", "d", "1", "l", "i", [], 1,
                        [Applicant(1, Some("accepted"), 0), Applicant(2, Some("pending"), 0)], 0, 0);
    assert x.applicants[1].studentId == 2;
    assert FirstApplication(x.applicants, 2) == 1 by {
      assert x.applicants[0].studentId != 2;
    }
    ManagedCount(x, 2, Some("accepted"), 1);
    assert x.applicants[1..][1..] == [];
    assert AcceptedCount(x.applicants) == 1;
  }

  lemma ManagedValid(x: Internship, studentId: Id, decision: Option<string>, now: int)
    requires InternshipAccepted(x) && OneApplicationEach(x.applicants)
    requires HasApplied(x.applicants, studentId) && DecisionAccepted(decision)
    ensures InternshipAccepted(Managed(x, studentId, decision, now))
    ensures OneApplicationEach(Managed(x, studentId, decision, now).applicants)
  {
    WithStatusOneApplication(x.applicants, studentId, decision);
  }

  /** The database after the decision is saved. */
  function ManagedState(st: DbState, id: Id, studentId: Id, decision: Option<string>, now: int): DbState
    requires id in st.internships && HasApplied(st.internships[id].applicants, studentId)
  {
    st.(internships := st.internships[id := Managed(st.internships[id], studentId, decision, now)])
  }

  lemma ManagedStateValid(st: DbState, id: Id, studentId: Id, decision: Option<string>, now: int)
    requires ValidState(st) && id in st.internships && HasApplied(st.internships[id].applicants, studentId)
    requires DecisionAccepted(decision)
    ensures ValidState(ManagedState(st, id, studentId, decision, now))
  {
    ManagedValid(st.internships[id], studentId, decision, now);
    PutInternshipValid(st, id, Managed(st.internships[id], studentId, decision, now));
  }

  /** `manageApplication`: the checks; a decision outside the enum fails
      validation and nothing is saved (500); otherwise the decision is
      saved. The notification names the mentor, so when the requester's
      user document is missing the handler fails after the save (500);
      otherwise the student is notified (200). */
  method ManageApplication(db: Db, me: Id, id: Id, studentId: Id, decision: Option<string>, now: int)
    returns (status: int)
    requires db.Valid()
    modifies db
    ensures db.Valid()
    ensures ManageGuard(old(db.internships), me, id, studentId) != OK ==>
      status == ManageGuard(old(db.internships), me, id, studentId) && db.State() == old(db.State())
    ensures ManageGuard(old(db.internships), me, id, studentId) == OK && !DecisionAccepted(decision) ==>
      status == SERVER_ERROR && db.State() == old(db.State())
    ensures ManageGuard(old(db.internships), me, id, studentId) == OK && DecisionAccepted(decision) ==>
      && (status == OK <==> me in old(db.users))
      && (status != OK ==>
            (status == SERVER_ERROR && db.State() == ManagedState(old(db.State()), id, studentId, decision, now)))
      && (status == OK ==>
            (db.State() == Notified(ManagedState(old(db.State()), id, studentId, decision, now),
                                    Some(studentId), "internship", id, now)))
  {
    status := ManageGuard(db.internships, me, id, studentId);
    if status != OK {
      return;
    }
    if !DecisionAccepted(decision) {
      return SERVER_ERROR;
    }
    ghost var st := db.State();
    ManagedStateValid(st, id, studentId, decision, now);
    db.internships := db.internships[id := Managed(db.internships[id], studentId, decision, now)];
    assert db.State() == ManagedState(st, id, studentId, decision, now);
    if me !in db.users {
      return SERVER_ERROR;
    }
    NotifiedValid(db.State(), Some(studentId), "internship", id, now);
    db.notifications := db.notifications[db.nextId := NewNotification(Some(studentId), "internship", id, now)];
    db.nextId := db.nextId + 1;
    assert db.State() == Notified(ManagedState(st, id, studentId, decision, now), Some(studentId), "internship", id, now);
  }
}
