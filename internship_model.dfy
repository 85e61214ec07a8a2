/** The internship document: an offer by a mentor, its capacity, and the
    students who applied with the state of each application. */
module InternshipModel {
  import opened Common
  import opened Base

  predicate IsApplicantStatus(s: string) {
    s == "pending" || s == "accepted" || s == "rejected"
  }

  /** An application; its status is unset only after a mentor assigned an
      undefined status to it. */
  datatype Applicant = Applicant(studentId: Id, status: Option<string>, appliedAt: int)

  datatype Internship = Internship(
    mentorId: Id,
    title: string,
    company: string,
    description: string,
    duration: string,
    location: string,
    industry: string,
    availableDates: seq<int>,
    maxStudents: int,
    applicants: seq<Applicant>,
    createdAt: int,
    updatedAt: int)

  datatype InternshipInit = InternshipInit(
    mentorId: Option<Id>,
    title: Option<string>,
    company: Option<string>,
    description: Option<string>,
    duration: Option<string>,
    location: Option<string>,
    industry: Option<string>,
    availableDates: Option<seq<int>>,
    maxStudents: Option<int>)

  /** What validation on save demands of a stored internship: the required
      strings non-empty and every set applicant status from the enum. */
  predicate InternshipAccepted(x: Internship) {
    && x.title != [] && x.company != [] && x.description != []
    && x.duration != [] && x.location != [] && x.industry != []
    && forall i :: 0 <= i < |x.applicants| && x.applicants[i].status.Some? ==>
         IsApplicantStatus(x.applicants[i].status.value)
  }

  /** A required string: present and, after the setter, not empty. */
  predicate Given(o: Option<string>) {
    o.Some? && o.value != []
  }

  /** Building and saving a new internship at time `now`; `title` and
      `company` are trimmed by their setters and `maxStudents` defaults to 1. */
  function NewInternship(init: InternshipInit, now: int): (r: Option<Internship>)
    ensures r.Some? <==>
      && init.mentorId.Some?
      && init.title.Some? && Trim(init.title.value) != []
      && init.company.Some? && Trim(init.company.value) != []
      && Given(init.description) && Given(init.duration) && Given(init.location) && Given(init.industry)
    ensures r.Some? ==> var x := r.value;
      && x.mentorId == init.mentorId.value
      && x.title == Trim(init.title.value) && x.company == Trim(init.company.value)
      && x.maxStudents == OrElse(init.maxStudents, 1)
      && x.availableDates == OrElse(init.availableDates, [])
      && x.applicants == []
      && x.createdAt == now && x.updatedAt == now
    ensures r.Some? ==> InternshipAccepted(r.value)
  {
    if init.mentorId.None? || init.title.None? || init.company.None? ||
       !Given(init.description) || !Given(init.duration) || !Given(init.location) || !Given(init.industry) ||
       Trim(init.title.value) == [] || Trim(init.company.value) == []
    then None
    else Some(Internship(init.mentorId.value, Trim(init.title.value), Trim(init.company.value),
                         init.description.value, init.duration.value, init.location.value,
                         init.industry.value, OrElse(init.availableDates, []),
                         OrElse(init.maxStudents, 1), [], now, now))
  }

  /** A new application: `pending`, dated at the time it was made. */
  function NewApplicant(studentId: Id, now: int): (a: Applicant)
    ensures a.studentId == studentId && a.status == Some("pending") && a.appliedAt == now
  {
    Applicant(studentId, Some("pending"), now)
  }

  predicate IsAccepted(a: Applicant) {
    a.status == Some("accepted")
  }

  /** The number of accepted applicants; pending and rejected ones do not
      take a place. */
  function AcceptedCount(applicants: seq<Applicant>): (n: nat)
    ensures n <= |applicants|
    ensures n == 0 <==> forall i :: 0 <= i < |applicants| ==> !IsAccepted(applicants[i])
  {
    if applicants == [] then 0
    else
      var rest := AcceptedCount(applicants[1..]);
      assert forall i :: 1 <= i < |applicants| ==> applicants[i] == applicants[1..][i - 1];
      (if IsAccepted(applicants[0]) then 1 else 0) + rest
  }

  /** Appending a pending application leaves the count of taken places as
      it was. */
  lemma {:induction false} AcceptedCountAppendPending(applicants: seq<Applicant>, a: Applicant)
    requires !IsAccepted(a)
    ensures AcceptedCount(applicants + [a]) == AcceptedCount(applicants)
  {
    if applicants != [] {
      assert (applicants + [a])[1..] == applicants[1..] + [a];
      AcceptedCountAppendPending(applicants[1..], a);
    } else {
      assert [a][1..] == [];
    }
  }

  /** Whether `s` already applied: `applicants.some(a => a.studentId == s)`. */
  predicate HasApplied(applicants: seq<Applicant>, s: Id) {
    exists i :: 0 <= i < |applicants| && applicants[i].studentId == s
  }

  /** No student has applied twice. */
  predicate OneApplicationEach(applicants: seq<Applicant>) {
    forall i, j :: 0 <= i < j < |applicants| ==> applicants[i].studentId != applicants[j].studentId
  }

  /** Appending the application of a student who has not applied keeps one
      application per student. */
  lemma AppendOneApplication(applicants: seq<Applicant>, a: Applicant)
    requires OneApplicationEach(applicants) && !HasApplied(applicants, a.studentId)
    ensures OneApplicationEach(applicants + [a])
  {
    var r := applicants + [a];
    forall i, j | 0 <= i < j < |r| ensures r[i].studentId != r[j].studentId {
      if j == |applicants| {
        assert r[i] == applicants[i];
      }
    }
  }

  /** `applicants.find(a => a.studentId == s)`: the position of the first
      application of `s`. */
  function FirstApplication(applicants: seq<Applicant>, s: Id): (k: nat)
    requires HasApplied(applicants, s)
    ensures k < |applicants| && applicants[k].studentId == s
    ensures forall j :: 0 <= j < k ==> applicants[j].studentId != s
    ensures OneApplicationEach(applicants) ==>
      forall j :: 0 <= j < |applicants| && applicants[j].studentId == s ==> j == k
  {
    if applicants[0].studentId == s then 0
    else
      var i :| 0 <= i < |applicants| && applicants[i].studentId == s;
      assert applicants[1..][i - 1].studentId == s;
      1 + FirstApplication(applicants[1..], s)
  }

  /** `applicant.status = status` on the first application of `s`. */
  function WithStatus(applicants: seq<Applicant>, s: Id, status: Option<string>): (r: seq<Applicant>)
    requires HasApplied(applicants, s)
    ensures |r| == |applicants|
    ensures forall i :: 0 <= i < |r| ==> r[i].studentId == applicants[i].studentId && r[i].appliedAt == applicants[i].appliedAt
    ensures forall i :: 0 <= i < |r| ==> r[i].status == if i == FirstApplication(applicants, s) then status else applicants[i].status
  {
    var k := FirstApplication(applicants, s);
    applicants[k := applicants[k].(status := status)]
  }

  /** Setting one status keeps one application per student. */
  lemma WithStatusOneApplication(applicants: seq<Applicant>, s: Id, status: Option<string>)
    requires HasApplied(applicants, s) && OneApplicationEach(applicants)
    ensures OneApplicationEach(WithStatus(applicants, s, status))
  {
    var r := WithStatus(applicants, s, status);
    forall i, j | 0 <= i < j < |r| ensures r[i].studentId != r[j].studentId {
      assert applicants[i].studentId != applicants[j].studentId;
    }
  }

  /** The count of taken places after an application at position `k`
      changes status: it goes up by one when the application becomes
      accepted, down by one when it stops being accepted. No bound by
      `maxStudents` is involved. */
  lemma {:induction false} AcceptedCountSetStatus(applicants: seq<Applicant>, k: nat, status: Option<string>)
    requires k < |applicants|
    ensures AcceptedCount(applicants[k := applicants[k].(status := status)]) ==
      AcceptedCount(applicants)
      - (if IsAccepted(applicants[k]) then 1 else 0)
      + (if status == Some("accepted") then 1 else 0)
  {
    var r := applicants[k := applicants[k].(status := status)];
    if k == 0 {
      assert r[1..] == applicants[1..];
    } else {
      assert r[1..] == applicants[1..][k - 1 := applicants[k].(status := status)];
      AcceptedCountSetStatus(applicants[1..], k - 1, status);
    }
  }

  /** The pre-save hook: `updatedAt` becomes the time of the save and
      nothing else changes. */
  function InternshipTouched(x: Internship, now: int): (r: Internship)
    ensures r.updatedAt == now
    ensures r.(updatedAt := x.updatedAt) == x
  {
    x.(updatedAt := now)
  }
}
