/** The user document: credentials, role, names, the role-specific profile,
    and the two connection lists; with the email validator, the setters that
    normalise values on assignment, and the save hooks. */
module UserModel {
  import opened Common
  import opened Base

  /** A weekly recurring slot in a mentor's availability settings. */
  datatype WeeklySlot = WeeklySlot(
    dayOfWeek: Option<int>,
    startTime: Option<string>,
    endTime: Option<string>,
    duration: Option<int>,
    location: Option<string>)

  datatype Availability = Availability(
    enabled: bool,
    virtualCoffeeSlots: seq<WeeklySlot>,
    inPersonSlots: seq<WeeklySlot>)

  datatype StudentInfo = StudentInfo(
    educationLevel: Option<string>,
    interests: seq<string>,
    goals: Option<string>,
    age: Option<int>)

  datatype MentorInfo = MentorInfo(
    currentJob: Option<string>,
    company: Option<string>,
    industry: Option<string>,
    expertise: seq<string>,
    bio: Option<string>,
    communicationPreferences: seq<string>,
    availability: Availability,
    offersInternship: bool)

  datatype User = User(
    email: string,
    password: string,
    role: string,
    firstName: string,
    lastName: string,
    profilePicture: string,
    studentInfo: StudentInfo,
    mentorInfo: MentorInfo,
    connections: seq<Id>,
    pendingConnections: seq<Id>,
    createdAt: int,
    updatedAt: int)

  /** Array paths start empty; booleans start false. */
  const DefaultStudentInfo := StudentInfo(None, [], None, None)
  const DefaultMentorInfo :=
    MentorInfo(None, None, None, [], None, [], Availability(false, [], []), false)

  predicate IsRole(r: string) {
    r == "student" || r == "mentor"
  }

  predicate IsCommunicationType(t: string) {
    t == "messaging" || t == "virtual" || t == "in-person"
  }

  /** `min: 0, max: 6` on `dayOfWeek`; an unset value is not checked. */
  predicate WeeklySlotAccepted(w: WeeklySlot) {
    w.dayOfWeek.Some? ==> 0 <= w.dayOfWeek.value <= 6
  }

  /** The strict cast of a `virtualCoffeeSlots` list: the schema gives these
      slots no `location`, so a location sent with one is dropped. */
  function StrictVirtual(ws: seq<WeeklySlot>): (r: seq<WeeklySlot>)
    ensures |r| == |ws|
    ensures forall i :: 0 <= i < |ws| ==> r[i].location.None? && r[i].(location := ws[i].location) == ws[i]
  {
    seq(|ws|, i requires 0 <= i < |ws| => ws[i].(location := None))
  }

  /** The strict cast of an `inPersonSlots` list: these slots have no
      `duration`. */
  function StrictInPerson(ws: seq<WeeklySlot>): (r: seq<WeeklySlot>)
    ensures |r| == |ws|
    ensures forall i :: 0 <= i < |ws| ==> r[i].duration.None? && r[i].(duration := ws[i].duration) == ws[i]
  {
    seq(|ws|, i requires 0 <= i < |ws| => ws[i].(duration := None))
  }

  /** Casting a cast list again changes nothing. */
  lemma StrictIdempotent(ws: seq<WeeklySlot>)
    ensures StrictVirtual(StrictVirtual(ws)) == StrictVirtual(ws)
    ensures StrictInPerson(StrictInPerson(ws)) == StrictInPerson(ws)
  {
    var v := StrictVirtual(ws);
    assert forall i :: 0 <= i < |v| ==> StrictVirtual(v)[i] == v[i];
    var p := StrictInPerson(ws);
    assert forall i :: 0 <= i < |p| ==> StrictInPerson(p)[i] == p[i];
  }

  /** An availability object as the schema stores it. */
  function StrictAvailability(a: Availability): (r: Availability)
    ensures r.enabled == a.enabled
    ensures r.virtualCoffeeSlots == StrictVirtual(a.virtualCoffeeSlots)
    ensures r.inPersonSlots == StrictInPerson(a.inPersonSlots)
    ensures AvailabilityAccepted(r) <==> AvailabilityAccepted(a)
  {
    Availability(a.enabled, StrictVirtual(a.virtualCoffeeSlots), StrictInPerson(a.inPersonSlots))
  }

  predicate AvailabilityAccepted(a: Availability) {
    && (forall i :: 0 <= i < |a.virtualCoffeeSlots| ==> WeeklySlotAccepted(a.virtualCoffeeSlots[i]))
    && (forall i :: 0 <= i < |a.inPersonSlots| ==> WeeklySlotAccepted(a.inPersonSlots[i]))
  }

  // ---- The email validator --------------------------------------------

  /** No white space and no `@`: the class `[^\s@]`. */
  predicate NoSpaceNorAt(s: string) {
    forall i :: 0 <= i < |s| ==> !IsSpace(s[i]) && s[i] != '@'
  }

  /** `^[^\s@]+@[^\s@]+\.[^\s@]+$` read as a decomposition: a non-empty
      local part, an `@` at position `a`, a non-empty domain part, a `.` at
      position `b`, a non-empty last part. */
  ghost predicate MatchesEmailPattern(s: string) {
    exists a: nat, b: nat ::
      0 < a && a + 1 < b && b + 1 < |s| && s[a] == '@' && s[b] == '.' &&
      NoSpaceNorAt(s[..a]) && NoSpaceNorAt(s[a + 1..b]) && NoSpaceNorAt(s[b + 1..])
  }

  /** The position of the first `c` in `s`, or `|s|`. */
  function IndexOf(s: string, c: char): (i: nat)
    ensures i <= |s|
    ensures forall j :: 0 <= j < i ==> s[j] != c
    ensures i < |s| ==> s[i] == c
  {
    if s == [] then 0 else if s[0] == c then 0 else 1 + IndexOf(s[1..], c)
  }

  /** The validator as a scan: split at the first `@`, both sides free of
      white space and `@`, and a `.` strictly inside the domain side. */
  function IsEmail(s: string): bool {
    var a := IndexOf(s, '@');
    0 < a < |s| && NoSpaceNorAt(s[..a]) && NoSpaceNorAt(s[a + 1..]) &&
    exists b :: a + 1 < b < |s| - 1 && s[b] == '.'
  }

  lemma NoSpaceNorAtJoin(s: string, x: nat, y: nat)
    requires x <= y < |s| && NoSpaceNorAt(s[x..y]) && NoSpaceNorAt(s[y + 1..])
    requires !IsSpace(s[y]) && s[y] != '@'
    ensures NoSpaceNorAt(s[x..])
  {
    forall i | 0 <= i < |s[x..]| ensures !IsSpace(s[x..][i]) && s[x..][i] != '@' {
      if x + i < y {
        assert s[x..][i] == s[x..y][i];
      } else if x + i > y {
        assert s[x..][i] == s[y + 1..][x + i - y - 1];
      }
    }
  }

  lemma NoSpaceNorAtSlice(t: string, i: nat, j: nat)
    requires NoSpaceNorAt(t) && i <= j <= |t|
    ensures NoSpaceNorAt(t[i..j])
  {
    var u := t[i..j];
    forall k | 0 <= k < |u| ensures !IsSpace(u[k]) && u[k] != '@' {
      assert u[k] == t[i + k];
    }
  }

  lemma IsEmailPattern(s: string)
    requires IsEmail(s)
    ensures MatchesEmailPattern(s)
  {
    var a := IndexOf(s, '@');
    var b :| a + 1 < b < |s| - 1 && s[b] == '.';
    var rest := s[a + 1..];
    NoSpaceNorAtSlice(rest, 0, b - a - 1);
    NoSpaceNorAtSlice(rest, b - a, |rest|);
    assert s[a + 1..b] == rest[0..b - a - 1];
    assert s[b + 1..] == rest[b - a..|rest|];
  }

  lemma PatternIsEmail(s: string, a': nat, b: nat)
    requires 0 < a' && a' + 1 < b && b + 1 < |s| && s[a'] == '@' && s[b] == '.'
    requires NoSpaceNorAt(s[..a']) && NoSpaceNorAt(s[a' + 1..b]) && NoSpaceNorAt(s[b + 1..])
    ensures IsEmail(s)
  {
    var a := IndexOf(s, '@');
    assert a == a';
    NoSpaceNorAtJoin(s, a' + 1, b);
  }

  /** The scan accepts exactly the strings the regular expression matches. */
  lemma IsEmailMatchesPattern(s: string)
    ensures IsEmail(s) <==> MatchesEmailPattern(s)
  {
    if IsEmail(s) {
      IsEmailPattern(s);
    }
    if MatchesEmailPattern(s) {
      var a': nat, b: nat :| 0 < a' && a' + 1 < b && b + 1 < |s| && s[a'] == '@' && s[b] == '.' &&
        NoSpaceNorAt(s[..a']) && NoSpaceNorAt(s[a' + 1..b]) && NoSpaceNorAt(s[b + 1..]);
      PatternIsEmail(s, a', b);
    }
  }

  /** The `lowercase` and `trim` setters applied to the email on assignment. */
  function NormalizeEmail(raw: string): (e: string)
    ensures Trimmed(e) && |e| <= |raw|
  {
    Trim(Lower(raw))
  }

  /** What validation demands of the email path: present, non-empty after
      normalisation, and of the shape `local@domain.tld`. */
  predicate EmailAccepted(e: string) {
    e != [] && IsEmail(e)
  }

  /** What validation on save demands of a stored user. The password's
      `minlength` is checked against the plain text when the user is built;
      later saves check the stored hash, which a bcrypt hash always passes. */
  predicate UserAccepted(u: User) {
    && EmailAccepted(u.email)
    && IsRole(u.role)
    && u.firstName != [] && u.lastName != []
    && (forall i :: 0 <= i < |u.mentorInfo.communicationPreferences| ==>
          IsCommunicationType(u.mentorInfo.communicationPreferences[i]))
    && AvailabilityAccepted(u.mentorInfo.availability)
  }

  datatype UserInit = UserInit(
    email: Option<string>,
    password: Option<string>,
    role: Option<string>,
    firstName: Option<string>,
    lastName: Option<string>,
    profilePicture: Option<string>,
    studentInfo: Option<StudentInfo>,
    mentorInfo: Option<MentorInfo>)

  /** Building and saving a new user at time `now`: the setters normalise
      the email and trim the names, validation runs, and the pre-save hook
      stores `hash(password)` since the password of a new document counts as
      modified. */
  function NewUser(init: UserInit, now: int, hash: string -> string): (r: Option<User>)
    ensures r.Some? <==>
      && init.email.Some? && EmailAccepted(NormalizeEmail(init.email.value))
      && init.password.Some? && |init.password.value| >= 6
      && init.role.Some? && IsRole(init.role.value)
      && init.firstName.Some? && Trim(init.firstName.value) != []
      && init.lastName.Some? && Trim(init.lastName.value) != []
      && (forall i :: 0 <= i < |OrElse(init.mentorInfo, DefaultMentorInfo).communicationPreferences| ==>
            IsCommunicationType(OrElse(init.mentorInfo, DefaultMentorInfo).communicationPreferences[i]))
      && AvailabilityAccepted(OrElse(init.mentorInfo, DefaultMentorInfo).availability)
    ensures r.Some? ==> var u := r.value;
      && u.email == NormalizeEmail(init.email.value)
      && u.password == hash(init.password.value)
      && u.firstName == Trim(init.firstName.value)
      && u.lastName == Trim(init.lastName.value)
      && u.profilePicture == OrElse(init.profilePicture, "")
      && u.studentInfo == OrElse(init.studentInfo, DefaultStudentInfo)
      && u.mentorInfo == OrElse(init.mentorInfo, DefaultMentorInfo)
      && u.connections == [] && u.pendingConnections == []
      && u.createdAt == now && u.updatedAt == now
    ensures r.Some? ==> UserAccepted(r.value)
  {
    if init.email.None? || init.password.None? || init.role.None? ||
       init.firstName.None? || init.lastName.None?
    then None
    else
      var u := User(NormalizeEmail(init.email.value), init.password.value, init.role.value,
                    Trim(init.firstName.value), Trim(init.lastName.value),
                    OrElse(init.profilePicture, ""),
                    OrElse(init.studentInfo, DefaultStudentInfo),
                    OrElse(init.mentorInfo, DefaultMentorInfo), [], [], now, now);
      if UserAccepted(u) && |init.password.value| >= 6
      then Some(Saved(u, true, hash, now))
      else None
  }

  /** The two pre-save hooks: the password is replaced by its hash only when
      it was modified, and `updatedAt` becomes the time of the save. */
  function Saved(u: User, passwordModified: bool, hash: string -> string, now: int): (r: User)
    ensures r.password == if passwordModified then hash(u.password) else u.password
    ensures r.updatedAt == now
    ensures r.(password := u.password, updatedAt := u.updatedAt) == u
    ensures !passwordModified ==> r == UserTouched(u, now)
  {
    UserTouched(u.(password := if passwordModified then hash(u.password) else u.password), now)
  }

  /** A save that does not modify the password: only `updatedAt` changes. */
  function UserTouched(u: User, now: int): (r: User)
    ensures r.updatedAt == now
    ensures r.(updatedAt := u.updatedAt) == u
  {
    u.(updatedAt := now)
  }
}
