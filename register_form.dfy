/** The two-step registration form: the step-1 checks, the password check
    on submit, the comma-separated list fields and the communication
    check boxes. */
module RegisterForm {
  import opened Common
  import opened Base
  import UserModel

  datatype StudentFields = StudentFields(educationLevel: string, interests: seq<string>, goals: string, age: string)

  /** `favoriteCommunication` is not among the initial fields: it is absent
      until a check box is first used. */
  datatype MentorFields = MentorFields(
    currentJob: string,
    company: string,
    industry: string,
    expertise: seq<string>,
    bio: string,
    communicationPreferences: seq<string>,
    favoriteCommunication: Option<seq<string>>)

  datatype Form = Form(
    email: string,
    password: string,
    confirmPassword: string,
    role: string,
    firstName: string,
    lastName: string,
    studentInfo: StudentFields,
    mentorInfo: MentorFields)

  const InitialForm := Form("", "", "", "", "", "",
    StudentFields("", [], "", ""),
    MentorFields("", "", "", [], "", [], None))

  /** The messages the form can show. */
  datatype FormError =
    | NoError
    | RoleMissing
    | FieldsMissing
    | PasswordTooShort
    | PasswordsDiffer
    | ServerError(message: string)

  /** The step-1 checks of `nextStep`, the first failing one deciding: a
      role, then the four required fields, then a password of at least six
      characters. */
  function Step1Check(f: Form): (e: FormError)
    ensures e == RoleMissing <==> f.role == ""
    ensures e == FieldsMissing <==>
      (f.role != "" && (f.email == "" || f.password == "" || f.firstName == "" || f.lastName == ""))
    ensures e == PasswordTooShort <==>
      (f.role != "" && f.email != "" && f.password != "" && f.firstName != "" && f.lastName != "" &&
       |f.password| < 6)
    ensures e == NoError <==>
      (f.role != "" && f.email != "" && f.firstName != "" && f.lastName != "" && |f.password| >= 6)
  {
    if f.role == "" then RoleMissing
    else if f.email == "" || f.password == "" || f.firstName == "" || f.lastName == "" then FieldsMissing
    else if |f.password| < 6 then PasswordTooShort
    else NoError
  }

  /** Passing step 1 does not make the server accept the names: a first
      name of blanks passes here and is refused when the user is built,
      since the server trims names before requiring them. */
  lemma BlankNamePassesStep1(f: Form, hash: string -> string, now: int)
    requires f.role == "student" && f.email == "a@b.co" && f.password == "secret"
    requires f.firstName == " " && f.lastName == "Roy"
    ensures Step1Check(f) == NoError
    ensures UserModel.NewUser(UserModel.UserInit(Some(f.email), Some(f.password), Some(f.role),
      Some(f.firstName), Some(f.lastName), None, None, None), now, hash).None?
  {
    assert IsSpace(f.firstName[0]);
    assert TrimStart(f.firstName[1..]) == [];
    assert TrimStart(f.firstName) == [];
  }

  /** `handleArrayInput`: one trimmed entry per comma-separated piece, empty
      pieces kept. */
  function ArrayInput(value: string): (r: seq<string>)
    ensures |r| == |Split(value, ',')|
    ensures forall i :: 0 <= i < |r| ==> r[i] == Trim(Split(value, ',')[i])
    ensures forall i :: 0 <= i < |r| ==> Trimmed(r[i]) && ',' !in r[i]
  {
    var pieces := Split(value, ',');
    var r := seq(|pieces|, i requires 0 <= i < |pieces| => Trim(pieces[i]));
    assert forall i :: 0 <= i < |r| ==> ',' !in r[i] by {
      forall i | 0 <= i < |r| ensures ',' !in r[i] {
        TrimInside(pieces[i]);
      }
    }
    r
  }

  /** Two commas with nothing between them give an empty entry: for
      trimmed, comma-free `x` and `y`, `x,,y` gives `x`, the empty entry
      and `y`. */
  lemma {:induction false} ArrayInputKeepsEmpty(x: string, y: string)
    requires ',' !in x && ',' !in y && Trimmed(x) && Trimmed(y)
    ensures ArrayInput(x + ",," + y) == [x, "", y]
  {
    SplitDoubleComma(x, y);
    TrimmedPieces(x + ",," + y, [x, "", y]);
  }

  /** Pieces that are already trimmed come out unchanged. */
  lemma TrimmedPieces(v: string, pieces: seq<string>)
    requires Split(v, ',') == pieces
    requires forall i :: 0 <= i < |pieces| ==> Trimmed(pieces[i])
    ensures ArrayInput(v) == pieces
  {
    var r := ArrayInput(v);
    forall i | 0 <= i < |r| ensures r[i] == pieces[i] {
      TrimUnchanged(pieces[i]);
    }
  }

  lemma SplitDoubleComma(x: string, y: string)
    requires ',' !in x && ',' !in y
    ensures Split(x + ",," + y, ',') == [x, "", y]
  {
    var rest := [','] + y;
    SplitLeadingComma(y);
    SplitAfterHead(x, ',', rest);
    assert x + [','] + rest == x + ",," + y;
  }

  lemma SplitLeadingComma(y: string)
    requires ',' !in y
    ensures Split([','] + y, ',') == ["", y]
  {
    SplitNoSep(y, ',');
    SplitAfterHead([], ',', y);
    assert [] + [','] + y == [','] + y;
  }

  /** The list field each call of `handleArrayInput` writes: the student's
      interests, or the mentor's expertise. */
  function WithArrayInput(f: Form, value: string, role: string): (g: Form)
    ensures role == "student" ==> g == f.(studentInfo := f.studentInfo.(interests := ArrayInput(value)))
    ensures role != "student" ==> g == f.(mentorInfo := f.mentorInfo.(expertise := ArrayInput(value)))
  {
    if role == "student" then f.(studentInfo := f.studentInfo.(interests := ArrayInput(value)))
    else f.(mentorInfo := f.mentorInfo.(expertise := ArrayInput(value)))
  }

  /** A communication check box: checking appends the option, unchecking
      removes every occurrence; an absent list counts as empty. */
  function Toggled(favorite: Option<seq<string>>, option: string, checked: bool): (r: seq<string>)
    ensures checked ==> r == OrElse(favorite, []) + [option]
    ensures !checked ==> forall x :: x in r <==> x in OrElse(favorite, []) && x != option
  {
    if checked then OrElse(favorite, []) + [option] else Remove(OrElse(favorite, []), option)
  }

  /** Unchecking after checking leaves no trace of the option, and only the
      check boxes' own list changes. */
  lemma ToggleOffClears(f: Form, option: string)
    ensures option !in Toggled(Some(Toggled(f.mentorInfo.favoriteCommunication, option, true)), option, false)
    ensures var g := WithToggle(f, option, true);
      g.mentorInfo.communicationPreferences == f.mentorInfo.communicationPreferences &&
      g.(mentorInfo := g.mentorInfo.(favoriteCommunication := None)) ==
        f.(mentorInfo := f.mentorInfo.(favoriteCommunication := None))
  {
  }

  /** The form after a check box change. */
  function WithToggle(f: Form, option: string, checked: bool): (g: Form)
    ensures g.mentorInfo.favoriteCommunication == Some(Toggled(f.mentorInfo.favoriteCommunication, option, checked))
    ensures g.mentorInfo.communicationPreferences == f.mentorInfo.communicationPreferences
  {
    f.(mentorInfo := f.mentorInfo.(favoriteCommunication := Some(Toggled(f.mentorInfo.favoriteCommunication, option, checked))))
  }

  /** The page state the handlers touch; `registered` counts the calls of
      the registration request. */
  class RegisterPage {
    var form: Form
    var step: int
    var error: FormError
    var registered: nat

    constructor ()
      ensures form == InitialForm && step == 1 && error == NoError && registered == 0
    {
      form := InitialForm;
      step := 1;
      error := NoError;
      registered := 0;
    }

    /** `nextStep`: on step 1 a failing check shows its message and keeps
        the step; otherwise the message is cleared and the step advances by
        one. */
    method NextStep()
      modifies this
      ensures form == old(form) && registered == old(registered)
      ensures old(step) == 1 && Step1Check(old(form)) != NoError ==>
        error == Step1Check(old(form)) && step == old(step)
      ensures old(step) != 1 || Step1Check(old(form)) == NoError ==>
        error == NoError && step == old(step) + 1
    {
      if step == 1 {
        var e := Step1Check(form);
        if e != NoError {
          error := e;
          return;
        }
      }
      error := NoError;
      step := step + 1;
    }

    /** `handleSubmit`: differing passwords show the mismatch and send
        nothing; otherwise the form is sent, and `outcome` is the server's
        answer (None for success, or its message). */
    method Submit(outcome: Option<string>) returns (request: Option<Form>, navigated: bool)
      modifies this
      ensures form == old(form) && step == old(step)
      ensures old(form).password != old(form).confirmPassword ==>
        request.None? && !navigated && error == PasswordsDiffer && registered == old(registered)
      ensures old(form).password == old(form).confirmPassword ==>
        request == Some(old(form)) && registered == old(registered) + 1 &&
        (navigated <==> outcome.None?) &&
        error == (if outcome.None? then NoError else ServerError(outcome.value))
    {
      error := NoError;
      if form.password != form.confirmPassword {
        error := PasswordsDiffer;
        return None, false;
      }
      request := Some(form);
      registered := registered + 1;
      if outcome.None? {
        navigated := true;
      } else {
        error := ServerError(outcome.value);
        navigated := false;
      }
    }

    /** A change of the interests or expertise field. */
    method ArrayField(value: string, role: string)
      modifies this
      ensures form == WithArrayInput(old(form), value, role)
      ensures step == old(step) && error == old(error) && registered == old(registered)
    {
      form := WithArrayInput(form, value, role);
    }

    /** A change of one communication check box. */
    method ToggleCommunication(option: string, checked: bool)
      modifies this
      ensures form == WithToggle(old(form), option, checked)
      ensures step == old(step) && error == old(error) && registered == old(registered)
    {
      form := WithToggle(form, option, checked);
    }
  }
}
