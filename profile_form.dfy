/** The profile editor: the comma-separated list fields (interests,
    expertise), shown as the list joined by `", "` and parsed back by
    splitting on commas, trimming and dropping empty entries; and the field
    edits, each replacing one key of the form. */
module ProfileForm {
  import opened Common
  import opened Base

  function TrimAll(pieces: seq<string>): (r: seq<string>)
    ensures |r| == |pieces|
    ensures forall i :: 0 <= i < |r| ==> r[i] == Trim(pieces[i])
  {
    seq(|pieces|, i requires 0 <= i < |pieces| => Trim(pieces[i]))
  }

  function NonEmpty(s: string): bool {
    s != ""
  }

  /** `value.split(',').map(s => s.trim()).filter(s => s)`. */
  function ParseList(value: string): (r: seq<string>)
    ensures |r| <= |Split(value, ',')|
    ensures forall e :: e in r <==> e in TrimAll(Split(value, ',')) && e != ""
  {
    Where(TrimAll(Split(value, ',')), NonEmpty)
  }

  /** Every parsed entry is trimmed, non-empty and free of commas. */
  lemma ParseListEntries(value: string)
    ensures forall e :: e in ParseList(value) ==> Trimmed(e) && e != "" && ',' !in e
  {
    var pieces := Split(value, ',');
    forall e | e in ParseList(value) ensures Trimmed(e) && e != "" && ',' !in e {
      var i :| 0 <= i < |pieces| && TrimAll(pieces)[i] == e;
      TrimInside(pieces[i]);
    }
  }

  /** What the field shows: the list joined by `", "`, or nothing. */
  function Display(list: Option<seq<string>>): string {
    if list.Some? then Join(list.value, ", ") else ""
  }

  /** An entry that survives the round trip. */
  predicate Clean(e: string) {
    Trimmed(e) && e != "" && ',' !in e
  }

  /** `" " + e` for every entry. */
  function Spaced(l: seq<string>): (r: seq<string>)
    ensures |r| == |l|
    ensures forall i :: 0 <= i < |l| ==> r[i] == " " + l[i]
  {
    seq(|l|, i requires 0 <= i < |l| => " " + l[i])
  }

  /** A leading blank sticks to the first piece. */
  lemma SplitBlank(j: string)
    ensures Split(" " + j, ',') == [" " + Split(j, ',')[0]] + Split(j, ',')[1..]
  {
    var s := " " + j;
    assert s[0] == ' ' && s[1..] == j;
  }

  /** Splitting the joined text gives the first entry and then each later
      entry behind its blank. */
  lemma {:induction false} SplitJoined(l: seq<string>)
    requires l != [] && forall i :: 0 <= i < |l| ==> ',' !in l[i]
    ensures Split(Join(l, ", "), ',') == [l[0]] + Spaced(l[1..])
  {
    if |l| == 1 {
      SplitNoSep(l[0], ',');
    } else {
      var rest := l[1..];
      var j := Join(rest, ", ");
      assert Join(l, ", ") == l[0] + [','] + (" " + j);
      SplitAfterHead(l[0], ',', " " + j);
      SplitJoined(rest);
      SplitBlank(j);
      assert Split(j, ',')[0] == rest[0];
      assert Split(j, ',')[1..] == Spaced(rest[1..]);
      assert Spaced(rest) == [" " + rest[0]] + Spaced(rest[1..]);
      assert Split(" " + j, ',') == Spaced(rest);
    }
  }

  /** Showing a list of clean entries and parsing the text back gives the
      same list. */
  lemma {:induction false} ParseDisplay(l: seq<string>)
    requires forall i :: 0 <= i < |l| ==> Clean(l[i])
    ensures ParseList(Display(Some(l))) == l
  {
    if l == [] {
      assert Display(Some(l)) == "";
      assert TrimAll([""]) == [""];
    } else {
      SplitJoined(l);
      TrimSpaced(l);
      WhereAll(l, NonEmpty);
    }
  }

  lemma TrimBlank(x: string)
    requires Trimmed(x)
    ensures Trim(" " + x) == x
  {
    assert AllSpace(" ");
    TrimSpacePrefix(" ", x);
  }

  /** Trimming the pieces of the joined text restores the entries. */
  lemma {:induction false} TrimSpaced(l: seq<string>)
    requires l != [] && forall i :: 0 <= i < |l| ==> Clean(l[i])
    ensures TrimAll([l[0]] + Spaced(l[1..])) == l
  {
    var pieces := [l[0]] + Spaced(l[1..]);
    var t := TrimAll(pieces);
    assert |t| == |l|;
    forall i | 0 <= i < |l| ensures t[i] == l[i] {
      TrimPieceAt(l, pieces, i);
    }
    assert t == l;
  }

  lemma TrimPieceAt(l: seq<string>, pieces: seq<string>, i: nat)
    requires i < |l| && Trimmed(l[i])
    requires pieces == [l[0]] + Spaced(l[1..])
    ensures Trim(pieces[i]) == l[i]
  {
    if i == 0 {
      TrimUnchanged(l[0]);
    } else {
      assert pieces[i] == " " + l[i];
      TrimBlank(l[i]);
    }
  }

  /** A value that a profile field holds: text or a list. */
  datatype Value = Text(text: string) | List(items: seq<string>)

  /** The edited profile: the names and the two role sections as the user
      record gave them, extra keys included. */
  datatype Form = Form(
    firstName: string,
    lastName: string,
    studentInfo: map<string, Value>,
    mentorInfo: map<string, Value>)

  datatype Section = StudentSection | MentorSection

  /** One field edit: `{ ...formData, <section>: { ...<section>, <key>: value } }`. */
  function Edit(f: Form, section: Section, key: string, value: Value): (g: Form)
    ensures g.firstName == f.firstName && g.lastName == f.lastName
    ensures section == StudentSection ==> g.mentorInfo == f.mentorInfo && g.studentInfo == f.studentInfo[key := value]
    ensures section == MentorSection ==> g.studentInfo == f.studentInfo && g.mentorInfo == f.mentorInfo[key := value]
  {
    match section
    case StudentSection => f.(studentInfo := f.studentInfo[key := value])
    case MentorSection => f.(mentorInfo := f.mentorInfo[key := value])
  }

  function SectionOf(f: Form, section: Section): map<string, Value> {
    match section
    case StudentSection => f.studentInfo
    case MentorSection => f.mentorInfo
  }

  /** An edit sets its key and leaves every other key of every section and
      both names as they were. */
  lemma EditLeavesOthers(f: Form, section: Section, key: string, value: Value, other: Section, k: string)
    requires other != section || k != key
    ensures SectionOf(Edit(f, section, key, value), section)[key] == value
    ensures k in SectionOf(f, other) <==> k in SectionOf(Edit(f, section, key, value), other)
    ensures k in SectionOf(f, other) ==> SectionOf(Edit(f, section, key, value), other)[k] == SectionOf(f, other)[k]
  {
  }

  /** Typing into a list field stores the parsed list. */
  function EditList(f: Form, section: Section, key: string, typed: string): (g: Form)
    ensures key in SectionOf(g, section) && SectionOf(g, section)[key] == List(ParseList(typed))
    ensures forall e :: e in SectionOf(g, section)[key].items ==> Clean(e)
  {
    ParseListEntries(typed);
    Edit(f, section, key, List(ParseList(typed)))
  }
}
