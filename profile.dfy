/** The profile page (src/pages/Profile.tsx): the avatar initials of a
    display name, and the edit form with its defaults, edits, cancel and
    save. */
module Profile {
  import opened Common
  import opened Text

  // ----- initials -------------------------------------------------------------

  /** `s.split(' ')`: the pieces between single spaces, empty pieces included;
      the empty string splits into one empty piece. */
  function Split(s: string): (words: seq<string>)
    ensures |words| >= 1
  {
    if s == [] then [""]
    else if s[0] == ' ' then [""] + Split(s[1..])
    else
      var rest := Split(s[1..]);
      [[s[0]] + rest[0]] + rest[1..]
  }

  /** `.map(word => word[0]).join('')`: the first character of every piece;
      an empty piece contributes nothing (`undefined` joins as ''). */
  function Firsts(words: seq<string>): string
  {
    if words == [] then ""
    else (if words[0] == "" then "" else [words[0][0]]) + Firsts(words[1..])
  }

  /** The reference: the characters of `s` that start a word, that is, are
      not spaces and follow a space or the start (`atStart`). */
  function WordStarts(s: string, atStart: bool): (r: string)
    ensures |r| <= |s|
    ensures forall c :: c in r ==> c in s && c != ' '
  {
    if s == [] then ""
    else if s[0] == ' ' then WordStarts(s[1..], true)
    else (if atStart then [s[0]] else "") + WordStarts(s[1..], false)
  }

  /** Splitting on spaces and taking first characters yields exactly the word
      starts; the pieces after the first yield the word starts after a
      non-space. */
  lemma {:induction false} FirstsOfSplit(s: string)
    ensures Firsts(Split(s)) == WordStarts(s, true)
    ensures Firsts(Split(s)[1..]) == WordStarts(s, false)
  {
    if s != [] {
      FirstsOfSplit(s[1..]);
      var rest := Split(s[1..]);
      if s[0] == ' ' {
        assert Split(s)[1..] == rest;
      } else {
        assert Split(s)[1..] == rest[1..];
        assert Firsts(Split(s)) == [s[0]] + Firsts(rest[1..]);
      }
    }
  }

  /** `getInitials`: "U" for an empty name, else the upper-cased first
      characters of the words, at most two. */
  function GetInitials(name: string): (r: string)
    ensures name == "" ==> r == "U"
    ensures |r| <= 2
    ensures name != "" ==> var w := Upper(WordStarts(name, true)); r == w[..if |w| < 2 then |w| else 2]
    ensures forall i :: 0 <= i < |r| ==> !IsAsciiLower(r[i])
  {
    if name == "" then "U"
    else
      var joined := Upper(Firsts(Split(name)));
      FirstsOfSplit(name);
      joined[..if |joined| < 2 then |joined| else 2]
  }

  /** A name made only of spaces has no word starts, so its initials are empty. */
  lemma {:induction false} BlankNameHasNoInitials(name: string)
    requires name != "" && forall i :: 0 <= i < |name| ==> name[i] == ' '
    ensures GetInitials(name) == ""
  {
    AllSpacesNoStarts(name, true);
  }

  lemma {:induction false} AllSpacesNoStarts(s: string, atStart: bool)
    requires forall i :: 0 <= i < |s| ==> s[i] == ' '
    ensures WordStarts(s, atStart) == ""
  {
    if s != [] {
      AllSpacesNoStarts(s[1..], true);
    }
  }

  /** A two-word name gives the two upper-cased first letters. */
  lemma TwoWordInitials()
    ensures GetInitials("rahul kumar") == "RK"
  {
    TwoWordStarts();
    var r := GetInitials("rahul kumar");
    assert |r| == 2 && StartsWith(Upper("rk"), r);
    assert Upper("rk") == "RK";
  }

  lemma TwoWordStarts()
    ensures WordStarts("rahul kumar", true) == "rk"
  {
    FirstWordStart();
    SecondWordStart();
    assert "rahul kumar" == "rahul" + " kumar";
    WordStartsAppend("rahul", " kumar", true);
  }

  lemma FirstWordStart()
    ensures WordStarts("rahul", true) == "r"
  {
    assert "rahul"[1..] == "ahul";
    WordStartsNotAtStart("ahul");
  }

  lemma SecondWordStart()
    ensures WordStarts(" kumar", false) == "k"
  {
    assert " kumar"[1..] == "kumar" && "kumar"[1..] == "umar";
    WordStartsNotAtStart("umar");
  }

  /** A one-word name gives its upper-cased first letter alone. */
  lemma OneWordInitial()
    ensures GetInitials("rahul") == "R"
  {
    FirstWordStart();
    assert Upper("r") == "R";
  }

  /** The avatar's last fallback "User" gives "U". */
  lemma FallbackInitials()
    ensures GetInitials("User") == "U"
  {
    assert "User"[1..] == "ser";
    WordStartsNotAtStart("ser");
    assert WordStarts("User", true) == "U";
    assert Upper("U") == "U";
  }

  /** Word starts of a concatenation: the second part continues from where
      the first left off. */
  lemma {:induction false} WordStartsAppend(a: string, b: string, atStart: bool)
    requires a != [] && a[|a| - 1] != ' '
    ensures WordStarts(a + b, atStart) == WordStarts(a, atStart) + WordStarts(b, false)
  {
    var ab := a + b;
    assert ab[0] == a[0];
    var head := if a[0] == ' ' then "" else if atStart then [a[0]] else "";
    var next := a[0] == ' ';
    assert WordStarts(ab, atStart) == head + WordStarts(ab[1..], next);
    assert WordStarts(a, atStart) == head + WordStarts(a[1..], next);
    if |a| > 1 {
      assert ab[1..] == a[1..] + b;
      WordStartsAppend(a[1..], b, next);
    } else {
      assert ab[1..] == b;
      assert a[0] != ' ' && WordStarts(a[1..], next) == "";
    }
  }

  /** A word without spaces, not at a word start, contributes nothing. */
  lemma {:induction false} WordStartsNotAtStart(s: string)
    requires forall i :: 0 <= i < |s| ==> s[i] != ' '
    ensures WordStarts(s, false) == ""
  {
    if s != [] {
      WordStartsNotAtStart(s[1..]);
    }
  }

  /** The avatar's name: `profile?.display_name || user_metadata?.display_name || 'User'`. */
  function AvatarName(profileName: Option<string>, metadataName: Option<string>): (n: string)
    ensures n != ""
    ensures profileName.Some? && profileName.value != "" ==> n == profileName.value
    ensures (profileName.None? || profileName.value == "") ==>
      n == (if metadataName.Some? && metadataName.value != "" then metadataName.value else "User")
  {
    if profileName.Some? && profileName.value != "" then profileName.value
    else if metadataName.Some? && metadataName.value != "" then metadataName.value
    else "User"
  }

  /** The avatar never shows the "U" of an empty name: its name is never empty. */
  lemma AvatarInitialsFromName(profileName: Option<string>, metadataName: Option<string>)
    ensures var n := AvatarName(profileName, metadataName);
      StartsWith(Upper(WordStarts(n, true)), GetInitials(n))
  {
  }

  // ----- the edit form ----------------------------------------------------------

  datatype ExamPreference = SscCgl | SscChsl | SscMts
  datatype Language = English | Hindi

  /** A `profiles` row as the page reads it; every column may be null. */
  datatype ProfileRecord = ProfileRecord(
    displayName: Option<string>, phone: Option<string>,
    examPreference: Option<ExamPreference>, languagePreference: Option<Language>)

  datatype FormData = FormData(displayName: string, phone: string, examPreference: ExamPreference, languagePreference: Language)

  /** The `useState` initial value of the form. */
  function InitialForm(): (f: FormData)
    ensures f.displayName == "" && f.phone == ""
    ensures f.examPreference == SscCgl && f.languagePreference == English
  {
    FormData("", "", SscCgl, English)
  }

  /** The profile-to-form mapping: each null column takes its default. */
  function FormFromProfile(p: ProfileRecord): (f: FormData)
    ensures f.displayName == p.displayName.GetOr("") && f.phone == p.phone.GetOr("")
    ensures f.examPreference == p.examPreference.GetOr(SscCgl)
    ensures f.languagePreference == p.languagePreference.GetOr(English)
  {
    FormData(p.displayName.GetOr(""), p.phone.GetOr(""),
             p.examPreference.GetOr(SscCgl), p.languagePreference.GetOr(English))
  }

  /** A profile whose columns are all null maps to the initial form. */
  lemma EmptyProfileGivesInitialForm()
    ensures FormFromProfile(ProfileRecord(None, None, None, None)) == InitialForm()
  {
  }

  /** The effect that runs when the profile loads: replace the form only when
      a profile exists. */
  function FormAfterLoad(current: FormData, profile: Option<ProfileRecord>): (f: FormData)
    ensures profile.None? ==> f == current
    ensures profile.Some? ==> f == FormFromProfile(profile.value)
  {
    if profile.Some? then FormFromProfile(profile.value) else current
  }

  /** One `handleInputChange`. */
  datatype FieldEdit = SetDisplayName(name: string) | SetPhone(phone: string)
                     | SetExam(exam: ExamPreference) | SetLanguage(language: Language)

  function ApplyEdit(f: FormData, e: FieldEdit): (g: FormData)
    ensures e.SetDisplayName? ==> g == f.(displayName := e.name)
    ensures e.SetPhone? ==> g == f.(phone := e.phone)
    ensures e.SetExam? ==> g == f.(examPreference := e.exam)
    ensures e.SetLanguage? ==> g == f.(languagePreference := e.language)
  {
    match e
    case SetDisplayName(n) => f.(displayName := n)
    case SetPhone(p) => f.(phone := p)
    case SetExam(x) => f.(examPreference := x)
    case SetLanguage(l) => f.(languagePreference := l)
  }

  function ApplyEdits(f: FormData, edits: seq<FieldEdit>): FormData
    decreases |edits|
  {
    if edits == [] then f else ApplyEdits(ApplyEdit(f, edits[0]), edits[1..])
  }

  /** The form and whether it is being edited. */
  datatype FormState = FormState(form: FormData, isEditing: bool)

  /** The Cancel button: leave editing and reset the form from the loaded
      profile, when there is one. */
  function Cancel(s: FormState, profile: Option<ProfileRecord>): (t: FormState)
    ensures !t.isEditing
    ensures t.form == FormAfterLoad(s.form, profile)
  {
    FormState(FormAfterLoad(s.form, profile), false)
  }

  /** Whatever was edited, Cancel restores the form the loaded profile gave. */
  lemma CancelDiscardsEdits(p: ProfileRecord, edits: seq<FieldEdit>)
    ensures var loaded := FormAfterLoad(InitialForm(), Some(p));
      Cancel(FormState(ApplyEdits(loaded, edits), true), Some(p)) == FormState(loaded, false)
  {
  }

  /** The row `updateProfileMutation` upserts from the form. */
  function SavedProfile(f: FormData): (p: ProfileRecord)
    ensures p.displayName == Some(f.displayName) && p.phone == Some(f.phone)
    ensures p.examPreference == Some(f.examPreference) && p.languagePreference == Some(f.languagePreference)
  {
    ProfileRecord(Some(f.displayName), Some(f.phone), Some(f.examPreference), Some(f.languagePreference))
  }

  /** The row built from a form maps back to that form when it is loaded.
      Whether the store replaces the user's existing row is not modelled. */
  lemma SaveThenReload(f: FormData)
    ensures FormAfterLoad(InitialForm(), Some(SavedProfile(f))) == f
  {
  }
}
