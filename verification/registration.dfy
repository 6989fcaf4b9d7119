/**
 The input checks of the registration form (app.py:47-80): fields are read
 with an empty default, every field but the password is stripped of
 surrounding whitespace, the required fields must be non-empty, the age and
 the optional height and weight must parse, and the blood type must be one
 of eight. Parsing numbers is outside this model: the two parsers are
 parameters, so only the order of the checks is modelled.
 */
module Registration {

  /** The characters Python's `str.strip()` removes: those for which
      `str.isspace` holds. */
  const Whitespace: set<char> := {
    '\t', '\n', '\U{0B}', '\U{0C}', '\r', '\U{1C}', '\U{1D}', '\U{1E}', '\U{1F}', ' ',
    '\U{85}', '\U{A0}', '\U{1680}',
    '\U{2000}', '\U{2001}', '\U{2002}', '\U{2003}', '\U{2004}', '\U{2005}',
    '\U{2006}', '\U{2007}', '\U{2008}', '\U{2009}', '\U{200A}',
    '\U{2028}', '\U{2029}', '\U{202F}', '\U{205F}', '\U{3000}'
  }

  predicate IsSpace(ch: char) {
    ch in Whitespace
  }

  /** `s` holds only whitespace (or nothing). */
  ghost predicate Blank(s: string) {
    forall i :: 0 <= i < |s| ==> IsSpace(s[i])
  }

  /** How many whitespace characters `s` starts with. */
  function LeadingSpaces(s: string): (n: nat)
    ensures n <= |s|
    decreases |s|
  {
    if |s| > 0 && IsSpace(s[0]) then 1 + LeadingSpaces(s[1..]) else 0
  }

  /** The length of `s` without its trailing whitespace. */
  function ContentEnd(s: string): (n: nat)
    ensures n <= |s|
    decreases |s|
  {
    if |s| > 0 && IsSpace(s[|s| - 1]) then ContentEnd(s[..|s| - 1]) else |s|
  }

  /** The count stops at the first character that is not whitespace. */
  lemma {:induction false} LeadingSpacesSpec(s: string)
    ensures Blank(s[..LeadingSpaces(s)])
    ensures LeadingSpaces(s) < |s| ==> !IsSpace(s[LeadingSpaces(s)])
    decreases |s|
  {
    if |s| > 0 && IsSpace(s[0]) {
      LeadingSpacesSpec(s[1..]);
      var n := LeadingSpaces(s[1..]);
      assert s[..1 + n] == [s[0]] + s[1..][..n];
      if n < |s| - 1 {
        assert s[1 + n] == s[1..][n];
      }
    }
  }

  /** Only whitespace follows the content, which ends in a non-space character. */
  lemma {:induction false} ContentEndSpec(s: string)
    ensures Blank(s[ContentEnd(s)..])
    ensures ContentEnd(s) > 0 ==> !IsSpace(s[ContentEnd(s) - 1])
    decreases |s|
  {
    if |s| > 0 && IsSpace(s[|s| - 1]) {
      var init := s[..|s| - 1];
      ContentEndSpec(init);
      var n := ContentEnd(init);
      assert s[n..] == init[n..] + [s[|s| - 1]];
      if n > 0 {
        assert s[n - 1] == init[n - 1];
      }
    }
  }

  /** Python's `str.strip()` with no argument. */
  function Strip(s: string): (r: string)
    ensures |r| <= |s|
  {
    var rest := s[LeadingSpaces(s)..];
    rest[..ContentEnd(rest)]
  }

  /** The stripped string is the part of `s` between its leading and its
      trailing whitespace: it is empty exactly when `s` is blank, and
      otherwise starts and ends with a non-space character. */
  lemma {:induction false} StripSpec(s: string)
    ensures Blank(s) <==> Strip(s) == ""
    ensures var r := Strip(s);
            |r| > 0 ==> !IsSpace(r[0]) && !IsSpace(r[|r| - 1])
    ensures var r := Strip(s);
            exists i :: 0 <= i <= |s| - |r| && r == s[i..i + |r|] && Blank(s[..i]) && Blank(s[i + |r|..])
  {
    var a := LeadingSpaces(s);
    var t := s[a..];
    var b := ContentEnd(t);
    var r := Strip(s);
    LeadingSpacesSpec(s);
    ContentEndSpec(t);
    assert r == s[a..a + b];
    assert s[a + b..] == t[b..];
    if b > 0 {
      assert r[0] == s[a];
      assert r[b - 1] == t[b - 1];
    } else {
      assert s[..a] == s;
    }
  }

  /** A string that neither starts nor ends with whitespace is left alone. */
  lemma {:induction false} StripKeeps(s: string)
    requires |s| > 0 ==> !IsSpace(s[0]) && !IsSpace(s[|s| - 1])
    ensures Strip(s) == s
  {
    assert LeadingSpaces(s) == 0;
    assert s[0..] == s;
    assert ContentEnd(s) == |s|;
  }

  /** Stripping twice is stripping once. */
  lemma {:induction false} StripIdempotent(s: string)
    ensures Strip(Strip(s)) == Strip(s)
  {
    StripSpec(s);
    StripKeeps(Strip(s));
  }

  /** The blood types the form accepts (app.py:78), as the database allows them. */
  const ValidBloodTypes: set<string> := {"A+", "A-", "B+", "B-", "O+", "O-", "AB+", "AB-"}

  /** The fields as the handler reads them (app.py:47-55). */
  datatype Profile = Profile(
    username: string, password: string, email: string, name: string, age: string,
    gender: string, height: string, weight: string, bloodType: string)

  /** Why a submission is turned back, in the order the handler checks. */
  datatype Outcome =
    | Accepted(profile: Profile)
    | MissingFields
    | AgeNotNumber
    | MeasurementsNotNumbers
    | InvalidBloodType

  /** A form field, or the empty string when it was not submitted. */
  function Field(form: map<string, string>, key: string): string {
    if key in form then form[key] else ""
  }

  /** Reads the form; the password alone is kept as typed. */
  function ReadForm(form: map<string, string>): Profile {
    Profile(
      Strip(Field(form, "username")), Field(form, "password"), Strip(Field(form, "email")),
      Strip(Field(form, "name")), Strip(Field(form, "age")), Strip(Field(form, "gender")),
      Strip(Field(form, "height")), Strip(Field(form, "weight")), Strip(Field(form, "blood_type")))
  }

  /** The seven required fields of a read profile, as listed at app.py:58. */
  function Required(p: Profile): seq<string> {
    [p.username, p.password, p.email, p.name, p.age, p.gender, p.bloodType]
  }

  /** The required fields of a read profile are all filled in (app.py:58):
      Python's `all` over the list, where only the empty string is false. */
  predicate Complete(p: Profile): (c: bool)
    ensures c <==> forall i :: 0 <= i < |Required(p)| ==> Required(p)[i] != ""
  {
    var req := Required(p);
    assert req[0] == p.username && req[1] == p.password && req[2] == p.email && req[3] == p.name;
    assert req[4] == p.age && req[5] == p.gender && req[6] == p.bloodType;
    && p.username != "" && p.password != "" && p.email != "" && p.name != ""
    && p.age != "" && p.gender != "" && p.bloodType != ""
  }

  /** The registration checks of app.py:57-80. `isInt` and `isFloat` say
      whether Python's `int` and `float` accept a stripped field. */
  function Validate(form: map<string, string>, isInt: string -> bool, isFloat: string -> bool): Outcome {
    Check(ReadForm(form), isInt, isFloat)
  }

  /** The checks on the fields as read, in the handler's order. */
  function Check(p: Profile, isInt: string -> bool, isFloat: string -> bool): Outcome {
    if !Complete(p) then MissingFields
    else if !isInt(p.age) then AgeNotNumber
    else if (p.height != "" && !isFloat(p.height)) || (p.weight != "" && !isFloat(p.weight)) then MeasurementsNotNumbers
    else if p.bloodType !in ValidBloodTypes then InvalidBloodType
    else Accepted(p)
  }

  /** The required fields of the raw form: all but the password may not be
      blank, and the password may not be empty. */
  ghost predicate RequiredPresent(form: map<string, string>) {
    && !Blank(Field(form, "username")) && Field(form, "password") != ""
    && !Blank(Field(form, "email")) && !Blank(Field(form, "name"))
    && !Blank(Field(form, "age")) && !Blank(Field(form, "gender"))
    && !Blank(Field(form, "blood_type"))
  }

  /** A field strips to the empty string exactly when it is blank. */
  lemma {:induction false} ReadFormComplete(form: map<string, string>)
    ensures Complete(ReadForm(form)) <==> RequiredPresent(form)
  {
    StripSpec(Field(form, "username"));
    StripSpec(Field(form, "email"));
    StripSpec(Field(form, "name"));
    StripSpec(Field(form, "age"));
    StripSpec(Field(form, "gender"));
    StripSpec(Field(form, "blood_type"));
  }

  /** A submission is turned back for missing fields exactly when a required
      field is absent or blank (app.py:57-60). */
  lemma {:induction false} MissingExactly(form: map<string, string>, isInt: string -> bool, isFloat: string -> bool)
    ensures Validate(form, isInt, isFloat) == MissingFields <==> !RequiredPresent(form)
  {
    ReadFormComplete(form);
    CheckMissing(ReadForm(form), isInt, isFloat);
  }

  /** On the profile as read, only completeness decides the first check. */
  lemma {:induction false} CheckMissing(p: Profile, isInt: string -> bool, isFloat: string -> bool)
    ensures Check(p, isInt, isFloat) == MissingFields <==> !Complete(p)
  {
  }

  /** An accepted profile is the one checked: complete, with a number for
      the age and one of the eight blood types. */
  lemma {:induction false} AcceptedValid(p: Profile, isInt: string -> bool, isFloat: string -> bool)
    ensures Check(p, isInt, isFloat).Accepted? ==>
              && Check(p, isInt, isFloat).profile == p
              && Complete(p)
              && isInt(p.age)
              && p.bloodType in ValidBloodTypes
  {
  }

  /** The age and the optional measurements of the raw form parse once
      stripped (app.py:63-74). */
  ghost predicate NumbersParse(form: map<string, string>, isInt: string -> bool, isFloat: string -> bool) {
    && isInt(Strip(Field(form, "age")))
    && (Strip(Field(form, "height")) == "" || isFloat(Strip(Field(form, "height"))))
    && (Strip(Field(form, "weight")) == "" || isFloat(Strip(Field(form, "weight"))))
  }

  /** A submitted form is accepted exactly when its required fields are
      present, its numbers parse, and its blood type, once stripped, is one
      of the eight; the accepted profile is the form as read. Past the
      earlier checks, the stripped blood type alone decides (app.py:57-80). */
  lemma {:induction false} AcceptedExactly(form: map<string, string>, isInt: string -> bool, isFloat: string -> bool)
    ensures Validate(form, isInt, isFloat).Accepted? <==>
              && RequiredPresent(form)
              && NumbersParse(form, isInt, isFloat)
              && Strip(Field(form, "blood_type")) in ValidBloodTypes
    ensures Validate(form, isInt, isFloat) == InvalidBloodType <==>
              && RequiredPresent(form)
              && NumbersParse(form, isInt, isFloat)
              && Strip(Field(form, "blood_type")) !in ValidBloodTypes
    ensures Validate(form, isInt, isFloat).Accepted? ==> Validate(form, isInt, isFloat).profile == ReadForm(form)
  {
    var p := ReadForm(form);
    ReadFormComplete(form);
    assert Validate(form, isInt, isFloat) == Check(p, isInt, isFloat);
    assert p.age == Strip(Field(form, "age")) && p.bloodType == Strip(Field(form, "blood_type"));
    assert p.height == Strip(Field(form, "height")) && p.weight == Strip(Field(form, "weight"));
  }

  /** Eight blood types: A, B, O and AB, each positive or negative. */
  lemma {:induction false} EightBloodTypes()
    ensures |ValidBloodTypes| == 8
    ensures forall t :: t in ValidBloodTypes ==> |t| == 2 || |t| == 3
  {
  }

  lemma {:induction false} StripExample()
    ensures Strip(" AB- ") == "AB-"
  {
    assert " AB- "[1..] == "AB- ";
    assert LeadingSpaces("AB- ") == 0;
    assert LeadingSpaces(" AB- ") == 1;
    assert "AB- "[..3] == "AB-";
    assert ContentEnd("AB-") == 3;
    assert ContentEnd("AB- ") == 3;
  }

  /** Whitespace around the blood type is forgiven: a form whose blood type
      strips to an accepted one and passes the earlier checks is accepted. */
  lemma {:induction false} PaddedBloodTypeAccepted(form: map<string, string>, isInt: string -> bool, isFloat: string -> bool)
    requires Field(form, "blood_type") == " AB- "
    requires RequiredPresent(form) && NumbersParse(form, isInt, isFloat)
    ensures Validate(form, isInt, isFloat) == Accepted(ReadForm(form))
    ensures ReadForm(form).bloodType == "AB-"
  {
    StripExample();
    AcceptedExactly(form, isInt, isFloat);
  }


  /** Blood types are compared as written: a lower-case one is turned back. */
  lemma {:induction false} LowerCaseBloodTypeRejected(p: Profile, isInt: string -> bool, isFloat: string -> bool)
    requires Complete(p) && isInt(p.age) && p.height == "" && p.weight == ""
    requires p.bloodType == "ab-"
    ensures Check(p, isInt, isFloat) == InvalidBloodType
  {
    assert "ab-"[0] == 'a';
  }

  /** The password is not stripped: one of blanks counts as filled in, while
      any other required field of blanks is missing. */
  lemma {:induction false} BlankPasswordCounts(form: map<string, string>, isInt: string -> bool, isFloat: string -> bool)
    requires Field(form, "password") == "  "
    ensures ReadForm(form).password == "  "
    ensures Blank(Field(form, "username")) ==> Validate(form, isInt, isFloat) == MissingFields
    ensures (&& !Blank(Field(form, "username")) && !Blank(Field(form, "email"))
             && !Blank(Field(form, "name")) && !Blank(Field(form, "age"))
             && !Blank(Field(form, "gender")) && !Blank(Field(form, "blood_type")))
            ==> Validate(form, isInt, isFloat) != MissingFields
  {
    StripSpec(Field(form, "username"));
    MissingExactly(form, isInt, isFloat);
  }
}
