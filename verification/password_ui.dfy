/**
 The password hints of the register and login pages
 (static/js/main.js:7-11, 22-33, 42-46): the strength score and the label
 shown for it, and the button that shows or hides the password.
 */
module PasswordUi {

  /** JavaScript's `length` of a string: the number of UTF-16 code units, so
      a character outside the Basic Multilingual Plane counts twice. */
  function Utf16Length(v: string): (n: nat)
    ensures |v| <= n <= 2 * |v|
    decreases |v|
  {
    if |v| == 0 then 0
    else (if v[0] as int > 0xFFFF then 2 else 1) + Utf16Length(v[1..])
  }

  predicate IsUpper(ch: char) { 'A' <= ch <= 'Z' }
  predicate IsLower(ch: char) { 'a' <= ch <= 'z' }
  predicate IsDigit(ch: char) { '0' <= ch <= '9' }

  /** Matched by `[^A-Za-z0-9]`. A character outside the Basic Multilingual
      Plane is two code units, neither of them a letter or digit, so it
      matches just the same. */
  predicate IsOther(ch: char) { !IsUpper(ch) && !IsLower(ch) && !IsDigit(ch) }

  predicate HasUpper(v: string) { exists i :: 0 <= i < |v| && IsUpper(v[i]) }
  predicate HasLower(v: string) { exists i :: 0 <= i < |v| && IsLower(v[i]) }
  predicate HasDigit(v: string) { exists i :: 0 <= i < |v| && IsDigit(v[i]) }
  predicate HasOther(v: string) { exists i :: 0 <= i < |v| && IsOther(v[i]) }

  /** The five criteria of main.js:24-28, one point each. */
  function Score(v: string): (n: nat)
    ensures n <= 5
  {
    (if Utf16Length(v) >= 8 then 1 else 0)
    + (if HasUpper(v) then 1 else 0)
    + (if HasLower(v) then 1 else 0)
    + (if HasDigit(v) then 1 else 0)
    + (if HasOther(v) then 1 else 0)
  }

  const Labels: seq<string> := ["Very Weak", "Weak", "Fair", "Good", "Strong"]

  /** `min(score - 1, 4)`, with a negative index replaced by 0 (main.js:31-32). */
  function LabelIndex(score: int): (i: nat)
    ensures i < |Labels|
  {
    var idx := if score - 1 < 4 then score - 1 else 4;
    if idx >= 0 then idx else 0
  }

  /** The text under the password field (main.js:32): nothing for an empty
      password, the label of its score otherwise. */
  function StrengthText(v: string): (t: string)
    ensures t == "" <==> v == ""
  {
    if v == "" then "" else "Strength: " + Labels[LabelIndex(Score(v))]
  }

  /** The code-unit length lies between the number of characters and twice
      that, and adds up over concatenation. */
  lemma {:induction false} Utf16LengthSpec(v: string, w: string)
    ensures |v| <= Utf16Length(v) <= 2 * |v|
    ensures Utf16Length(v + w) == Utf16Length(v) + Utf16Length(w)
    decreases |v|
  {
    if |v| > 0 {
      Utf16LengthSpec(v[1..], w);
      assert (v + w)[1..] == v[1..] + w;
    } else {
      assert v + w == w;
    }
  }

  /** Without characters outside the Basic Multilingual Plane the length in
      code units is the number of characters. */
  lemma {:induction false} Utf16LengthBmp(v: string)
    requires forall i :: 0 <= i < |v| ==> v[i] as int <= 0xFFFF
    ensures Utf16Length(v) == |v|
    decreases |v|
  {
    if |v| > 0 {
      assert forall i :: 0 <= i < |v[1..]| ==> v[1..][i] == v[i + 1];
      Utf16LengthBmp(v[1..]);
    }
  }

  /** The score is between 0 and 5, and it is 0 exactly for the empty
      password: every character meets one of the four class criteria. */
  lemma {:induction false} ScoreRange(v: string)
    ensures Score(v) <= 5
    ensures Score(v) == 0 <==> v == ""
  {
    if |v| > 0 {
      var ch := v[0];
      if IsUpper(ch) {
        assert HasUpper(v);
      } else if IsLower(ch) {
        assert HasLower(v);
      } else if IsDigit(ch) {
        assert HasDigit(v);
      } else {
        assert HasOther(v);
      }
    }
  }

  /** Typing more characters never lowers the score. */
  lemma {:induction false} ScoreMonotone(v: string, w: string)
    ensures Score(v) <= Score(v + w)
  {
    Utf16LengthSpec(v, w);
    Utf16LengthSpec(w, []);
    var vw := v + w;
    if HasUpper(v) {
      var i :| 0 <= i < |v| && IsUpper(v[i]);
      assert vw[i] == v[i];
    }
    if HasLower(v) {
      var i :| 0 <= i < |v| && IsLower(v[i]);
      assert vw[i] == v[i];
    }
    if HasDigit(v) {
      var i :| 0 <= i < |v| && IsDigit(v[i]);
      assert vw[i] == v[i];
    }
    if HasOther(v) {
      var i :| 0 <= i < |v| && IsOther(v[i]);
      assert vw[i] == v[i];
    }
  }

  /** Scores 0 and 1 share the first label; scores 1 to 5 map one-to-one
      onto the five labels in order. */
  lemma {:induction false} LabelIndexSpec(score: int)
    ensures 1 <= score <= 5 ==> LabelIndex(score) == score - 1
    ensures score <= 1 ==> LabelIndex(score) == 0
    ensures score >= 5 ==> LabelIndex(score) == 4
  {
  }

  /** The strength text is empty exactly for the empty password; otherwise
      it names one of the labels. "Strong" is shown exactly for a score of 5,
      so never for a password shorter than eight code units. */
  lemma {:induction false} StrengthTextSpec(v: string)
    ensures StrengthText(v) == "" <==> v == ""
    ensures v != "" ==> exists i :: 0 <= i < |Labels| && StrengthText(v) == "Strength: " + Labels[i]
    ensures StrengthText(v) == "Strength: Strong" <==> Score(v) == 5
    ensures Utf16Length(v) < 8 ==> StrengthText(v) != "Strength: Strong"
  {
    ScoreRange(v);
    var prefix := "Strength: ";
    if v != "" {
      var i := LabelIndex(Score(v));
      assert StrengthText(v) == prefix + Labels[i];
      if StrengthText(v) == "Strength: Strong" {
        assert prefix + Labels[i] == prefix + "Strong";
        assert Labels[i] == (prefix + Labels[i])[|prefix|..];
        assert Labels[i] == "Strong";
        assert |Labels[0]| == 9 && |Labels[1]| == 4 && |Labels[2]| == 4 && |Labels[3]| == 4 && |Labels[4]| == 6;
      }
    }
  }

  /** A password field and the text of the icon that toggles it. */
  datatype PasswordField = PasswordField(inputType: string, icon: string)

  /** One click on the eye icon (main.js:7-11 and 42-46 are the same code
      for the register and the login page): a hidden password is shown and
      any other field is hidden, and the icon names the new state. */
  function Toggle(f: PasswordField): (g: PasswordField)
    ensures g.inputType == "text" || g.inputType == "password"
  {
    var show := f.inputType == "password";
    PasswordField(if show then "text" else "password", if show then "visibility" else "visibility_off")
  }

  /** The icon agrees with the field: "visibility" while the password is
      shown, "visibility_off" while it is hidden. */
  predicate Consistent(f: PasswordField) {
    && (f.inputType == "password" || f.inputType == "text")
    && (f.icon == "visibility" <==> f.inputType == "text")
    && (f.icon == "visibility" || f.icon == "visibility_off")
  }

  /** After any click the field is a password or a text field and the icon
      agrees with it; it flips between the two types. */
  lemma {:induction false} ToggleSpec(f: PasswordField)
    ensures Consistent(Toggle(f))
    ensures Toggle(f).icon == "visibility" <==> Toggle(f).inputType == "text"
    ensures f.inputType == "password" ==> Toggle(f).inputType == "text"
    ensures f.inputType != "password" ==> Toggle(f).inputType == "password"
  {
    assert |"visibility"| == 10 && |"visibility_off"| == 14;
    assert "text"[0] != "password"[0];
  }

  /** Two clicks restore a consistent field, and restore the field type of
      any password or text field. */
  lemma {:induction false} ToggleTwice(f: PasswordField)
    ensures f.inputType == "password" || f.inputType == "text" ==> Toggle(Toggle(f)).inputType == f.inputType
    ensures Consistent(f) ==> Toggle(Toggle(f)) == f
  {
    assert "text"[0] != "password"[0];
    assert |"visibility"| == 10 && |"visibility_off"| == 14;
  }

  /** A field of another type is not restored: two clicks leave it a text field. */
  lemma {:induction false} OtherTypeNotRestored()
    ensures Toggle(Toggle(PasswordField("email", ""))) == PasswordField("text", "visibility")
  {
    assert "email"[0] != "password"[0];
  }

  /** A short all-lower-case password is very weak. */
  lemma {:induction false} WeakExample()
    ensures StrengthText("abc") == "Strength: Very Weak"
  {
    assert !HasUpper("abc") && !HasDigit("abc") && !HasOther("abc");
    assert IsLower("abc"[0]);
    Utf16LengthBmp("abc");
  }

  /** Eight characters meeting all five criteria are strong. */
  lemma {:induction false} StrongExample()
    ensures StrengthText("Abcdef1!") == "Strength: Strong"
  {
    var p := "Abcdef1!";
    assert Score(p) == 5 by {
      assert HasUpper(p) && HasOther(p) by { assert IsUpper(p[0]) && IsOther(p[7]); }
      assert HasLower(p) && HasDigit(p) by { assert IsLower(p[1]) && IsDigit(p[6]); }
      assert Utf16Length(p) >= 8 by { Utf16LengthBmp(p); }
    }
    StrengthTextSpec(p);
  }
}
