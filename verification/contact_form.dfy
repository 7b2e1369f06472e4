/** The contact page's form: per-field validation, clearing an error when its field is
    edited, and the gate that lets a submission start only for a valid form. */
module ContactForm {
  import opened Wrappers
  import opened Text

  datatype Field = Name | Email | Subject | Message

  /** The four text inputs. */
  datatype FormData = FormData(name: string, email: string, subject: string, message: string) {

    function Get(f: Field): string {
      match f
      case Name => name
      case Email => email
      case Subject => subject
      case Message => message
    }

    function With(f: Field, v: string): FormData {
      match f
      case Name => this.(name := v)
      case Email => this.(email := v)
      case Subject => this.(subject := v)
      case Message => this.(message := v)
    }
  }

  /** At most one message per field; `None` is a field without an error. */
  datatype FormErrors = FormErrors(
    name: Option<string>, email: Option<string>, subject: Option<string>, message: Option<string>)
  {

    function Get(f: Field): Option<string> {
      match f
      case Name => name
      case Email => email
      case Subject => subject
      case Message => message
    }

    function With(f: Field, e: Option<string>): FormErrors {
      match f
      case Name => this.(name := e)
      case Email => this.(email := e)
      case Subject => this.(subject := e)
      case Message => this.(message := e)
    }
  }

  const NoErrors := FormErrors(None, None, None, None)

  const NameRequired: string := "Name is required"
  const EmailRequired: string := "Email is required"
  const EmailInvalid: string := "Email is invalid"
  const SubjectRequired: string := "Subject is required"
  const MessageRequired: string := "Message is required"
  const MessageTooShort: string := "Message must be at least 10 characters"

  /** The fewest UTF-16 code units a trimmed message may have. */
  const MinMessageLength := 10

  /** What the regular expression `^\S+@\S+\.\S+$` accepts: no white space anywhere, an `@`
      with at least one character before it, then at least one character, a `.`, and at
      least one character after it. */
  ghost predicate EmailPattern(s: string) {
    && NoSpace(s)
    && exists a, d | 0 < a && a + 1 < d && d + 1 < |s| :: s[a] == '@' && s[d] == '.'
  }

  /** The first position at or after `lo` holding `c`, or `|s|` when there is none. */
  function FindFrom(s: string, c: char, lo: nat): (k: nat)
    requires lo <= |s|
    ensures lo <= k <= |s|
    ensures k < |s| ==> s[k] == c
    ensures forall j | lo <= j < k :: s[j] != c
    decreases |s| - lo
  {
    if lo == |s| || s[lo] == c then lo else FindFrom(s, c, lo + 1)
  }

  /** The last position before `hi` holding `c`, or -1 when there is none. */
  function FindLastBefore(s: string, c: char, hi: nat): (k: int)
    requires hi <= |s|
    ensures -1 <= k < hi
    ensures k >= 0 ==> s[k] == c
    ensures forall j | k < j < hi :: s[j] != c
  {
    if hi == 0 then -1
    else if s[hi - 1] == c then hi - 1
    else FindLastBefore(s, c, hi - 1)
  }

  /** The pattern holds exactly when the earliest admissible `@` lies at least two
      places before the latest admissible `.`. */
  lemma EmailScan(s: string)
    requires |s| > 0
    ensures var a, d := FindFrom(s, '@', 1), FindLastBefore(s, '.', |s| - 1);
      (exists a', d' | 0 < a' && a' + 1 < d' && d' + 1 < |s| :: s[a'] == '@' && s[d'] == '.')
      <==> (a < |s| && 0 <= d && a + 1 < d)
  {
    var a, d := FindFrom(s, '@', 1), FindLastBefore(s, '.', |s| - 1);
    if exists a', d' | 0 < a' && a' + 1 < d' && d' + 1 < |s| :: s[a'] == '@' && s[d'] == '.' {
      var a', d' :| 0 < a' && a' + 1 < d' && d' + 1 < |s| && s[a'] == '@' && s[d'] == '.';
      assert a <= a';
      assert d' <= d;
    }
  }

  /** Tests the email pattern in one forward and one backward scan. */
  function EmailMatches(s: string): (b: bool)
    ensures b <==> EmailPattern(s)
  {
    if |s| == 0 then false
    else
      EmailScan(s);
      var a := FindFrom(s, '@', 1);
      var d := FindLastBefore(s, '.', |s| - 1);
      NoSpace(s) && a < |s| && 0 <= d && a + 1 < d
  }

  /** The errors the form shows: each field's rule, checked independently. */
  function Validate(f: FormData): (e: FormErrors)
    ensures e.name.Some? <==> Blank(f.name)
    ensures e.name.Some? ==> e.name.value == NameRequired
    ensures Blank(f.email) ==> e.email == Some(EmailRequired)
    ensures !Blank(f.email) ==> (e.email.Some? <==> !EmailPattern(f.email))
    ensures !Blank(f.email) && e.email.Some? ==> e.email.value == EmailInvalid
    ensures e.subject.Some? <==> Blank(f.subject)
    ensures e.subject.Some? ==> e.subject.value == SubjectRequired
    ensures Blank(f.message) ==> e.message == Some(MessageRequired)
    ensures !Blank(f.message) ==> (e.message.Some? <==> Utf16Length(Trim(f.message)) < MinMessageLength)
    ensures !Blank(f.message) && e.message.Some? ==> e.message.value == MessageTooShort
  {
    FormErrors(
      name := if Trim(f.name) == [] then Some(NameRequired) else None,
      email :=
        if Trim(f.email) == [] then Some(EmailRequired)
        else if !EmailMatches(f.email) then Some(EmailInvalid)
        else None,
      subject := if Trim(f.subject) == [] then Some(SubjectRequired) else None,
      message :=
        if Trim(f.message) == [] then Some(MessageRequired)
        else if Utf16Length(Trim(f.message)) < MinMessageLength then Some(MessageTooShort)
        else None)
  }

  /** A form the page accepts: a non-blank name and subject, an address matching the
      pattern, and a message of at least ten UTF-16 code units once trimmed. */
  ghost predicate Acceptable(f: FormData) {
    && !Blank(f.name)
    && EmailPattern(f.email)
    && !Blank(f.subject)
    && Utf16Length(Trim(f.message)) >= MinMessageLength
  }

  /** The error map is empty exactly for acceptable forms. */
  lemma ValidateAcceptsExactly(f: FormData)
    ensures Validate(f) == NoErrors <==> Acceptable(f)
  {
    if EmailPattern(f.email) {
      assert !IsSpace(f.email[0]);
    }
  }

  /** The page's form, its visible errors, and whether a submission is under way. */
  datatype ContactState = ContactState(form: FormData, errors: FormErrors, submitting: bool)

  /** Typing into a field: stores the value and clears that field's error if it shows one. */
  function HandleChange(st: ContactState, f: Field, v: string): (r: ContactState)
    ensures r.form.Get(f) == v
    ensures forall g: Field | g != f :: r.form.Get(g) == st.form.Get(g)
    ensures forall g: Field | g != f :: r.errors.Get(g) == st.errors.Get(g)
    ensures st.errors.Get(f) != Some([]) ==> r.errors.Get(f) == None
    ensures st.errors.Get(f) == Some([]) ==> r.errors == st.errors
    ensures r.submitting == st.submitting
  {
    var shown := st.errors.Get(f);
    var errors := if shown.Some? && shown.value != [] then st.errors.With(f, None) else st.errors;
    st.(form := st.form.With(f, v), errors := errors)
  }

  /** Submitting: shows the errors of the current form and starts a submission only
      when there are none. */
  function HandleSubmit(st: ContactState): (r: ContactState)
    ensures r.form == st.form
    ensures r.errors == Validate(st.form)
    ensures r.submitting <==> st.submitting || Acceptable(st.form)
  {
    ValidateAcceptsExactly(st.form);
    var errors := Validate(st.form);
    st.(errors := errors, submitting := if errors == NoErrors then true else st.submitting)
  }

  /** Every message the validation shows is non-empty. */
  lemma ValidateMessagesNonEmpty(f: FormData, g: Field)
    ensures Validate(f).Get(g) != Some([])
  {
    assert NameRequired[0] == 'N' && EmailRequired[0] == 'E' && EmailInvalid[0] == 'E';
    assert SubjectRequired[0] == 'S' && MessageRequired[0] == 'M' && MessageTooShort[0] == 'M';
  }

  /** After a submission shows the errors, typing into a field clears that field's error
      and leaves the others' errors as the validation reported them. */
  lemma TypingAfterSubmitClearsError(st: ContactState, g: Field, v: string)
    ensures var r := HandleChange(HandleSubmit(st), g, v);
      && r.errors.Get(g) == None
      && forall h: Field | h != g :: r.errors.Get(h) == Validate(st.form).Get(h)
  {
    ValidateMessagesNonEmpty(st.form, g);
  }

  /** Length is counted in UTF-16 code units: five characters outside the Basic Multilingual
      Plane make a message long enough. */
  lemma SurrogatePairsCountTwice(f: FormData)
    requires |f.message| == 5 && forall i | 0 <= i < 5 :: f.message[i] >= '\U{10000}'
    ensures Validate(f).message == None
  {
    var m := f.message;
    assert !Blank(m) by {
      assert !IsSpace(m[0]);
    }
    assert Trim(m) == m by {
      assert !IsSpace(m[0]) && !IsSpace(m[4]);
      TrimOfPadded([], m, []);
      assert [] + m + [] == m;
    }
    assert Utf16Length(m) == 10 by {
      assert forall i | 0 <= i < |m| :: m[i] >= '\U{10000}';
    }
  }
}
