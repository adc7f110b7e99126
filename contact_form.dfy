/** The contact page of ContactForm.tsx: a three-field record updated one key at a
    time, a validator with fixed messages and patterns, and a submit that stores the
    errors or dispatches the record to the application state. */
module ContactForm {
  import opened Common
  import opened Text
  import opened AppContext

  datatype ContactInfo = ContactInfo(contactName: string, contactEmail: string, contactPhone: string)

  const NameKey: string := "contactName"
  const EmailKey: string := "contactEmail"
  const PhoneKey: string := "contactPhone"

  function InitialContact(): ContactInfo {
    ContactInfo("", "", "")
  }

  /** The record's value under a key, `None` for any other key. */
  function FieldOf(c: ContactInfo, key: string): Option<string> {
    if key == NameKey then Some(c.contactName)
    else if key == EmailKey then Some(c.contactEmail)
    else if key == PhoneKey then Some(c.contactPhone)
    else None
  }

  /** The reducer: `{ ...state, [name]: value }` for one of the three inputs. */
  function SetField(c: ContactInfo, name: string, value: string): ContactInfo {
    if name == NameKey then c.(contactName := value)
    else if name == EmailKey then c.(contactEmail := value)
    else if name == PhoneKey then c.(contactPhone := value)
    else c
  }

  /** The edited key reads back the new value; every other key is unchanged. */
  lemma SetFieldReadBack(c: ContactInfo, name: string, value: string, other: string)
    requires name in {NameKey, EmailKey, PhoneKey}
    ensures FieldOf(SetField(c, name, value), name) == Some(value)
    ensures other != name ==> FieldOf(SetField(c, name, value), other) == FieldOf(c, other)
  {
  }

  // ----- the patterns -----

  /** `^\S+@\S+\.\S+$`: non-blank characters only, with an `@` that has at least one
      character before it and a `.` that has at least one character between it and
      the `@` and at least one after it. */
  ghost predicate EmailShape(s: string) {
    && NoSpace(s)
    && exists i, j :: 0 < i && i + 1 < j && j + 1 < |s| && s[i] == '@' && s[j] == '.'
  }

  /** One character of `[\d\s+\-()]`. */
  predicate PhoneChar(c: char) {
    ('0' <= c <= '9') || IsSpace(c) || c == '+' || c == '-' || c == '(' || c == ')'
  }

  /** `^[\d\s+\-()]{7,}$` */
  predicate PhoneShape(s: string) {
    |s| >= 7 && forall i :: 0 <= i < |s| ==> PhoneChar(s[i])
  }

  /** The email pattern's test, in one pass: the first `@` past the start and the
      last `.` before the end decide whether some split fits. */
  method MatchesEmail(s: string) returns (b: bool)
    ensures b == EmailShape(s)
  {
    var firstAt := -1;
    var lastDot := -1;
    var k := 0;
    while k < |s|
      invariant 0 <= k <= |s|
      invariant NoSpace(s[..k])
      invariant firstAt == -1 ==> forall i :: 1 <= i < k ==> s[i] != '@'
      invariant firstAt != -1 ==> 1 <= firstAt < k && s[firstAt] == '@'
      invariant firstAt != -1 ==> forall i :: 1 <= i < firstAt ==> s[i] != '@'
      invariant lastDot == -1 ==> forall j :: 0 <= j < k && j + 1 < |s| ==> s[j] != '.'
      invariant lastDot != -1 ==> 0 <= lastDot < k && lastDot + 1 < |s| && s[lastDot] == '.'
      invariant lastDot != -1 ==> forall j :: lastDot < j < k && j + 1 < |s| ==> s[j] != '.'
    {
      if IsSpace(s[k]) {
        return false;
      }
      if s[k] == '@' && k >= 1 && firstAt == -1 {
        firstAt := k;
      }
      if s[k] == '.' && k + 1 < |s| {
        lastDot := k;
      }
      k := k + 1;
    }
    assert s[..k] == s;
    b := firstAt != -1 && lastDot != -1 && firstAt + 1 < lastDot;
    if !b {
      forall i, j | 0 < i && i + 1 < j && j + 1 < |s| && s[i] == '@'
        ensures s[j] != '.'
      {
        assert s[i] == '@' && i >= 1;
      }
    }
  }

  /** A string of the email shape is not blank and holds no white space at all. */
  lemma EmailShapeNotBlank(s: string)
    requires EmailShape(s)
    ensures !AllSpace(s) && |s| >= 5
  {
    var i, j :| 0 < i && i + 1 < j && j + 1 < |s| && s[i] == '@' && s[j] == '.';
    assert !IsSpace(s[0]);
  }

  /** Examples of the email pattern: an `@` may recur inside a part, but a missing
      part, a missing dot after the `@`, or a blank inside fails. */
  lemma EmailShapeExamples()
    ensures EmailShape("a@b.c")
    ensures EmailShape("a@b@c.d")
    ensures !EmailShape("a@b")
    ensures !EmailShape("@b.c")
    ensures !EmailShape("a b@c.d")
  {
    var s1 := "a@b.c";
    assert s1[1] == '@' && s1[3] == '.';
    var s2 := "a@b@c.d";
    assert s2[1] == '@' && s2[5] == '.';
    assert !IsSpace("a b@c.d"[1]) == false;
  }

  // ----- validation -----

  function NameError(c: ContactInfo): Option<string> {
    if AllSpace(c.contactName) then Some("Name is required.") else None
  }

  ghost function EmailError(c: ContactInfo): Option<string> {
    if AllSpace(c.contactEmail) then Some("Email is required.")
    else if !EmailShape(c.contactEmail) then Some("Enter a valid email address.")
    else None
  }

  function PhoneError(c: ContactInfo): Option<string> {
    if AllSpace(c.contactPhone) then Some("Phone number is required.")
    else if !PhoneShape(c.contactPhone) then Some("Enter a valid phone number.")
    else None
  }

  /** The message each key gets, `None` for a key that is fine or not checked. */
  ghost function ErrorFor(c: ContactInfo, key: string): Option<string> {
    if key == NameKey then NameError(c)
    else if key == EmailKey then EmailError(c)
    else if key == PhoneKey then PhoneError(c)
    else None
  }

  /** The error map `validate` returns. */
  ghost function ContactErrors(c: ContactInfo): map<string, string> {
    map k | k in {NameKey, EmailKey, PhoneKey} && ErrorFor(c, k).Some? :: ErrorFor(c, k).value
  }

  /** `m` with `key` set to the message, when there is one. */
  function Put(m: map<string, string>, key: string, msg: Option<string>): map<string, string> {
    if msg.Some? then m[key := msg.value] else m
  }

  /** The error map, built key by key as `validate` builds it. */
  lemma ContactErrorsInOrder(c: ContactInfo)
    ensures ContactErrors(c) == Put(Put(Put(map[], NameKey, NameError(c)), EmailKey, EmailError(c)), PhoneKey, PhoneError(c))
  {
    var m := Put(Put(Put(map[], NameKey, NameError(c)), EmailKey, EmailError(c)), PhoneKey, PhoneError(c));
    forall k ensures (k in ContactErrors(c)) == (k in m) && (k in m ==> m[k] == ContactErrors(c)[k]) {
    }
  }

  /** `validate`: the three checks in turn, each blank check on the trimmed text. */
  method Validate(c: ContactInfo) returns (errs: map<string, string>)
    ensures errs == ContactErrors(c)
  {
    errs := map[];
    var msg: Option<string> := None;
    if Trim(c.contactName) == "" {
      msg := Some("Name is required.");
    }
    assert msg == NameError(c);
    errs := Put(errs, NameKey, msg);
    msg := None;
    if Trim(c.contactEmail) == "" {
      msg := Some("Email is required.");
    } else {
      var ok := MatchesEmail(c.contactEmail);
      if !ok {
        msg := Some("Enter a valid email address.");
      }
    }
    assert msg == EmailError(c);
    errs := Put(errs, EmailKey, msg);
    msg := None;
    if Trim(c.contactPhone) == "" {
      msg := Some("Phone number is required.");
    } else if !PhoneShape(c.contactPhone) {
      msg := Some("Enter a valid phone number.");
    }
    assert msg == PhoneError(c);
    errs := Put(errs, PhoneKey, msg);
    ContactErrorsInOrder(c);
  }

  /** The record passes exactly when the name is not blank, the email has the email
      shape and the phone is not blank and has the phone shape. */
  lemma ContactValidIff(c: ContactInfo)
    ensures ContactErrors(c) == map[] <==>
      && !AllSpace(c.contactName)
      && EmailShape(c.contactEmail)
      && !AllSpace(c.contactPhone) && PhoneShape(c.contactPhone)
  {
    if ContactErrors(c) == map[] {
      assert NameKey !in ContactErrors(c);
      assert EmailKey !in ContactErrors(c);
      assert PhoneKey !in ContactErrors(c);
    }
  }

  /** The initial record reports all three fields as required. */
  lemma InitialContactErrors()
    ensures ContactErrors(InitialContact()) ==
      map[NameKey := "Name is required.", EmailKey := "Email is required.", PhoneKey := "Phone number is required."]
  {
  }

  // ----- the page -----

  class ContactPage {
    var form: ContactInfo
    var errors: map<string, string>
    var app: AppState<ContactInfo>

    constructor(app: AppState<ContactInfo>)
      ensures form == InitialContact() && errors == map[] && this.app == app
    {
      form := InitialContact();
      errors := map[];
      this.app := app;
    }

    method HandleChange(name: string, value: string)
      modifies this`form
      ensures form == SetField(old(form), name, value)
    {
      form := SetField(form, name, value);
    }

    /** `handleSubmit`: the errors are stored, or cleared and the record dispatched
        as the contact details. */
    method HandleSubmit()
      modifies this`errors, this`app
      ensures ContactErrors(form) != map[] ==> errors == ContactErrors(form) && app == old(app)
      ensures ContactErrors(form) == map[] ==>
        errors == map[] && app == AppReducer(old(app), Action(SetContactInfo, Some(form)))
    {
      var errs := Validate(form);
      if |errs| > 0 {
        errors := errs;
        return;
      }
      errors := map[];
      app := AppReducer(app, Action(SetContactInfo, Some(form)));
    }
  }
}
