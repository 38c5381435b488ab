/** `validate` of the contact route: five optional string fields, each
    checked unconditionally, every failing field collected into a map from
    field to message. */
module Validation {
  import opened Wrappers
  import opened Text
  import EmailRegex

  /** The JSON body as the route reads it; every member may be absent. */
  datatype ContactBody = ContactBody(
    fullName: Option<string>,
    email: Option<string>,
    phone: Option<string>,
    subject: Option<string>,
    message: Option<string>)

  /** The keys of the `errors` record: `fullName`, `email`, `phone`,
      `subject`, `message`. */
  datatype Field = FullName | Email | Phone | Subject | Message

  const FullNameRequired := "Full name is required."
  const EmailRequired := "Email is required."
  const EmailInvalid := "Email is invalid."
  const PhoneRequired := "Phone number is required."
  const SubjectRequired := "Subject is required."
  const MessageTooShort := "Message must be at least 10 characters."

  /** `!x || x.trim().length < n`. */
  predicate TooShort(o: Option<string>, n: nat)
  {
    !Truthy(o) || |Trim(o.value)| < n
  }

  /** The e-mail is missing: `!email || email.trim().length === 0`. */
  predicate EmailMissing(o: Option<string>)
  {
    TooShort(o, 1)
  }

  /** Whether `validate` records an error for field `f`. */
  predicate Fails(b: ContactBody, f: Field)
  {
    match f
    case FullName => TooShort(b.fullName, 2)
    case Email => EmailMissing(b.email) || !EmailRegex.Matches(b.email.value)
    case Phone => TooShort(b.phone, 1)
    case Subject => TooShort(b.subject, 3)
    case Message => TooShort(b.message, 10)
  }

  /** The message `validate` records for a failing field. */
  function ErrorMessage(b: ContactBody, f: Field): string
  {
    match f
    case FullName => FullNameRequired
    case Email => if EmailMissing(b.email) then EmailRequired else EmailInvalid
    case Phone => PhoneRequired
    case Subject => SubjectRequired
    case Message => MessageTooShort
  }

  /** One check of `validate`: adds field `f` to the record when it fails. */
  function Check(b: ContactBody, f: Field, errors: map<Field, string>): map<Field, string>
  {
    if Fails(b, f) then errors[f := ErrorMessage(b, f)] else errors
  }

  /** A check adds at most its own field and leaves the other entries alone. */
  lemma CheckEntry(b: ContactBody, f: Field, errors: map<Field, string>, g: Field)
    ensures g in Check(b, f, errors) <==> (g == f && Fails(b, f)) || g in errors
    ensures g in Check(b, f, errors) ==>
      Check(b, f, errors)[g] == if g == f && Fails(b, f) then ErrorMessage(b, f) else errors[g]
  {
  }

  /** The error record `validate` returns: the five checks applied in
      source order to an empty record. */
  function ValidationErrors(b: ContactBody): map<Field, string>
  {
    Check(b, Message, Check(b, Subject, Check(b, Phone, Check(b, Email, Check(b, FullName, map[])))))
  }

  /** A submission every field predicate accepts. */
  predicate Valid(b: ContactBody)
  {
    && !TooShort(b.fullName, 2)
    && !EmailMissing(b.email) && EmailRegex.Matches(b.email.value)
    && !TooShort(b.phone, 1)
    && !TooShort(b.subject, 3)
    && !TooShort(b.message, 10)
  }

  /** `validate(body)`: starts from an empty record and adds an entry for
      each failing field, in source order, without stopping early. */
  method Validate(body: ContactBody) returns (errors: map<Field, string>)
    ensures errors == ValidationErrors(body)
    ensures forall f :: f in errors <==> Fails(body, f)
  {
    errors := map[];
    if !Truthy(body.fullName) || |Trim(body.fullName.value)| < 2 {
      errors := errors[FullName := FullNameRequired];
    }
    assert errors == Check(body, FullName, map[]);
    ghost var done := errors;
    if !Truthy(body.email) || |Trim(body.email.value)| == 0 {
      errors := errors[Email := EmailRequired];
    } else if !EmailRegex.Matches(body.email.value) {
      errors := errors[Email := EmailInvalid];
    }
    assert errors == Check(body, Email, done);
    done := errors;
    if !Truthy(body.phone) || |Trim(body.phone.value)| == 0 {
      errors := errors[Phone := PhoneRequired];
    }
    assert errors == Check(body, Phone, done);
    done := errors;
    if !Truthy(body.subject) || |Trim(body.subject.value)| < 3 {
      errors := errors[Subject := SubjectRequired];
    }
    assert errors == Check(body, Subject, done);
    done := errors;
    if !Truthy(body.message) || |Trim(body.message.value)| < 10 {
      errors := errors[Message := MessageTooShort];
    }
    assert errors == Check(body, Message, done);
    ErrorKeysAreFailingFields(body);
  }

  /** The record's keys are exactly the failing fields, each with its
      message; no field's outcome depends on another field. */
  lemma ErrorKeysAreFailingFields(b: ContactBody)
    ensures forall f :: f in ValidationErrors(b) <==> Fails(b, f)
    ensures forall f :: f in ValidationErrors(b) ==> ValidationErrors(b)[f] == ErrorMessage(b, f)
  {
    forall f ensures f in ValidationErrors(b) <==> Fails(b, f)
      ensures f in ValidationErrors(b) ==> ValidationErrors(b)[f] == ErrorMessage(b, f)
    {
      var e0: map<Field, string> := map[];
      var e1 := Check(b, FullName, e0);
      var e2 := Check(b, Email, e1);
      var e3 := Check(b, Phone, e2);
      var e4 := Check(b, Subject, e3);
      CheckEntry(b, FullName, e0, f);
      CheckEntry(b, Email, e1, f);
      CheckEntry(b, Phone, e2, f);
      CheckEntry(b, Subject, e3, f);
      CheckEntry(b, Message, e4, f);
    }
  }

  /** There is no partial acceptance: the record is empty exactly when all
      five field predicates hold. */
  lemma NoErrorsIffValid(b: ContactBody)
    ensures ValidationErrors(b) == map[] <==> Valid(b)
  {
    ErrorKeysAreFailingFields(b);
    if !Valid(b) {
      var f :| Fails(b, f);
      assert f in ValidationErrors(b);
    }
  }

  /** A field with a minimum length `n` passes exactly when it is present and
      holds two non-white-space characters at least `n - 1` apart (for
      `n == 1`: one non-white-space character). */
  lemma MinLengthMeaning(o: Option<string>, n: nat)
    requires n >= 1
    ensures !TooShort(o, n) <==> (o.Some? &&
      exists i, j :: 0 <= i && i + n - 1 <= j < |o.value| && !IsWhitespace(o.value[i]) && !IsWhitespace(o.value[j]))
  {
    if o.Some? {
      TrimLengthAtLeast(o.value, n);
    }
  }

  /** A blank or absent field: the phone error and the "required" e-mail
      error fire exactly for a missing value or one that is all white space. */
  lemma BlankMeaning(o: Option<string>)
    ensures TooShort(o, 1) <==> o.None? || AllWhitespace(o.value)
  {
    if o.Some? {
      TrimEmptyIff(o.value);
    }
  }

  /** The e-mail gets at most one message: "required" exactly when it is
      missing or blank, otherwise "invalid" exactly when the shape test fails. */
  lemma EmailMessages(b: ContactBody)
    ensures Email in ValidationErrors(b) && ValidationErrors(b)[Email] == EmailRequired
      <==> b.email.None? || AllWhitespace(b.email.value)
    ensures Email in ValidationErrors(b) && ValidationErrors(b)[Email] == EmailInvalid
      <==> !EmailMissing(b.email) && !EmailRegex.WellShaped(b.email.value)
  {
    BlankMeaning(b.email);
    if b.email.Some? {
      EmailRegex.MatchesIffWellShaped(b.email.value);
    }
  }

  /** The shape test sees the untrimmed value, so an address padded with
      white space is reported invalid although it is not missing. */
  lemma PaddedEmailIsInvalid(b: ContactBody, i: int)
    requires b.email.Some? && 0 <= i < |b.email.value| && IsWhitespace(b.email.value[i])
    requires !AllWhitespace(b.email.value)
    ensures Email in ValidationErrors(b) && ValidationErrors(b)[Email] == EmailInvalid
  {
    BlankMeaning(b.email);
    EmailRegex.WhitespaceNeverMatches(b.email.value, i);
  }

  /** The minimum lengths count the trimmed string, inner white space
      included: the subject "a b" passes the three-character check although
      it holds only two non-white-space characters. */
  lemma InnerWhitespaceCounts()
    ensures !TooShort(Some("a b"), 3)
    ensures IsWhitespace("a b"[1])
  {
  }
}
