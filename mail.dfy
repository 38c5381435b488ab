/** Composition of the notification e-mail: transport security, the
    recipient list, the sender, the subject line and the plain-text body. */
module Mail {
  import opened Wrappers
  import opened Text
  import opened Validation

  const Banner := "New contact form submission" + " from Auto-Lead landing page"
  const FixedRecipientA := "danielbuchalter@auto-lead.co.za"
  const FixedRecipientB := "danielgad@auto-lead.co.za"
  const SubjectPrefix := "New contact form submission: "
  const RecipientSeparator := ", "

  /** The submissions port on which the transport starts with implicit TLS
      (section 3.3 of RFC 8314). */
  const ImplicitTlsPort := 465

  /** `secure: Number(smtpPort) === 465`; `port` is `Number(smtpPort)` when it
      is an integer and `None` when it is NaN or has a fraction. */
  function Secure(port: Option<int>): bool
  {
    port == Some(ImplicitTlsPort)
  }

  /** A template-literal hole `${x}`: an absent member prints as `undefined`. */
  function Interpolate(o: Option<string>): string
  {
    if o.Some? then o.value else "undefined"
  }

  /** `x || 'N/A'`. */
  function OrNotAvailable(o: Option<string>): string
  {
    if Truthy(o) then o.value else "N/A"
  }

  /** `x ?? ''`. */
  function OrEmpty(o: Option<string>): string
  {
    if o.Some? then o.value else ""
  }

  /** `mailTextLines`: the eleven lines of the body, in order. */
  function MailLines(timestamp: string, b: ContactBody): seq<string>
  {
    [ Banner,
      "",
      "Timestamp: " + timestamp,
      "",
      "Full Name: " + Interpolate(b.fullName),
      "Email: " + Interpolate(b.email),
      "Phone: " + OrNotAvailable(b.phone),
      "Subject: " + Interpolate(b.subject),
      "",
      "Message:",
      OrEmpty(b.message) ]
  }

  /** `mailTextLines.join('\n')`. */
  function MailText(timestamp: string, b: ContactBody): string
  {
    Join(MailLines(timestamp, b), "\n")
  }

  /** `[notificationEmail, A, B].filter(Boolean).join(', ')`. */
  function Recipients(notificationEmail: string): string
  {
    Join(KeepTruthy([notificationEmail, FixedRecipientA, FixedRecipientB]), RecipientSeparator)
  }

  /** `New contact form submission: ${body.subject}`. */
  function MailSubject(b: ContactBody): string
  {
    SubjectPrefix + Interpolate(b.subject)
  }

  /** `"Auto-Lead Contact Form" <${smtpUser}>`. */
  function From(smtpUser: string): string
  {
    "\"Auto-Lead Contact Form\" <" + smtpUser + ">"
  }

  /** The configured address comes first, then the two fixed ones; an empty
      configured address is dropped by `filter(Boolean)`. */
  lemma RecipientsOrder(notificationEmail: string)
    ensures notificationEmail != "" ==>
      Recipients(notificationEmail)
        == notificationEmail + ", " + FixedRecipientA + ", " + FixedRecipientB
    ensures notificationEmail == "" ==>
      Recipients(notificationEmail) == FixedRecipientA + ", " + FixedRecipientB
  {
    var xs := [notificationEmail, FixedRecipientA, FixedRecipientB];
    assert xs[1..] == [FixedRecipientA, FixedRecipientB];
    assert xs[1..][1..] == [FixedRecipientB];
    assert KeepTruthy([FixedRecipientB]) == [FixedRecipientB] by {
      assert [FixedRecipientB][1..] == [];
    }
    var tail := KeepTruthy(xs[1..]);
    assert tail == [FixedRecipientA, FixedRecipientB];
    assert Join(tail, ", ") == FixedRecipientA + ", " + FixedRecipientB by {
      assert tail[1..] == [FixedRecipientB];
    }
    if notificationEmail != "" {
      var all := [notificationEmail] + tail;
      assert all[1..] == tail;
    }
  }

  /** Once the phone passed validation, the `'N/A'` fallback is never used. */
  lemma PhoneFallbackUnused(b: ContactBody)
    requires Valid(b)
    ensures forall timestamp :: MailLines(timestamp, b)[6] == "Phone: " + b.phone.value
  {
  }

  /** The body has eleven lines; it mentions the full name and the subject,
      and it ends with the "Message:" label followed by the message itself. */
  lemma MailTextContents(timestamp: string, b: ContactBody)
    ensures |MailLines(timestamp, b)| == 11
    ensures IsInfix("Full Name: " + Interpolate(b.fullName), MailText(timestamp, b))
    ensures IsInfix("Subject: " + Interpolate(b.subject), MailText(timestamp, b))
    ensures IsInfix("Timestamp: " + timestamp, MailText(timestamp, b))
    ensures MailText(timestamp, b)
      == Join(MailLines(timestamp, b)[..9], "\n") + "\n" + "Message:" + "\n" + OrEmpty(b.message)
  {
    var lines := MailLines(timestamp, b);
    JoinContainsPart(lines, "\n", 4);
    JoinContainsPart(lines, "\n", 7);
    JoinContainsPart(lines, "\n", 2);
    JoinEndsWithLast(lines, "\n");
    JoinEndsWithLast(lines[..10], "\n");
    assert lines[..10][..9] == lines[..9];
    assert lines[..10][9] == "Message:" && lines[10] == OrEmpty(b.message);
  }

  /** The banner holds no line break. */
  lemma BannerIsOneLine()
    ensures '\n' !in Banner
  {
  }

  /** Round trip: when no field holds a line break, splitting the body on
      line breaks gives back exactly the eleven lines. */
  lemma MailTextSplitsIntoLines(timestamp: string, b: ContactBody)
    requires '\n' !in timestamp
    requires '\n' !in Interpolate(b.fullName) && '\n' !in Interpolate(b.email)
    requires '\n' !in OrNotAvailable(b.phone) && '\n' !in Interpolate(b.subject)
    requires '\n' !in OrEmpty(b.message)
    ensures Split(MailText(timestamp, b), '\n') == MailLines(timestamp, b)
  {
    var lines := MailLines(timestamp, b);
    forall i | 0 <= i < |lines| ensures '\n' !in lines[i] {
      if i == 0 {
        BannerIsOneLine();
      } else if i == 2 {
        assert lines[i] == "Timestamp: " + timestamp;
      } else if i == 4 {
        assert lines[i] == "Full Name: " + Interpolate(b.fullName);
      } else if i == 5 {
        assert lines[i] == "Email: " + Interpolate(b.email);
      } else if i == 6 {
        assert lines[i] == "Phone: " + OrNotAvailable(b.phone);
      } else if i == 7 {
        assert lines[i] == "Subject: " + Interpolate(b.subject);
      } else if i == 9 {
        assert '\n' !in lines[i];
      } else {
        assert '\n' !in lines[i];
      }
    }
    SplitJoin(lines, '\n');
  }
}
