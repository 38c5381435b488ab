/** The `POST` handler of the contact route: a fixed chain of early exits
    (method, configuration, JSON body, validation) followed by one send
    through the mail relay. Everything the handler reads from outside is a
    parameter: the environment, `Number(SMTP_PORT)`, the outcome of
    `request.json()`, the ISO timestamp and the outcome of `sendMail`. */
module Route {
  import opened Wrappers
  import opened Text
  import opened Validation
  import opened Mail

  /** `SMTP_HOST`, `SMTP_PORT`, `SMTP_USER`, `SMTP_PASS`, `NOTIFICATION_EMAIL`. */
  datatype Env = Env(
    smtpHost: Option<string>,
    smtpPort: Option<string>,
    smtpUser: Option<string>,
    smtpPass: Option<string>,
    notificationEmail: Option<string>)

  /** What `transporter.sendMail` did: resolved, or threw an error. */
  datatype SendResult = Delivered | Threw(error: string)

  /** The JSON response: status code, `success`, `message` and, for a
      validation failure only, the `errors` record. */
  datatype Response = Response(status: int, success: bool, message: string, errors: Option<map<Field, string>>)

  /** The options given to `nodemailer.createTransport`. */
  datatype Transport = Transport(host: string, port: Option<int>, secure: bool, user: string, pass: string)

  /** The message given to `sendMail`. */
  datatype Envelope = Envelope(from: string, to: string, subject: string, text: string)

  datatype Delivery = Delivery(transport: Transport, envelope: Envelope)

  /** The response, and the delivery handed to the relay if one was attempted. */
  datatype Outcome = Outcome(response: Response, attempted: Option<Delivery>)

  const MethodNotAllowed := "Method not allowed"
  const NotConfigured := "Email service is not configured correctly. Please try again later."
  const InvalidJson := "Invalid JSON body."
  const ValidationFailed := "Validation failed."
  const SentOk := "Message sent successfully. We will be in touch shortly."
  const SendFailed := "Failed to send message. Please try again later."

  /** `!smtpHost || !smtpPort || !smtpUser || !smtpPass || !notificationEmail`
      is false. */
  predicate Configured(env: Env)
  {
    Truthy(env.smtpHost) && Truthy(env.smtpPort) && Truthy(env.smtpUser)
    && Truthy(env.smtpPass) && Truthy(env.notificationEmail)
  }

  /** The transport and message built for a configured environment and a
      valid body. */
  function Compose(env: Env, portNumber: Option<int>, body: ContactBody, timestamp: string): Delivery
    requires Configured(env)
  {
    Delivery(
      Transport(env.smtpHost.value, portNumber, Secure(portNumber), env.smtpUser.value, env.smtpPass.value),
      Envelope(From(env.smtpUser.value), Recipients(env.notificationEmail.value),
               MailSubject(body), MailText(timestamp, body)))
  }

  /** `POST(request)`. `parsed` is the outcome of `request.json()` (`None`
      when it throws) and `portNumber` is `Number(SMTP_PORT)`. */
  function Post(httpMethod: string, env: Env, portNumber: Option<int>, parsed: Option<ContactBody>,
                timestamp: string, send: SendResult): (r: Outcome)
    ensures r.response.success <==> r.response.status == 200
    ensures r.response.status in {200, 400, 405, 500}
    ensures r.response.errors.Some? ==> r.response.status == 400 && r.response.errors.value != map[]
    ensures r.attempted.Some? <==>
      httpMethod == "POST" && Configured(env) && parsed.Some? && Valid(parsed.value)
  {
    if httpMethod != "POST" then
      Outcome(Response(405, false, MethodNotAllowed, None), None)
    else if !Configured(env) then
      Outcome(Response(500, false, NotConfigured, None), None)
    else if parsed.None? then
      Outcome(Response(400, false, InvalidJson, None), None)
    else
      var body := parsed.value;
      var errors := ValidationErrors(body);
      NoErrorsIffValid(body);
      if |errors| > 0 then
        Outcome(Response(400, false, ValidationFailed, Some(errors)), None)
      else
        var delivery := Compose(env, portNumber, body, timestamp);
        match send
        case Delivered => Outcome(Response(200, true, SentOk, None), Some(delivery))
        case Threw(_) => Outcome(Response(500, false, SendFailed, None), Some(delivery))
  }

  /** A request that is not a POST gets 405 before anything else is looked
      at: the outcome does not depend on the environment, the body or the
      relay. */
  lemma NonPostRejectedFirst(m: string, env: Env, env': Env, pn: Option<int>, pn': Option<int>,
                             parsed: Option<ContactBody>, parsed': Option<ContactBody>,
                             ts: string, ts': string, send: SendResult, send': SendResult)
    requires m != "POST"
    ensures Post(m, env, pn, parsed, ts, send).response.status == 405
    ensures Post(m, env, pn, parsed, ts, send) == Outcome(Response(405, false, MethodNotAllowed, None), None)
    ensures Post(m, env, pn, parsed, ts, send) == Post(m, env', pn', parsed', ts', send')
  {
  }

  /** Any missing or empty configuration value gives 500 whatever the body
      is: the body is never parsed and nothing is sent. */
  lemma MissingConfigIgnoresBody(env: Env, pn: Option<int>, parsed: Option<ContactBody>,
                                 parsed': Option<ContactBody>, ts: string, send: SendResult)
    requires !Configured(env)
    ensures Post("POST", env, pn, parsed, ts, send).response == Response(500, false, NotConfigured, None)
    ensures Post("POST", env, pn, parsed, ts, send) == Post("POST", env, pn, parsed', ts, send)
    ensures Post("POST", env, pn, parsed, ts, send).attempted.None?
  {
  }

  /** A body that is not JSON gives 400 "Invalid JSON body." and never an
      `errors` record. */
  lemma ParseFailureIsNotValidationFailure(env: Env, pn: Option<int>, ts: string, send: SendResult)
    requires Configured(env)
    ensures Post("POST", env, pn, None, ts, send).response == Response(400, false, InvalidJson, None)
  {
  }

  /** Any failing field gives 400 "Validation failed." carrying the whole
      record, whose keys are exactly the failing fields. */
  lemma ValidationFailureCarriesErrors(env: Env, pn: Option<int>, body: ContactBody, ts: string, send: SendResult)
    requires Configured(env) && !Valid(body)
    ensures Post("POST", env, pn, Some(body), ts, send).response
      == Response(400, false, ValidationFailed, Some(ValidationErrors(body)))
    ensures forall f :: f in Post("POST", env, pn, Some(body), ts, send).response.errors.value <==> Fails(body, f)
  {
    NoErrorsIffValid(body);
    ErrorKeysAreFailingFields(body);
  }

  /** The response is 200 with `success: true` exactly when a send was
      attempted and did not throw; a throwing send gives 500 with a fixed
      message that does not depend on the error. */
  lemma SendOutcomeDecides(m: string, env: Env, pn: Option<int>, parsed: Option<ContactBody>,
                           ts: string, send: SendResult, e: string, e': string)
    ensures Post(m, env, pn, parsed, ts, send).response.status == 200
      <==> Post(m, env, pn, parsed, ts, send).attempted.Some? && send.Delivered?
    ensures Post(m, env, pn, parsed, ts, Threw(e)).attempted.Some? ==>
      Post(m, env, pn, parsed, ts, Threw(e)).response == Response(500, false, SendFailed, None)
    ensures Post(m, env, pn, parsed, ts, Threw(e)) == Post(m, env, pn, parsed, ts, Threw(e'))
  {
  }

  /** A valid submission under a complete configuration is handed to the
      relay as the composed transport and message, whatever the relay then
      does. */
  lemma ValidSubmissionIsSent(env: Env, pn: Option<int>, body: ContactBody, ts: string, send: SendResult)
    requires Configured(env) && Valid(body)
    ensures Post("POST", env, pn, Some(body), ts, send).attempted == Some(Compose(env, pn, body, ts))
    ensures Post("POST", env, pn, Some(body), ts, send).response
      == if send.Delivered? then Response(200, true, SentOk, None) else Response(500, false, SendFailed, None)
  {
  }

  /** What the relay receives: implicit TLS exactly on port 465; the
      configured host, port and user; the configured address first, then the
      two fixed ones; the prefixed subject; a body naming the submitter and
      the subject with the submitted values (the `undefined` and `'N/A'`
      fallbacks never show). */
  lemma DeliveryContents(env: Env, pn: Option<int>, body: ContactBody, ts: string)
    requires Configured(env) && Valid(body)
    ensures var d := Compose(env, pn, body, ts);
      && (d.transport.secure <==> pn == Some(465))
      && d.transport.host == env.smtpHost.value && d.transport.port == pn
      && d.transport.user == env.smtpUser.value && d.transport.pass == env.smtpPass.value
      && d.envelope.from == "\"Auto-Lead Contact Form\" <" + env.smtpUser.value + ">"
      && d.envelope.to == env.notificationEmail.value + ", " + FixedRecipientA + ", " + FixedRecipientB
      && d.envelope.subject == "New contact form submission: " + body.subject.value
      && IsInfix("Full Name: " + body.fullName.value, d.envelope.text)
      && IsInfix("Subject: " + body.subject.value, d.envelope.text)
      && MailLines(ts, body)[6] == "Phone: " + body.phone.value
  {
    RecipientsOrder(env.notificationEmail.value);
    MailTextContents(ts, body);
    PhoneFallbackUnused(body);
  }

  /** The fully valid submission used as the reference example. */
  const JaneDoe := ContactBody(Some("Jane Doe"), Some("jane@example.com"), Some("555-1234"),
                               Some("Pricing"), Some("I would like to know more about pricing."))

  /** A value whose first character and `n`-th character are not white
      space has a trimmed length of at least `n`. */
  lemma LongEnough(s: string, n: int)
    requires 1 <= n <= |s| && !IsWhitespace(s[0]) && !IsWhitespace(s[n - 1])
    ensures |Trim(s)| >= n
  {
    TrimLengthAtLeast(s, n);
  }

  /** "jane@example.com" has the required shape. */
  lemma ReferenceEmailMatches()
    ensures EmailRegex.Matches("jane@example.com")
  {
    ReferenceWords();
    EmailRegex.MatchesFromParts("jane", "example", "com");
    assert "jane" + "@" + "example" + "." + "com" == "jane@example.com";
  }

  /** The three parts of "jane@example.com" are words of `[^\s@]`. */
  lemma ReferenceWords()
    ensures EmailRegex.Word("jane") && EmailRegex.Word("example") && EmailRegex.Word("com")
  {
  }

  /** Every field of the reference submission passes its check. */
  lemma ReferenceSubmissionValid()
    ensures Valid(JaneDoe)
  {
    ReferenceEmailMatches();
    ReferenceLengthsMet();
  }

  /** The reference values are long enough for their fields. */
  lemma ReferenceLengthsMet()
    ensures !TooShort(Some("Jane Doe"), 2) && !TooShort(Some("jane@example.com"), 1)
    ensures !TooShort(Some("555-1234"), 1) && !TooShort(Some("Pricing"), 3)
    ensures !TooShort(Some("I would like to know more about pricing."), 10)
  {
    LongEnough("Jane Doe", 2);
    LongEnough("jane@example.com", 1);
    LongEnough("555-1234", 1);
    LongEnough("Pricing", 3);
    LongEnough("I would like to know more about pricing.", 10);
  }

  /** With a complete configuration and a relay that accepts, the reference
      submission gets 200 and the relay is handed the composed message
      (whose body is described by `ReferenceMailText`). */
  lemma ReferenceSubmissionDelivered(env: Env, pn: Option<int>, ts: string)
    requires Configured(env)
    ensures Post("POST", env, pn, Some(JaneDoe), ts, Delivered).response == Response(200, true, SentOk, None)
    ensures Post("POST", env, pn, Some(JaneDoe), ts, Delivered).attempted
      == Some(Compose(env, pn, JaneDoe, ts))
  {
    ReferenceSubmissionValid();
    ValidSubmissionIsSent(env, pn, JaneDoe, ts, Delivered);
  }

  /** The reference submission's mail body names "Jane Doe" and "Pricing". */
  lemma ReferenceMailText(ts: string)
    ensures IsInfix("Full Name: Jane Doe", MailText(ts, JaneDoe))
    ensures IsInfix("Subject: Pricing", MailText(ts, JaneDoe))
  {
    var lines := MailLines(ts, JaneDoe);
    assert lines[4] == "Full Name: Jane Doe";
    assert lines[7] == "Subject: Pricing";
    JoinContainsPart(lines, "\n", 4);
    JoinContainsPart(lines, "\n", 7);
  }

  /** "not-an-email" is reported invalid even when every other field of the
      reference submission is kept. */
  lemma MalformedEmailAloneFails()
    ensures ValidationErrors(JaneDoe.(email := Some("not-an-email"))) == map[Email := EmailInvalid]
  {
    var b := JaneDoe.(email := Some("not-an-email"));
    assert !EmailRegex.Matches("not-an-email") by {
      assert '@' !in "not-an-email";
    }
    assert !EmailMissing(b.email) by {
      TrimLengthAtLeast("not-an-email", 1);
      assert !IsWhitespace("not-an-email"[0]);
    }
    assert Valid(JaneDoe) by {
      ReferenceSubmissionValid();
    }
    ErrorKeysAreFailingFields(b);
  }
}
