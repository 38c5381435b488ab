# Contact-form endpoint of the Auto-Lead landing page, in Dafny

This project models the only logic in the Auto-Lead landing-page repository:
the `POST` handler of the contact route (`app/api/contact/route.ts`). The handler
takes a five-field contact submission (`fullName`, `email`, `phone`, `subject`,
`message`). It checks the request method and the mail-relay configuration,
parses the JSON body and validates every field. It then sends one notification
e-mail through the configured SMTP relay and answers with a JSON status.

Modules, one per concern of the route:

- `Wrappers`: `Option` for absent JSON members and environment variables, and
  JavaScript truthiness of an optional string.
- `Text`: the JavaScript string primitives the route uses. These are the
  white-space class shared by `\s` and `trim`, `trim` itself, `join`, and
  `filter(Boolean)`. It also has `Split`, the inverse of `join` on one character.
- `EmailRegex`: the shape test `^[^\s@]+@[^\s@]+\.[^\s@]+$`, read literally.
  It is proved equal to "no white space, exactly one `@`, text before it, and a
  `.` after it with text on both sides".
- `Validation`: `validate`. It is a method that builds the error record step by
  step, proved equal to a specification function. Lemmas give the keys, the
  messages and the e-mail cases.
- `Mail`: transport security, recipients, sender, subject line and the
  eleven-line plain-text body.
- `Route`: the `POST` decision chain as a pure function of its outside inputs.
  The inputs are the environment, `Number(SMTP_PORT)`, the outcome of
  `request.json()`, the timestamp and the outcome of `sendMail`. Lemmas state
  the order of the early exits and what the relay receives.

The minimum lengths (2, 3 and 10) apply to the trimmed string, inner white space
included. They do not count non-white-space characters: the subject `"a b"`
passes the three-character check (`Validation.InnerWhitespaceCounts`). The
model follows the code here.

## Model

| member | source | states |
|---|---|---|
| `Text.TrimStartKeepsSuffix` | app/api/contact/route.ts:18 | the front half of `trim` keeps a suffix; all it removes is white space; what remains does not start with white space |
| `Text.TrimEndKeepsPrefix` | app/api/contact/route.ts:18 | the back half of `trim` keeps a prefix; all it removes is white space; what remains does not end with white space |
| `Text.TrimIsCore` | app/api/contact/route.ts:18 | `trim` returns the slice of the value from its first to its last non-white-space character, and everything outside it is white space |
| `Text.TrimLengthAtLeast` | app/api/contact/route.ts:18 | the trimmed length is at least `n` exactly when two non-white-space characters lie at least `n - 1` positions apart |
| `Text.TrimEmptyIff` | app/api/contact/route.ts:22 | `trim().length === 0` exactly when the value is all white space |
| `Text.Trim` | app/api/contact/route.ts:18 | `trim()`, defined by its body; its meaning is stated by `Text.TrimIsCore` and `Text.TrimLengthAtLeast` |
| `Text.KeepTruthy` | app/api/contact/route.ts:122 | `filter(Boolean)`: the result is no longer than the input and holds only non-empty entries of it; see `Text.KeepTruthyCounts` and `Text.KeepTruthyAppend` for what it keeps |
| `Text.KeepTruthyCounts` | app/api/contact/route.ts:122 | every non-empty entry is kept exactly as often as it occurs, and every empty one is dropped |
| `Text.KeepTruthyAppend` | app/api/contact/route.ts:122 | filtering a concatenation gives the concatenation of the filtered parts, so the kept entries stay in input order |
| `Text.Join` | app/api/contact/route.ts:123 | `join(sep)`, defined by its body; see `Text.JoinContainsPart`, `Text.JoinEndsWithLast` and `Text.SplitJoin` |
| `Text.JoinContainsPart` | app/api/contact/route.ts:130 | every line of a `join` occurs in the joined text |
| `Text.JoinEndsWithLast` | app/api/contact/route.ts:130 | a join of two or more parts is the join of all but the last part, then the separator, then the last part |
| `Text.SplitJoin` | app/api/contact/route.ts:130 | round trip: splitting a join of separator-free lines on the separator gives the lines back |
| `EmailRegex.Matches` | app/api/contact/route.ts:25-26 | the regex test, defined by its body as a split `L@D.T` into three class words; see `EmailRegex.MatchesIffWellShaped` |
| `EmailRegex.MatchesIffWellShaped` | app/api/contact/route.ts:25-26 | the regex accepts exactly the strings with no white space, exactly one `@`, a non-empty part before it, and a `.` after it with non-empty text on both sides |
| `EmailRegex.MatchesFromParts` | app/api/contact/route.ts:25 | any `L@D.T` with `L`, `D`, `T` non-empty and free of white space and `@` is accepted |
| `EmailRegex.WhitespaceNeverMatches` | app/api/contact/route.ts:25 | one white-space character anywhere makes the test fail |
| `Validation.Fails` | app/api/contact/route.ts:18-39 | the failure condition of each field, defined by its body; see `Validation.MinLengthMeaning`, `Validation.BlankMeaning` and `Validation.EmailMessages` |
| `Validation.ErrorMessage` | app/api/contact/route.ts:19-40 | the message each failing field gets, defined by its body; see `Validation.ErrorKeysAreFailingFields` |
| `Validation.ValidationErrors` | app/api/contact/route.ts:15-44 | the record `validate` returns, defined by its body; see `Validation.ErrorKeysAreFailingFields` and `Validation.NoErrorsIffValid` |
| `Validation.Validate` | app/api/contact/route.ts:15-44 | building the record field by field, in source order and without stopping early, gives the specification record; its keys are exactly the failing fields |
| `Validation.ErrorKeysAreFailingFields` | app/api/contact/route.ts:15-44 | a field is a key of the record iff its own check fails, and its value is that field's message; no field depends on another |
| `Validation.NoErrorsIffValid` | app/api/contact/route.ts:15-44 | the record is empty exactly when all five field predicates hold; there is no partial acceptance |
| `Validation.MinLengthMeaning` | app/api/contact/route.ts:18-41 | a length-checked field passes iff it is present and has two non-white-space characters at least `n - 1` apart (2 for the name, 3 for the subject, 10 for the message, 1 for the phone) |
| `Validation.BlankMeaning` | app/api/contact/route.ts:22-33 | the phone error and the e-mail "required" condition hold iff the value is absent or all white space |
| `Validation.EmailMessages` | app/api/contact/route.ts:22-29 | the e-mail gets "Email is required." iff it is absent or blank; otherwise it gets "Email is invalid." iff it is not well shaped |
| `Validation.PaddedEmailIsInvalid` | app/api/contact/route.ts:22-29 | an address with any white space that is not blank is reported invalid, because the regex sees the untrimmed value |
| `Validation.InnerWhitespaceCounts` | app/api/contact/route.ts:35-37 | the subject `"a b"` passes the three-character check although only two of its characters are not white space |
| `Mail.Secure` | app/api/contact/route.ts:94 | implicit TLS, defined by its body; see `Route.DeliveryContents` |
| `Mail.MailLines` | app/api/contact/route.ts:103-115 | the eleven lines of the body, defined by its body; see `Mail.MailTextContents` and `Mail.PhoneFallbackUnused` |
| `Mail.MailText` | app/api/contact/route.ts:130 | the lines joined by line breaks, defined by its body; see `Mail.MailTextContents` and `Mail.MailTextSplitsIntoLines` |
| `Mail.Recipients` | app/api/contact/route.ts:117-123 | the recipients string, defined by its body; see `Mail.RecipientsOrder` |
| `Mail.From` | app/api/contact/route.ts:127 | the sender, defined by its body; see `Route.DeliveryContents` |
| `Mail.MailSubject` | app/api/contact/route.ts:129 | the prefixed subject, defined by its body; see `Route.DeliveryContents` |
| `Mail.RecipientsOrder` | app/api/contact/route.ts:117-123 | the recipients are the configured address, then the two fixed ones, joined by `", "`; an empty configured address would be dropped |
| `Mail.PhoneFallbackUnused` | app/api/contact/route.ts:110 | for a valid submission the phone line shows the submitted phone, never `N/A` |
| `Mail.MailTextContents` | app/api/contact/route.ts:103-115 | the body has eleven lines; it contains `Timestamp: `, `Full Name: ` and `Subject: ` with their values; it ends with `Message:` on its own line and then the message |
| `Mail.MailTextSplitsIntoLines` | app/api/contact/route.ts:103-115 | when no value holds a line break, splitting the body on line breaks gives exactly the eleven lines in order |
| `Route.Configured` | app/api/contact/route.ts:60 | every configuration value present and non-empty, defined by its body; see `Route.MissingConfigIgnoresBody` |
| `Route.Compose` | app/api/contact/route.ts:91-131 | the transport options and message handed to `sendMail`, defined by its body; see `Route.DeliveryContents` |
| `Route.Post` | app/api/contact/route.ts:46-150 | `success` iff status 200; the status is one of 200, 400, 405, 500; an `errors` record appears only with 400 and is never empty; a send is attempted iff the method is POST, the configuration is complete, the body parsed and every field is valid |
| `Route.NonPostRejectedFirst` | app/api/contact/route.ts:47-52 | a non-POST request gets 405 `success: false` "Method not allowed" with no `errors` and no send, whatever the environment, body, timestamp or relay |
| `Route.MissingConfigIgnoresBody` | app/api/contact/route.ts:54-69 | any absent or empty configuration value gives 500 with the fixed message; the body is never looked at and nothing is sent |
| `Route.ParseFailureIsNotValidationFailure` | app/api/contact/route.ts:71-80 | a body that does not parse gives 400 "Invalid JSON body." with no `errors` record |
| `Route.ValidationFailureCarriesErrors` | app/api/contact/route.ts:82-89 | an invalid body gives 400 "Validation failed." carrying the whole record, whose keys are exactly the failing fields |
| `Route.SendOutcomeDecides` | app/api/contact/route.ts:125-149 | 200 iff a send was attempted and did not throw; a throwing send gives 500 with a fixed message that does not depend on the error |
| `Route.ValidSubmissionIsSent` | app/api/contact/route.ts:91-149 | a valid submission under complete configuration is handed to the relay as the composed transport and message; the answer is 200 if the relay accepts and 500 with the fixed message if it throws |
| `Route.DeliveryContents` | app/api/contact/route.ts:91-131 | implicit TLS iff `Number(SMTP_PORT)` is 465; host and port as configured; sender `"Auto-Lead Contact Form" <user>`; recipients start with the configured one; subject prefixed; body names the submitter and the subject |
| `Route.ReferenceSubmissionValid` | app/api/contact/route.ts:15-44 | the submission Jane Doe / jane@example.com / 555-1234 / Pricing / a 40-character message passes every check |
| `Route.ReferenceSubmissionDelivered` | app/api/contact/route.ts:125-139 | with complete configuration and a relay that accepts, that submission gets 200 `success: true` and the relay receives the composed message |
| `Route.ReferenceMailText` | app/api/contact/route.ts:103-115 | that submission's body contains `Full Name: Jane Doe` and `Subject: Pricing` |
| `Route.MalformedEmailAloneFails` | app/api/contact/route.ts:22-29 | replacing the e-mail with `not-an-email` gives exactly one error, "Email is invalid." |

## Left out

- Outside effects are parameters. These are the `process.env` reads (`Env`), `request.json()` (`Option<ContactBody>`, `None` when it throws), `new Date().toISOString()` (an opaque timestamp string) and the `sendMail` outcome (`SendResult`).
- `Number(SMTP_PORT)` is a parameter, `Some(n)` for an integer and `None` for NaN or a fraction. The string-to-number conversion itself is not modelled.
- nodemailer's transport and SMTP delivery are not modelled. The model records the transport options and the message handed to `sendMail`.
- `console.error` logging of a failed send is not modelled.
- `NextResponse.json` serialisation is not modelled, including the order of the keys of the `errors` record. That order is insertion order in JavaScript. A Dafny `map` has no order.
- JSON bodies are modelled only as objects whose five members are strings or absent. In validation `None` stands for an absent member and also for `null`: both are falsy, so validation treats them alike. This does not carry over to `Mail.Interpolate`, which prints `None` as `undefined` where the source prints `null` as `null`; only valid bodies are composed, so the difference cannot reach a message.
- Members of other JSON types are not modelled. A falsy one (`0`, `false`) fails the `!body.x` test and gets the field's "required" message like an absent member. A truthy one (a non-zero number, `true`, an object) makes the source throw at `.trim()`. A body that is `null` makes the source throw as well.
- `.length` counts characters here. JavaScript counts UTF-16 code units, so a character outside the Basic Multilingual Plane counts twice in the source and once in the model.
- `export const runtime = 'nodejs'` is framework configuration and is not modelled.
- `components/AutoLeadLandingPage.tsx`, `page.tsx`, `app/layout.tsx` and `tailwind.config.ts` are presentation and styling. They are not part of this model.
