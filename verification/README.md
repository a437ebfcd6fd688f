# Lead-signup and estimate-mail handlers, modelled in Dafny

The repository holds two serverless HTTP handlers in front of a
transactional-email provider (Resend):

- The lead signup handler (`api/signup-lead.js`) takes an email from a landing-page
  form, runs an anti-spam and validation pipeline (method, API key, email
  present, honeypot field, submit timing, normalisation, email pattern),
  then registers the address: create the contact in the leads segment, and
  if the provider says the contact already exists, add it to the segment
  instead. On success it optionally notifies a webhook, best effort.
- The estimate handler (`api/send-estimate.js`) takes a lost-revenue
  estimate and a list of addresses, sends one email (fixed sender, blind
  copy to the leads mailbox, subject carrying the yearly figure), and
  once the send is accepted adds the first address to a marketing audience, best effort.

Each handler is modelled as a pure function `Handle(req, cfg, o)` from an
abstract request, the configuration (API key, webhook URL) and an oracle
of provider replies (one reply per endpoint: a status and body, or a
throw) to an `Outcome`: the outbound calls made, in order, and the HTTP
response. The clock reading is a field of the request.

Modules, one concept each:

| file | module | what |
|---|---|---|
| options.dfy | `Options` | `Option` |
| js_values.dfy | `JsValues` | a JSON field's JavaScript value: truthiness, `String(v)`, the `or` operator |
| http.dfy | `Http` | responses, fetch's `ok`, configuration |
| text.dfy | `Text` | `trim`, `toLowerCase` and `includes`, normalisation |
| email_pattern.dfy | `EmailPattern` | the regular expression and the explicit check `IsValidEmail` |
| signup_lead.dfy | `SignupLead` | the lead handler |
| signup_lead_properties.dfy | `SignupLeadProperties` | its properties |
| send_estimate.dfy | `SendEstimate` | the estimate handler |
| send_estimate_properties.dfy | `SendEstimateProperties` | its properties |

Behaviour worth noting:

- A request with no body makes the destructuring of `req.body` throw, and
  the outer `catch` answers 500 ("Failed to sign up. Please try again." or
  "Failed to send email"), not a client error.
- In the estimate handler, the JSON of an `ok` send reply is read before
  the audience call and outside any inner `try`, and its `id` only after
  that call. A body that does not parse gives 500 "Failed to send email"
  with no audience call. A body that is `null` gets past the first read,
  so the audience call is made, and then reading `id` throws: 500 "Failed
  to send email" after both calls. The email went out in both cases. A 200
  needs an `ok` reply with any other body (`SendEstimate.Delivered`).
- A create reply counts as a conflict on status 409 or on an error message
  containing "already" (case-sensitive); no other status is a conflict.
- A failed create whose error body is `null` and whose status is not 409
  makes `errData.message` throw: 500 "Failed to sign up. Please try
  again.", with no segment add. With 409 the test stops before reading
  `message`, and the segment add goes ahead.
- A throwing create or segment-add fetch gives 500 "Failed to sign up.
  Please try again.", not the "Failed to add you to the list" message.

## Model

| member | source | states |
|---|---|---|
| Text.LeadingWhitespace | api/signup-lead.js:40 | where trimming starts: everything before that index is whitespace and the character at it is not |
| Text.EndOfContent | api/signup-lead.js:40 | where trimming ends: everything from that index on is whitespace and the character before it is not |
| Text.TrimStart | api/signup-lead.js:40 | trimming the front leaves a suffix of the input that does not start with whitespace, everything dropped being whitespace |
| Text.TrimEnd | api/signup-lead.js:40 | trimming the back leaves a prefix of the input that does not end with whitespace, everything dropped being whitespace |
| Text.Trim | api/signup-lead.js:40 | `trim()` returns a slice of the input surrounded only by whitespace, with no whitespace at either edge, empty exactly when the input is blank |
| Text.TrimPadded | api/signup-lead.js:30 | trimming undoes whitespace padding: for any edge-clean string and any whitespace around it, trim returns the string |
| Text.ToLower | api/signup-lead.js:40 | `toLowerCase()` keeps the length, replaces each upper-case ASCII letter by its lower-case letter (32 code points above), keeps every other character, so no upper-case letter is left and whitespace stays where it was |
| Text.Normalize | api/signup-lead.js:40-43 | the normalised email is the lower-cased content of the submitted email between its leading and trailing whitespace; it has no edge whitespace and no upper-case letter, and is empty exactly when the submitted email is blank |
| Text.NormalizeIdempotent | api/signup-lead.js:40 | normalising a normalised email changes nothing |
| Text.NormalizeExample | api/signup-lead.js:40 | `"  Foo@Bar.COM "` normalises to `"foo@bar.com"` |
| EmailPattern.MatchesPattern | api/signup-lead.js:46 | the definition of what `^[^\s@]+@[^\s@]+\.[^\s@]+$` matches: some `@` and some later `.` split the string into three non-empty runs of characters that are neither whitespace nor `@` |
| EmailPattern.IsValidEmail | api/signup-lead.js:46-47 | the definition of the explicit check: one `@`, no whitespace, a non-empty local part and a domain with an inner `.` |
| EmailPattern.IndexOf | api/signup-lead.js:46 | the position found is the first `@`, or the length when there is none |
| EmailPattern.CountFromFirst | api/signup-lead.js:46 | every `@` is the first one or comes after it |
| EmailPattern.SingleAt | api/signup-lead.js:46 | exactly one `@` holds exactly when there is a first `@` and none after it |
| EmailPattern.ValidEmailMatchesPattern | api/signup-lead.js:46-47 | the explicit check `IsValidEmail` (one `@`, no whitespace, non-empty local part, domain with a `.` having a character on each side) accepts exactly the strings `^[^\s@]+@[^\s@]+\.[^\s@]+$` matches |
| EmailPattern.PatternRejects | api/signup-lead.js:46-49 | no `@`, a second `@`, whitespace, a leading `@`, or a domain without an inner `.` each make the pattern fail |
| SignupLead.HasEmailString | api/signup-lead.js:26 | the definition of `!email \|\| typeof email !== 'string'` being false: a non-empty string |
| SignupLead.HoneypotFilled | api/signup-lead.js:30 | the definition of `website && String(website).trim().length > 0` |
| SignupLead.SubmittedTooFast | api/signup-lead.js:34-36 | the definition of `loadTime > 0 && elapsed < 3000`, with an absent or unparsable load time counting as 0 |
| SignupLead.IsConflict | api/signup-lead.js:91 | the definition of the conflict test on a failed create: status 409, or an error `message` containing "already" |
| SignupLead.BreaksOnErrorBody | api/signup-lead.js:88-91 | the definition of a failed create on which the conflict test throws: status not 409 and an error body of `null` |
| SignupLead.Validate | api/signup-lead.js:26-49 | an accepted submission carries a non-empty string email whose normalised form is a fixed point of normalisation and matches the pattern; every rejection is a 400 |
| SignupLead.CheckEmail | api/signup-lead.js:40-49 | the normalised email is accepted exactly when it matches the pattern; otherwise the answer is "Email is required" for a blank email and "Please enter a valid email address" for any other |
| SignupLead.Admit | api/signup-lead.js:12-49 | only a POST with the API key set can be admitted; an admitted email is normalised and matches the pattern; a refusal is a 400, 405 or 500 |
| SignupLead.Notify | api/signup-lead.js:72-85 | after a registration the response is 200, earlier calls are kept, and exactly one webhook call with the normalised email is added exactly when a URL is configured |
| SignupLead.Register | api/signup-lead.js:53-124 | the create comes first; at most three calls; the response is 200 `{ success: true }` exactly when the create succeeded or conflicted and the segment add succeeded; otherwise it is "Failed to sign up" when the create threw, its error body was `null` without a 409, or a segment add threw, and "Failed to add you to the list" in every other case; a segment add is made exactly on a conflict; no second create; the webhook is called exactly on success with a URL set |
| SignupLead.Handle | api/signup-lead.js:11-126 | statuses are 200, 400, 405 or 500; a client error makes no call; at most three calls; any first call is a create of a normalised, pattern-matching email; 200 exactly when a call was made and the lead was registered |
| SignupLeadProperties.NonPostRejected | api/signup-lead.js:12-14 | a non-POST request gets 405 and no call |
| SignupLeadProperties.MissingKeyRejected | api/signup-lead.js:16-21 | a POST without the API key gets 500 "Email service not configured" and no call |
| SignupLeadProperties.EmailRequiredFirst | api/signup-lead.js:26-28 | a missing, empty or non-string email gets 400 "Email is required" whatever the other fields hold, and no call |
| SignupLeadProperties.HoneypotRejected | api/signup-lead.js:30-32 | a truthy honeypot of any type whose `String()` text is not blank gets 400 "Invalid submission" and no call, whether or not the email is well formed |
| SignupLeadProperties.TooFastRejected | api/signup-lead.js:34-38 | a positive load time less than 3000 ms before now gets 400 "Invalid submission" and no call |
| SignupLeadProperties.TimingPassesOn | api/signup-lead.js:34-38 | an absent or non-positive load time, or one at least 3000 ms old, is handled exactly as if none was sent |
| SignupLeadProperties.ValidateIgnoresSlowTiming | api/signup-lead.js:34-38 | validation gives the same verdict with a load time that is not too recent as with none |
| SignupLeadProperties.BlankEmailRequired | api/signup-lead.js:40-43 | an email that is blank after trimming gets 400 "Email is required" and no call |
| SignupLeadProperties.MalformedEmailRejected | api/signup-lead.js:45-49 | a non-blank email whose normalised form the pattern rejects gets 400 "Please enter a valid email address" and no call |
| SignupLeadProperties.WellFormedAdmitted | api/signup-lead.js:26-49 | a submission passing every check is admitted with its normalised email |
| SignupLeadProperties.HandleAdmitted | api/signup-lead.js:51-121 | once admitted, what happens is the upsert of the admitted email alone |
| SignupLeadProperties.CreateComesFirst | api/signup-lead.js:53-67 | the upsert's first call is the create with the normalised email, `unsubscribed=false`, `LeadType='landing_page_signup'` and the leads segment id |
| SignupLeadProperties.CreateSucceeds | api/signup-lead.js:69-86 | a successful create gives 200 and no segment-add call |
| SignupLeadProperties.ConflictAddsToSegmentOnce | api/signup-lead.js:88-121 | a conflicting create is followed by exactly one segment add, whose success decides 200 `{ success: true }` against 500 |
| SignupLeadProperties.OtherFailureIsFinal | api/signup-lead.js:88-124 | any other create failure makes the create the only call; the response is "Failed to sign up" when the create threw or its error body is `null`, "Failed to add you to the list" otherwise |
| SignupLeadProperties.SegmentReplyIrrelevantWithoutConflict | api/signup-lead.js:90-91 | without a conflict the segment endpoint's reply changes nothing |
| SignupLeadProperties.RegisterIgnoresSegmentReply | api/signup-lead.js:90-91 | the same for the upsert alone |
| SignupLeadProperties.WebhookOnSuccessOnly | api/signup-lead.js:69-117 | a webhook call happens exactly on a 200 with a URL set; it is then the last call, the only one, and carries the normalised email |
| SignupLeadProperties.WebhookIsBestEffort | api/signup-lead.js:74-82 | whether the webhook throws or what it replies changes neither the calls nor the response |
| SignupLeadProperties.RegisterIgnoresWebhook | api/signup-lead.js:74-82 | the same for the upsert alone |
| SignupLeadProperties.AlreadyMessageIsConflict | api/signup-lead.js:91 | a failed create whose error message contains "already" anywhere is a conflict even without 409 |
| SendEstimate.SubjectFigure | api/send-estimate.js:135 | a subject the figure can be read from is exactly prefix, figure, suffix |
| SendEstimate.BuildPayload | api/send-estimate.js:132-139 | the send request has the fixed sender, recipients exactly `emails`, the fixed blind copy, and a subject from which the yearly-loss text reads back |
| SendEstimate.Accepted | api/send-estimate.js:142-148 | the definition of getting past the send: an `ok` reply whose JSON parses |
| SendEstimate.Delivered | api/send-estimate.js:142-180 | the definition of reaching the 200: an `ok` reply whose JSON parses to something other than `null` |
| SendEstimate.Deliver | api/send-estimate.js:126-180 | the send is the first call; a second, audience call for `emails[0]` with `name`, or `""` when it is falsy, is made exactly when the send was `ok` and its reply parsed; the response is 200 with the provider's id exactly when that reply is not `null`, and 500 "Failed to send email" otherwise |
| SendEstimate.Handle | api/send-estimate.js:7-186 | statuses are 200, 400, 405 or 500; a client error makes no call; at most two calls, a send (fixed sender and blind copy, non-empty recipients) first and an audience call for the first recipient second, made exactly when the send was `ok` with a parsed reply; 200 exactly when a send was made and delivered with a non-`null` reply, carrying its id |
| SendEstimateProperties.NonPostRejected | api/send-estimate.js:9-11 | a non-POST request gets 405 and no call |
| SendEstimateProperties.MissingKeyRejected | api/send-estimate.js:13-18 | a POST without the API key gets 500 and no call |
| SendEstimateProperties.NoEmailsRejected | api/send-estimate.js:37-40 | a missing, non-array or empty `emails` gets 400 "At least one email is required" and no send |
| SendEstimateProperties.SendPayloadFields | api/send-estimate.js:132-139 | the send carries `to = emails`, `bcc = ['leads@airshop.works']`, `from = 'AirShop <hello@airshop.works>'` and the subject "Your Lost Revenue Estimate: " + yearlyLoss + "/year" |
| SendEstimateProperties.SubjectRoundTrip | api/send-estimate.js:135 | reading the figure back from a built subject gives the figure |
| SendEstimateProperties.SubjectsDistinguishFigures | api/send-estimate.js:135 | different yearly-loss texts give different subjects |
| SendEstimateProperties.SendFailureStops | api/send-estimate.js:142-146 | a refused or throwing send gives 500 "Failed to send email" with the send as the only call |
| SendEstimateProperties.UnparsableReplyStops | api/send-estimate.js:148-184 | an `ok` send whose reply does not parse gives 500 "Failed to send email" with the send as the only call |
| SendEstimateProperties.NullReplyFailsAfterRegistering | api/send-estimate.js:148-184 | an `ok` send whose reply is `null` is still followed by the audience call for `emails[0]`, and then gives 500 "Failed to send email" |
| SendEstimateProperties.DeliveredRegistersFirstAddress | api/send-estimate.js:148-180 | a delivered send is followed by exactly one audience call with `emails[0]` and `name` or `""`, and the response is 200 with the provider's id |
| SendEstimateProperties.AudienceIsBestEffort | api/send-estimate.js:152-169 | whatever the audience endpoint does, the calls and the response are the same |
| SendEstimateProperties.CallOrder | api/send-estimate.js:126-164 | at most two calls, and the send is the first call and only the first |

## Left out

- The HTML body of the estimate email (api/send-estimate.js:43-123): string interpolation of the submitted values; only the subject line is modelled, and the display fields (`company`, `billingRate`, `monthlyLoss`, ...) are dropped from the request (see the string-conversion line below for the one case where they change the outcome).
- `fetch`, JSON encoding, `async`/`await` and the request headers (the bearer token and content type): provider and webhook replies are an input oracle and the calls are records of their payloads.
- The segment-add URL and its `encodeURIComponent` escaping: the call records the email and segment id instead. So a normalised email holding a lone surrogate, on which `encodeURIComponent` throws (500 "Failed to sign up. Please try again." with no segment-add call), is not modelled; Dafny strings hold Unicode scalar values and cannot contain one.
- `console` logging, including the "Estimate sent" record and its `Date` timestamp.
- `process.env`: the API key and webhook URL are the `Config` parameter; `Date.now()` is the request's `now` field.
- `parseInt`: `form_load_time` arrives already parsed as an optional integer; a falsy field or a `NaN` parse is `None`, which passes the timing check just as `NaN > 0` being false does. JavaScript's floating-point subtraction is modelled on integers.
- Text.ToLower: lower-cases the ASCII letters only; the Unicode case mapping of `toLowerCase` is not modelled.
- An `errData.message` that is not a string is not modelled (for such values `.includes` may throw or test array membership); the message is an optional string.
- A field whose string conversion throws is not modelled; every value carries the text `String()` gives for it. This covers the signup `website` field, and also every estimate field put into the subject or the HTML (`yearlyLoss`, `monthlyLoss`, `hoursMonthly`, `billingRate`, `quotesPerWeek`, `timePerQuote`, `wastedPerQuote`, `inventoryHours`, `stockoutDays`): a parsed object such as `{"toString": 0}` makes the template throw before any fetch, and the estimate handler then answers 500 "Failed to send email" with no call, whereas the model makes the send for it.
- js/load-footer.js: browser DOM work (a script tag and a footer fetch), outside the handlers.
