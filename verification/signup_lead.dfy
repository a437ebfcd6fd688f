/** The landing-page signup handler: validate a submitted email, register
    it with the email provider as a contact in the leads segment, and
    optionally notify a downstream webhook.

    The handler is a pure function from the request, the configuration and
    the provider's replies (an oracle, one reply per endpoint) to the
    outbound calls it makes, in order, and the response it sends. */
module SignupLead {
  import opened Options
  import opened JsValues
  import opened Text
  import opened EmailPattern
  import opened Http

  const LeadsSegmentId := "20235748-374c-4d2f-b560-e5cb88f183fe"
  const LeadType := "landing_page_signup"

  /** Submissions sooner than this many milliseconds after the form loaded
      are taken to come from a bot. */
  const MinFillTimeMs := 3000

  /** The parsed JSON body. `formLoadTime` is `form_load_time` after
      `parseInt`: `None` when the field is falsy or does not parse. */
  datatype LeadBody = LeadBody(email: JsValue, website: JsValue, formLoadTime: Option<int>)

  /** `verb` is the HTTP method; `body` is `None` when the request has no
      body to destructure; `now` is the clock reading in milliseconds. */
  datatype Request = Request(verb: string, body: Option<LeadBody>, now: int)

  /** The JSON body of a reply as the failed-create path reads it into
      `errData`: the literal `null`, or any other value (a body that does
      not parse counts as `{}`) with its `message` when that is a string. */
  datatype ErrorBody = Null | Object(message: Option<string>)

  /** What a provider or webhook fetch gave back: it threw, or it replied
      with a status and a body. */
  datatype Reply = Threw | Replied(status: int, body: ErrorBody)

  /** The reply each endpoint would give if it were called. */
  datatype Oracle = Oracle(create: Reply, addToSegment: Reply, webhook: Reply)

  datatype Call =
    | CreateContact(email: string, unsubscribed: bool, leadType: string, segmentIds: seq<string>)
    | AddToSegment(email: string, segmentId: string)
    | NotifyWebhook(url: string, email: string)

  datatype Outcome = Outcome(calls: seq<Call>, response: Response)

  const EmailRequired := Response(400, Failure("Email is required"))
  const InvalidSubmission := Response(400, Failure("Invalid submission"))
  const InvalidEmail := Response(400, Failure("Please enter a valid email address"))
  const ListFailure := Response(500, Failure("Failed to add you to the list. Please try again."))
  const SignupFailure := Response(500, Failure("Failed to sign up. Please try again."))
  const Signed := Response(200, Success)

  /** Result of the validation pipeline: the normalised email, or the
      response that rejects the submission. */
  datatype Verdict = Accept(email: string) | Reject(response: Response)

  /** `!email || typeof email !== 'string'` is false. */
  predicate HasEmailString(v: JsValue) {
    v.Str? && v.s != ""
  }

  /** The honeypot check: `website && String(website).trim().length > 0`. */
  predicate HoneypotFilled(website: JsValue) {
    Truthy(website) && Trim(ToText(website)) != ""
  }

  /** The timing check: a positive load time less than `MinFillTimeMs` ago. */
  predicate SubmittedTooFast(loadTime: Option<int>, now: int) {
    loadTime.Some? && loadTime.value > 0 && now - loadTime.value < MinFillTimeMs
  }

  /** The validation pipeline, stopping at the first failing check. An
      accepted email is normalised (a fixed point of `Normalize`) and
      matches the email pattern; a rejection is always a client error. */
  function Validate(b: LeadBody, now: int): (v: Verdict)
    ensures v.Accept? ==> Normalize(v.email) == v.email && MatchesPattern(v.email)
    ensures v.Accept? ==> HasEmailString(b.email) && v.email == Normalize(b.email.s)
    ensures v.Reject? ==> v.response.status == 400
  {
    if !HasEmailString(b.email) then Reject(EmailRequired)
    else if HoneypotFilled(b.website) then Reject(InvalidSubmission)
    else if SubmittedTooFast(b.formLoadTime, now) then Reject(InvalidSubmission)
    else CheckEmail(b.email.s)
  }

  /** The last two checks, on the normalised email: it must not be empty,
      and it must match the email pattern. */
  function CheckEmail(raw: string): (v: Verdict)
    ensures v.Accept? ==> v.email == Normalize(raw) && Normalize(v.email) == v.email
    ensures v.Accept? <==> MatchesPattern(Normalize(raw))
    ensures v.Reject? ==> v.response == (if AllWhitespace(raw) then EmailRequired else InvalidEmail)
  {
    var e := Normalize(raw);
    ValidEmailMatchesPattern(e);
    if e == "" then Reject(EmailRequired)
    else if !IsValidEmail(e) then Reject(InvalidEmail)
    else
      NormalizeIdempotent(raw);
      Accept(e)
  }

  /** `errData.message && errData.message.includes('already')`. */
  predicate SaysAlready(message: Option<string>) {
    message.Some? && Contains(message.value, "already")
  }

  predicate Succeeded(r: Reply) {
    r.Replied? && IsOk(r.status)
  }

  /** A failed create that means "the contact exists": status 409, or an
      error message mentioning "already". */
  predicate IsConflict(r: Reply) {
    r.Replied? && !IsOk(r.status) && (r.status == 409 || (r.body.Object? && SaysAlready(r.body.message)))
  }

  /** A failed create whose error body is `null` and whose status is not
      409: reading `message` from it throws. */
  predicate BreaksOnErrorBody(r: Reply) {
    r.Replied? && !IsOk(r.status) && r.status != 409 && r.body.Null?
  }

  /** The lead ends up in the segment: the create succeeded, or it
      conflicted and the segment add succeeded. */
  predicate Registered(o: Oracle) {
    Succeeded(o.create) || (IsConflict(o.create) && Succeeded(o.addToSegment))
  }

  function CreateCall(email: string): Call {
    CreateContact(email, false, LeadType, [LeadsSegmentId])
  }

  /** The best-effort webhook after a registration: one call when a URL is
      configured, and a 200 whatever the webhook does. */
  function Notify(email: string, cfg: Config, o: Oracle, made: seq<Call>): (out: Outcome)
    ensures out.response == Signed
    ensures |out.calls| == |made| + (if IsSet(cfg.webhookUrl) then 1 else 0)
    ensures out.calls[..|made|] == made
    ensures IsSet(cfg.webhookUrl) ==> out.calls[|made|] == NotifyWebhook(cfg.webhookUrl.value, email)
  {
    if IsSet(cfg.webhookUrl) then
      // Whatever o.webhook is, a throw is caught and a reply is ignored.
      Outcome(made + [NotifyWebhook(cfg.webhookUrl.value, email)], Signed)
    else
      Outcome(made, Signed)
  }

  /** The two-step upsert of a validated email: create the contact; on a
      conflict add the existing contact to the segment; notify on success. */
  function Register(email: string, cfg: Config, o: Oracle): (out: Outcome)
    ensures out.calls != [] && out.calls[0] == CreateCall(email)
    ensures |out.calls| <= 3
    ensures out.response.status == 200 <==> Registered(o)
    ensures out.response.status == 200 ==> out.response == Signed
    ensures out.response.status != 200 ==>
              out.response == (if o.create.Threw? || BreaksOnErrorBody(o.create)
                                  || (IsConflict(o.create) && o.addToSegment.Threw?)
                               then SignupFailure else ListFailure)
    ensures AddToSegment(email, LeadsSegmentId) in out.calls <==> IsConflict(o.create)
    ensures forall i :: 1 <= i < |out.calls| ==> !out.calls[i].CreateContact?
    ensures (exists i :: 0 <= i < |out.calls| && out.calls[i].NotifyWebhook?)
            <==> Registered(o) && IsSet(cfg.webhookUrl)
  {
    var created := [CreateCall(email)];
    match o.create
    case Threw => Outcome(created, SignupFailure)
    case Replied(status, _) =>
      if IsOk(status) then Notify(email, cfg, o, created)
      else if IsConflict(o.create) then
        var added := created + [AddToSegment(email, LeadsSegmentId)];
        match o.addToSegment
        case Threw => Outcome(added, SignupFailure)
        case Replied(segmentStatus, _) =>
          if IsOk(segmentStatus) then Notify(email, cfg, o, added)
          else Outcome(added, ListFailure)
      else if BreaksOnErrorBody(o.create) then Outcome(created, SignupFailure)
      else Outcome(created, ListFailure)
  }

  /** Everything before the first outbound call: method check, key check,
      body, validation. An admitted email is normalised and matches the
      email pattern. */
  function Admit(req: Request, cfg: Config): (v: Verdict)
    ensures v.Accept? ==> Normalize(v.email) == v.email && MatchesPattern(v.email)
    ensures v.Accept? ==> req.verb == "POST" && IsSet(cfg.apiKey)
    ensures v.Reject? ==> v.response.status in {400, 405, 500}
  {
    if req.verb != "POST" then Reject(MethodNotAllowed)
    else if !IsSet(cfg.apiKey) then Reject(ServiceNotConfigured)
    else match req.body
      case None => Reject(SignupFailure)
      case Some(b) => Validate(b, req.now)
  }

  /** The handler. A rejected request makes no outbound call; every call
      made is about the validated, normalised email, and the create comes
      first; the response is 200 exactly when the lead was registered. */
  function Handle(req: Request, cfg: Config, o: Oracle): (out: Outcome)
    ensures out.response.status in {200, 400, 405, 500}
    ensures IsClientError(out.response) ==> out.calls == []
    ensures |out.calls| <= 3
    ensures out.calls != [] ==>
              && out.calls[0].CreateContact?
              && MatchesPattern(out.calls[0].email)
              && Normalize(out.calls[0].email) == out.calls[0].email
    ensures out.response.status == 200 <==> out.calls != [] && Registered(o)
  {
    match Admit(req, cfg)
    case Reject(response) => Outcome([], response)
    case Accept(email) => Register(email, cfg, o)
  }
}
