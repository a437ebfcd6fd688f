/** Properties of the signup handler: the order of its checks, that a
    rejection makes no outbound call, the create-then-segment-add fallback,
    and that the webhook is best effort. */
module SignupLeadProperties {
  import opened Options
  import opened JsValues
  import opened Text
  import opened EmailPattern
  import opened Http
  import opened SignupLead

  /** A POST with the API key set and a body, so that validation runs. */
  predicate Reaches(req: Request, cfg: Config, b: LeadBody) {
    req.verb == "POST" && IsSet(cfg.apiKey) && req.body == Some(b)
  }

  lemma NonPostRejected(req: Request, cfg: Config, o: Oracle)
    requires req.verb != "POST"
    ensures Handle(req, cfg, o) == Outcome([], MethodNotAllowed)
  {
  }

  lemma MissingKeyRejected(req: Request, cfg: Config, o: Oracle)
    requires req.verb == "POST" && !IsSet(cfg.apiKey)
    ensures Handle(req, cfg, o) == Outcome([], ServiceNotConfigured)
  {
  }

  /** A missing, empty or non-string email is reported first, whatever the
      other fields hold. */
  lemma EmailRequiredFirst(req: Request, cfg: Config, o: Oracle, b: LeadBody)
    requires Reaches(req, cfg, b)
    requires b.email.Undefined? || b.email == Str("") || b.email.Other?
    ensures Handle(req, cfg, o) == Outcome([], EmailRequired)
  {
  }

  /** A non-blank honeypot is rejected before anything looks at the email's
      shape or the timing. */
  lemma HoneypotRejected(req: Request, cfg: Config, o: Oracle, b: LeadBody)
    requires Reaches(req, cfg, b) && HasEmailString(b.email)
    requires Truthy(b.website) && Trim(ToText(b.website)) != ""
    ensures Handle(req, cfg, o) == Outcome([], InvalidSubmission)
  {
    assert HoneypotFilled(b.website);
    assert Validate(b, req.now) == Reject(InvalidSubmission);
    assert Admit(req, cfg) == Reject(InvalidSubmission);
  }

  lemma TooFastRejected(req: Request, cfg: Config, o: Oracle, b: LeadBody)
    requires Reaches(req, cfg, b) && HasEmailString(b.email) && !HoneypotFilled(b.website)
    requires b.formLoadTime.Some? && b.formLoadTime.value > 0
    requires req.now - b.formLoadTime.value < MinFillTimeMs
    ensures Handle(req, cfg, o) == Outcome([], InvalidSubmission)
  {
  }

  /** An absent or non-positive load time, or one at least `MinFillTimeMs`
      old, has no effect: the request is handled as if no time was sent. */
  lemma TimingPassesOn(req: Request, cfg: Config, o: Oracle, b: LeadBody)
    requires req.body == Some(b)
    requires || b.formLoadTime.None?
             || b.formLoadTime.value <= 0
             || req.now - b.formLoadTime.value >= MinFillTimeMs
    ensures Handle(req, cfg, o) == Handle(req.(body := Some(b.(formLoadTime := None))), cfg, o)
  {
    var req' := req.(body := Some(b.(formLoadTime := None)));
    ValidateIgnoresSlowTiming(b, req.now);
    assert Admit(req, cfg) == Admit(req', cfg);
    HandleByAdmission(req, req', cfg, o);
  }

  lemma ValidateIgnoresSlowTiming(b: LeadBody, now: int)
    requires !SubmittedTooFast(b.formLoadTime, now)
    ensures Validate(b, now) == Validate(b.(formLoadTime := None), now)
  {
    var b' := b.(formLoadTime := None);
    if HasEmailString(b.email) && !HoneypotFilled(b.website) {
      assert Validate(b, now) == CheckEmail(b.email.s);
      assert Validate(b', now) == CheckEmail(b.email.s);
    }
  }

  /** Requests admitted alike are handled alike. */
  lemma HandleByAdmission(req: Request, req': Request, cfg: Config, o: Oracle)
    requires Admit(req, cfg) == Admit(req', cfg)
    ensures Handle(req, cfg, o) == Handle(req', cfg, o)
  {
    match Admit(req, cfg)
    case Reject(_) =>
    case Accept(email) =>
      HandleAdmitted(req, cfg, o, email);
      HandleAdmitted(req', cfg, o, email);
  }

  /** An email that is blank after trimming is reported as missing. */
  lemma BlankEmailRequired(req: Request, cfg: Config, o: Oracle, b: LeadBody)
    requires Reaches(req, cfg, b) && HasEmailString(b.email)
    requires !HoneypotFilled(b.website) && !SubmittedTooFast(b.formLoadTime, req.now)
    requires AllWhitespace(b.email.s)
    ensures Handle(req, cfg, o) == Outcome([], EmailRequired)
  {
  }

  /** A non-blank email whose normalised form the pattern does not match is
      rejected with the validation message. */
  lemma MalformedEmailRejected(req: Request, cfg: Config, o: Oracle, b: LeadBody)
    requires Reaches(req, cfg, b) && HasEmailString(b.email)
    requires !HoneypotFilled(b.website) && !SubmittedTooFast(b.formLoadTime, req.now)
    requires !AllWhitespace(b.email.s) && !MatchesPattern(Normalize(b.email.s))
    ensures Handle(req, cfg, o) == Outcome([], InvalidEmail)
  {
    ValidEmailMatchesPattern(Normalize(b.email.s));
  }

  /** A submission passing every check is admitted with its normalised
      email. */
  lemma WellFormedAdmitted(req: Request, cfg: Config, b: LeadBody)
    requires Reaches(req, cfg, b) && HasEmailString(b.email)
    requires !HoneypotFilled(b.website) && !SubmittedTooFast(b.formLoadTime, req.now)
    requires MatchesPattern(Normalize(b.email.s))
    ensures Admit(req, cfg) == Accept(Normalize(b.email.s))
  {
    var e := Normalize(b.email.s);
    ValidEmailMatchesPattern(e);
    assert e != "" by {
      var at, dot :| SplitsAt(e, at, dot);
    }
  }

  /** An admitted request is handled by the upsert alone. */
  lemma HandleAdmitted(req: Request, cfg: Config, o: Oracle, email: string)
    requires Admit(req, cfg) == Accept(email)
    ensures Handle(req, cfg, o) == Register(email, cfg, o)
  {
  }

  /* The upsert, once a request is admitted (see `HandleAdmitted`). */

  /** The create call is the first call, with the fixed contact fields. */
  lemma CreateComesFirst(email: string, cfg: Config, o: Oracle)
    ensures var out := Register(email, cfg, o);
            && out.calls != []
            && out.calls[0] == CreateContact(email, false, "landing_page_signup",
                                              ["20235748-374c-4d2f-b560-e5cb88f183fe"])
  {
  }

  /** A successful create is the whole registration: 200, no segment add. */
  lemma CreateSucceeds(email: string, cfg: Config, o: Oracle)
    requires Succeeded(o.create)
    ensures var out := Register(email, cfg, o);
            && out.response == Signed
            && forall i :: 0 <= i < |out.calls| ==> !out.calls[i].AddToSegment?
  {
  }

  /** A conflicting create is followed by exactly one segment add, and its
      result decides the response. */
  lemma ConflictAddsToSegmentOnce(email: string, cfg: Config, o: Oracle)
    requires IsConflict(o.create)
    ensures var out := Register(email, cfg, o);
            && |out.calls| >= 2
            && out.calls[1] == AddToSegment(email, LeadsSegmentId)
            && (forall i :: 0 <= i < |out.calls| && i != 1 ==> !out.calls[i].AddToSegment?)
            && (out.response.status == 200 <==> Succeeded(o.addToSegment))
            && (Succeeded(o.addToSegment) ==> out.response == Signed)
            && (out.response.status != 200 ==> out.response.status == 500)
  {
  }

  /** Any other create failure is a hard failure with no segment add: the
      generic sign-up failure when the create threw or its error body is
      `null`, the list failure otherwise. */
  lemma OtherFailureIsFinal(email: string, cfg: Config, o: Oracle)
    requires !Succeeded(o.create) && !IsConflict(o.create)
    ensures var out := Register(email, cfg, o);
            && out.calls == [CreateCall(email)]
            && out.response == (if o.create.Threw? || o.create.body.Null? then SignupFailure
                                else ListFailure)
  {
  }

  /** The segment endpoint's reply matters only after a conflict. */
  lemma SegmentReplyIrrelevantWithoutConflict(req: Request, cfg: Config, o: Oracle, r: Reply)
    requires !IsConflict(o.create)
    ensures Handle(req, cfg, o) == Handle(req, cfg, o.(addToSegment := r))
  {
    match Admit(req, cfg)
    case Reject(_) =>
    case Accept(email) =>
      HandleAdmitted(req, cfg, o, email);
      HandleAdmitted(req, cfg, o.(addToSegment := r), email);
      RegisterIgnoresSegmentReply(email, cfg, o, r);
  }

  lemma RegisterIgnoresSegmentReply(email: string, cfg: Config, o: Oracle, r: Reply)
    requires !IsConflict(o.create)
    ensures Register(email, cfg, o) == Register(email, cfg, o.(addToSegment := r))
  {
  }

  /** The webhook is called only after a registration and only when a URL
      is configured; then it is called exactly once, last, with the
      normalised email. */
  lemma WebhookOnSuccessOnly(email: string, cfg: Config, o: Oracle)
    ensures var out := Register(email, cfg, o);
            && ((exists i :: 0 <= i < |out.calls| && out.calls[i].NotifyWebhook?)
                <==> out.response.status == 200 && IsSet(cfg.webhookUrl))
            && (out.response.status == 200 && IsSet(cfg.webhookUrl) ==>
                  && out.calls[|out.calls| - 1] == NotifyWebhook(cfg.webhookUrl.value, email)
                  && forall i :: 0 <= i < |out.calls| - 1 ==> !out.calls[i].NotifyWebhook?)
  {
  }

  /** Whether the webhook throws or what it replies changes nothing: not
      the calls made, not the response. */
  lemma WebhookIsBestEffort(req: Request, cfg: Config, o: Oracle, w: Reply)
    ensures Handle(req, cfg, o) == Handle(req, cfg, o.(webhook := w))
  {
    match Admit(req, cfg)
    case Reject(_) =>
    case Accept(email) =>
      HandleAdmitted(req, cfg, o, email);
      HandleAdmitted(req, cfg, o.(webhook := w), email);
      RegisterIgnoresWebhook(email, cfg, o, w);
  }

  lemma RegisterIgnoresWebhook(email: string, cfg: Config, o: Oracle, w: Reply)
    ensures Register(email, cfg, o) == Register(email, cfg, o.(webhook := w))
  {
  }

  /** An error message mentioning "already" anywhere counts as a conflict
      even without a 409. */
  lemma AlreadyMessageIsConflict(status: int, p: string, q: string)
    requires !IsOk(status)
    ensures IsConflict(Replied(status, Object(Some(p + "already" + q))))
  {
    var m := p + "already" + q;
    assert m[|p|..|p| + |"already"|] == "already";
    assert OccursAt(m, "already", |p|);
  }
}
