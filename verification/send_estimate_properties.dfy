/** Properties of the estimate handler: rejections make no call, the send
    payload's fixed fields, a failed send stops everything, an accepted
    send is followed by exactly one audience call, a `null` reply fails
    only after that call, and the audience call cannot change the
    response. */
module SendEstimateProperties {
  import opened Options
  import opened JsValues
  import opened Http
  import opened SendEstimate

  /** A POST with the API key set and a body. */
  predicate Reaches(req: Request, cfg: Config, b: EstimateBody) {
    req.verb == "POST" && IsSet(cfg.apiKey) && req.body == Some(b)
  }

  lemma NonPostRejected(req: Request, cfg: Config, o: Oracle)
    requires req.verb != "POST"
    ensures Handle(req, cfg, o) == Outcome([], MethodNotAllowed)
  {
  }

  lemma MissingKeyRejected(req: Request, cfg: Config, o: Oracle)
    requires req.verb == "POST" && !IsSet(cfg.apiKey)
    ensures Handle(req, cfg, o) == Outcome([], ServiceNotConfigured)
  {
  }

  /** A missing, non-array or empty `emails` is a 400 with no send. */
  lemma NoEmailsRejected(req: Request, cfg: Config, o: Oracle, b: EstimateBody)
    requires Reaches(req, cfg, b)
    requires b.emails == None || b.emails == Some([])
    ensures Handle(req, cfg, o) == Outcome([], NoEmails)
  {
  }

  /** The send request of an accepted submission: recipients exactly
      `emails`, the fixed blind copy and sender, and the subject built
      around the yearly-loss text. */
  lemma SendPayloadFields(req: Request, cfg: Config, o: Oracle, b: EstimateBody)
    requires Reaches(req, cfg, b) && b.emails.Some? && b.emails.value != []
    ensures var out := Handle(req, cfg, o);
            && out.calls != []
            && out.calls[0].SendEmail?
            && out.calls[0].payload.to == b.emails.value
            && out.calls[0].payload.bcc == ["leads@airshop.works"]
            && out.calls[0].payload.from == "AirShop <hello@airshop.works>"
            && out.calls[0].payload.subject
               == "Your Lost Revenue Estimate: " + ToText(b.yearlyLoss) + "/year"
  {
    var p := BuildPayload(b.emails.value, b.yearlyLoss);
    assert SubjectFigure(p.subject) == Some(ToText(b.yearlyLoss));
  }

  /** Building the subject and reading the figure back is the identity. */
  lemma SubjectRoundTrip(figure: string)
    ensures SubjectFigure(SubjectPrefix + figure + SubjectSuffix) == Some(figure)
  {
    var s := SubjectPrefix + figure + SubjectSuffix;
    assert s[..|SubjectPrefix|] == SubjectPrefix;
    assert s[|s| - |SubjectSuffix|..] == SubjectSuffix;
    assert s[|SubjectPrefix|..|s| - |SubjectSuffix|] == figure;
  }

  /** Distinct yearly-loss texts give distinct subjects. */
  lemma SubjectsDistinguishFigures(y1: JsValue, y2: JsValue, emails: seq<JsValue>)
    requires ToText(y1) != ToText(y2)
    ensures BuildPayload(emails, y1).subject != BuildPayload(emails, y2).subject
  {
  }

  /** A send that throws or is refused ends the request with a 500 and
      only the send call made. */
  lemma SendFailureStops(req: Request, cfg: Config, o: Oracle, b: EstimateBody)
    requires Reaches(req, cfg, b) && b.emails.Some? && b.emails.value != []
    requires o.send.SendThrew? || !IsOk(o.send.status)
    ensures var out := Handle(req, cfg, o);
            && |out.calls| == 1
            && out.calls[0].SendEmail?
            && out.response == SendFailure
  {
  }

  /** An accepted send whose reply does not parse also stops before the
      audience call. */
  lemma UnparsableReplyStops(req: Request, cfg: Config, o: Oracle, b: EstimateBody)
    requires Reaches(req, cfg, b) && b.emails.Some? && b.emails.value != []
    requires o.send.SendReplied? && o.send.body.Unparsable?
    ensures var out := Handle(req, cfg, o);
            && |out.calls| == 1
            && out.calls[0].SendEmail?
            && out.response == SendFailure
  {
  }

  /** An accepted send whose reply is `null` still registers the first
      address with the audience, and only then fails with a 500, because
      reading the id throws. */
  lemma NullReplyFailsAfterRegistering(req: Request, cfg: Config, o: Oracle, b: EstimateBody)
    requires Reaches(req, cfg, b) && b.emails.Some? && b.emails.value != []
    requires o.send.SendReplied? && IsOk(o.send.status) && o.send.body.Null?
    ensures var out := Handle(req, cfg, o);
            && |out.calls| == 2
            && out.calls[1] == AddToAudience(AudienceId, b.emails.value[0],
                                             if Truthy(b.name) then b.name else Str(""), false)
            && out.response == SendFailure
  {
  }

  /** A delivered send is followed by exactly one audience call for the
      first address, and the response is 200 with the provider's id. */
  lemma DeliveredRegistersFirstAddress(req: Request, cfg: Config, o: Oracle, b: EstimateBody)
    requires Reaches(req, cfg, b) && b.emails.Some? && b.emails.value != []
    requires Delivered(o.send)
    ensures var out := Handle(req, cfg, o);
            && |out.calls| == 2
            && out.calls[1] == AddToAudience(AudienceId, b.emails.value[0],
                                             if Truthy(b.name) then b.name else Str(""), false)
            && out.response == Response(200, SuccessWithId(o.send.body.id))
  {
  }

  /** Whatever the audience endpoint does, the calls and the response are
      the same. */
  lemma AudienceIsBestEffort(req: Request, cfg: Config, o: Oracle, a: AudienceReply)
    ensures Handle(req, cfg, o) == Handle(req, cfg, o.(audience := a))
  {
  }

  /** The send always precedes the audience call, and nothing else is
      called. */
  lemma CallOrder(req: Request, cfg: Config, o: Oracle)
    ensures var out := Handle(req, cfg, o);
            && |out.calls| <= 2
            && (forall i :: 0 <= i < |out.calls| ==> (out.calls[i].SendEmail? <==> i == 0))
  {
  }
}
