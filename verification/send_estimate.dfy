/** The estimate handler: email a lost-revenue estimate to the submitted
    addresses (with a blind copy to the leads mailbox), then best-effort
    add the first address to the marketing audience.

    Like the signup handler it is a pure function from the request, the
    configuration and the provider's replies to the outbound calls made
    and the response sent. The HTML body of the email is not modelled;
    the payload carries its sender, recipients, blind copy and subject. */
module SendEstimate {
  import opened Options
  import opened JsValues
  import opened Http

  const Sender := "AirShop <hello@airshop.works>"
  const LeadsMailbox := "leads@airshop.works"
  const AudienceId := "20235748-374c-4d2f-b560-e5cb88f183fe"
  const SubjectPrefix := "Your Lost Revenue Estimate: "
  const SubjectSuffix := "/year"

  const NoEmails := Response(400, Failure("At least one email is required"))
  const SendFailure := Response(500, Failure("Failed to send email"))

  /** The parsed JSON body, reduced to the fields that reach a call or the
      subject line. `emails` is `None` when the field is missing, falsy or
      not an array. */
  datatype EstimateBody = EstimateBody(emails: Option<seq<JsValue>>, name: JsValue, yearlyLoss: JsValue)

  /** `verb` is the HTTP method; `body` is `None` when the request has no
      body to destructure. */
  datatype Request = Request(verb: string, body: Option<EstimateBody>)

  /** The fields of the send request other than its HTML. */
  datatype SendPayload = SendPayload(from: string, to: seq<JsValue>, subject: string, bcc: seq<string>)

  datatype Call =
    | SendEmail(payload: SendPayload)
    | AddToAudience(audienceId: string, email: JsValue, firstName: JsValue, unsubscribed: bool)

  /** The JSON body of the send reply: text that does not parse (reading
      it throws), the literal `null` (it parses, but reading `.id` from it
      throws), or any other value, whose `id` may be `Undefined`. */
  datatype ReplyBody = Unparsable | Null | Readable(id: JsValue)

  datatype SendReply = SendThrew | SendReplied(status: int, body: ReplyBody)
  datatype AudienceReply = AudienceThrew | AudienceReplied(status: int)

  /** The reply each endpoint would give if it were called. */
  datatype Oracle = Oracle(send: SendReply, audience: AudienceReply)

  datatype Outcome = Outcome(calls: seq<Call>, response: Response)

  /** The yearly-loss figure a subject line carries, if it has the shape
      of one; the inverse of building the subject. */
  function SubjectFigure(subject: string): (r: Option<string>)
    ensures r.Some? ==> subject == SubjectPrefix + r.value + SubjectSuffix
  {
    if && |subject| >= |SubjectPrefix| + |SubjectSuffix|
       && subject[..|SubjectPrefix|] == SubjectPrefix
       && subject[|subject| - |SubjectSuffix|..] == SubjectSuffix
    then
      var figure := subject[|SubjectPrefix|..|subject| - |SubjectSuffix|];
      assert subject == subject[..|SubjectPrefix|] + figure + subject[|subject| - |SubjectSuffix|..];
      Some(figure)
    else None
  }

  /** The send request: fixed sender and blind copy, the submitted
      addresses as recipients, and a subject from which the yearly-loss
      text can be read back. */
  function BuildPayload(emails: seq<JsValue>, yearlyLoss: JsValue): (p: SendPayload)
    ensures p.from == Sender
    ensures p.to == emails
    ensures p.bcc == [LeadsMailbox]
    ensures SubjectFigure(p.subject) == Some(ToText(yearlyLoss))
  {
    var subject := SubjectPrefix + ToText(yearlyLoss) + SubjectSuffix;
    assert subject[..|SubjectPrefix|] == SubjectPrefix;
    assert subject[|subject| - |SubjectSuffix|..] == SubjectSuffix;
    assert subject[|SubjectPrefix|..|subject| - |SubjectSuffix|] == ToText(yearlyLoss);
    SendPayload(Sender, emails, subject, [LeadsMailbox])
  }

  /** The audience registration: the address, `name || ''`, subscribed. */
  function AudienceCall(email: JsValue, name: JsValue): Call {
    AddToAudience(AudienceId, email, OrElse(name, Str("")), false)
  }

  /** The send went through and its reply parsed: the way on to the
      audience call. */
  predicate Accepted(r: SendReply) {
    r.SendReplied? && IsOk(r.status) && !r.body.Unparsable?
  }

  /** The send went through and its reply has an id to read: the only way
      to a 200. */
  predicate Delivered(r: SendReply) {
    r.SendReplied? && IsOk(r.status) && r.body.Readable?
  }

  /** The required send, then the best-effort audience call, for a
      non-empty list of addresses. A `null` reply still leads to the
      audience call, and only reading its id afterwards fails. */
  function Deliver(emails: seq<JsValue>, b: EstimateBody, o: Oracle): (out: Outcome)
    requires emails != []
    ensures |out.calls| in {1, 2}
    ensures out.calls[0] == SendEmail(BuildPayload(emails, b.yearlyLoss))
    ensures |out.calls| == 2 <==> Accepted(o.send)
    ensures Accepted(o.send) ==> out.calls[1] == AudienceCall(emails[0], b.name)
    ensures Delivered(o.send) ==> out.response == Response(200, SuccessWithId(o.send.body.id))
    ensures !Delivered(o.send) ==> out.response == SendFailure
  {
    var sent := [SendEmail(BuildPayload(emails, b.yearlyLoss))];
    if !Accepted(o.send) then
      Outcome(sent, SendFailure)
    else
      // A throw or any reply from the audience endpoint is caught and ignored.
      var registered := sent + [AudienceCall(emails[0], b.name)];
      match o.send.body
        case Readable(id) => Outcome(registered, Response(200, SuccessWithId(id)))
        case _ => Outcome(registered, SendFailure)
  }

  /** The handler. A rejected request makes no call; the send is always the
      first call and the audience call the second, made exactly when the
      send was accepted; the response is 200 exactly when the send was
      accepted with a reply carrying an id, which the response passes on. */
  function Handle(req: Request, cfg: Config, o: Oracle): (out: Outcome)
    ensures out.response.status in {200, 400, 405, 500}
    ensures IsClientError(out.response) ==> out.calls == []
    ensures |out.calls| <= 2
    ensures out.calls != [] ==>
              && out.calls[0].SendEmail?
              && out.calls[0].payload.from == Sender
              && out.calls[0].payload.bcc == [LeadsMailbox]
              && out.calls[0].payload.to != []
    ensures |out.calls| == 2 ==>
              && out.calls[1].AddToAudience?
              && out.calls[1].email == out.calls[0].payload.to[0]
    ensures out.calls != [] ==> (|out.calls| == 2 <==> Accepted(o.send))
    ensures out.response.status == 200 <==> out.calls != [] && Delivered(o.send)
    ensures out.response.status == 200 ==>
              |out.calls| == 2 && out.response.body == SuccessWithId(o.send.body.id)
  {
    if req.verb != "POST" then Outcome([], MethodNotAllowed)
    else if !IsSet(cfg.apiKey) then Outcome([], ServiceNotConfigured)
    else match req.body
      case None => Outcome([], SendFailure)
      case Some(b) =>
        if b.emails.None? || b.emails.value == [] then Outcome([], NoEmails)
        else Deliver(b.emails.value, b, o)
  }
}
