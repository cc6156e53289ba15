/** The contact-form endpoint, `POST /api/sendMessage`, as one pure decision:
    given the request body, the server's configuration, the e-mail format test
    and the outcomes of the two mail sends, it yields the HTTP status, the JSON
    reply and the e-mails that were handed to the mail transport, in order. */
module ContactRelay {

  datatype Option<T> = None | Some(value: T)

  /** The value one key of the JSON body holds. `Absent` is a missing key
      (JavaScript's `undefined`); `NonText` is any other non-string JSON value
      (`null`, a number, a boolean, an array or an object), with its JavaScript
      truthiness. */
  datatype Field = Absent | Text(s: string) | NonText(truthy: bool)

  /** The parsed request body: a JSON object with the five keys the endpoint
      reads, or some other JSON value. */
  datatype RequestBody =
    | JsonObject(name: Field, email: Field, phone: Field, message: Field, secretKey: Field)
    | NotAnObject

  /** The environment the server reads: JWT_SECRET (possibly unset),
      EMAIL_USER and RECIPIENT_EMAIL. */
  datatype Config = Config(secret: Option<string>, emailUser: string, recipient: string)

  /** What the notification and the acknowledgement carry. */
  datatype MailBody =
    | ContactDetails(name: string, email: string, phone: string, message: string, sentOn: string)
    | ThankYou(name: string)

  datatype Mail = Mail(from: string, to: string, subject: string, body: MailBody)

  /** The JSON reply: `{success, message}` or `{success, error}`. */
  datatype Reply =
    | MessageReply(success: bool, message: string)
    | ErrorReply(success: bool, error: string)

  /** The HTTP status, the reply, and the mails handed to the transport. */
  datatype Outcome = Outcome(status: int, reply: Reply, attempted: seq<Mail>)

  const Invalid := MessageReply(false, "input fields are not valid")
  const MissingFields := ErrorReply(false, "Name, email, and message are required")
  const Unauthorized := ErrorReply(false, "Unauthorized")
  const SendFailed := ErrorReply(false, "Failed to send message")
  const Sent := MessageReply(true, "Message sent successfully!")
  const SubjectPrefix := "New Contact: "
  const ThanksSubject := "Thanks for contacting me, Hope you are Fine!"
  const NoPhone := "Not provided"

  /** The rate limiter's configuration: at most 2 requests per client in a
      10-minute window. */
  const RateWindowMs: nat := 10 * 60 * 1000
  const RateMax: nat := 2

  /** JavaScript truthiness of a field. */
  predicate Truthy(f: Field)
  {
    match f
    case Absent => false
    case Text(s) => s != []
    case NonText(t) => t
  }

  /** JavaScript `===` between a body field and an environment variable. */
  predicate SameAsEnv(f: Field, v: Option<string>)
  {
    match (f, v)
    case (Text(s), Some(w)) => s == w
    case (Absent, None) => true
    case _ => false
  }

  /** A string with at least one character (`zod.string().min(1)`). */
  predicate NonEmptyText(f: Field)
  {
    f.Text? && |f.s| >= 1
  }

  /** The zod schema: a non-empty name and message, an e-mail-shaped email, an
      optional string phone, and a secret key that is a string equal to the
      configured secret. `isEmail` stands for zod's e-mail format test. */
  predicate SchemaAccepts(cfg: Config, isEmail: string -> bool, body: RequestBody): (ok: bool)
    ensures ok ==> body.JsonObject? && Truthy(body.name) && Truthy(body.message)
    ensures ok ==> SameAsEnv(body.secretKey, cfg.secret) && cfg.secret.Some?
    ensures ok ==> body.phone != NonText(false) && body.phone != NonText(true)
  {
    && body.JsonObject?
    && NonEmptyText(body.name)
    && body.email.Text? && isEmail(body.email.s)
    && (body.phone.Absent? || body.phone.Text?)
    && NonEmptyText(body.message)
    && body.secretKey.Text? && cfg.secret == Some(body.secretKey.s)
  }

  /** The phone as the notification shows it: `phone || "Not provided"`. */
  function PhoneShown(phone: Field): (shown: string)
    requires phone.Absent? || phone.Text?
    ensures shown == NoPhone <==> phone.Absent? || phone.s == [] || phone.s == NoPhone
    ensures shown != NoPhone ==> phone == Text(shown)
  {
    if Truthy(phone) then phone.s else NoPhone
  }

  /** The mail to the site's owner. */
  function Notification(cfg: Config, name: string, email: string, phone: Field,
                        message: string, sentOn: string): (m: Mail)
    requires phone.Absent? || phone.Text?
  {
    Mail(cfg.emailUser, cfg.recipient, SubjectPrefix + name,
         ContactDetails(name, email, PhoneShown(phone), message, sentOn))
  }

  /** The mail back to the submitter. */
  function Acknowledgement(cfg: Config, name: string, email: string): (m: Mail)
  {
    Mail(cfg.emailUser, email, ThanksSubject, ThankYou(name))
  }

  /** The two mails of an accepted request, in the order they are sent. */
  function MailsFor(cfg: Config, body: RequestBody, sentOn: string): (mails: seq<Mail>)
    requires body.JsonObject? && body.name.Text? && body.email.Text? && body.message.Text?
    requires body.phone.Absent? || body.phone.Text?
    ensures |mails| == 2
    ensures mails[0].from == cfg.emailUser && mails[1].from == cfg.emailUser
    ensures mails[0].to == cfg.recipient && mails[1].to == body.email.s
    ensures mails[0].subject == SubjectPrefix + body.name.s
    ensures mails[0].body.ContactDetails? && mails[1].body.ThankYou?
    ensures mails[0].body.name == body.name.s && mails[1].body.name == body.name.s
    ensures mails[0].body.email == body.email.s && mails[0].body.message == body.message.s
    ensures mails[0].body.phone == PhoneShown(body.phone) && mails[0].body.sentOn == sentOn
    ensures mails[1].subject == ThanksSubject
  {
    [Notification(cfg, body.name.s, body.email.s, body.phone, body.message.s, sentOn),
     Acknowledgement(cfg, body.name.s, body.email.s)]
  }

  /** The handler. `sentOn` is the server's clock reading; `notifyOk` and
      `ackOk` are whether the transport accepted the first and the second
      mail. */
  function SendMessage(cfg: Config, isEmail: string -> bool, body: RequestBody,
                       sentOn: string, notifyOk: bool, ackOk: bool): (o: Outcome)
    ensures o.status in {200, 400, 500}
    ensures o.status != 401
    ensures !SchemaAccepts(cfg, isEmail, body) ==> o == Outcome(400, Invalid, [])
    ensures body.JsonObject? && !SameAsEnv(body.secretKey, cfg.secret) ==>
              o == Outcome(400, Invalid, [])
    ensures |o.attempted| <= 2
    ensures o.attempted != [] ==>
              && SchemaAccepts(cfg, isEmail, body)
              && o.attempted[0].to == cfg.recipient
              && o.attempted[0].subject == SubjectPrefix + body.name.s
    ensures |o.attempted| == 2 ==> notifyOk && o.attempted[1].to == body.email.s
    ensures o.status == 200 ==> notifyOk && ackOk && |o.attempted| == 2 && o.reply == Sent
    ensures o.status == 500 ==> o.reply == SendFailed && o.attempted != []
    ensures o.status == 500 && !notifyOk ==> |o.attempted| == 1
  {
    if !SchemaAccepts(cfg, isEmail, body) then
      Outcome(400, Invalid, [])
    else if !Truthy(body.name) || !Truthy(body.email) || !Truthy(body.message) then
      Outcome(400, MissingFields, [])
    else if !SameAsEnv(body.secretKey, cfg.secret) then
      Outcome(401, Unauthorized, [])
    else
      var mails := MailsFor(cfg, body, sentOn);
      if !notifyOk then Outcome(500, SendFailed, mails[..1])
      else if !ackOk then Outcome(500, SendFailed, mails)
      else Outcome(200, Sent, mails)
  }

  // ---------------------------------------------------------------------------
  // The same endpoint with its validation collapsed into the schema alone.
  // ---------------------------------------------------------------------------

  /** A single-stage reference: the schema decides, then the two mails are
      sent in order, the second only after the first went out. */
  function SingleStage(cfg: Config, isEmail: string -> bool, body: RequestBody,
                       sentOn: string, notifyOk: bool, ackOk: bool): (o: Outcome)
  {
    if !SchemaAccepts(cfg, isEmail, body) then Outcome(400, Invalid, [])
    else
      var mails := MailsFor(cfg, body, sentOn);
      if !notifyOk then Outcome(500, SendFailed, [mails[0]])
      else if !ackOk then Outcome(500, SendFailed, mails)
      else Outcome(200, Sent, mails)
  }

  /** Once the schema has accepted a body, name and message are non-empty
      strings, so the manual presence check can only fire on an empty e-mail
      that the format test let through. zod's test rejects the empty string,
      so that check never fires. */
  lemma PresenceCheckDead(cfg: Config, isEmail: string -> bool, body: RequestBody)
    requires SchemaAccepts(cfg, isEmail, body)
    ensures Truthy(body.name) && Truthy(body.message)
    ensures Truthy(body.email) <==> body.email.s != []
    ensures !isEmail("") ==> Truthy(body.email)
  {
  }

  /** Once the schema has accepted a body, its secret key equals the
      configured secret, so the later 401 branch is never taken. */
  lemma SecretCheckDead(cfg: Config, isEmail: string -> bool, body: RequestBody)
    requires SchemaAccepts(cfg, isEmail, body)
    ensures SameAsEnv(body.secretKey, cfg.secret)
  {
  }

  /** With an e-mail test that rejects the empty string, the handler as
      written behaves exactly like the single-stage reference. */
  lemma {:induction false} HandlerIsSingleStage(cfg: Config, isEmail: string -> bool,
                                                 body: RequestBody, sentOn: string,
                                                 notifyOk: bool, ackOk: bool)
    requires !isEmail("")
    ensures SendMessage(cfg, isEmail, body, sentOn, notifyOk, ackOk) ==
              SingleStage(cfg, isEmail, body, sentOn, notifyOk, ackOk)
  {
    if SchemaAccepts(cfg, isEmail, body) {
      PresenceCheckDead(cfg, isEmail, body);
      SecretCheckDead(cfg, isEmail, body);
      var mails := MailsFor(cfg, body, sentOn);
      assert mails[..1] == [mails[0]];
    }
  }

  /** The status tells the whole story: 400 exactly when the schema rejects,
      200 exactly when the schema accepts and both sends succeed, 500
      exactly when it accepts and a send fails. */
  lemma StatusCharacterised(cfg: Config, isEmail: string -> bool, body: RequestBody,
                            sentOn: string, notifyOk: bool, ackOk: bool)
    requires !isEmail("")
    ensures var o := SendMessage(cfg, isEmail, body, sentOn, notifyOk, ackOk);
      && (o.status == 400 <==> !SchemaAccepts(cfg, isEmail, body))
      && (o.status == 200 <==> SchemaAccepts(cfg, isEmail, body) && notifyOk && ackOk)
      && (o.status == 500 <==> SchemaAccepts(cfg, isEmail, body) && !(notifyOk && ackOk))
      && (o.status == 400 ==> o.reply == Invalid && o.attempted == [])
  {
    HandlerIsSingleStage(cfg, isEmail, body, sentOn, notifyOk, ackOk);
  }

  /** When the first send fails the second is never attempted: the outcome
      does not depend on what the second send would have done. */
  lemma FirstFailureStops(cfg: Config, isEmail: string -> bool, body: RequestBody,
                          sentOn: string, ack1: bool, ack2: bool)
    ensures SendMessage(cfg, isEmail, body, sentOn, false, ack1) ==
              SendMessage(cfg, isEmail, body, sentOn, false, ack2)
    ensures SendMessage(cfg, isEmail, body, sentOn, false, ack1).status != 200
  {
  }

  /** A failed second send still leaves the owner's notification sent, yet
      the caller is told the whole request failed. */
  lemma SecondFailureAfterNotification(cfg: Config, isEmail: string -> bool,
                                       body: RequestBody, sentOn: string)
    requires SchemaAccepts(cfg, isEmail, body) && !isEmail("")
    ensures var o := SendMessage(cfg, isEmail, body, sentOn, true, false);
      && o.status == 500 && o.reply == SendFailed
      && |o.attempted| == 2 && o.attempted[0].to == cfg.recipient
  {
    PresenceCheckDead(cfg, isEmail, body);
  }

  /** Without a configured secret no request is ever accepted. */
  lemma UnsetSecretRejectsAll(cfg: Config, isEmail: string -> bool, body: RequestBody,
                              sentOn: string, notifyOk: bool, ackOk: bool)
    requires cfg.secret == None
    ensures SendMessage(cfg, isEmail, body, sentOn, notifyOk, ackOk) == Outcome(400, Invalid, [])
  {
  }
}
