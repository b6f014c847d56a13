/** The `email_ping` monitor (monitors/email_ping.go): one evaluation sends
    a mail over SMTP to a ping-pong relay and waits over IMAP for the
    relay's reply, deleting stale and fresh replies on the way.

    The network is not modelled as a protocol. Each server call has an
    outcome given in advance (an `SmtpServer` / `ImapServer` script), each
    search observes a mailbox snapshot, and the clock is the list of
    elapsed times seen at each poll. The cycle is then a function of its
    inputs, and it also returns the sequence of protocol actions it
    attempted, so that ordering and short-circuiting can be stated. */
module EmailPing {
  import opened Results
  import opened Strings
  import opened Numbers
  import opened Report
  import opened Configuration
  import opened Mailbox

  datatype EmailPingMonitor = EmailPingMonitor(
    name: string,
    host: string,
    key: string,
    interval: int,
    smtpHost: string,
    smtpPort: int,
    smtpForceTls: bool,
    smtpSenderAddress: string,
    smtpRecipientAddress: string,
    smtpUsername: string,
    smtpPassword: string,
    imapHost: string,
    imapPort: int,
    imapForceTls: bool,
    imapUsername: string,
    imapPassword: string,
    messageSubject: string,
    messageBody: string,
    responseSubject: string,
    timeout: int
  ) {

    function Name(): string { name }

    function Type(): string { "email_ping" }

    function HostURL(): string { host }

    function Key(): string { key }

    function Interval(): int { interval }

    /** One ping-pong cycle: compose, pre-clean without waiting, send, then
        receive with waiting. The first failing step ends the cycle. */
    function Run(env: Environment): (c: Cycle)
      requires CoversTimeout(env.receive.polls, timeout)
      ensures c.result.status == Up <==> c.result.err == None
      ensures c.result.status == Down ==> c.result.ping == 0
      ensures c.result.status == Up ==> c.result.message == "OK" && c.result.ping == TruncToInt(env.roundTrip)
    {
      var mail := Compose(this, env);
      var pre := Receive(this, mail, env.preClean, false);
      if pre.err.Some? then
        var message := "error cleaning old responses: " + pre.message;
        Cycle(MonitorResult(Down, message, pre.ping, Some(message)), pre.trace)
      else
        var sent := Send(this, mail, env.smtp);
        if sent.err.Some? then
          Cycle(MonitorResult(Down, sent.message, sent.ping, sent.err), pre.trace + sent.trace)
        else
          var got := Receive(this, mail, env.receive, true);
          var trace := pre.trace + sent.trace + got.trace;
          if got.err.Some? then Cycle(MonitorResult(Down, got.message, got.ping, got.err), trace)
          else Cycle(MonitorResult(Up, "OK", TruncToInt(env.roundTrip), None), trace)
    }
  }

  // ---------------------------------------------------------------------
  // Inputs standing for the network, the clock and the token generator
  // ---------------------------------------------------------------------

  /** The result of one client call: success, or the library's error text. */
  datatype Outcome = Done | Failed(reason: string)

  /** What the SMTP server does with each call of one send. */
  datatype SmtpServer = SmtpServer(
    dial: Outcome,
    offersStartTls: bool,
    startTls: Outcome,
    auth: Outcome,
    mail: Outcome,
    rcpt: Outcome,
    data: Outcome,
    write: Outcome,
    closeData: Outcome,
    close: Outcome
  )

  /** A `UID SEARCH` either fails or observes the mailbox as it is then. */
  datatype SearchReply = SearchFailed(reason: string) | Snapshot(inbox: Inbox)

  /** One poll of the waiting loop: the search reply and the time since the
      wait started, read after the search, with its `%v` rendering. */
  datatype Poll = Poll(reply: SearchReply, elapsed: real, elapsedText: string)

  /** What the IMAP server does with each call of one receive. */
  datatype ImapServer = ImapServer(
    dial: Outcome,
    offersStartTls: bool,
    startTls: Outcome,
    login: Outcome,
    select: Outcome,
    initial: SearchReply,
    polls: seq<Poll>,
    store: Outcome,
    expunge: Outcome,
    logout: Outcome
  )

  /** Everything one cycle consumes from outside: the generated token, the
      RFC 3339 send time, the rendered To/From addresses, the three server
      sessions and the seconds from send start to receive end. */
  datatype Environment = Environment(
    token: string,
    sendTime: string,
    toText: string,
    fromText: string,
    preClean: ImapServer,
    smtp: SmtpServer,
    receive: ImapServer,
    roundTrip: real
  )

  /** The waiting loop sleeps one second before each poll, so poll `k`
      (from 0) reads at least `k + 1` elapsed seconds; and the script is
      long enough for the clock to pass the timeout. */
  predicate CoversTimeout(polls: seq<Poll>, timeout: int) {
    && |polls| > 0
    && |polls| > timeout
    && forall k :: 0 <= k < |polls| ==> polls[k].elapsed >= (k + 1) as real
  }

  // ---------------------------------------------------------------------
  // Actions, steps and their results
  // ---------------------------------------------------------------------

  datatype Action =
    | SmtpDial(address: string)
    | SmtpStartTls(serverName: string)
    | SmtpAuth(username: string, password: string, authHost: string)
    | SmtpMail(sender: string)
    | SmtpRcpt(recipient: string)
    | SmtpData
    | SmtpWrite(payload: string)
    | SmtpCloseData
    | SmtpClose
    | ImapDial(address: string)
    | ImapStartTls(serverName: string)
    | ImapLogin(username: string, password: string)
    | ImapSelect(mailbox: string)
    | ImapSearch(criteria: Criteria)
    | Sleep(seconds: nat)
    | ImapStore(uids: seq<nat>, item: string, flag: string)
    | ImapExpunge
    | ImapLogout
  {
    predicate IsSmtp() {
      SmtpDial? || SmtpStartTls? || SmtpAuth? || SmtpMail? || SmtpRcpt? || SmtpData?
        || SmtpWrite? || SmtpCloseData? || SmtpClose?
    }
  }

  /** What `send_email` / `receive_email` return, plus the actions tried. */
  datatype StepRun = StepRun(message: string, ping: int, err: Option<string>, trace: seq<Action>)

  /** A cycle's result and every action it attempted, in order. */
  datatype Cycle = Cycle(result: MonitorResult, trace: seq<Action>)

  /** A step in progress: still going with the actions so far, or stopped
      with its final return value. */
  datatype Stage = Going(trace: seq<Action>) | Stopped(run: StepRun) {

    function Trace(): seq<Action> {
      match this
      case Going(t) => t
      case Stopped(run) => run.trace
    }

    /** A stopped step reports its failure the way every return of
        `send_email` and `receive_email` does: ping 0, an error, a message. */
    predicate Sound() {
      Stopped? ==> run.ping == 0 && run.err.Some? && run.message != ""
    }
  }

  function Failing(message: string, trace: seq<Action>): StepRun {
    StepRun(message, 0, Some(message), trace)
  }

  /** Tries one call unless the step already stopped; a failure stops the
      step with `prefix` followed by the library's error text. */
  function Attempt(s: Stage, a: Action, o: Outcome, prefix: string): (r: Stage)
    ensures s.Stopped? ==> r == s
    ensures s.Going? ==> r.Trace() == s.Trace() + [a]
    ensures r.Going? <==> s.Going? && o.Done?
    ensures s.Going? && r.Stopped? ==> r.run.message == prefix + o.reason
    ensures s.Sound() && prefix != "" ==> r.Sound()
  {
    match s
    case Stopped(_) => s
    case Going(t) =>
      if o.Failed? then Stopped(Failing(prefix + o.reason, t + [a])) else Going(t + [a])
  }

  /** The step's return value: the stop it came to, or success. */
  function Finish(s: Stage): (r: StepRun)
    requires s.Sound()
    ensures r.trace == s.Trace()
    ensures r.err.None? <==> s.Going?
    ensures s.Going? ==> r.message == "" && r.ping == 0
    ensures s.Stopped? ==> r == s.run
  {
    match s
    case Stopped(run) => run
    case Going(t) => StepRun("", 0, None, t)
  }

  /** One client call of a step: the action, what the server does with it,
      and the message prefix used when it fails. */
  datatype Call = Call(action: Action, outcome: Outcome, prefix: string)

  function Actions(calls: seq<Call>): (r: seq<Action>)
    ensures |r| == |calls|
    ensures forall i :: 0 <= i < |calls| ==> r[i] == calls[i].action
    decreases |calls|
  {
    if |calls| == 0 then [] else [calls[0].action] + Actions(calls[1..])
  }

  /** Makes the calls in order, stopping at the first failure. */
  function RunCalls(s: Stage, calls: seq<Call>): (r: Stage)
    ensures s.Stopped? ==> r == s
    ensures s.Sound() && (forall i :: 0 <= i < |calls| ==> calls[i].prefix != "") ==> r.Sound()
    ensures s.Trace() <= r.Trace()
    ensures forall x :: x in r.Trace() ==> x in s.Trace() || x in Actions(calls)
    ensures r.Going? <==> s.Going? && forall i :: 0 <= i < |calls| ==> calls[i].outcome.Done?
    decreases |calls|
  {
    if |calls| == 0 then s
    else
      var next := Attempt(s, calls[0].action, calls[0].outcome, calls[0].prefix);
      var r := RunCalls(next, calls[1..]);
      assert forall i :: 1 <= i < |calls| ==> calls[i] == calls[1..][i - 1];
      assert s.Trace() <= next.Trace() <= r.Trace();
      assert forall x :: x in next.Trace() ==> x in s.Trace() || x == calls[0].action;
      r
  }

  /** A step whose calls all succeed records exactly those calls, in order. */
  lemma {:induction false} RunCallsRecordsAll(s: Stage, calls: seq<Call>)
    requires RunCalls(s, calls).Going?
    ensures RunCalls(s, calls).Trace() == s.Trace() + Actions(calls)
    decreases |calls|
  {
    if |calls| > 0 {
      var next := Attempt(s, calls[0].action, calls[0].outcome, calls[0].prefix);
      assert RunCalls(s, calls) == RunCalls(next, calls[1..]);
      RunCallsRecordsAll(next, calls[1..]);
      ActionsFirst(calls);
      AppendAssoc(s.Trace(), [calls[0].action], Actions(calls[1..]));
    }
  }

  lemma AppendAssoc<T>(a: seq<T>, b: seq<T>, c: seq<T>)
    ensures (a + b) + c == a + (b + c)
  {
  }

  /** The first failing call ends the step: its prefix and the library's
      error become the message, and no later call is made. */
  lemma {:induction false} RunCallsStops(s: Stage, calls: seq<Call>, i: nat)
    requires s.Going? && i < |calls|
    requires forall j :: 0 <= j < i ==> calls[j].outcome.Done?
    requires calls[i].outcome.Failed?
    ensures RunCalls(s, calls)
      == Stopped(Failing(calls[i].prefix + calls[i].outcome.reason, s.Trace() + Actions(calls[..i + 1])))
    decreases i
  {
    if i == 0 {
      RunCallsFailsFirst(s, calls);
    } else {
      var next := Attempt(s, calls[0].action, calls[0].outcome, calls[0].prefix);
      RunCallsStops(next, calls[1..], i - 1);
      RunCallsPassesFirst(s, calls, i);
    }
  }

  lemma RunCallsFailsFirst(s: Stage, calls: seq<Call>)
    requires s.Going? && |calls| > 0 && calls[0].outcome.Failed?
    ensures RunCalls(s, calls)
      == Stopped(Failing(calls[0].prefix + calls[0].outcome.reason, s.Trace() + Actions(calls[..1])))
  {
    RunCallsFirst(s, calls);
    ActionsFirst(calls[..1]);
    assert calls[..1][1..] == [];
  }

  lemma RunCallsPassesFirst(s: Stage, calls: seq<Call>, i: nat)
    requires s.Going? && 0 < i < |calls| && calls[0].outcome.Done?
    ensures var next := Attempt(s, calls[0].action, calls[0].outcome, calls[0].prefix);
      && RunCalls(s, calls) == RunCalls(next, calls[1..])
      && next.Trace() + Actions(calls[1..][..i - 1 + 1]) == s.Trace() + Actions(calls[..i + 1])
      && calls[1..][i - 1] == calls[i]
  {
    var rest := calls[1..];
    RunCallsFirst(s, calls);
    ActionsFirst(calls[..i + 1]);
    assert calls[..i + 1][1..] == rest[..i];
    AppendAssoc(s.Trace(), [calls[0].action], Actions(rest[..i]));
  }

  /** One call, then the rest. */
  lemma RunCallsFirst(s: Stage, calls: seq<Call>)
    requires |calls| > 0
    ensures RunCalls(s, calls) == RunCalls(Attempt(s, calls[0].action, calls[0].outcome, calls[0].prefix), calls[1..])
  {
  }

  lemma ActionsFirst(calls: seq<Call>)
    requires |calls| > 0
    ensures Actions(calls) == [calls[0].action] + Actions(calls[1..])
  {
  }

  // ---------------------------------------------------------------------
  // Composition and templating
  // ---------------------------------------------------------------------

  const UuidPlaceholder := "{UUID}"
  const OriginalSubjectPlaceholder := "{ORIG_SUBJ}"

  /** The main data of one mail: envelope addresses, their header
      renderings, subject and body. */
  datatype EmailData = EmailData(
    from: string,
    to: string,
    fromText: string,
    toText: string,
    subject: string,
    body: string
  )

  /** The subject actually sent: the template with every `{UUID}` replaced
      by the cycle's token. */
  function Subject(m: EmailPingMonitor, token: string): string {
    ReplaceAll(m.messageSubject, UuidPlaceholder, token)
  }

  /** What the waiting and pre-cleaning searches look for: From the
      recipient, Subject the response template with `{ORIG_SUBJ}` replaced by
      the sent subject. */
  function ResponseCriteria(m: EmailPingMonitor, subject: string): Criteria {
    Criteria(m.smtpRecipientAddress, ReplaceAll(m.responseSubject, OriginalSubjectPlaceholder, subject))
  }

  /** The composed mail. The body is the fixed sentence with the send time;
      the configured message body is not used. */
  function Compose(m: EmailPingMonitor, env: Environment): (mail: EmailData)
    ensures mail.from == m.smtpSenderAddress && mail.to == m.smtpRecipientAddress
    ensures mail.subject == Subject(m, env.token)
    ensures mail.toText == env.toText && mail.fromText == env.fromText
    ensures mail.body == "This is a test email sent at " + env.sendTime
  {
    EmailData(
      m.smtpSenderAddress, m.smtpRecipientAddress, env.fromText, env.toText,
      Subject(m, env.token), "This is a test email sent at " + env.sendTime)
  }

  /** The header lines of the payload, To, From and Subject, without the
      line break after the last one. */
  function Headers(mail: EmailData): string {
    "To: " + mail.toText + "\r\nFrom: " + mail.fromText + "\r\nSubject: " + mail.subject
  }

  /** The DATA payload: the headers, a blank line, the body. */
  function Payload(mail: EmailData): string {
    Headers(mail) + "\r\n\r\n" + mail.body
  }

  predicate NoCarriageReturn(s: string) {
    forall i :: 0 <= i < |s| ==> s[i] != '\r'
  }

  /** The blank line that ends the header section (section 2.1 of RFC 5322)
      is the first CRLF CRLF of the payload whenever the three header values
      are free of carriage returns, so a reader of the message recovers the
      body exactly. */
  lemma PayloadSeparatesBody(mail: EmailData)
    requires NoCarriageReturn(mail.toText) && NoCarriageReturn(mail.fromText) && NoCarriageReturn(mail.subject)
    ensures var n := |Headers(mail)|;
      && OccursAt(Payload(mail), "\r\n\r\n", n)
      && (forall i :: 0 <= i < n ==> !OccursAt(Payload(mail), "\r\n\r\n", i))
      && Payload(mail)[n + 4..] == mail.body
  {
    var h := Headers(mail);
    var p := Payload(mail);
    var toEnd := 4 + |mail.toText|;
    var fromEnd := toEnd + 8 + |mail.fromText|;
    assert |h| == fromEnd + 11 + |mail.subject|;
    forall i | 0 <= i < |h|
      ensures !OccursAt(p, "\r\n\r\n", i)
    {
      assert p[i] == h[i];
      if i == toEnd {
        assert p[i + 2] == 'F';
      } else if i == fromEnd {
        assert p[i + 2] == 'S';
      } else if i < 4 {
        assert h[i] == "To: "[i];
      } else if i < toEnd {
        assert h[i] == mail.toText[i - 4];
      } else if i < toEnd + 8 {
        assert h[i] == "\r\nFrom: "[i - toEnd];
      } else if i < fromEnd {
        assert h[i] == mail.fromText[i - toEnd - 8];
      } else if i < fromEnd + 11 {
        assert h[i] == "\r\nSubject: "[i - fromEnd];
      } else {
        assert h[i] == mail.subject[i - fromEnd - 11];
      }
      NoBlankLineAt(p, i);
    }
    assert p[|h|..|h| + 4] == "\r\n\r\n";
  }

  /** CRLF CRLF needs a carriage return at its first and third places. */
  lemma NoBlankLineAt(p: string, i: nat)
    requires i + 2 < |p| && (p[i] != '\r' || p[i + 2] != '\r')
    ensures !OccursAt(p, "\r\n\r\n", i)
  {
  }

  /** The searches look for mail from the recipient whose subject is the
      response template with its one `{ORIG_SUBJ}` filled in by the sent
      subject. */
  lemma ResponseCriteriaFills(m: EmailPingMonitor, subject: string, before: string, after: string)
    requires m.responseSubject == before + OriginalSubjectPlaceholder + after
    requires !Contains(before + OriginalSubjectPlaceholder[..|OriginalSubjectPlaceholder| - 1], OriginalSubjectPlaceholder)
    requires !Contains(after, OriginalSubjectPlaceholder)
    ensures ResponseCriteria(m, subject) == Criteria(m.smtpRecipientAddress, before + subject + after)
  {
    ReplaceAllFirst(before, OriginalSubjectPlaceholder, subject, after);
    ReplaceAllAbsent(after, OriginalSubjectPlaceholder, subject);
  }

  /** A response template without `{ORIG_SUBJ}` is searched for verbatim. */
  lemma ResponseCriteriaVerbatim(m: EmailPingMonitor, subject: string)
    requires !Contains(m.responseSubject, OriginalSubjectPlaceholder)
    ensures ResponseCriteria(m, subject) == Criteria(m.smtpRecipientAddress, m.responseSubject)
  {
    ReplaceAllAbsent(m.responseSubject, OriginalSubjectPlaceholder, subject);
  }

  /** What a cycle writes after DATA: To the recipient's text, From the
      sender's text, the templated subject, a blank line and the fixed
      sentence with the send time. */
  lemma ComposedPayload(m: EmailPingMonitor, env: Environment)
    ensures Payload(Compose(m, env)) == "To: " + env.toText + "\r\nFrom: " + env.fromText + "\r\nSubject: "
      + Subject(m, env.token) + "\r\n\r\n" + ("This is a test email sent at " + env.sendTime)
  {
    var mail := Compose(m, env);
    assert Headers(mail) == "To: " + env.toText + "\r\nFrom: " + env.fromText + "\r\nSubject: " + Subject(m, env.token);
  }

  /** A template without `{UUID}` is sent verbatim; with it, two tokens of
      equal length (as generated UUIDs are) never give the same subject. */
  lemma SubjectCorrelates(m: EmailPingMonitor, t1: string, t2: string)
    ensures !Contains(m.messageSubject, UuidPlaceholder) ==> Subject(m, t1) == m.messageSubject
    ensures Contains(m.messageSubject, UuidPlaceholder) && |t1| == |t2| && t1 != t2
      ==> Subject(m, t1) != Subject(m, t2)
  {
    if !Contains(m.messageSubject, UuidPlaceholder) {
      ReplaceAllAbsent(m.messageSubject, UuidPlaceholder, t1);
    } else if |t1| == |t2| && t1 != t2 {
      ReplaceAllDistinguishes(m.messageSubject, UuidPlaceholder, t1, t2);
    }
  }

  // ---------------------------------------------------------------------
  // STARTTLS policy shared by both protocols
  // ---------------------------------------------------------------------

  datatype TlsStep = Upgrade | RefuseForced | ContinuePlain

  /** Upgrade when the server offers STARTTLS (RFC 3207 for SMTP, section
      6.2.1 of RFC 3501 for IMAP); otherwise refuse if encryption is forced,
      else carry on in clear text. */
  function TlsPolicy(offered: bool, forced: bool): (d: TlsStep)
    ensures d == Upgrade <==> offered
    ensures d == RefuseForced <==> !offered && forced
    ensures d == ContinuePlain <==> !offered && !forced
  {
    if offered then Upgrade else if forced then RefuseForced else ContinuePlain
  }

  /** Applies the policy to a step in progress. */
  function Negotiate(s: Stage, offered: bool, forced: bool, upgrade: Action, o: Outcome,
                     refusal: string, refusalErr: string): (r: Stage)
    requires refusal != ""
    ensures s.Stopped? ==> r == s
    ensures s.Going? && offered ==> r.Trace() == s.Trace() + [upgrade]
    ensures s.Going? && !offered ==> r.Trace() == s.Trace()
    ensures s.Going? && !offered && forced ==> r == Stopped(StepRun(refusal, 0, Some(refusalErr), s.trace))
    ensures r.Going? <==> s.Going? && (if offered then o.Done? else !forced)
    ensures s.Sound() ==> r.Sound()
  {
    match s
    case Stopped(_) => s
    case Going(t) =>
      match TlsPolicy(offered, forced)
      case Upgrade => Attempt(s, upgrade, o, "failed to starttls: ")
      case RefuseForced => Stopped(StepRun(refusal, 0, Some(refusalErr), t))
      case ContinuePlain => s
  }

  // ---------------------------------------------------------------------
  // send_email
  // ---------------------------------------------------------------------

  function SmtpAddress(m: EmailPingMonitor): string {
    m.smtpHost + ":" + IntToString(m.smtpPort)
  }

  /** The actions of a connection that went on to authenticate: the dial,
      then the upgrade when the server offered it. */
  function SmtpGreeting(m: EmailPingMonitor, srv: SmtpServer): seq<Action> {
    [SmtpDial(SmtpAddress(m))] + (if srv.offersStartTls then [SmtpStartTls(m.smtpHost)] else [])
  }

  /** Dial, STARTTLS per policy, authenticate — the part of a send that
      precedes the envelope. */
  function SmtpOpen(m: EmailPingMonitor, srv: SmtpServer): (s: Stage)
    ensures s.Sound()
    ensures |s.Trace()| > 0 && s.Trace()[0] == SmtpDial(SmtpAddress(m))
    ensures forall x :: x in s.Trace() ==> x.IsSmtp()
  {
    var dialed := Attempt(Going([]), SmtpDial(SmtpAddress(m)), srv.dial, "failed to connect to SMTP server: ");
    var secured := Negotiate(dialed, srv.offersStartTls, m.smtpForceTls, SmtpStartTls(m.smtpHost), srv.startTls,
      "SMTP STARTTLS extension forced but no support", "STARTTLS extension forced but no support");
    Attempt(secured, SmtpAuth(m.smtpUsername, m.smtpPassword, m.smtpHost), srv.auth, "SMTP authentication failed: ")
  }

  /** The opening of a send goes on exactly when the connection, the
      upgrade the policy calls for and the authentication all succeed; it
      has then made exactly those calls. */
  lemma SmtpOpenGoes(m: EmailPingMonitor, srv: SmtpServer)
    ensures SmtpOpen(m, srv).Going? <==>
      srv.dial.Done? && (if srv.offersStartTls then srv.startTls.Done? else !m.smtpForceTls) && srv.auth.Done?
    ensures SmtpOpen(m, srv).Going? ==>
      SmtpOpen(m, srv).trace == SmtpGreeting(m, srv) + [SmtpAuth(m.smtpUsername, m.smtpPassword, m.smtpHost)]
  {
  }

  /** Envelope, payload and close, in the order `send_email` makes them. */
  function DeliveryCalls(mail: EmailData, srv: SmtpServer): (calls: seq<Call>)
    ensures forall i :: 0 <= i < |calls| ==> calls[i].prefix != "" && calls[i].action.IsSmtp()
  {
    [
      Call(SmtpMail(mail.from), srv.mail, "failed to set the sender: "),
      Call(SmtpRcpt(mail.to), srv.rcpt, "failed to set the recipient: "),
      Call(SmtpData, srv.data, "failed to open data writer: "),
      Call(SmtpWrite(Payload(mail)), srv.write, "failed to write email body: "),
      Call(SmtpCloseData, srv.closeData, "failed to finish writing email body: "),
      Call(SmtpClose, srv.close, "failed to send email: ")
    ]
  }

  /** `send_email`: the calls in order, each failure ending the send. */
  function Send(m: EmailPingMonitor, mail: EmailData, srv: SmtpServer): (r: StepRun)
    ensures r.ping == 0
    ensures r.err.None? ==> r.message == ""
    ensures r.err.Some? ==> r.message != ""
    ensures |r.trace| > 0 && r.trace[0] == SmtpDial(SmtpAddress(m))
    ensures forall x :: x in r.trace ==> x.IsSmtp()
  {
    var authed := SmtpOpen(m, srv);
    var calls := DeliveryCalls(mail, srv);
    assert forall x :: x in Actions(calls) ==> x.IsSmtp();
    Finish(RunCalls(authed, calls))
  }

  // ---------------------------------------------------------------------
  // receive_email
  // ---------------------------------------------------------------------

  function ImapAddress(m: EmailPingMonitor): string {
    m.imapHost + ":" + IntToString(m.imapPort)
  }

  /** The actions of a connection that went on to log in: the dial, then
      the upgrade (naming the SMTP host) when the server offered it. */
  function ImapGreeting(m: EmailPingMonitor, srv: ImapServer): seq<Action> {
    [ImapDial(ImapAddress(m))] + (if srv.offersStartTls then [ImapStartTls(m.smtpHost)] else [])
  }

  /** Dial, then STARTTLS per policy. The policy reads the SMTP force flag
      and the upgrade names the SMTP host, as `receive_email` does. */
  function ImapConnect(m: EmailPingMonitor, srv: ImapServer): (s: Stage)
    ensures s.Sound()
    ensures s.Trace() == [ImapDial(ImapAddress(m))] || s.Trace() == [ImapDial(ImapAddress(m)), ImapStartTls(m.smtpHost)]
    ensures s.Going? <==> srv.dial.Done? && (if srv.offersStartTls then srv.startTls.Done? else !m.smtpForceTls)
    ensures s.Going? ==> s.trace == ImapGreeting(m, srv)
  {
    var dialed := Attempt(Going([]), ImapDial(ImapAddress(m)), srv.dial, "failed to connect to IMAP server: ");
    assert dialed.Trace() == [ImapDial(ImapAddress(m))];
    Negotiate(dialed, srv.offersStartTls, m.smtpForceTls, ImapStartTls(m.smtpHost), srv.startTls,
      "IMAP STARTTLS capability forced but no support", "STARTTLS capability forced but no support")
  }

  /** The connection, then the login. */
  function ImapLogIn(m: EmailPingMonitor, srv: ImapServer): (s: Stage)
    ensures s.Sound()
    ensures |s.Trace()| > 0 && s.Trace()[0] == ImapDial(ImapAddress(m))
    ensures forall x :: x in s.Trace() ==> !x.IsSmtp() && !x.ImapSearch?
    ensures s.Going? <==> ImapConnect(m, srv).Going? && srv.login.Done?
    ensures s.Going? ==> s.trace == ImapGreeting(m, srv) + [ImapLogin(m.imapUsername, m.imapPassword)]
  {
    Attempt(ImapConnect(m, srv), ImapLogin(m.imapUsername, m.imapPassword), srv.login, "IMAP login failed: ")
  }

  /** The connection and login, then INBOX selected. */
  function ImapOpen(m: EmailPingMonitor, srv: ImapServer): (s: Stage)
    ensures s.Sound()
    ensures |s.Trace()| > 0 && s.Trace()[0] == ImapDial(ImapAddress(m))
    ensures forall x :: x in s.Trace() ==> !x.IsSmtp() && !x.ImapSearch?
  {
    Attempt(ImapLogIn(m, srv), ImapSelect("INBOX"), srv.select, "failed to select INBOX: ")
  }

  /** The opening of a receive goes on exactly when the connection, the
      upgrade the policy calls for, the login and the selection all succeed;
      it then has made exactly those calls. */
  lemma ImapOpenGoes(m: EmailPingMonitor, srv: ImapServer)
    ensures ImapOpen(m, srv).Going? <==>
      && srv.dial.Done? && (if srv.offersStartTls then srv.startTls.Done? else !m.smtpForceTls)
      && srv.login.Done? && srv.select.Done?
    ensures ImapOpen(m, srv).Going? ==>
      ImapOpen(m, srv).trace == ImapGreeting(m, srv) + [ImapLogin(m.imapUsername, m.imapPassword)] + [ImapSelect("INBOX")]
  {
  }

  /** How the search phase of a receive ends: with the identifiers to
      delete (possibly none, when not waiting), or with a failed step. */
  datatype Found = Matched(uids: seq<nat>, trace: seq<Action>) | Gave(run: StepRun) {
    function Trace(): seq<Action> {
      match this
      case Matched(_, t) => t
      case Gave(run) => run.trace
    }
  }

  function TimeoutMessage(p: Poll): string {
    "timed out waiting for response after " + p.elapsedText + " seconds"
  }

  /** The waiting loop from poll `k` on: sleep, search again, then give up
      if the clock has passed the timeout (even when this search matched),
      else stop at the first non-empty result. */
  function WaitFrom(c: Criteria, polls: seq<Poll>, timeout: int, k: nat, trace: seq<Action>): (r: Found)
    requires k < |polls| && CoversTimeout(polls, timeout)
    ensures r.Matched? ==> |r.uids| > 0
    ensures r.Gave? ==> r.run.ping == 0 && r.run.err.Some? && r.run.message != ""
    ensures trace <= r.Trace()
    ensures forall x :: x in r.Trace() ==> x in trace || x == Sleep(1) || x == ImapSearch(c)
    decreases |polls| - k
  {
    var t := trace + [Sleep(1), ImapSearch(c)];
    match polls[k].reply
    case SearchFailed(reason) => Gave(Failing("failed to search for emails: " + reason, t))
    case Snapshot(box) =>
      var uids := Search(box, c);
      if polls[k].elapsed > timeout as real then Gave(Failing(TimeoutMessage(polls[k]), t))
      else if |uids| > 0 then Matched(uids, t)
      else WaitFrom(c, polls, timeout, k + 1, t)
  }

  /** What the loop returns was seen by one of the polls it made. */
  lemma {:induction false} WaitFromObserved(c: Criteria, polls: seq<Poll>, timeout: int, k: nat, trace: seq<Action>)
    requires k < |polls| && CoversTimeout(polls, timeout)
    ensures var r := WaitFrom(c, polls, timeout, k, trace);
      r.Matched? ==> exists j :: k <= j < |polls| && Observes(polls[j].reply, c, r.uids)
    decreases |polls| - k
  {
    match polls[k].reply
    case SearchFailed(_) =>
    case Snapshot(box) =>
      if polls[k].elapsed <= timeout as real && |Search(box, c)| == 0 {
        WaitFromObserved(c, polls, timeout, k + 1, trace + [Sleep(1), ImapSearch(c)]);
      }
  }

  /** The search reply saw a mailbox whose matches for `c` are `uids`. */
  predicate Observes(reply: SearchReply, c: Criteria, uids: seq<nat>) {
    reply.Snapshot? && uids == Search(reply.inbox, c)
  }

  /** The first search on an open session and, when waiting and it found
      nothing, the polling loop. */
  function SearchReplies(c: Criteria, srv: ImapServer, wait: bool, timeout: int, t: seq<Action>): (r: Found)
    requires wait ==> CoversTimeout(srv.polls, timeout)
    ensures wait && r.Matched? ==> |r.uids| > 0
    ensures r.Gave? ==> r.run.ping == 0 && r.run.err.Some? && r.run.message != ""
    ensures t <= r.Trace()
    ensures forall x :: x in r.Trace() ==> (x in t || x == Sleep(1) || x == ImapSearch(c))
  {
    var searched := t + [ImapSearch(c)];
    match srv.initial
    case SearchFailed(reason) => Gave(Failing("failed to search for emails: " + reason, searched))
    case Snapshot(box) =>
      var uids := Search(box, c);
      if |uids| == 0 && wait then WaitFrom(c, srv.polls, timeout, 0, searched)
      else Matched(uids, searched)
  }

  /** Connection, then the search phase. */
  function FindReplies(m: EmailPingMonitor, mail: EmailData, srv: ImapServer, wait: bool): (r: Found)
    requires wait ==> CoversTimeout(srv.polls, m.timeout)
    ensures wait && r.Matched? ==> |r.uids| > 0
    ensures r.Gave? ==> r.run.ping == 0 && r.run.err.Some? && r.run.message != ""
    ensures ImapOpen(m, srv).Trace() <= r.Trace()
    ensures forall x :: x in r.Trace() ==>
      (x in ImapOpen(m, srv).Trace() || x == Sleep(1) || x == ImapSearch(ResponseCriteria(m, mail.subject)))
    ensures forall x :: x in r.Trace() ==> !x.IsSmtp()
  {
    match ImapOpen(m, srv)
    case Stopped(run) => Gave(run)
    case Going(t) => SearchReplies(ResponseCriteria(m, mail.subject), srv, wait, m.timeout, t)
  }

  /** The search result the receive acts on was seen by its first search
      or by one of the polls. */
  lemma FindRepliesObserved(m: EmailPingMonitor, mail: EmailData, srv: ImapServer, wait: bool)
    requires wait ==> CoversTimeout(srv.polls, m.timeout)
    ensures var r := FindReplies(m, mail, srv, wait);
      var c := ResponseCriteria(m, mail.subject);
      r.Matched? ==> Observes(srv.initial, c, r.uids) || exists j :: 0 <= j < |srv.polls| && Observes(srv.polls[j].reply, c, r.uids)
  {
    var c := ResponseCriteria(m, mail.subject);
    match ImapOpen(m, srv)
    case Stopped(_) =>
    case Going(t) =>
      var searched := t + [ImapSearch(c)];
      if srv.initial.Snapshot? && |Search(srv.initial.inbox, c)| == 0 && wait {
        WaitFromObserved(c, srv.polls, m.timeout, 0, searched);
      }
  }

  /** Marks the replies \Deleted, expunges, logs out. */
  function DeletionCalls(srv: ImapServer, uids: seq<nat>): (calls: seq<Call>)
    ensures forall i :: 0 <= i < |calls| ==> calls[i].prefix != ""
  {
    [
      Call(ImapStore(uids, "+FLAGS.SILENT", "\\Deleted"), srv.store, "failed to set deleted flag: "),
      Call(ImapExpunge, srv.expunge, "failed to expunge messages: "),
      Call(ImapLogout, srv.logout, "failed to receive email: ")
    ]
  }

  /** The deletion calls made on a session in progress with trace `t`: on
      success exactly store, expunge and logout follow. */
  function DeleteReplies(srv: ImapServer, uids: seq<nat>, t: seq<Action>): (r: StepRun)
    ensures r.ping == 0
    ensures r.err.None? ==> r.message == ""
    ensures r.err.Some? ==> r.message != ""
    ensures t <= r.trace
    ensures forall x :: x in r.trace ==>
      (x in t || x == ImapStore(uids, "+FLAGS.SILENT", "\\Deleted") || x == ImapExpunge || x == ImapLogout)
    ensures forall x :: x in r.trace && x.IsSmtp() ==> x in t
    ensures r.err.None? <==> srv.store.Done? && srv.expunge.Done? && srv.logout.Done?
    ensures r.err.None? ==> r.trace == t + [ImapStore(uids, "+FLAGS.SILENT", "\\Deleted"), ImapExpunge, ImapLogout]
  {
    var calls := DeletionCalls(srv, uids);
    var done := RunCalls(Going(t), calls);
    assert forall x :: x in Actions(calls) ==> x == calls[0].action || x == calls[1].action || x == calls[2].action;
    assert forall i :: 0 <= i < 3 ==> !calls[i].action.IsSmtp();
    if done.Going? then
      RunCallsRecordsAll(Going(t), calls);
      assert Actions(calls) == [calls[0].action, calls[1].action, calls[2].action];
      Finish(done)
    else
      Finish(done)
  }

  /** The end of a receive once the search phase is over: a failure is
      returned as is, no match is a quiet success, matches are deleted. */
  function Settle(srv: ImapServer, found: Found): (r: StepRun)
    requires found.Gave? ==> found.run.ping == 0 && found.run.err.Some? && found.run.message != ""
    ensures r.ping == 0
    ensures r.err.None? ==> r.message == ""
    ensures r.err.Some? ==> r.message != ""
    ensures found.Trace() <= r.trace
    ensures forall x :: x in r.trace && (x.IsSmtp() || x.ImapSearch?) ==> x in found.Trace()
    ensures found.Gave? ==> r == found.run
    ensures found.Matched? && |found.uids| == 0 ==> r == StepRun("", 0, None, found.trace)
    ensures found.Matched? && |found.uids| > 0 ==> r == DeleteReplies(srv, found.uids, found.trace)
  {
    match found
    case Gave(run) => run
    case Matched(uids, t) =>
      if |uids| == 0 then StepRun("", 0, None, t)
      else DeleteReplies(srv, uids, t)
  }

  /** `receive_email`: find replies to `mail` and delete them. Without
      waiting, no reply is a success that touches nothing. */
  function Receive(m: EmailPingMonitor, mail: EmailData, srv: ImapServer, wait: bool): (r: StepRun)
    requires wait ==> CoversTimeout(srv.polls, m.timeout)
    ensures r.ping == 0
    ensures r.err.None? ==> r.message == ""
    ensures r.err.Some? ==> r.message != ""
    ensures ImapOpen(m, srv).Trace() <= r.trace
    ensures forall x :: x in r.trace ==> !x.IsSmtp()
  {
    Settle(srv, FindReplies(m, mail, srv, wait))
  }

  // ---------------------------------------------------------------------
  // setupEmailPingMonitor
  // ---------------------------------------------------------------------

  /** The fatal presence checks, in the order `setupEmailPingMonitor` makes them. The
      SMTP username and password and the IMAP password are only logged
      when empty. */
  function RequiredChecks(cfg: MonitorConfig): seq<Check> {
    [
      Check("smtp_host", cfg.smtpHost == ""),
      Check("smtp_port", cfg.smtpPort == 0),
      Check("smtp_sender_address", cfg.smtpSenderAddress == ""),
      Check("smtp_recipient_address", cfg.smtpRecipientAddress == ""),
      Check("imap_host", cfg.imapHost == ""),
      Check("imap_port", cfg.imapPort == 0),
      Check("imap_username", cfg.imapUsername == ""),
      Check("message_subject", cfg.messageSubject == ""),
      Check("message_body", cfg.messageBody == ""),
      Check("response_subject", cfg.responseSubject == ""),
      Check("timeout", cfg.timeout == 0)
    ]
  }

  predicate MissesRequired(cfg: MonitorConfig) {
    || cfg.smtpHost == "" || cfg.smtpPort == 0 || cfg.smtpSenderAddress == ""
    || cfg.smtpRecipientAddress == "" || cfg.imapHost == "" || cfg.imapPort == 0
    || cfg.imapUsername == "" || cfg.messageSubject == "" || cfg.messageBody == ""
    || cfg.responseSubject == "" || cfg.timeout == 0
  }

  function Setup(host: string, cfg: MonitorConfig): (r: Result<EmailPingMonitor, SetupError>)
    ensures r.Failure? <==> MissesRequired(cfg)
    ensures r.Failure? ==> r.error.MissingParameter? && r.error.monitor == cfg.name && r.error.kind == cfg.kind
    ensures cfg.smtpHost == "" ==> r == Failure(MissingParameter(cfg.name, cfg.kind, "smtp_host"))
    ensures r.Failure? ==> var checks := RequiredChecks(cfg);
      exists i :: (0 <= i < |checks| && checks[i].missing && r.error.parameter == checks[i].parameter
        && forall j :: 0 <= j < i ==> !checks[j].missing)
    ensures r.Success? ==> var m := r.value;
      && m.Type() == "email_ping"
      && m.Name() == cfg.name && m.HostURL() == host && m.Key() == cfg.key && m.Interval() == cfg.interval
      && m.smtpHost == cfg.smtpHost && m.smtpPort == cfg.smtpPort && m.smtpForceTls == cfg.smtpForceTls
      && m.smtpSenderAddress == cfg.smtpSenderAddress && m.smtpRecipientAddress == cfg.smtpRecipientAddress
      && m.smtpUsername == cfg.smtpUsername && m.smtpPassword == cfg.smtpPassword
      && m.imapHost == cfg.imapHost && m.imapPort == cfg.imapPort && m.imapForceTls == cfg.imapForceTls
      && m.imapUsername == cfg.imapUsername && m.imapPassword == cfg.imapPassword
      && m.messageSubject == cfg.messageSubject && m.messageBody == cfg.messageBody
      && m.responseSubject == cfg.responseSubject && m.timeout == cfg.timeout
  {
    var checks := RequiredChecks(cfg);
    match FirstMissing(checks)
    case Some(parameter) => Failure(MissingParameter(cfg.name, cfg.kind, parameter))
    case None =>
      assert forall i :: 0 <= i < |checks| ==> !checks[i].missing;
      assert !checks[0].missing && !checks[1].missing && !checks[2].missing && !checks[3].missing;
      assert !checks[4].missing && !checks[5].missing && !checks[6].missing && !checks[7].missing;
      assert !checks[8].missing && !checks[9].missing && !checks[10].missing;
      Success(EmailPingMonitor(
        cfg.name, host, cfg.key, cfg.interval,
        cfg.smtpHost, cfg.smtpPort, cfg.smtpForceTls, cfg.smtpSenderAddress, cfg.smtpRecipientAddress,
        cfg.smtpUsername, cfg.smtpPassword,
        cfg.imapHost, cfg.imapPort, cfg.imapForceTls, cfg.imapUsername, cfg.imapPassword,
        cfg.messageSubject, cfg.messageBody, cfg.responseSubject,
        cfg.timeout))
  }
}
