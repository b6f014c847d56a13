/** Properties of the email ping-pong cycle stated over the actions it
    attempts: what encryption guards the credentials, which step stops the
    cycle, what the waiting loop returns and what a successful cycle leaves
    in the mailbox. */
module EmailPingProperties {
  import opened Results
  import opened Numbers
  import opened Report
  import opened Mailbox
  import opened EmailPing

  // ---------------------------------------------------------------------
  // STARTTLS before credentials
  // ---------------------------------------------------------------------

  /** With SMTP encryption forced, the opening of a send authenticates only
      right after a successful STARTTLS. */
  lemma SmtpOpenForced(m: EmailPingMonitor, srv: SmtpServer)
    requires m.smtpForceTls
    ensures forall x :: x in SmtpOpen(m, srv).Trace() && x.SmtpAuth? ==>
      SmtpOpen(m, srv).Trace() == [SmtpDial(SmtpAddress(m)), SmtpStartTls(m.smtpHost), x]
  {
    var dialed := Attempt(Going([]), SmtpDial(SmtpAddress(m)), srv.dial, "failed to connect to SMTP server: ");
    var secured := Negotiate(dialed, srv.offersStartTls, m.smtpForceTls, SmtpStartTls(m.smtpHost), srv.startTls,
      "SMTP STARTTLS extension forced but no support", "STARTTLS extension forced but no support");
    assert dialed.Trace() == [SmtpDial(SmtpAddress(m))];
    assert secured.Going? ==> secured.Trace() == [SmtpDial(SmtpAddress(m)), SmtpStartTls(m.smtpHost)];
  }

  /** `smtp_force_tls`: a send never authenticates in clear text, and a
      server without STARTTLS ends the send right after the connection. */
  lemma SendForcedTlsGuardsAuth(m: EmailPingMonitor, mail: EmailData, srv: SmtpServer)
    requires m.smtpForceTls
    ensures var t := Send(m, mail, srv).trace;
      forall x :: x in t && x.SmtpAuth? ==> |t| > 2 && t[1] == SmtpStartTls(m.smtpHost) && t[2] == x
  {
    var t := Send(m, mail, srv).trace;
    SendAuthsInOpening(m, mail, srv);
    SmtpOpenForced(m, srv);
    forall x | x in t && x.SmtpAuth?
      ensures |t| > 2 && t[1] == SmtpStartTls(m.smtpHost) && t[2] == x
    {
      assert SmtpOpen(m, srv).Trace() <= t;
    }
  }

  /** The delivery calls after the opening never authenticate. */
  lemma SendAuthsInOpening(m: EmailPingMonitor, mail: EmailData, srv: SmtpServer)
    ensures forall x :: x in Send(m, mail, srv).trace && x.SmtpAuth? ==> x in SmtpOpen(m, srv).Trace()
  {
    var calls := DeliveryCalls(mail, srv);
    assert forall i :: 0 <= i < |calls| ==> !calls[i].action.SmtpAuth?;
    SendTrace(m, mail, srv);
    RunCallsAddNoAuth(SmtpOpen(m, srv), calls);
  }

  /** Calls none of which authenticates add no authentication. */
  lemma RunCallsAddNoAuth(s: Stage, calls: seq<Call>)
    requires forall i :: 0 <= i < |calls| ==> !calls[i].action.SmtpAuth?
    ensures forall x :: x in RunCalls(s, calls).Trace() && x.SmtpAuth? ==> x in s.Trace()
  {
    assert forall x :: x in Actions(calls) ==> !x.SmtpAuth?;
  }

  /** A send succeeds exactly when its opening goes on and every delivery
      call succeeds; it has then made the opening's calls followed by MAIL,
      RCPT, DATA, the payload, the end of DATA and the close. */
  lemma SendSucceeds(m: EmailPingMonitor, mail: EmailData, srv: SmtpServer)
    ensures Send(m, mail, srv).err.None? <==>
      SmtpOpen(m, srv).Going? && forall i :: 0 <= i < |DeliveryCalls(mail, srv)| ==> DeliveryCalls(mail, srv)[i].outcome.Done?
    ensures Send(m, mail, srv).err.None? ==>
      Send(m, mail, srv).trace == SmtpGreeting(m, srv) + [SmtpAuth(m.smtpUsername, m.smtpPassword, m.smtpHost)]
        + [SmtpMail(mail.from), SmtpRcpt(mail.to), SmtpData, SmtpWrite(Payload(mail)), SmtpCloseData, SmtpClose]
  {
    SendTrace(m, mail, srv);
    if Send(m, mail, srv).err.None? {
      RunCallsRecordsAll(SmtpOpen(m, srv), DeliveryCalls(mail, srv));
      DeliveryActions(mail, srv);
      SmtpOpenGoes(m, srv);
    }
  }

  lemma DeliveryActions(mail: EmailData, srv: SmtpServer)
    ensures Actions(DeliveryCalls(mail, srv))
      == [SmtpMail(mail.from), SmtpRcpt(mail.to), SmtpData, SmtpWrite(Payload(mail)), SmtpCloseData, SmtpClose]
  {
  }

  /** A send is the opening followed by the delivery calls. */
  lemma SendTrace(m: EmailPingMonitor, mail: EmailData, srv: SmtpServer)
    ensures Send(m, mail, srv).trace == RunCalls(SmtpOpen(m, srv), DeliveryCalls(mail, srv)).Trace()
  {
  }

  /** `smtp_force_tls` with a server that does not offer STARTTLS: the send
      ends right after the connection, refusing to go on. */
  lemma SendRefusedWithoutStartTls(m: EmailPingMonitor, mail: EmailData, srv: SmtpServer)
    requires m.smtpForceTls && srv.dial.Done? && !srv.offersStartTls
    ensures Send(m, mail, srv) == StepRun("SMTP STARTTLS extension forced but no support", 0,
      Some("STARTTLS extension forced but no support"), [SmtpDial(SmtpAddress(m))])
  {
    assert SmtpOpen(m, srv) == Stopped(StepRun("SMTP STARTTLS extension forced but no support", 0,
      Some("STARTTLS extension forced but no support"), [SmtpDial(SmtpAddress(m))]));
  }

  /** The opening of a receive logs in only right after a successful
      STARTTLS when the SMTP force flag is set (the flag `receive_email` reads). */
  lemma ImapOpenForced(m: EmailPingMonitor, srv: ImapServer)
    requires m.smtpForceTls
    ensures var o := ImapOpen(m, srv).Trace();
      forall x :: x in o && x.ImapLogin? ==>
        |o| > 2 && o[0] == ImapDial(ImapAddress(m)) && o[1] == ImapStartTls(m.smtpHost) && o[2] == x
  {
    var secured := ImapConnect(m, srv);
    var loggedIn := ImapLogIn(m, srv);
    ImapConnectForced(m, srv);
    assert secured.Stopped? ==> loggedIn == secured;
    assert loggedIn.Trace() <= ImapOpen(m, srv).Trace();
  }

  /** With the SMTP force flag, a connection that goes on has upgraded. */
  lemma ImapConnectForced(m: EmailPingMonitor, srv: ImapServer)
    requires m.smtpForceTls
    ensures ImapConnect(m, srv).Going? ==> ImapConnect(m, srv).Trace() == [ImapDial(ImapAddress(m)), ImapStartTls(m.smtpHost)]
  {
    var dialed := Attempt(Going([]), ImapDial(ImapAddress(m)), srv.dial, "failed to connect to IMAP server: ");
    assert dialed.Trace() == [ImapDial(ImapAddress(m))];
  }

  /** The actions of a receive after its opening are searches, sleeps and
      the deletion calls: never another login. */
  lemma ReceiveLoginsInOpening(m: EmailPingMonitor, mail: EmailData, srv: ImapServer, wait: bool)
    requires wait ==> CoversTimeout(srv.polls, m.timeout)
    ensures forall x :: x in Receive(m, mail, srv, wait).trace && x.ImapLogin? ==> x in ImapOpen(m, srv).Trace()
  {
    SettleAddsNoLogin(srv, FindReplies(m, mail, srv, wait));
  }

  /** Ending a receive (deleting, logging out) never logs in. */
  lemma SettleAddsNoLogin(srv: ImapServer, found: Found)
    requires found.Gave? ==> found.run.ping == 0 && found.run.err.Some? && found.run.message != ""
    ensures forall x :: x in Settle(srv, found).trace && x.ImapLogin? ==> x in found.Trace()
  {
    match found
    case Gave(_) =>
    case Matched(uids, t) =>
      if |uids| > 0 {
        assert Settle(srv, found) == DeleteReplies(srv, uids, t);
      }
  }

  /** As written, the SMTP force flag also guards the IMAP login: a receive
      logs in only right after STARTTLS, and a server without it ends the
      receive after the connection. */
  lemma ReceiveForcedTlsGuardsLogin(m: EmailPingMonitor, mail: EmailData, srv: ImapServer, wait: bool)
    requires wait ==> CoversTimeout(srv.polls, m.timeout)
    requires m.smtpForceTls
    ensures var t := Receive(m, mail, srv, wait).trace;
      forall x :: x in t && x.ImapLogin? ==> |t| > 2 && t[1] == ImapStartTls(m.smtpHost) && t[2] == x
  {
    ReceiveLoginsInOpening(m, mail, srv, wait);
    ImapOpenForced(m, srv);
  }

  /** With the SMTP force flag set and an IMAP server that does not offer
      STARTTLS, the receive ends right after the connection. */
  lemma ReceiveRefusedWithoutStartTls(m: EmailPingMonitor, mail: EmailData, srv: ImapServer, wait: bool)
    requires wait ==> CoversTimeout(srv.polls, m.timeout)
    requires m.smtpForceTls && srv.dial.Done? && !srv.offersStartTls
    ensures Receive(m, mail, srv, wait) == StepRun("IMAP STARTTLS capability forced but no support", 0,
      Some("STARTTLS capability forced but no support"), [ImapDial(ImapAddress(m))])
  {
    var refused := StepRun("IMAP STARTTLS capability forced but no support", 0,
      Some("STARTTLS capability forced but no support"), [ImapDial(ImapAddress(m))]);
    assert ImapOpen(m, srv) == Stopped(refused);
    assert FindReplies(m, mail, srv, wait) == Gave(refused);
  }

  /** `imap_force_tls` is never consulted: flipping it changes no cycle. */
  lemma ImapForceTlsIgnored(m: EmailPingMonitor, env: Environment, b: bool)
    requires CoversTimeout(env.receive.polls, m.timeout)
    ensures m.(imapForceTls := b).Run(env) == m.Run(env)
  {
    var m' := m.(imapForceTls := b);
    var mail := Compose(m, env);
    assert Compose(m', env) == mail;
    SendIgnoresImapForce(m, b, mail, env.smtp);
    ReceiveIgnoresImapForce(m, b, mail, env.preClean, false);
    ReceiveIgnoresImapForce(m, b, mail, env.receive, true);
  }

  lemma SendIgnoresImapForce(m: EmailPingMonitor, b: bool, mail: EmailData, srv: SmtpServer)
    ensures Send(m.(imapForceTls := b), mail, srv) == Send(m, mail, srv)
  {
    assert SmtpOpen(m.(imapForceTls := b), srv) == SmtpOpen(m, srv);
  }

  lemma ReceiveIgnoresImapForce(m: EmailPingMonitor, b: bool, mail: EmailData, srv: ImapServer, wait: bool)
    requires wait ==> CoversTimeout(srv.polls, m.timeout)
    ensures Receive(m.(imapForceTls := b), mail, srv, wait) == Receive(m, mail, srv, wait)
  {
    var m' := m.(imapForceTls := b);
    assert ImapOpen(m', srv) == ImapOpen(m, srv);
    assert FindReplies(m', mail, srv, wait) == FindReplies(m, mail, srv, wait);
  }

  /** Consequently `imap_force_tls` alone does not stop a clear-text login on
      a server without STARTTLS. */
  lemma ImapForceAloneAllowsClearLogin(m: EmailPingMonitor, mail: EmailData, srv: ImapServer, wait: bool)
    requires wait ==> CoversTimeout(srv.polls, m.timeout)
    requires m.imapForceTls && !m.smtpForceTls
    requires srv.dial.Done? && !srv.offersStartTls
    ensures var t := Receive(m, mail, srv, wait).trace;
      |t| > 1 && t[1] == ImapLogin(m.imapUsername, m.imapPassword)
  {
    var o := ImapOpen(m, srv).Trace();
    assert o[..2] == [ImapDial(ImapAddress(m)), ImapLogin(m.imapUsername, m.imapPassword)];
  }

  // ---------------------------------------------------------------------
  // A failed call ends the step
  // ---------------------------------------------------------------------

  /** After a successful opening, the first delivery call that fails ends
      the send with its own prefix and the library's error; no later call
      is made. */
  lemma SendDeliveryFails(m: EmailPingMonitor, mail: EmailData, srv: SmtpServer, i: nat)
    requires SmtpOpen(m, srv).Going?
    requires i < |DeliveryCalls(mail, srv)|
    requires forall j :: 0 <= j < i ==> DeliveryCalls(mail, srv)[j].outcome.Done?
    requires DeliveryCalls(mail, srv)[i].outcome.Failed?
    ensures var call := DeliveryCalls(mail, srv)[i];
      Send(m, mail, srv)
      == Failing(call.prefix + call.outcome.reason, SmtpOpen(m, srv).Trace() + Actions(DeliveryCalls(mail, srv)[..i + 1]))
  {
    RunCallsStops(SmtpOpen(m, srv), DeliveryCalls(mail, srv), i);
  }

  /** A refused MAIL FROM ends the send right there: no RCPT, DATA or close
      follows. */
  lemma SendSenderRefused(m: EmailPingMonitor, mail: EmailData, srv: SmtpServer)
    requires SmtpOpen(m, srv).Going? && srv.mail.Failed?
    ensures Send(m, mail, srv)
      == Failing("failed to set the sender: " + srv.mail.reason, SmtpOpen(m, srv).Trace() + [SmtpMail(mail.from)])
  {
    SendDeliveryFails(m, mail, srv, 0);
    assert Actions(DeliveryCalls(mail, srv)[..1]) == [SmtpMail(mail.from)];
  }

  /** A failed opening is the send's result: no delivery call is made. */
  lemma SendOpeningFails(m: EmailPingMonitor, mail: EmailData, srv: SmtpServer)
    requires SmtpOpen(m, srv).Stopped?
    ensures Send(m, mail, srv) == SmtpOpen(m, srv).run
  {
  }

  /** A rejected authentication on an otherwise good connection ends the
      send with the authentication prefix, the AUTH being its last action. */
  lemma SendAuthRefused(m: EmailPingMonitor, mail: EmailData, srv: SmtpServer)
    requires srv.dial.Done? && srv.auth.Failed?
    requires srv.offersStartTls ==> srv.startTls.Done?
    requires !srv.offersStartTls ==> !m.smtpForceTls
    ensures Send(m, mail, srv) == Failing("SMTP authentication failed: " + srv.auth.reason,
      SmtpGreeting(m, srv) + [SmtpAuth(m.smtpUsername, m.smtpPassword, m.smtpHost)])
  {
    var dialed := Attempt(Going([]), SmtpDial(SmtpAddress(m)), srv.dial, "failed to connect to SMTP server: ");
    assert dialed == Going([SmtpDial(SmtpAddress(m))]);
    SendOpeningFails(m, mail, srv);
  }

  /** A refused connection ends the send with the connection prefix before
      any other call. */
  lemma SendDialRefused(m: EmailPingMonitor, mail: EmailData, srv: SmtpServer)
    requires srv.dial.Failed?
    ensures Send(m, mail, srv)
      == Failing("failed to connect to SMTP server: " + srv.dial.reason, [SmtpDial(SmtpAddress(m))])
  {
    SendOpeningFails(m, mail, srv);
  }

  /** An offered STARTTLS that fails ends the send with the STARTTLS prefix,
      before authenticating. */
  lemma SendStartTlsFails(m: EmailPingMonitor, mail: EmailData, srv: SmtpServer)
    requires srv.dial.Done? && srv.offersStartTls && srv.startTls.Failed?
    ensures Send(m, mail, srv)
      == Failing("failed to starttls: " + srv.startTls.reason, [SmtpDial(SmtpAddress(m)), SmtpStartTls(m.smtpHost)])
  {
    var dialed := Attempt(Going([]), SmtpDial(SmtpAddress(m)), srv.dial, "failed to connect to SMTP server: ");
    assert dialed == Going([SmtpDial(SmtpAddress(m))]);
    SendOpeningFails(m, mail, srv);
  }

  /** A failed opening is the receive's result: nothing is searched. */
  lemma ReceiveOpeningFails(m: EmailPingMonitor, mail: EmailData, srv: ImapServer, wait: bool)
    requires wait ==> CoversTimeout(srv.polls, m.timeout)
    requires ImapOpen(m, srv).Stopped?
    ensures Receive(m, mail, srv, wait) == ImapOpen(m, srv).run
  {
    ReceiveGives(m, mail, srv, wait, ImapOpen(m, srv).run);
  }

  /** A refused IMAP connection ends the receive with the connection prefix. */
  lemma ReceiveDialRefused(m: EmailPingMonitor, mail: EmailData, srv: ImapServer, wait: bool)
    requires wait ==> CoversTimeout(srv.polls, m.timeout)
    requires srv.dial.Failed?
    ensures Receive(m, mail, srv, wait)
      == Failing("failed to connect to IMAP server: " + srv.dial.reason, [ImapDial(ImapAddress(m))])
  {
    ReceiveOpeningFails(m, mail, srv, wait);
  }

  /** An offered STARTTLS that fails ends the receive with the STARTTLS
      prefix, before logging in. */
  lemma ReceiveStartTlsFails(m: EmailPingMonitor, mail: EmailData, srv: ImapServer, wait: bool)
    requires wait ==> CoversTimeout(srv.polls, m.timeout)
    requires srv.dial.Done? && srv.offersStartTls && srv.startTls.Failed?
    ensures Receive(m, mail, srv, wait)
      == Failing("failed to starttls: " + srv.startTls.reason, [ImapDial(ImapAddress(m)), ImapStartTls(m.smtpHost)])
  {
    var dialed := Attempt(Going([]), ImapDial(ImapAddress(m)), srv.dial, "failed to connect to IMAP server: ");
    assert dialed == Going([ImapDial(ImapAddress(m))]);
    ReceiveOpeningFails(m, mail, srv, wait);
  }

  /** A rejected login on a good connection ends the receive with the login
      prefix, the login being its last action. */
  lemma ReceiveLoginRefused(m: EmailPingMonitor, mail: EmailData, srv: ImapServer, wait: bool)
    requires wait ==> CoversTimeout(srv.polls, m.timeout)
    requires srv.dial.Done? && (if srv.offersStartTls then srv.startTls.Done? else !m.smtpForceTls)
    requires srv.login.Failed?
    ensures Receive(m, mail, srv, wait) == Failing("IMAP login failed: " + srv.login.reason,
      ImapGreeting(m, srv) + [ImapLogin(m.imapUsername, m.imapPassword)])
  {
    ReceiveOpeningFails(m, mail, srv, wait);
  }

  /** A failed SELECT after a good login ends the receive with the
      selection prefix. */
  lemma ReceiveSelectFails(m: EmailPingMonitor, mail: EmailData, srv: ImapServer, wait: bool)
    requires wait ==> CoversTimeout(srv.polls, m.timeout)
    requires srv.dial.Done? && (if srv.offersStartTls then srv.startTls.Done? else !m.smtpForceTls)
    requires srv.login.Done? && srv.select.Failed?
    ensures Receive(m, mail, srv, wait) == Failing("failed to select INBOX: " + srv.select.reason,
      ImapGreeting(m, srv) + [ImapLogin(m.imapUsername, m.imapPassword)] + [ImapSelect("INBOX")])
  {
    ReceiveOpeningFails(m, mail, srv, wait);
  }

  /** A failed first search on an open session ends the receive with the
      search prefix. */
  lemma ReceiveSearchFails(m: EmailPingMonitor, mail: EmailData, srv: ImapServer, wait: bool)
    requires wait ==> CoversTimeout(srv.polls, m.timeout)
    requires ImapOpen(m, srv).Going? && srv.initial.SearchFailed?
    ensures Receive(m, mail, srv, wait) == Failing("failed to search for emails: " + srv.initial.reason,
      ImapOpen(m, srv).Trace() + [ImapSearch(ResponseCriteria(m, mail.subject))])
  {
    var c := ResponseCriteria(m, mail.subject);
    ReceiveGives(m, mail, srv, wait,
      Failing("failed to search for emails: " + srv.initial.reason, ImapOpen(m, srv).Trace() + [ImapSearch(c)]));
  }

  /** After the search phase found replies, the first deletion call that
      fails ends the receive with its own prefix; no later call is made. */
  lemma DeleteRepliesStops(srv: ImapServer, uids: seq<nat>, t: seq<Action>, i: nat)
    requires i < |DeletionCalls(srv, uids)|
    requires forall j :: 0 <= j < i ==> DeletionCalls(srv, uids)[j].outcome.Done?
    requires DeletionCalls(srv, uids)[i].outcome.Failed?
    ensures var call := DeletionCalls(srv, uids)[i];
      DeleteReplies(srv, uids, t)
      == Failing(call.prefix + call.outcome.reason, t + Actions(DeletionCalls(srv, uids)[..i + 1]))
  {
    RunCallsStops(Going(t), DeletionCalls(srv, uids), i);
  }

  /** A failed STORE is never followed by EXPUNGE or LOGOUT. */
  lemma StoreFailureStops(srv: ImapServer, uids: seq<nat>, t: seq<Action>)
    requires srv.store.Failed?
    ensures DeleteReplies(srv, uids, t)
      == Failing("failed to set deleted flag: " + srv.store.reason, t + [ImapStore(uids, "+FLAGS.SILENT", "\\Deleted")])
  {
    DeleteRepliesStops(srv, uids, t, 0);
    assert Actions(DeletionCalls(srv, uids)[..1]) == [ImapStore(uids, "+FLAGS.SILENT", "\\Deleted")];
  }

  // ---------------------------------------------------------------------
  // The waiting loop
  // ---------------------------------------------------------------------

  /** The rounds of the waiting loop for polls `k` to `j`: each sleeps one
      second, then searches again. */
  function Rounds(c: Criteria, k: nat, j: nat): (r: seq<Action>)
    requires k <= j
    ensures |r| == 2 * (j - k + 1)
    ensures forall x :: x in r ==> x == Sleep(1) || x == ImapSearch(c)
    decreases j - k
  {
    [Sleep(1), ImapSearch(c)] + (if k == j then [] else Rounds(c, k + 1, j))
  }

  /** The loop stops at the first poll that sees a reply in time, after
      exactly one sleep and search per poll up to it. */
  lemma {:induction false} WaitFindsFirstReply(c: Criteria, polls: seq<Poll>, timeout: int, k: nat,
                                               trace: seq<Action>, j: nat)
    requires k <= j < |polls| && CoversTimeout(polls, timeout)
    requires forall i :: k <= i < j ==>
      polls[i].reply.Snapshot? && |Search(polls[i].reply.inbox, c)| == 0 && polls[i].elapsed <= timeout as real
    requires polls[j].reply.Snapshot? && |Search(polls[j].reply.inbox, c)| > 0
    requires polls[j].elapsed <= timeout as real
    ensures WaitFrom(c, polls, timeout, k, trace) == Matched(Search(polls[j].reply.inbox, c), trace + Rounds(c, k, j))
    decreases j - k
  {
    var round := [Sleep(1), ImapSearch(c)];
    if k < j {
      WaitMiss(c, polls, timeout, k, trace);
      WaitFindsFirstReply(c, polls, timeout, k + 1, trace + round, j);
      AppendAssoc(trace, round, Rounds(c, k + 1, j));
      assert Rounds(c, k, j) == round + Rounds(c, k + 1, j);
    } else {
      WaitHit(c, polls, timeout, k, trace);
      assert Rounds(c, k, j) == round;
    }
  }

  /** A poll that sees nothing in time leads to the next one. */
  lemma WaitMiss(c: Criteria, polls: seq<Poll>, timeout: int, k: nat, trace: seq<Action>)
    requires k + 1 < |polls| && CoversTimeout(polls, timeout)
    requires polls[k].reply.Snapshot? && |Search(polls[k].reply.inbox, c)| == 0
    requires polls[k].elapsed <= timeout as real
    ensures WaitFrom(c, polls, timeout, k, trace)
      == WaitFrom(c, polls, timeout, k + 1, trace + [Sleep(1), ImapSearch(c)])
  {
  }

  /** A poll that sees replies in time ends the loop with them. */
  lemma WaitHit(c: Criteria, polls: seq<Poll>, timeout: int, k: nat, trace: seq<Action>)
    requires k < |polls| && CoversTimeout(polls, timeout)
    requires polls[k].reply.Snapshot? && |Search(polls[k].reply.inbox, c)| > 0
    requires polls[k].elapsed <= timeout as real
    ensures WaitFrom(c, polls, timeout, k, trace)
      == Matched(Search(polls[k].reply.inbox, c), trace + [Sleep(1), ImapSearch(c)])
  {
  }

  /** The loop gives up at the first poll made after the timeout, whatever
      that poll saw, after one sleep and search per poll up to it. */
  lemma {:induction false} WaitTimesOutAt(c: Criteria, polls: seq<Poll>, timeout: int, k: nat,
                                          trace: seq<Action>, j: nat)
    requires k <= j < |polls| && CoversTimeout(polls, timeout)
    requires forall i :: k <= i < j ==>
      polls[i].reply.Snapshot? && |Search(polls[i].reply.inbox, c)| == 0 && polls[i].elapsed <= timeout as real
    requires polls[j].reply.Snapshot? && polls[j].elapsed > timeout as real
    ensures WaitFrom(c, polls, timeout, k, trace) == Gave(Failing(TimeoutMessage(polls[j]), trace + Rounds(c, k, j)))
    decreases j - k
  {
    var round := [Sleep(1), ImapSearch(c)];
    if k < j {
      WaitMiss(c, polls, timeout, k, trace);
      WaitTimesOutAt(c, polls, timeout, k + 1, trace + round, j);
      AppendAssoc(trace, round, Rounds(c, k + 1, j));
      assert Rounds(c, k, j) == round + Rounds(c, k + 1, j);
    } else {
      WaitLate(c, polls, timeout, k, trace);
      assert Rounds(c, k, j) == round;
    }
  }

  /** A poll whose search fails ends the loop with the search prefix, before
      the clock is read. */
  lemma WaitSearchFailed(c: Criteria, polls: seq<Poll>, timeout: int, k: nat, trace: seq<Action>)
    requires k < |polls| && CoversTimeout(polls, timeout)
    requires polls[k].reply.SearchFailed?
    ensures WaitFrom(c, polls, timeout, k, trace)
      == Gave(Failing("failed to search for emails: " + polls[k].reply.reason, trace + [Sleep(1), ImapSearch(c)]))
  {
  }

  /** The loop gives up at the first poll whose search fails, after one
      sleep and search per poll up to it. */
  lemma {:induction false} WaitSearchFailsAt(c: Criteria, polls: seq<Poll>, timeout: int, k: nat,
                                             trace: seq<Action>, j: nat)
    requires k <= j < |polls| && CoversTimeout(polls, timeout)
    requires forall i :: k <= i < j ==>
      polls[i].reply.Snapshot? && |Search(polls[i].reply.inbox, c)| == 0 && polls[i].elapsed <= timeout as real
    requires polls[j].reply.SearchFailed?
    ensures WaitFrom(c, polls, timeout, k, trace)
      == Gave(Failing("failed to search for emails: " + polls[j].reply.reason, trace + Rounds(c, k, j)))
    decreases j - k
  {
    var round := [Sleep(1), ImapSearch(c)];
    if k < j {
      WaitMiss(c, polls, timeout, k, trace);
      WaitSearchFailsAt(c, polls, timeout, k + 1, trace + round, j);
      AppendAssoc(trace, round, Rounds(c, k + 1, j));
      assert Rounds(c, k, j) == round + Rounds(c, k + 1, j);
    } else {
      WaitSearchFailed(c, polls, timeout, k, trace);
      assert Rounds(c, k, j) == round;
    }
  }

  /** A search that fails while waiting ends the receive with the search
      prefix, whatever the clock says. */
  lemma ReceivePollSearchFails(m: EmailPingMonitor, mail: EmailData, srv: ImapServer, j: nat)
    requires CoversTimeout(srv.polls, m.timeout)
    requires ImapOpen(m, srv).Going?
    requires srv.initial.Snapshot? && |Search(srv.initial.inbox, ResponseCriteria(m, mail.subject))| == 0
    requires j < |srv.polls|
    requires forall i :: 0 <= i < j ==>
      srv.polls[i].reply.Snapshot? && srv.polls[i].elapsed <= m.timeout as real
      && |Search(srv.polls[i].reply.inbox, ResponseCriteria(m, mail.subject))| == 0
    requires srv.polls[j].reply.SearchFailed?
    ensures var c := ResponseCriteria(m, mail.subject);
      Receive(m, mail, srv, true) == Failing("failed to search for emails: " + srv.polls[j].reply.reason,
        ImapOpen(m, srv).Trace() + [ImapSearch(c)] + Rounds(c, 0, j))
  {
    var c := ResponseCriteria(m, mail.subject);
    var searched := ImapOpen(m, srv).Trace() + [ImapSearch(c)];
    FindRepliesWaits(m, mail, srv);
    WaitSearchFailsAt(c, srv.polls, m.timeout, 0, searched, j);
    ReceiveGives(m, mail, srv, true,
      Failing("failed to search for emails: " + srv.polls[j].reply.reason, searched + Rounds(c, 0, j)));
  }

  /** A reply seen in time at poll `j`, after a first search and earlier
      polls that saw none, is deleted: the receive succeeds having searched
      once per poll and then flagged, expunged and logged out. */
  lemma ReceiveRepliedAt(m: EmailPingMonitor, mail: EmailData, srv: ImapServer, j: nat)
    requires CoversTimeout(srv.polls, m.timeout)
    requires ImapOpen(m, srv).Going?
    requires srv.initial.Snapshot? && |Search(srv.initial.inbox, ResponseCriteria(m, mail.subject))| == 0
    requires j < |srv.polls|
    requires forall i :: 0 <= i < j ==>
      srv.polls[i].reply.Snapshot? && srv.polls[i].elapsed <= m.timeout as real
      && |Search(srv.polls[i].reply.inbox, ResponseCriteria(m, mail.subject))| == 0
    requires srv.polls[j].reply.Snapshot? && srv.polls[j].elapsed <= m.timeout as real
    requires |Search(srv.polls[j].reply.inbox, ResponseCriteria(m, mail.subject))| > 0
    requires srv.store.Done? && srv.expunge.Done? && srv.logout.Done?
    ensures var c := ResponseCriteria(m, mail.subject);
      var uids := Search(srv.polls[j].reply.inbox, c);
      Receive(m, mail, srv, true) == StepRun("", 0, None, ImapOpen(m, srv).Trace() + [ImapSearch(c)] + Rounds(c, 0, j)
        + [ImapStore(uids, "+FLAGS.SILENT", "\\Deleted"), ImapExpunge, ImapLogout])
  {
    var c := ResponseCriteria(m, mail.subject);
    var uids := Search(srv.polls[j].reply.inbox, c);
    var searched := ImapOpen(m, srv).Trace() + [ImapSearch(c)];
    FindRepliesWaits(m, mail, srv);
    WaitFindsFirstReply(c, srv.polls, m.timeout, 0, searched, j);
    ReceiveDeletes(m, mail, srv, true, uids, searched + Rounds(c, 0, j));
  }

  /** Replies found by the first search are deleted right away, waiting or
      not: the receive succeeds having searched once, then flagged,
      expunged and logged out. */
  lemma ReceiveRepliedFirst(m: EmailPingMonitor, mail: EmailData, srv: ImapServer, wait: bool)
    requires wait ==> CoversTimeout(srv.polls, m.timeout)
    requires ImapOpen(m, srv).Going?
    requires srv.initial.Snapshot? && |Search(srv.initial.inbox, ResponseCriteria(m, mail.subject))| > 0
    requires srv.store.Done? && srv.expunge.Done? && srv.logout.Done?
    ensures var c := ResponseCriteria(m, mail.subject);
      var uids := Search(srv.initial.inbox, c);
      Receive(m, mail, srv, wait) == StepRun("", 0, None, ImapOpen(m, srv).Trace() + [ImapSearch(c)]
        + [ImapStore(uids, "+FLAGS.SILENT", "\\Deleted"), ImapExpunge, ImapLogout])
  {
    var c := ResponseCriteria(m, mail.subject);
    ReceiveDeletes(m, mail, srv, wait, Search(srv.initial.inbox, c), ImapOpen(m, srv).Trace() + [ImapSearch(c)]);
  }

  /** Replies found by the search phase, with every deletion call
      succeeding, make a successful receive. */
  lemma ReceiveDeletes(m: EmailPingMonitor, mail: EmailData, srv: ImapServer, wait: bool, uids: seq<nat>, t: seq<Action>)
    requires wait ==> CoversTimeout(srv.polls, m.timeout)
    requires FindReplies(m, mail, srv, wait) == Matched(uids, t) && |uids| > 0
    requires srv.store.Done? && srv.expunge.Done? && srv.logout.Done?
    ensures Receive(m, mail, srv, wait)
      == StepRun("", 0, None, t + [ImapStore(uids, "+FLAGS.SILENT", "\\Deleted"), ImapExpunge, ImapLogout])
  {
  }

  /** The clock is read after each search, so a reply that arrives only
      once the timeout has passed is not accepted: the receive fails at the
      first late poll. */
  lemma ReceiveLateReplyTimesOut(m: EmailPingMonitor, mail: EmailData, srv: ImapServer, j: nat)
    requires CoversTimeout(srv.polls, m.timeout)
    requires ImapOpen(m, srv).Going?
    requires srv.initial.Snapshot? && |Search(srv.initial.inbox, ResponseCriteria(m, mail.subject))| == 0
    requires j < |srv.polls|
    requires forall i :: 0 <= i < j ==>
      srv.polls[i].reply.Snapshot? && srv.polls[i].elapsed <= m.timeout as real
      && |Search(srv.polls[i].reply.inbox, ResponseCriteria(m, mail.subject))| == 0
    requires srv.polls[j].reply.Snapshot? && srv.polls[j].elapsed > m.timeout as real
    ensures var c := ResponseCriteria(m, mail.subject);
      Receive(m, mail, srv, true) == StepRun(TimeoutMessage(srv.polls[j]), 0, Some(TimeoutMessage(srv.polls[j])),
        ImapOpen(m, srv).Trace() + [ImapSearch(c)] + Rounds(c, 0, j))
  {
    var c := ResponseCriteria(m, mail.subject);
    var searched := ImapOpen(m, srv).Trace() + [ImapSearch(c)];
    var late := Failing(TimeoutMessage(srv.polls[j]), searched + Rounds(c, 0, j));
    FindRepliesWaits(m, mail, srv);
    WaitTimesOutAt(c, srv.polls, m.timeout, 0, searched, j);
    ReceiveGives(m, mail, srv, true, late);
  }

  /** A failed search phase is the result of the receive. */
  lemma ReceiveGives(m: EmailPingMonitor, mail: EmailData, srv: ImapServer, wait: bool, run: StepRun)
    requires wait ==> CoversTimeout(srv.polls, m.timeout)
    requires FindReplies(m, mail, srv, wait) == Gave(run)
    ensures Receive(m, mail, srv, wait) == run
  {
  }

  /** A receive whose first search finds nothing enters the waiting loop. */
  lemma FindRepliesWaits(m: EmailPingMonitor, mail: EmailData, srv: ImapServer)
    requires CoversTimeout(srv.polls, m.timeout)
    requires ImapOpen(m, srv).Going?
    requires srv.initial.Snapshot? && |Search(srv.initial.inbox, ResponseCriteria(m, mail.subject))| == 0
    ensures var c := ResponseCriteria(m, mail.subject);
      FindReplies(m, mail, srv, true) == WaitFrom(c, srv.polls, m.timeout, 0, ImapOpen(m, srv).Trace() + [ImapSearch(c)])
  {
  }

  /** A poll made after the timeout ends the loop with the timeout failure. */
  lemma WaitLate(c: Criteria, polls: seq<Poll>, timeout: int, k: nat, trace: seq<Action>)
    requires k < |polls| && CoversTimeout(polls, timeout)
    requires polls[k].reply.Snapshot? && polls[k].elapsed > timeout as real
    ensures WaitFrom(c, polls, timeout, k, trace)
      == Gave(Failing(TimeoutMessage(polls[k]), trace + [Sleep(1), ImapSearch(c)]))
  {
  }

  /** Without waiting (the pre-clean), no reply is a quiet success that
      neither deletes nor logs out. */
  lemma ReceiveNoWaitNoReply(m: EmailPingMonitor, mail: EmailData, srv: ImapServer)
    requires ImapOpen(m, srv).Going?
    requires srv.initial.Snapshot? && |Search(srv.initial.inbox, ResponseCriteria(m, mail.subject))| == 0
    ensures Receive(m, mail, srv, false)
      == StepRun("", 0, None, ImapOpen(m, srv).Trace() + [ImapSearch(ResponseCriteria(m, mail.subject))])
  {
  }

  // ---------------------------------------------------------------------
  // Deleting the replies
  // ---------------------------------------------------------------------

  /** Some search of the receive saw a mailbox whose replies are `uids`. */
  predicate RepliedIn(srv: ImapServer, c: Criteria, uids: seq<nat>) {
    Observes(srv.initial, c, uids) || exists j :: 0 <= j < |srv.polls| && Observes(srv.polls[j].reply, c, uids)
  }

  /** The last three actions flag `uids` \Deleted, expunge and log out. */
  predicate EndsByDeleting(t: seq<Action>, uids: seq<nat>) {
    |t| >= 3 && t[|t| - 3..] == [ImapStore(uids, "+FLAGS.SILENT", "\\Deleted"), ImapExpunge, ImapLogout]
  }

  /** A successful waiting receive ends by flagging a non-empty set of
      replies it observed, expunging and logging out (what that does to the
      observed mailbox is `Mailbox.DeleteMatchesLeavesNone`). */
  lemma ReceiveSuccessDeletesReplies(m: EmailPingMonitor, mail: EmailData, srv: ImapServer)
    requires CoversTimeout(srv.polls, m.timeout)
    requires Receive(m, mail, srv, true).err.None?
    ensures var t := Receive(m, mail, srv, true).trace;
      exists uids :: RepliedIn(srv, ResponseCriteria(m, mail.subject), uids) && |uids| > 0 && EndsByDeleting(t, uids)
  {
    var found := FindReplies(m, mail, srv, true);
    var c := ResponseCriteria(m, mail.subject);
    var t := Receive(m, mail, srv, true).trace;
    match found {
      case Gave(run) =>
        assert false;
      case Matched(uids, t0) =>
        FindRepliesObserved(m, mail, srv, true);
        assert t == DeleteReplies(srv, uids, t0).trace;
        assert EndsByDeleting(t, uids);
        assert RepliedIn(srv, c, uids);
    }
  }

  // ---------------------------------------------------------------------
  // The whole cycle
  // ---------------------------------------------------------------------

  /** A failed pre-clean ends the cycle before any mail is sent, with its
      message prefixed. */
  lemma RunPreCleanFailure(m: EmailPingMonitor, env: Environment)
    requires CoversTimeout(env.receive.polls, m.timeout)
    requires Receive(m, Compose(m, env), env.preClean, false).err.Some?
    ensures var pre := Receive(m, Compose(m, env), env.preClean, false);
      var message := "error cleaning old responses: " + pre.message;
      m.Run(env) == Cycle(MonitorResult(Down, message, 0, Some(message)), pre.trace)
    ensures forall x :: x in m.Run(env).trace ==> !x.IsSmtp()
  {
  }

  /** A cycle whose pre-clean, send and receive all succeed is up, with the
      measured round trip as its ping, after exactly those three steps. */
  lemma RunUp(m: EmailPingMonitor, env: Environment)
    requires CoversTimeout(env.receive.polls, m.timeout)
    requires var mail := Compose(m, env);
      && Receive(m, mail, env.preClean, false).err.None?
      && Send(m, mail, env.smtp).err.None?
      && Receive(m, mail, env.receive, true).err.None?
    ensures var mail := Compose(m, env);
      m.Run(env) == Cycle(MonitorResult(Up, "OK", TruncToInt(env.roundTrip), None),
        Receive(m, mail, env.preClean, false).trace + Send(m, mail, env.smtp).trace
        + Receive(m, mail, env.receive, true).trace)
  {
  }

  /** A failed waiting receive after a good send ends the cycle down with
      the receive's own message and error. */
  lemma RunReceiveFailure(m: EmailPingMonitor, env: Environment)
    requires CoversTimeout(env.receive.polls, m.timeout)
    requires var mail := Compose(m, env);
      && Receive(m, mail, env.preClean, false).err.None?
      && Send(m, mail, env.smtp).err.None?
      && Receive(m, mail, env.receive, true).err.Some?
    ensures var mail := Compose(m, env);
      var got := Receive(m, mail, env.receive, true);
      m.Run(env) == Cycle(MonitorResult(Down, got.message, 0, got.err),
        Receive(m, mail, env.preClean, false).trace + Send(m, mail, env.smtp).trace + got.trace)
  {
  }

  /** A failed send ends the cycle with the send's result; its actions are
      the pre-clean's IMAP actions followed by the send's SMTP actions. */
  lemma RunSendFailure(m: EmailPingMonitor, env: Environment)
    requires CoversTimeout(env.receive.polls, m.timeout)
    requires Receive(m, Compose(m, env), env.preClean, false).err.None?
    requires Send(m, Compose(m, env), env.smtp).err.Some?
    ensures var sent := Send(m, Compose(m, env), env.smtp);
      m.Run(env).result == MonitorResult(Down, sent.message, 0, sent.err)
    ensures var t := m.Run(env).trace;
      forall i, j :: 0 <= i < j < |t| && t[i].IsSmtp() ==> t[j].IsSmtp()
  {
    var pre := Receive(m, Compose(m, env), env.preClean, false);
    var sent := Send(m, Compose(m, env), env.smtp);
    assert m.Run(env).trace == pre.trace + sent.trace;
    ImapThenSmtp(pre.trace, sent.trace);
  }

  /** IMAP actions followed by SMTP actions: after the first SMTP action
      only SMTP actions come. */
  lemma ImapThenSmtp(a: seq<Action>, b: seq<Action>)
    requires forall x :: x in a ==> !x.IsSmtp()
    requires forall x :: x in b ==> x.IsSmtp()
    ensures forall i, j :: 0 <= i < j < |a + b| && (a + b)[i].IsSmtp() ==> (a + b)[j].IsSmtp()
  {
    var t := a + b;
    assert forall p :: 0 <= p < |a| ==> t[p] == a[p] && t[p] in a;
    forall i, j | 0 <= i < j < |t| && t[i].IsSmtp()
      ensures t[j].IsSmtp()
    {
      assert t[j] == b[j - |a|];
    }
  }

  /** Every search of a receive looks for the replies to `mail`. */
  lemma ReceiveSearchesFor(m: EmailPingMonitor, mail: EmailData, srv: ImapServer, wait: bool)
    requires wait ==> CoversTimeout(srv.polls, m.timeout)
    ensures forall x :: x in Receive(m, mail, srv, wait).trace && x.ImapSearch? ==>
      x == ImapSearch(ResponseCriteria(m, mail.subject))
  {
    var found := FindReplies(m, mail, srv, wait);
    assert Receive(m, mail, srv, wait) == Settle(srv, found);
  }

  /** Every search of a cycle, pre-clean and wait alike, asks for the reply
      to the subject this cycle sent. */
  lemma RunSearchesForThisSubject(m: EmailPingMonitor, env: Environment)
    requires CoversTimeout(env.receive.polls, m.timeout)
    ensures forall x :: x in m.Run(env).trace && x.ImapSearch? ==>
      x.criteria == ResponseCriteria(m, Subject(m, env.token))
  {
    var mail := Compose(m, env);
    assert mail.subject == Subject(m, env.token);
    RunTraceParts(m, env);
    PartsSearchFor(m, mail, env);
  }

  /** The searches of the three steps of a cycle all look for `mail`'s
      replies. */
  lemma PartsSearchFor(m: EmailPingMonitor, mail: EmailData, env: Environment)
    requires CoversTimeout(env.receive.polls, m.timeout)
    ensures forall x ::
      (x in Receive(m, mail, env.preClean, false).trace || x in Send(m, mail, env.smtp).trace
       || x in Receive(m, mail, env.receive, true).trace) && x.ImapSearch?
      ==> x == ImapSearch(ResponseCriteria(m, mail.subject))
  {
    ReceiveSearchesFor(m, mail, env.preClean, false);
    ReceiveSearchesFor(m, mail, env.receive, true);
    SendSearchesNothing(m, mail, env.smtp);
  }

  lemma SendSearchesNothing(m: EmailPingMonitor, mail: EmailData, srv: SmtpServer)
    ensures forall x :: x in Send(m, mail, srv).trace ==> !x.ImapSearch?
  {
  }

  /** Every action of a cycle belongs to its pre-clean, its send or its
      receive. */
  lemma RunTraceParts(m: EmailPingMonitor, env: Environment)
    requires CoversTimeout(env.receive.polls, m.timeout)
    ensures var mail := Compose(m, env);
      forall x :: x in m.Run(env).trace ==>
        x in Receive(m, mail, env.preClean, false).trace || x in Send(m, mail, env.smtp).trace
        || x in Receive(m, mail, env.receive, true).trace
  {
    var mail := Compose(m, env);
    var pre := Receive(m, mail, env.preClean, false);
    var sent := Send(m, mail, env.smtp);
    var got := Receive(m, mail, env.receive, true);
    var t := m.Run(env).trace;
    assert t == pre.trace || t == pre.trace + sent.trace || t == pre.trace + sent.trace + got.trace;
  }

  /** An up cycle sent the composed mail. */
  lemma RunSuccessSent(m: EmailPingMonitor, env: Environment)
    requires CoversTimeout(env.receive.polls, m.timeout)
    ensures m.Run(env).result.status == Up ==> SmtpWrite(Payload(Compose(m, env))) in m.Run(env).trace
  {
    if m.Run(env).result.status == Up {
      RunUpParts(m, env);
      SendRecordsPayload(m, Compose(m, env), env.smtp);
    }
  }

  /** An up cycle then removed the reply it waited for: its last actions
      flag a non-empty set of replies it observed, expunge and log out. */
  lemma RunSuccessDeletes(m: EmailPingMonitor, env: Environment)
    requires CoversTimeout(env.receive.polls, m.timeout)
    ensures var t := m.Run(env).trace;
      m.Run(env).result.status == Up ==>
        exists uids :: RepliedIn(env.receive, ResponseCriteria(m, Subject(m, env.token)), uids) && |uids| > 0
          && EndsByDeleting(t, uids)
  {
    if m.Run(env).result.status == Up {
      assert Compose(m, env).subject == Subject(m, env.token);
      RunUpParts(m, env);
      var uids := ReceiveSuccessTail(m, Compose(m, env), env.receive);
      EndsByDeletingAfter(
        Receive(m, Compose(m, env), env.preClean, false).trace + Send(m, Compose(m, env), env.smtp).trace,
        Receive(m, Compose(m, env), env.receive, true).trace, uids);
    }
  }

  /** The identifiers a successful waiting receive deleted. */
  lemma ReceiveSuccessTail(m: EmailPingMonitor, mail: EmailData, srv: ImapServer) returns (uids: seq<nat>)
    requires CoversTimeout(srv.polls, m.timeout)
    requires Receive(m, mail, srv, true).err.None?
    ensures var t := Receive(m, mail, srv, true).trace;
      RepliedIn(srv, ResponseCriteria(m, mail.subject), uids) && |uids| > 0 && EndsByDeleting(t, uids)
  {
    ReceiveSuccessDeletesReplies(m, mail, srv);
    var t := Receive(m, mail, srv, true).trace;
    uids :| RepliedIn(srv, ResponseCriteria(m, mail.subject), uids) && |uids| > 0 && EndsByDeleting(t, uids);
  }

  /** A cycle is up exactly when all three steps succeed, and an up cycle's
      actions are theirs in order. */
  lemma RunUpParts(m: EmailPingMonitor, env: Environment)
    requires CoversTimeout(env.receive.polls, m.timeout)
    ensures var mail := Compose(m, env);
      var pre := Receive(m, mail, env.preClean, false);
      var sent := Send(m, mail, env.smtp);
      var got := Receive(m, mail, env.receive, true);
      m.Run(env).result.status == Up <==> pre.err.None? && sent.err.None? && got.err.None?
    ensures var mail := Compose(m, env);
      m.Run(env).result.status == Up ==>
        m.Run(env).trace == Receive(m, mail, env.preClean, false).trace + Send(m, mail, env.smtp).trace
          + Receive(m, mail, env.receive, true).trace
  {
  }

  /** Whatever precedes them, the deletion calls stay last. */
  lemma EndsByDeletingAfter(a: seq<Action>, t: seq<Action>, uids: seq<nat>)
    requires EndsByDeleting(t, uids)
    ensures EndsByDeleting(a + t, uids)
  {
    assert (a + t)[|a + t| - 3..] == t[|t| - 3..];
  }

  /** A successful send wrote the payload of its mail. */
  lemma SendRecordsPayload(m: EmailPingMonitor, mail: EmailData, srv: SmtpServer)
    requires Send(m, mail, srv).err.None?
    ensures SmtpWrite(Payload(mail)) in Send(m, mail, srv).trace
  {
    var session := SmtpOpen(m, srv);
    var calls := DeliveryCalls(mail, srv);
    RunCallsRecordsAll(session, calls);
    assert Actions(calls)[3] == SmtpWrite(Payload(mail));
    assert Send(m, mail, srv).trace == session.Trace() + Actions(calls);
  }
}
