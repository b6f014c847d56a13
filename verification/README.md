# uptime-robot monitors in Dafny

This project models the monitor core of the uptime-robot agent, a small Go
program. At start the agent reads its configuration, sets up the
configured monitors and runs each of them once; the results are discarded.
A result is a status `up`/`down`, a message and a ping value. The function
that would push a result to an uptime host as an HTTP GET (`pushToHost` in
monitors/monitors.go) is defined but never called; the URL it would build
is modelled.

Three kinds of monitor are modelled:

- **alive**: always reports up.
- **disk_usage**: reports down once the used share of a file system reaches
  a threshold.
- **email_ping**: runs one ping-pong cycle per evaluation.
  1. It composes a mail whose subject carries a fresh token.
  2. It deletes stale replies over IMAP (the pre-clean).
  3. It sends the mail over SMTP.
  4. It polls the inbox once per second for the relay's reply.
  5. It deletes the reply and logs out.

The setup step is modelled as well: host resolution, trailing-slash
normalisation, dispatch on the monitor type and the fatal setup errors. So
is the report URL.

Modules:

- `Results`: `Option` and `Result`.
- `Strings`: substring search and Go's `strings.ReplaceAll`.
- `Numbers`: `%v` rendering of integers and Go's float-to-int conversion.
- `Configuration`: configuration records, setup errors and the first missing
  required parameter.
- `Report`: statuses, monitor results and the report URL with its parser.
- `Alive`, `DiskUsage`, `EmailPing`: one module per monitor file.
- `Mailbox`: the IMAP search, flag and expunge semantics the email monitor
  relies on. Searching uses substring containment per header (section 6.4.4
  of RFC 3501), flagging uses `STORE +FLAGS.SILENT` (section 6.4.6) and
  removal uses `EXPUNGE` (section 6.4.3).
- `EmailPingProperties`: the lemmas about whole email cycles.
- `Scheduler`: `SetupMonitors`.

### How the email cycle is modelled

The network, the clock and the token generator are inputs. An `Environment`
gives:

- the generated token and the formatted send time;
- the rendered To and From addresses;
- one script per server session (pre-clean IMAP, SMTP, waiting IMAP). A
  script fixes the outcome of every client call, the mailbox snapshot each
  search observes, and the elapsed wait time at each poll;
- the measured round-trip seconds.

A cycle is then a pure function of its inputs. It returns the
`MonitorResult` and the list of protocol actions it attempted, so ordering,
short-circuiting and "credentials only after STARTTLS" can be stated as
properties of that list.

The waiting loop is tied to the clock by the constraint `CoversTimeout`:

- each poll sleeps one second, so poll `k` reads at least `k + 1` elapsed
  seconds;
- the script lasts past the timeout.

With that constraint, the model proves that the loop ends.

### Behaviour of the code worth noting

- `SetupMonitors` dispatches only the type `"alive"`. Every other type is a
  fatal "Unknown monitor type", including `disk_usage` and `email_ping`. Their
  setup functions exist in monitors/disk_usage.go and monitors/email_ping.go
  but are never reached. They are
  modelled on their own as `DiskUsage.Setup` and `EmailPing.Setup`.
- `SetupMonitors` does not check that report keys are unique. The model has
  no such check.
- The report URL is built by plain string formatting. The message is not
  percent-encoded. `Report.ReportUrlRoundTrip` shows that `Report.ParseReport`
  recovers the status, message and ping from the URL for every message,
  because the ping is taken after the last `&`.
- The IMAP STARTTLS branch reads `smtp_force_tls` and passes the SMTP host
  as the TLS server name. `imap_force_tls` is copied at setup but never read
  (`EmailPingProperties.ImapForceTlsIgnored`).
- The configured `message_body` is required at setup but not used. The body
  sent is a fixed sentence naming the send time.
- The monitor interface in monitors/monitors.go declares a `Run()` without
  results. The three implementations return `(status, message, ping, error)`.
  The model follows the implementations.
- A host entry whose URL is empty is treated like a missing host. Only the
  first host with a matching name is consulted.

## Model

| member | source | states |
|---|---|---|
| `Report.StatusText` | monitors/monitors.go:79-85 | a status is spelled "up" or "down", and "up" exactly for `Up` |
| `Report.ReportUrl` | monitors/monitors.go:91-102 | the URL starts with host, key and `?status=` and ends with `&ping=` followed by the decimal ping |
| `Report.ReportUrlRoundTrip` | monitors/monitors.go:99 | given host and key, status, message (any characters, `&` included) and ping are recovered from the URL |
| `Report.ReportUrlInjective` | monitors/monitors.go:99 | two different reports to the same host and key never share a URL |
| `Report.ReportUrlExample` | monitors/monitors.go:99 | host `https://h/`, key `abc`, up, "OK", ping 5 give `https://h/abc?status=up&msg=OK&ping=5` |
| `Numbers.IntToString` | monitors/monitors.go:99 | `%v` of an int is an optional minus sign followed by digits, with the minus sign exactly for negatives and no leading zero (a leading `0` only for zero itself, never right after the minus sign) |
| `Numbers.NatToStringRoundTrip` | monitors/monitors.go:99 | the digits rendered for a natural number read back as that number |
| `Numbers.IntToStringRoundTrip` | monitors/monitors.go:99 | parsing the `%v` rendering of an int gives the int back |
| `Numbers.TruncToInt` | monitors/disk_usage.go:67 | Go's `int(x)` drops the fraction toward zero: the result lies within one of `x` on the side of zero |
| `Scheduler.FindHost` | monitors/monitors.go:43-52 | the URL of the first host with the name, and none exactly when no host has it |
| `Scheduler.WithTrailingSlash` | monitors/monitors.go:57-60 | the URL extended by at most one character so that it ends with '/', unchanged exactly when it already does |
| `Scheduler.WithTrailingSlashIdempotent` | monitors/monitors.go:57-60 | normalising twice is normalising once |
| `Scheduler.SetupEntry` | monitors/monitors.go:43-68 | a missing or empty host URL fails with HostNotFound before the type is looked at; only "alive" succeeds; the monitor keeps name, key and interval, and its URL is the host's URL with a '/' appended exactly when it lacks one |
| `Scheduler.SetupMonitors` | monitors/monitors.go:26-69 | no entries is NoMonitors; success gives exactly one monitor per entry, in order; failure is the error of the first failing entry, all earlier entries being fine |
| `Scheduler.StartMonitors` | monitors/monitors.go:71-76 | every monitor is run once, results in monitor order |
| `Scheduler.SetUpMonitorsReportUp` | monitors/monitors.go:62-65 | every monitor that can be set up reports up, "OK", ping 0, to a host URL ending in '/' |
| `Configuration.FirstMissing` | monitors/disk_usage.go:91-105 | the first failing presence check in order, and none exactly when all pass |
| `Alive.AliveMonitor.Run` | monitors/alive.go:34-37 | always up, "OK", ping 0, no error |
| `Alive.Setup` | monitors/alive.go:40-42 | the monitor carries the configured name, key and interval and the resolved host URL |
| `Alive.AliveReportUrl` | monitors/alive.go:34-37 | an alive monitor's report URL is its host, key and `?status=up&msg=OK&ping=0` |
| `DiskUsage.DiskUsageMonitor.Run` | monitors/disk_usage.go:45-87 | an unusable reading is down with "Error getting disk usage" and ping 0; otherwise ping is the rounded percentage, up exactly below the threshold with "OK", else down naming the threshold; never an error |
| `DiskUsage.Percentage` | monitors/disk_usage.go:66-67 | on the exact value, the percentage is the nearest integer to 100 times the usage (halves up), within 0..100 for a fraction |
| `DiskUsage.PercentageMonotone` | monitors/disk_usage.go:67 | a fuller disk never reads as a smaller percentage |
| `DiskUsage.RoundsHalfUp` | monitors/disk_usage.go:66-67 | on exact values, 0.125 reads as 13 and 0.745 as 75; 0 and 1 read as 0 and 100 |
| `DiskUsage.UpIsDownwardClosed` | monitors/disk_usage.go:71-77 | an up reading stays up for any smaller usage and any higher threshold |
| `DiskUsage.ThresholdExample` | monitors/disk_usage.go:71-77 | 75 % used is up under threshold 80 and down with "Exceeds threshold of 70%" under 70 |
| `DiskUsage.Setup` | monitors/disk_usage.go:90-115 | fails exactly when the file system is empty or the threshold is 0, naming the first of the two; otherwise every field is copied |
| `Strings.ReplaceAllAbsent` | monitors/email_ping.go:80 | a template without the placeholder is left unchanged |
| `Strings.ReplaceAllDistinguishes` | monitors/email_ping.go:80 | with the placeholder present, two different tokens of equal length give different results |
| `Strings.ReplaceAllFirst` | monitors/email_ping.go:264 | the leftmost occurrence is replaced first and the text after it is processed on its own: with no occurrence before or across the end of `a`, replacing in `a + pat + b` gives `a + rep` followed by the replacement in `b` |
| `Mailbox.SearchFindsMatches` | monitors/email_ping.go:262-268 | the search returns the identifier of every message whose From and Subject contain the criteria and of no other, so it is empty exactly when none match |
| `Mailbox.StoreDeleted` | monitors/email_ping.go:336-338 | every message keeps its place, headers and identifier; it is flagged deleted exactly when it already was or its identifier is listed |
| `Mailbox.Expunge` | monitors/email_ping.go:345 | exactly the messages without the deleted flag remain |
| `Mailbox.ExpungeAppend` | monitors/email_ping.go:345 | expunging a concatenation is the concatenation of the expunged parts, so the kept messages stay in mailbox order |
| `Mailbox.DeleteMatchesLeavesNone` | monitors/email_ping.go:335-350 | flagging the search result and expunging leaves no matching message and, identifiers being unique, keeps every other unflagged message |
| `EmailPing.EmailPingMonitor.Run` | monitors/email_ping.go:76-115 | up exactly when no error; down always has ping 0; up has "OK" and the truncated round-trip seconds |
| `EmailPing.Compose` | monitors/email_ping.go:77-83 | the mail goes from the sender address to the recipient address, carries the configured From and To texts unswapped, the templated subject and the body "This is a test email sent at " followed by the send time |
| `EmailPing.ComposedPayload` | monitors/email_ping.go:178-184 | the DATA payload of a cycle's mail is exactly the To line with the recipient's text, the From line with the sender's text, the Subject line with the templated subject, a blank line and the fixed sentence with the send time |
| `EmailPing.SubjectCorrelates` | monitors/email_ping.go:80 | without `{UUID}` the subject is the template; with it, different tokens of equal length give different subjects |
| `EmailPing.ResponseCriteriaFills` | monitors/email_ping.go:262-264 | the searches ask for mail From the recipient address whose Subject is the response template with its single `{ORIG_SUBJ}` replaced by the subject sent |
| `EmailPing.ResponseCriteriaVerbatim` | monitors/email_ping.go:262-264 | a response template without `{ORIG_SUBJ}` is searched for unchanged, From the recipient address |
| `EmailPing.PayloadSeparatesBody` | monitors/email_ping.go:178-184 | when To, From and Subject hold no carriage return, the first CRLF CRLF of the payload is the one after the three header lines, and what follows it is exactly the body |
| `EmailPing.Attempt` | monitors/email_ping.go:121-126 | a call on a stopped step does nothing; on a live step it is recorded, and a failure stops the step with the prefix followed by the library error |
| `EmailPing.Finish` | monitors/email_ping.go:205 | a step that got through returns "", ping 0 and no error; a stopped one returns its failure |
| `EmailPing.RunCalls` | monitors/email_ping.go:155-205 | a stopped step stays as it is; the trace only grows, with actions of the calls; the step survives exactly when every call succeeds |
| `EmailPing.RunCallsStops` | monitors/email_ping.go:155-202 | the first failing call ends the step with its own prefix and the library error, the trace gaining exactly the calls up to and including it, so no later call is made |
| `EmailPing.RunCallsRecordsAll` | monitors/email_ping.go:155-205 | when every call succeeds, the trace gains exactly those calls, in order |
| `EmailPing.TlsPolicy` | monitors/email_ping.go:130-145 | upgrade exactly when offered; refuse exactly when not offered and forced; otherwise continue in clear text |
| `EmailPing.Negotiate` | monitors/email_ping.go:129-145 | an offered STARTTLS is attempted and recorded; a forced one that is not offered stops with the refusal message; the step survives exactly as the policy says |
| `EmailPing.SmtpOpen` | monitors/email_ping.go:118-153 | a stopped opening carries ping 0, an error and its message; the opening starts with the dial and uses only SMTP actions |
| `EmailPing.SmtpOpenGoes` | monitors/email_ping.go:118-153 | the SMTP opening goes on exactly when the dial succeeds, STARTTLS succeeds if offered (else TLS is not forced) and AUTH succeeds; it has then made exactly the dial, the STARTTLS if offered and the AUTH |
| `EmailPing.DeliveryCalls` | monitors/email_ping.go:155-202 | every delivery call is an SMTP action with a failure prefix |
| `EmailPing.Send` | monitors/email_ping.go:117-206 | ping 0; an empty message exactly on success; the trace starts with the dial and holds only SMTP actions |
| `EmailPingProperties.SendSucceeds` | monitors/email_ping.go:117-206 | a send succeeds exactly when its opening goes on and all six delivery calls succeed; it has then made the opening's calls, MAIL FROM the sender, RCPT TO the recipient, DATA, the payload write, the end of DATA and the close, in that order |
| `EmailPingProperties.SendDialRefused` | monitors/email_ping.go:119-126 | a failed dial ends the send with "failed to connect to SMTP server: " and the error, the dial being its only action |
| `EmailPingProperties.SendStartTlsFails` | monitors/email_ping.go:129-138 | an offered STARTTLS that fails ends the send with "failed to starttls: " and the error, after the dial and the STARTTLS only |
| `EmailPingProperties.SendOpeningFails` | monitors/email_ping.go:121-152 | a failed dial, STARTTLS, refusal or authentication is the send's result, with no delivery call after it |
| `EmailPingProperties.SendAuthRefused` | monitors/email_ping.go:148-152 | a rejected AUTH ends the send with "SMTP authentication failed: " and the error, the AUTH following the dial and any STARTTLS and being the last action |
| `EmailPingProperties.SendDeliveryFails` | monitors/email_ping.go:155-202 | after a good opening, the first failing MAIL, RCPT, DATA, write, data close or close ends the send with that call's prefix and error, and no later call is made |
| `EmailPingProperties.SendSenderRefused` | monitors/email_ping.go:156-160 | a refused MAIL FROM ends the send with "failed to set the sender: " and the error, right after the opening |
| `EmailPing.ImapConnect` | monitors/email_ping.go:216-242 | the IMAP connection is the dial, followed by STARTTLS when that is attempted, and nothing else; it goes on exactly when the dial succeeds and STARTTLS succeeds if offered (else the SMTP force flag is off), having then made the dial and the STARTTLS if offered |
| `EmailPing.ImapLogIn` | monitors/email_ping.go:216-250 | the connection and login start with the dial, with no SMTP action and no search; they go on exactly when the connection does and the login succeeds, the login then following the connection's actions |
| `EmailPing.ImapOpen` | monitors/email_ping.go:216-259 | the IMAP opening starts with the dial, with no SMTP action and no search |
| `EmailPing.ImapOpenGoes` | monitors/email_ping.go:216-259 | the IMAP opening goes on exactly when the dial, the STARTTLS if offered (else the SMTP force flag is off), the login and the SELECT of INBOX succeed; it has then made exactly those calls |
| `EmailPingProperties.ReceiveOpeningFails` | monitors/email_ping.go:216-259 | a failed IMAP opening is the receive's result, nothing being searched |
| `EmailPingProperties.ReceiveDialRefused` | monitors/email_ping.go:217-223 | a failed IMAP dial ends the receive with "failed to connect to IMAP server: " and the error, the dial being its only action |
| `EmailPingProperties.ReceiveStartTlsFails` | monitors/email_ping.go:226-235 | an offered STARTTLS that fails ends the receive with "failed to starttls: " and the error, after the dial and the STARTTLS only |
| `EmailPingProperties.ReceiveLoginRefused` | monitors/email_ping.go:244-249 | a rejected login on a good connection ends the receive with "IMAP login failed: " and the error, the login being the last action |
| `EmailPingProperties.ReceiveSelectFails` | monitors/email_ping.go:252-258 | a failed SELECT after a good login ends the receive with "failed to select INBOX: " and the error, the SELECT being the last action |
| `EmailPingProperties.ReceiveSearchFails` | monitors/email_ping.go:266-273 | a failed first search ends the receive with "failed to search for emails: " and the error, the search being the last action |
| `EmailPing.WaitFrom` | monitors/email_ping.go:276-295 | the loop returns a non-empty set of identifiers or a failure with ping 0; it only adds sleeps and searches |
| `EmailPing.WaitFromObserved` | monitors/email_ping.go:278-295 | identifiers the loop returns are exactly the matches some poll from the current one on saw |
| `EmailPing.SearchReplies` | monitors/email_ping.go:266-300 | when waiting a match is never empty; a failure has ping 0; the trace only gains sleeps and searches for the criteria |
| `EmailPing.FindReplies` | monitors/email_ping.go:215-300 | connection then search; when waiting, a match is never empty; the trace extends the opening with sleeps and searches for this mail's reply |
| `EmailPing.FindRepliesObserved` | monitors/email_ping.go:262-295 | the identifiers a receive acts on are the matches seen by its first search or by one of the polls |
| `EmailPing.DeletionCalls` | monitors/email_ping.go:335-357 | every deletion call carries a failure prefix |
| `EmailPing.DeleteReplies` | monitors/email_ping.go:335-360 | success exactly when store, expunge and logout succeed, and then the trace gains exactly those three |
| `EmailPingProperties.DeleteRepliesStops` | monitors/email_ping.go:335-357 | the first failing STORE, EXPUNGE or LOGOUT ends the receive with that call's prefix and error, and no later call is made |
| `EmailPingProperties.StoreFailureStops` | monitors/email_ping.go:338-342 | a failed STORE ends the receive with "failed to set deleted flag: " and the error; EXPUNGE and LOGOUT never follow |
| `EmailPing.Settle` | monitors/email_ping.go:296-360 | a failed search phase is the receive's result as is; no identifiers is success with no further action; identifiers are handed to `DeleteReplies` on the search phase's trace |
| `EmailPing.Receive` | monitors/email_ping.go:215-361 | ping 0; an error always carries a message and success has none; the trace extends the opening and has no SMTP action |
| `EmailPing.Setup` | monitors/email_ping.go:364-508 | fails exactly when a required parameter is missing, naming the first missing one in the order of the checks (smtp_host first); the credentials may be empty; otherwise every field is copied |
| `EmailPingProperties.SmtpOpenForced` | monitors/email_ping.go:129-153 | with SMTP TLS forced, authentication is attempted only as the third action, right after STARTTLS |
| `EmailPingProperties.SendForcedTlsGuardsAuth` | monitors/email_ping.go:129-153 | with SMTP TLS forced, a send authenticates only as its third action, right after STARTTLS, never in clear text |
| `EmailPingProperties.SendRefusedWithoutStartTls` | monitors/email_ping.go:139-143 | with SMTP TLS forced, a server without STARTTLS ends the send right after the dial with the SMTP refusal message and error |
| `EmailPingProperties.ImapConnectForced` | monitors/email_ping.go:226-242 | with the SMTP force flag, a connection that goes on has dialed and then upgraded |
| `EmailPingProperties.ImapOpenForced` | monitors/email_ping.go:226-250 | with the SMTP force flag, the IMAP login is attempted only right after STARTTLS |
| `EmailPingProperties.ReceiveLoginsInOpening` | monitors/email_ping.go:244-250 | a receive logs in only during its opening |
| `EmailPingProperties.ReceiveForcedTlsGuardsLogin` | monitors/email_ping.go:226-249 | with the SMTP force flag, a receive logs in only as its third action, right after STARTTLS, never in clear text |
| `EmailPingProperties.ReceiveRefusedWithoutStartTls` | monitors/email_ping.go:237-239 | with the SMTP force flag, a server without STARTTLS ends the receive right after the dial with the IMAP refusal message and its different error text |
| `EmailPingProperties.ImapForceTlsIgnored` | monitors/email_ping.go:226-242 | changing `imap_force_tls` changes no cycle |
| `EmailPingProperties.ImapForceAloneAllowsClearLogin` | monitors/email_ping.go:237-249 | with only `imap_force_tls` set, a server without STARTTLS gets the login as the second action |
| `EmailPingProperties.Rounds` | monitors/email_ping.go:278-283 | the loop's rounds from poll k to poll j are 2(j-k+1) actions, each a one-second sleep or a search |
| `EmailPingProperties.WaitMiss` | monitors/email_ping.go:278-295 | a poll that finds nothing in time leads to the next poll |
| `EmailPingProperties.WaitHit` | monitors/email_ping.go:278-295 | a poll that finds replies in time ends the loop with them |
| `EmailPingProperties.WaitFindsFirstReply` | monitors/email_ping.go:276-295 | the loop stops at the first poll that sees replies in time, with one sleep and search per poll up to it |
| `EmailPingProperties.WaitTimesOutAt` | monitors/email_ping.go:278-295 | the loop gives up at the first poll made after the timeout, whatever it saw, with the timeout message and one sleep and search per poll up to it |
| `EmailPingProperties.WaitSearchFailed` | monitors/email_ping.go:283-288 | a poll whose search fails ends the loop with "failed to search for emails: " and the error, before the clock is read |
| `EmailPingProperties.WaitSearchFailsAt` | monitors/email_ping.go:278-295 | the loop gives up at the first poll whose search fails, with the search prefix and one sleep and search per poll up to it |
| `EmailPingProperties.ReceivePollSearchFails` | monitors/email_ping.go:276-288 | a search that fails while waiting ends the receive with the search prefix and the error, after one sleep and search per poll up to it |
| `EmailPingProperties.ReceiveRepliedAt` | monitors/email_ping.go:276-360 | a reply first seen in time at poll j, with STORE, EXPUNGE and LOGOUT succeeding, makes the receive succeed with exactly the opening, the first search, one sleep and search per poll up to j, and the three deletion calls on that poll's identifiers |
| `EmailPingProperties.ReceiveRepliedFirst` | monitors/email_ping.go:266-360 | replies found by the first search are deleted at once, waiting or not: success after the opening, one search and the three deletion calls |
| `EmailPingProperties.ReceiveDeletes` | monitors/email_ping.go:335-360 | a non-empty search result with STORE, EXPUNGE and LOGOUT succeeding is a successful receive ending with those three calls |
| `EmailPingProperties.ReceiveLateReplyTimesOut` | monitors/email_ping.go:276-295 | a reply first seen at any poll made after the timeout is not accepted: the receive fails with that poll's timeout message |
| `EmailPingProperties.ReceiveNoWaitNoReply` | monitors/email_ping.go:296-300 | without waiting, no reply is a success that neither deletes nor logs out |
| `EmailPingProperties.ReceiveSuccessDeletesReplies` | monitors/email_ping.go:335-360 | a successful waiting receive ends by flagging a non-empty set of observed replies, expunging and logging out |
| `EmailPingProperties.RunUpParts` | monitors/email_ping.go:91-114 | a cycle is up exactly when its pre-clean, send and receive all succeed, and an up cycle's trace is theirs in that order |
| `EmailPingProperties.RunPreCleanFailure` | monitors/email_ping.go:91-97 | a failed pre-clean ends the cycle down, with "error cleaning old responses: " prefixed, before any SMTP action |
| `EmailPingProperties.RunUp` | monitors/email_ping.go:91-114 | a cycle whose pre-clean, send and receive all succeed is up with "OK", the truncated round-trip seconds and no error, after exactly those three steps |
| `EmailPingProperties.RunReceiveFailure` | monitors/email_ping.go:107-111 | a failed waiting receive after a good send ends the cycle down with the receive's message and error and ping 0 |
| `EmailPingProperties.RunSendFailure` | monitors/email_ping.go:100-105 | a failed send ends the cycle with the send's message and error, and no IMAP action follows an SMTP one |
| `EmailPingProperties.ReceiveSearchesFor` | monitors/email_ping.go:262-283 | every search of a receive uses this mail's reply criteria |
| `EmailPingProperties.RunTraceParts` | monitors/email_ping.go:91-114 | every action of a cycle belongs to its pre-clean, its send or its receive |
| `EmailPingProperties.RunSearchesForThisSubject` | monitors/email_ping.go:262-264 | every search of a cycle looks for the reply to the subject sent in that cycle |
| `EmailPingProperties.SendRecordsPayload` | monitors/email_ping.go:178-189 | a successful send wrote the mail's payload |
| `EmailPingProperties.RunSuccessSent` | monitors/email_ping.go:100-105 | an up cycle wrote the composed mail |
| `EmailPingProperties.RunSuccessDeletes` | monitors/email_ping.go:107-114 | an up cycle ends by deleting a non-empty set of replies it observed, then expunging and logging out |

## Left out

- Logging (`log` and `zap` calls) is not modelled. A fatal log or a panic is
  a `Failure(SetupError)`; the text it logs is not.
- The HTTP GET of a report and its response handling are not modelled;
  `pushToHost` is never called by the agent, so only its URL is.
- The service wrapper in main.go (install, uninstall, start and stop) is not
  part of this model.
- The YAML configuration loading (config/config.go and config.go) is not part
  of this model. Absent fields read as the zero value.
- The disk usage reading (`du.NewDiskUsage` and its used fraction) is an
  input. A nil handle and a NaN fraction are both `Unusable`. In
  monitors/disk_usage.go the nil case would be dereferenced by the error log before the down result
  is returned, so only the NaN case reaches that return.
- The IMAP reply fetch that runs only at debug log level is left out. It can
  add the failure "failed to fetch the reply email: ".
- IMAP header search is case-insensitive. The model matches exact substrings.
- Mail address rendering (`mail.Address.String()`), the RFC 3339 time
  format, the UUID and the `%v` rendering of the elapsed seconds are inputs.
- `EmailPing.Send` and `EmailPing.Receive` model each network call as one
  step with a given outcome. Partial writes, reconnection and TLS itself are
  not modelled.
- `Scheduler.StartMonitors` runs each alive monitor once and returns the
  results, which the agent discards. Nothing in the agent repeats a run.
- DiskUsage.Percentage: computes `int(usage*100 + 0.5)` on exact reals,
  not in Go's float32, because floating point is not modelled. The two can
  differ on values close to a half percent: 30 of 2000 blocks used is the
  float32 0.0149999996, which Go rounds to 2 and the model to 1. The
  contracts of `Percentage`, `RoundsHalfUp`, `PercentageMonotone`,
  `UpIsDownwardClosed` and `DiskUsageMonitor.Run` are about the exact value.
