/** The loaded configuration as plain records (the YAML reading itself is
    not modelled), the setup errors that the agent treats as fatal, and the
    "first missing required parameter" rule shared by the monitor kinds. */
module Configuration {
  import opened Results

  datatype Host = Host(name: string, url: string)

  /** One entry of the `monitors` list. The kind-specific fields are
      present for every entry; a kind that does not use a field ignores it,
      and an absent YAML field reads as "" / 0 / false. */
  datatype MonitorConfig = MonitorConfig(
    name: string,
    kind: string,
    host: string,
    key: string,
    interval: int,
    // disk_usage
    fileSystem: string,
    downThreshold: int,
    // email_ping
    smtpHost: string,
    smtpPort: int,
    smtpForceTls: bool,
    smtpSenderAddress: string,
    smtpRecipientAddress: string,
    smtpUsername: string,
    smtpPassword: string,
    imapHost: string,
    imapPort: int,
    imapForceTls: bool,
    imapUsername: string,
    imapPassword: string,
    messageSubject: string,
    messageBody: string,
    responseSubject: string,
    timeout: int
  )

  datatype Config = Config(nodeName: string, hosts: seq<Host>, monitors: seq<MonitorConfig>)

  /** Conditions the agent refuses to start with. */
  datatype SetupError =
    | NoMonitors
    | HostNotFound(host: string)
    | UnknownType(kind: string)
    | MissingParameter(monitor: string, kind: string, parameter: string)

  /** One presence check of a setup routine, in the order it is made. */
  datatype Check = Check(parameter: string, missing: bool)

  /** The parameter of the first failing check, if any. */
  function FirstMissing(checks: seq<Check>): (r: Option<string>)
    ensures r.None? <==> forall i :: 0 <= i < |checks| ==> !checks[i].missing
    ensures r.Some? ==> exists i :: (0 <= i < |checks| && checks[i].missing
      && checks[i].parameter == r.value
      && forall j :: 0 <= j < i ==> !checks[j].missing)
    decreases |checks|
  {
    if |checks| == 0 then None
    else if checks[0].missing then Some(checks[0].parameter)
    else
      var rest := FirstMissing(checks[1..]);
      assert forall j :: 1 <= j < |checks| ==> checks[j] == checks[1..][j - 1];
      rest
  }
}
