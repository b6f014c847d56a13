/** Monitor status values, the evaluation result every monitor returns,
    and the URL the agent pushes a result to (monitors/monitors.go). */
module Report {
  import opened Results
  import opened Strings
  import opened Numbers

  datatype Status = Up | Down

  /** The wire spelling of a status. */
  function StatusText(s: Status): (r: string)
    ensures r == "up" || r == "down"
    ensures r == "up" <==> s == Up
  {
    match s
    case Up => "up"
    case Down => "down"
  }

  /** What a monitor's `Run` returns: status, message, ping and an error
      (None standing for Go's nil). */
  datatype MonitorResult = MonitorResult(status: Status, message: string, ping: int, err: Option<string>)

  /** The report URL: host, key and the three query parameters, joined by
      plain concatenation. The message is not percent-encoded. */
  function ReportUrl(host: string, key: string, status: Status, message: string, ping: int): (r: string)
    ensures host + key + "?status=" <= r
    ensures EndsWith(r, "&ping=" + IntToString(ping))
  {
    var tail := "&ping=" + IntToString(ping);
    var r := (host + key + "?status=") + (StatusText(status) + "&msg=" + (message + "&ping=" + IntToString(ping)));
    assert r[|r| - |tail|..] == tail;
    r
  }

  /** Reads status, message and ping back out of a report URL for a known
      host and key. */
  function ParseReport(host: string, key: string, url: string): Option<(Status, string, int)> {
    var prefix := host + key + "?status=";
    if !(prefix <= url) then None
    else
      match SplitStatus(url[|prefix|..])
      case None => None
      case Some((status, fields)) =>
        match SplitPing(fields)
        case None => None
        case Some((message, ping)) => Some((status, message, ping))
  }

  /** Splits `<status>&msg=<rest>`. */
  function SplitStatus(rest: string): Option<(Status, string)> {
    if "up&msg=" <= rest then Some((Up, rest[|"up&msg="|..]))
    else if "down&msg=" <= rest then Some((Down, rest[|"down&msg="|..]))
    else None
  }

  /** Splits `<message>&ping=<decimal>`. The ping is the text after the
      last `&`, so a message that itself contains `&` is recovered whole. */
  function SplitPing(fields: string): Option<(string, int)> {
    match LastIndexOf(fields, '&')
    case None => None
    case Some(k) =>
      if !("&ping=" <= fields[k..]) then None
      else
        match ParseInt(fields[k + |"&ping="|..])
        case None => None
        case Some(ping) => Some((fields[..k], ping))
  }

  /** The report of an up result with ping 5 for key "abc" on host
      "https://h/". */
  lemma ReportUrlExample()
    ensures ReportUrl("https://h/", "abc", Up, "OK", 5) == "https://h/abc?status=up&msg=OK&ping=5"
  {
    assert IntToString(5) == "5";
  }

  lemma DecimalHasNoAmpersand(i: int)
    ensures forall j :: 0 <= j < |IntToString(i)| ==> IntToString(i)[j] != '&'
  {
    var d := IntToString(i);
    forall j | 0 <= j < |d|
      ensures d[j] != '&'
    {
      if j > 0 {
        assert d[j] == d[1..][j - 1];
      }
    }
  }

  lemma SplitStatusRoundTrip(status: Status, fields: string)
    ensures SplitStatus(StatusText(status) + "&msg=" + fields) == Some((status, fields))
  {
    var rest := StatusText(status) + "&msg=" + fields;
    if status == Up {
      assert rest[|"up&msg="|..] == fields;
    } else {
      assert rest[0] == 'd';
      assert rest[|"down&msg="|..] == fields;
    }
  }

  lemma SplitPingRoundTrip(message: string, ping: int)
    ensures SplitPing(message + "&ping=" + IntToString(ping)) == Some((message, ping))
  {
    var decimal := IntToString(ping);
    var fields := message + "&ping=" + decimal;
    DecimalHasNoAmpersand(ping);
    assert fields[|message|] == '&';
    forall j | |message| < j < |fields|
      ensures fields[j] != '&'
    {
      if j >= |message| + 6 {
        assert fields[j] == decimal[j - |message| - 6];
      }
    }
    assert LastIndexOf(fields, '&') == Some(|message|);
    assert fields[|message|..] == "&ping=" + decimal;
    assert fields[|message| + 6..] == decimal;
    assert fields[..|message|] == message;
    IntToStringRoundTrip(ping);
  }

  /** Every report is decodable: given the host and key, the status, the
      message (whatever characters it holds) and the ping come back. */
  lemma ReportUrlRoundTrip(host: string, key: string, status: Status, message: string, ping: int)
    ensures ParseReport(host, key, ReportUrl(host, key, status, message, ping)) == Some((status, message, ping))
  {
    var prefix := host + key + "?status=";
    var fields := message + "&ping=" + IntToString(ping);
    var rest := StatusText(status) + "&msg=" + fields;
    var url := ReportUrl(host, key, status, message, ping);
    assert url[|prefix|..] == rest;
    SplitStatusRoundTrip(status, fields);
    SplitPingRoundTrip(message, ping);
  }

  /** Two different reports to the same host and key never produce the
      same URL. */
  lemma ReportUrlInjective(host: string, key: string, s1: Status, m1: string, p1: int, s2: Status, m2: string, p2: int)
    requires ReportUrl(host, key, s1, m1, p1) == ReportUrl(host, key, s2, m2, p2)
    ensures s1 == s2 && m1 == m2 && p1 == p2
  {
    ReportUrlRoundTrip(host, key, s1, m1, p1);
    ReportUrlRoundTrip(host, key, s2, m2, p2);
  }
}
