/** Setting up and starting the configured monitors (monitors/monitors.go):
    resolve each entry's host, make its URL end with '/', build the monitor
    its type names, then run every monitor once. Any setup error stops the
    agent; the model returns it as a `Failure`. */
module Scheduler {
  import opened Results
  import opened Strings
  import opened Report
  import opened Configuration
  import Alive

  /** The URL of the first host called `name`, if any host is. A later host
      of the same name is never consulted, even when the first one's URL is
      empty. */
  function FindHost(hosts: seq<Host>, name: string): (r: Option<string>)
    ensures r.None? <==> forall i :: 0 <= i < |hosts| ==> hosts[i].name != name
    ensures r.Some? ==> exists i :: (0 <= i < |hosts| && hosts[i].name == name && hosts[i].url == r.value
      && forall j :: 0 <= j < i ==> hosts[j].name != name)
    decreases |hosts|
  {
    if |hosts| == 0 then None
    else if hosts[0].name == name then Some(hosts[0].url)
    else
      var rest := FindHost(hosts[1..], name);
      assert forall j :: 1 <= j < |hosts| ==> hosts[j] == hosts[1..][j - 1];
      rest
  }

  /** The host URL with a trailing '/': the URL itself when it already has
      one, else the URL with one appended. */
  function WithTrailingSlash(url: string): (r: string)
    requires |url| > 0
    ensures url <= r && |r| <= |url| + 1
    ensures EndsWith(r, "/")
    ensures r == url <==> EndsWith(url, "/")
  {
    if url[|url| - 1..] != "/" then url + "/" else url
  }

  /** Adding the slash twice changes nothing. */
  lemma WithTrailingSlashIdempotent(url: string)
    requires |url| > 0
    ensures WithTrailingSlash(WithTrailingSlash(url)) == WithTrailingSlash(url)
  {
  }

  /** The host name leads to a non-empty URL. */
  predicate Resolves(hosts: seq<Host>, name: string) {
    var url := FindHost(hosts, name);
    url.Some? && url.value != ""
  }

  /** One entry of the monitors list: the host first (missing, or with an
      empty URL), then the type. Only "alive" is dispatched; every other
      type, "disk_usage" and "email_ping" included, is unknown here. */
  function SetupEntry(hosts: seq<Host>, cfg: MonitorConfig): (r: Result<Alive.AliveMonitor, SetupError>)
    ensures !Resolves(hosts, cfg.host) ==> r == Failure(HostNotFound(cfg.host))
    ensures Resolves(hosts, cfg.host) && cfg.kind != "alive" ==> r == Failure(UnknownType(cfg.kind))
    ensures r.Success? <==> Resolves(hosts, cfg.host) && cfg.kind == "alive"
    ensures r.Success? ==> var m := r.value;
      && m.Name() == cfg.name && m.Key() == cfg.key && m.Interval() == cfg.interval
      && m.HostURL() == WithTrailingSlash(FindHost(hosts, cfg.host).value)
  {
    match FindHost(hosts, cfg.host)
    case None => Failure(HostNotFound(cfg.host))
    case Some(url) =>
      if url == "" then Failure(HostNotFound(cfg.host))
      else
        var host := WithTrailingSlash(url);
        if cfg.kind == "alive" then Success(Alive.Setup(host, cfg))
        else Failure(UnknownType(cfg.kind))
  }

  /** `SetupMonitors`, setup half: no entries is an error; otherwise the
      entries are set up in order and the first error stops the agent. */
  method SetupMonitors(c: Config) returns (r: Result<seq<Alive.AliveMonitor>, SetupError>)
    ensures |c.monitors| == 0 ==> r == Failure(NoMonitors)
    ensures r.Success? <==> |c.monitors| > 0 && forall i :: 0 <= i < |c.monitors| ==> SetupEntry(c.hosts, c.monitors[i]).Success?
    ensures r.Success? ==> (|r.value| == |c.monitors|
      && forall i :: 0 <= i < |c.monitors| ==> SetupEntry(c.hosts, c.monitors[i]) == Success(r.value[i]))
    ensures r.Failure? && |c.monitors| > 0 ==> exists i :: (0 <= i < |c.monitors|
      && SetupEntry(c.hosts, c.monitors[i]) == Failure(r.error)
      && forall j :: 0 <= j < i ==> SetupEntry(c.hosts, c.monitors[j]).Success?)
  {
    if |c.monitors| == 0 {
      return Failure(NoMonitors);
    }
    var monitors: seq<Alive.AliveMonitor> := [];
    var i := 0;
    while i < |c.monitors|
      invariant 0 <= i <= |c.monitors|
      invariant |monitors| == i
      invariant forall j :: 0 <= j < i ==> SetupEntry(c.hosts, c.monitors[j]) == Success(monitors[j])
    {
      var entry := SetupEntry(c.hosts, c.monitors[i]);
      if entry.Failure? {
        return Failure(entry.error);
      }
      var next := monitors + [entry.value];
      forall j | 0 <= j <= i
        ensures SetupEntry(c.hosts, c.monitors[j]) == Success(next[j])
      {
        if j < i {
          assert next[j] == monitors[j];
        }
      }
      monitors, i := next, i + 1;
    }
    return Success(monitors);
  }

  /** `SetupMonitors`, start half: every monitor is run once, in order. */
  method StartMonitors(monitors: seq<Alive.AliveMonitor>) returns (results: seq<MonitorResult>)
    ensures |results| == |monitors|
    ensures forall i :: 0 <= i < |monitors| ==> results[i] == monitors[i].Run()
  {
    results := [];
    var i := 0;
    while i < |monitors|
      invariant 0 <= i <= |monitors|
      invariant |results| == i
      invariant forall j :: 0 <= j < i ==> results[j] == monitors[j].Run()
    {
      results := results + [monitors[i].Run()];
      i := i + 1;
    }
  }

  /** Every monitor the agent can set up reports "up" with message "OK" and
      ping 0 to its host, under a URL of the form `<host>/<key>?...`. */
  lemma SetUpMonitorsReportUp(hosts: seq<Host>, cfg: MonitorConfig)
    requires SetupEntry(hosts, cfg).Success?
    ensures var m := SetupEntry(hosts, cfg).value;
      var r := m.Run();
      && r == MonitorResult(Up, "OK", 0, None)
      && ReportUrl(m.HostURL(), m.Key(), r.status, r.message, r.ping)
        == m.HostURL() + cfg.key + "?status=up&msg=OK&ping=0"
      && EndsWith(m.HostURL(), "/")
  {
    Alive.AliveReportUrl(SetupEntry(hosts, cfg).value);
  }
}
