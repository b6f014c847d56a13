/** The `alive` monitor: it only tells the host that the agent process is
    running (monitors/alive.go). */
module Alive {
  import opened Results
  import opened Report
  import opened Configuration

  datatype AliveMonitor = AliveMonitor(name: string, host: string, key: string, interval: int) {

    function Name(): string { name }

    function Type(): string { "alive" }

    function HostURL(): string { host }

    function Key(): string { key }

    function Interval(): int { interval }

    /** An evaluation that cannot fail and always reports up. */
    function Run(): (r: MonitorResult)
      ensures r.status == Up && r.err == None
      ensures r.message == "OK" && r.ping == 0
    {
      MonitorResult(Up, "OK", 0, None)
    }
  }

  /** Building an alive monitor never fails; it keeps the configured
      identity and the already resolved host URL. */
  function Setup(host: string, cfg: MonitorConfig): (m: AliveMonitor)
    ensures m.Type() == "alive"
    ensures m.Name() == cfg.name && m.Key() == cfg.key && m.Interval() == cfg.interval
    ensures m.HostURL() == host
  {
    AliveMonitor(cfg.name, host, cfg.key, cfg.interval)
  }

  /** What an alive monitor pushes: the fixed query string for "up". */
  lemma AliveReportUrl(m: AliveMonitor)
    ensures var r := m.Run();
      ReportUrl(m.HostURL(), m.Key(), r.status, r.message, r.ping)
        == m.HostURL() + m.Key() + "?status=up&msg=OK&ping=0"
  {
    assert Numbers.IntToString(0) == "0";
  }
}
