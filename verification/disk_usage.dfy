/** The `disk_usage` monitor: reports down once the used share of a file
    system reaches a configured percentage (monitors/disk_usage.go). */
module DiskUsage {
  import opened Results
  import opened Numbers
  import opened Report
  import opened Configuration

  datatype DiskUsageMonitor = DiskUsageMonitor(
    name: string,
    host: string,
    key: string,
    interval: int,
    fileSystem: string,
    downThreshold: int
  ) {

    function Name(): string { name }

    function Type(): string { "disk_usage" }

    function HostURL(): string { host }

    function Key(): string { key }

    function Interval(): int { interval }

    /** One evaluation against a disk reading. An unusable reading is not an
        error: it is reported as down like any other result. */
    function Run(reading: Reading): (r: MonitorResult)
      ensures r.err == None
      ensures reading.Unusable? ==> r == MonitorResult(Down, "Error getting disk usage", 0, None)
      ensures reading.Usage? ==> r.ping == Percentage(reading.fraction)
      ensures reading.Usage? ==> (r.status == Up <==> r.ping < downThreshold)
      ensures reading.Usage? && r.status == Up ==> r.message == "OK"
      ensures reading.Usage? && r.status == Down ==> r.message == ThresholdMessage(downThreshold)
    {
      match reading
      case Unusable => MonitorResult(Down, "Error getting disk usage", 0, None)
      case Usage(fraction) =>
        var percentage := Percentage(fraction);
        if percentage < downThreshold then MonitorResult(Up, "OK", percentage, None)
        else MonitorResult(Down, ThresholdMessage(downThreshold), percentage, None)
    }
  }

  /** What the disk library reports: either a used fraction of the file
      system, or nothing usable (a nil handle or a NaN fraction). */
  datatype Reading = Unusable | Usage(fraction: real)

  /** `int(usage*100 + 0.5)` on the exact value (Go computes it in float32):
      round half up for non-negative usage, then Go's truncating
      conversion. */
  function Percentage(usage: real): (p: int)
    ensures 0.0 <= usage ==> p as real - 0.5 <= usage * 100.0 < p as real + 0.5
    ensures 0.0 <= usage <= 1.0 ==> 0 <= p <= 100
  {
    TruncToInt(usage * 100.0 + 0.5)
  }

  function ThresholdMessage(threshold: int): string {
    "Exceeds threshold of " + IntToString(threshold) + "%"
  }

  /** A fuller disk never reads as a smaller percentage. */
  lemma PercentageMonotone(u1: real, u2: real)
    requires 0.0 <= u1 <= u2
    ensures Percentage(u1) <= Percentage(u2)
  {
    assert (u1 * 100.0 + 0.5).Floor <= (u2 * 100.0 + 0.5).Floor;
  }

  /** On exact values, halves round up, never to even. */
  lemma RoundsHalfUp()
    ensures Percentage(0.125) == 13
    ensures Percentage(0.745) == 75
    ensures Percentage(0.0) == 0 && Percentage(1.0) == 100
  {
  }

  /** If a reading is up, every smaller reading is up as well, and so is
      the same reading under any higher threshold. */
  lemma UpIsDownwardClosed(m: DiskUsageMonitor, u1: real, u2: real, higher: int)
    requires 0.0 <= u1 <= u2
    requires m.Run(Usage(u2)).status == Up
    requires higher >= m.downThreshold
    ensures m.Run(Usage(u1)).status == Up
    ensures m.(downThreshold := higher).Run(Usage(u2)).status == Up
  {
    PercentageMonotone(u1, u2);
  }

  /** 50 of 200 blocks available means 75 percent used: up below a
      threshold of 80, down with the threshold named at 70. */
  lemma ThresholdExample(m: DiskUsageMonitor)
    ensures m.(downThreshold := 80).Run(Usage(0.75)) == MonitorResult(Up, "OK", 75, None)
    ensures m.(downThreshold := 70).Run(Usage(0.75))
      == MonitorResult(Down, "Exceeds threshold of 70%", 75, None)
  {
    assert Percentage(0.75) == 75;
    assert IntToString(70) == "70";
  }

  /** Building a disk-usage monitor: the file system must be named and the
      threshold non-zero, checked in that order; everything is copied. */
  function Setup(host: string, cfg: MonitorConfig): (r: Result<DiskUsageMonitor, SetupError>)
    ensures r.Success? <==> cfg.fileSystem != "" && cfg.downThreshold != 0
    ensures cfg.fileSystem == "" ==> r == Failure(MissingParameter(cfg.name, cfg.kind, "file_system"))
    ensures cfg.fileSystem != "" && cfg.downThreshold == 0
      ==> r == Failure(MissingParameter(cfg.name, cfg.kind, "down_threshold"))
    ensures r.Success? ==> var m := r.value;
      && m.Type() == "disk_usage"
      && m.Name() == cfg.name && m.HostURL() == host && m.Key() == cfg.key
      && m.Interval() == cfg.interval
      && m.fileSystem == cfg.fileSystem && m.downThreshold == cfg.downThreshold
  {
    var checks := [
      Check("file_system", cfg.fileSystem == ""),
      Check("down_threshold", cfg.downThreshold == 0)
    ];
    match FirstMissing(checks)
    case Some(parameter) => Failure(MissingParameter(cfg.name, cfg.kind, parameter))
    case None =>
      assert !checks[0].missing && !checks[1].missing;
      Success(DiskUsageMonitor(cfg.name, host, cfg.key, cfg.interval, cfg.fileSystem, cfg.downThreshold))
  }
}
