/** `main`: parse the three logs, render their blocks and write each block
    into its region of the README. Reading and writing files is left to the
    caller: the logs and the README come in as text, a missing sweep log as
    `None`, and the new README goes out as the result. */
module Pipeline {
  import opened Options
  import opened Text
  import opened Segments
  import opened HttpLog
  import opened ConnectLog
  import opened SweepLog
  import opened Render
  import opened Patch

  const HttpRegion := "HTTP_RESULTS"
  const ConnectRegion := "CONNECT_RESULTS"
  const SweepRegion := "C10K_RESULTS"

  /** The three region names are made of name characters. */
  lemma RegionNames()
    ensures ValidName(HttpRegion) && ValidName(ConnectRegion) && ValidName(SweepRegion)
  {
  }

  /** The README with the three blocks written into their regions, in the
      order `main` writes them. */
  function Patched(readme: string, http: string, connect: string, sweep: string): string
    requires '\\' !in http && '\\' !in connect && '\\' !in sweep
  {
    RegionNames();
    ReplaceBlock(ReplaceBlock(ReplaceBlock(readme, HttpRegion, http), ConnectRegion, connect), SweepRegion, sweep)
  }

  /** The summary of the sweep log, or `None` when there is no such file. */
  function SweepOfLog(c10kLog: Option<string>): (r: Option<SweepSummary>)
    ensures r.Some? ==> r.value.sweep.Valid()
  {
    if c10kLog.Some? then Summarize(Sweep(LogLines(c10kLog.value))) else None
  }

  /** What `main` writes to the README, or why it stops. */
  ghost function Updated(style: Style, httpLog: string, connectLog: string, c10kLog: Option<string>, readme: string): Result<string> {
    var lines := LogLines(httpLog);
    if Aborts(lines) then Err(NonNumericPercentile)
    else
      var http := HttpBlock(style, HttpResults(lines));
      var connect := ConnectBlock(style, ConnectResults(LogLines(connectLog)));
      var sweep := SweepBlock(style, SweepOfLog(c10kLog));
      if http.Err? then Err(http.failure)
      else if '\\' in http.value || '\\' in connect || '\\' in sweep then Err(EscapeInBlock)
      else Ok(Patched(readme, http.value, connect, sweep))
  }

  /** `main` without its file handling. */
  method UpdateReadme(style: Style, httpLog: string, connectLog: string, c10kLog: Option<string>, readme: string)
    returns (r: Result<string>)
    ensures r == Updated(style, httpLog, connectLog, c10kLog, readme)
  {
    var httpResults := ParseHttpLog(httpLog);
    if httpResults.Err? {
      r := Err(NonNumericPercentile);
    } else {
      var connectResults := ParseConnectLog(connectLog);
      var summary: Option<SweepSummary> := None;
      if c10kLog.Some? {
        summary := ParseC10kLog(c10kLog.value);
      }
      var http := FormatHttpBlock(style, httpResults.value);
      if http.Err? {
        r := Err(http.failure);
      } else {
        var connect := FormatConnectBlock(style, connectResults);
        var sweep := FormatSweepBlock(style, summary);
        if '\\' in http.value || '\\' in connect || '\\' in sweep {
          r := Err(EscapeInBlock);
        } else {
          r := Ok(Patched(readme, http.value, connect, sweep));
        }
      }
    }
  }

  /** A README without any of the three start sentinels is written back as
      it was. */
  lemma NoRegionsUnchanged(style: Style, httpLog: string, connectLog: string, c10kLog: Option<string>, readme: string)
    requires !Contains(readme, StartSentinel(HttpRegion))
    requires !Contains(readme, StartSentinel(ConnectRegion))
    requires !Contains(readme, StartSentinel(SweepRegion))
    ensures var r := Updated(style, httpLog, connectLog, c10kLog, readme);
            r.Ok? ==> r.value == readme
  {
    var r := Updated(style, httpLog, connectLog, c10kLog, readme);
    if r.Ok? {
      var lines := LogLines(httpLog);
      var http := HttpBlock(style, HttpResults(lines)).value;
      var connect := ConnectBlock(style, ConnectResults(LogLines(connectLog)));
      var sweep := SweepBlock(style, SweepOfLog(c10kLog));
      RegionNames();
      MissingRegionUnchanged(readme, HttpRegion, http);
      MissingRegionUnchanged(readme, ConnectRegion, connect);
      MissingRegionUnchanged(readme, SweepRegion, sweep);
    }
  }
}
