/** `parse_connect_log`: one record per `===` section of the connection-rate
    log (ab and wrk output). */
module ConnectLog {
  import opened Options
  import opened Text
  import opened Numbers
  import opened Dicts
  import opened Segments

  /** The fields the script fills in; `None` where the dict has no key. */
  datatype ConnectRecord = ConnectRecord(abRps: Option<real>, abTp: Option<string>)

  const NoConnectFields := ConnectRecord(None, None)

  /** `float(line.split(":")[1].split()[0])` on a line containing
      "Requests per second:" (ab's shape); `None` where that raises. */
  function AbRateReading(line: string): Option<real> {
    if Contains(line, "Requests per second:") then
      ContainsChar(line, "Requests per second:", 19);
      var w := Words(AfterColon(line));
      if |w| > 0 then ParseFloat(w[0]) else None
    else None
  }

  /** `float(line.split(":")[1].strip())` on a line containing
      "Requests/sec:" (wrk's shape); `None` where that raises. */
  function WrkRateReading(line: string): Option<real> {
    if Contains(line, "Requests/sec:") then
      ContainsChar(line, "Requests/sec:", 12);
      ParseFloat(Strip(AfterColon(line)))
    else None
  }

  /** The rate one line sets. The wrk assignment comes second in the
      script, so it wins on a line with both shapes whenever it parses. */
  function RateReading(line: string): Option<real> {
    if WrkRateReading(line).Some? then WrkRateReading(line) else AbRateReading(line)
  }

  /** `line.split(":")[1].strip()` on a line containing "Transfer rate:" or
      "Transfer/sec:"; both assignments store the same text. */
  function TransferReading(line: string): Option<string> {
    if Contains(line, "Transfer rate:") then
      ContainsChar(line, "Transfer rate:", 13);
      Some(Strip(AfterColon(line)))
    else if Contains(line, "Transfer/sec:") then
      ContainsChar(line, "Transfer/sec:", 12);
      Some(Strip(AfterColon(line)))
    else None
  }

  /** The record of one section: both fields keep the last value read. */
  function Extract(body: seq<string>): ConnectRecord {
    ConnectRecord(Pick(LastWins, body, RateReading), Pick(LastWins, body, TransferReading))
  }

  /** A record after one more line of its section. */
  function Advance(record: ConnectRecord, line: string): ConnectRecord {
    ConnectRecord(
      if RateReading(line).Some? then RateReading(line) else record.abRps,
      if TransferReading(line).Some? then TransferReading(line) else record.abTp)
  }

  /** Each label with the record of its latest section, labels in order of
      first appearance. */
  function ConnectResults(lines: seq<string>): Dict<string, ConnectRecord> {
    Collect(Sections(lines, Marker), LabelOf, Extract)
  }

  /** `parse_connect_log(path)` on the file's text. It never fails: every
      conversion that can raise is inside a `try`. */
  method ParseConnectLog(text: string) returns (results: Dict<string, ConnectRecord>)
    ensures results == ConnectResults(LogLines(text)) && results.Valid()
  {
    var lines := LogLines(text);
    results := Empty();
    var current: Option<string> := None;
    var i := 0;
    while i < |lines|
      invariant i <= |lines|
      invariant results == ConnectResults(lines[..i])
      invariant current == Current(Sections(lines[..i], Marker), LabelOf)
    {
      var line := lines[i];
      ConnectStep(lines, i);
      if StartsWith(line, Marker) {
        var name := LabelOf(line);
        current := Some(name);
        results := results.Put(name, NoConnectFields);
      } else if current.Some? {
        var next := ReadConnectLine(results.vals[current.value], line);
        results := results.Put(current.value, next);
      }
      i := i + 1;
    }
    assert lines[..i] == lines;
  }

  /** The body of the loop for one line inside a section: the four `if`s
      of the script, in order. */
  method ReadConnectLine(record: ConnectRecord, line: string) returns (next: ConnectRecord)
    ensures next == Advance(record, line)
  {
    next := record;
    if Contains(line, "Requests per second:") {
      var v := AbRateReading(line);
      if v.Some? {
        next := next.(abRps := v);
      }
    }
    if Contains(line, "Requests/sec:") {
      var v := WrkRateReading(line);
      if v.Some? {
        next := next.(abRps := v);
      }
    }
    if Contains(line, "Transfer rate:") {
      ContainsChar(line, "Transfer rate:", 13);
      next := next.(abTp := Some(Strip(AfterColon(line))));
    }
    if Contains(line, "Transfer/sec:") {
      ContainsChar(line, "Transfer/sec:", 12);
      next := next.(abTp := Some(Strip(AfterColon(line))));
    }
  }

  /** One more line of the log, as the loop of `parse_connect_log` treats it. */
  lemma ConnectStep(log: seq<string>, i: nat)
    requires i < |log|
    ensures var lines, line, cur := log[..i], log[i], Current(Sections(log[..i], Marker), LabelOf);
      && (StartsWith(line, Marker) ==>
            && ConnectResults(log[..i + 1]) == ConnectResults(lines).Put(LabelOf(line), NoConnectFields)
            && Current(Sections(log[..i + 1], Marker), LabelOf) == Some(LabelOf(line)))
      && (!StartsWith(line, Marker) ==> Current(Sections(log[..i + 1], Marker), LabelOf) == cur)
      && (!StartsWith(line, Marker) && cur.None? ==> ConnectResults(log[..i + 1]) == ConnectResults(lines))
      && (!StartsWith(line, Marker) && cur.Some? ==>
            && cur.value in ConnectResults(lines).vals
            && ConnectResults(log[..i + 1]) ==
               ConnectResults(lines).Put(cur.value, Advance(ConnectResults(lines).vals[cur.value], line)))
  {
    var lines, line := log[..i], log[i];
    assert log[..i + 1] == lines + [line];
    var secs := Sections(lines, Marker);
    SectionsSnoc(lines, line, Marker);
    if StartsWith(line, Marker) {
      CollectExtendHeader(secs, line, Marker, LabelOf, Extract);
      assert Extract([]) == NoConnectFields;
    } else if |secs| > 0 {
      CollectExtendBody(secs, line, Marker, LabelOf, Extract);
      ExtractSnoc(secs[|secs| - 1].body, line);
    }
  }

  /** The record of a section after one more line, field by field. */
  lemma ExtractSnoc(body: seq<string>, line: string)
    ensures Extract(body + [line]) == Advance(Extract(body), line)
  {
    PickSnoc(LastWins, body, line, RateReading);
    PickSnoc(LastWins, body, line, TransferReading);
  }

  /** Last wins across lines: the rate of a section is the one read from
      its last line that gives a rate, whichever of the two shapes that
      line has. */
  lemma RateLastWins(body: seq<string>, i: nat)
    requires i < |body| && RateReading(body[i]).Some?
    requires forall j | i < j < |body| :: RateReading(body[j]).None?
    ensures Extract(body).abRps == RateReading(body[i])
  {
    LastReadAt(body, RateReading, i);
  }

  /** Both shapes in one section, ab's first: the later wrk line sets the
      rate. */
  lemma AbThenWrk(ab: string, wrk: string)
    requires AbRateReading(ab).Some? && WrkRateReading(wrk).Some?
    ensures Extract([ab, wrk]).abRps == WrkRateReading(wrk)
  {
    LastReadAt([ab, wrk], RateReading, 1);
  }

  /** Both shapes in one section, wrk's first: the later ab line sets the
      rate, unless that line also holds a wrk rate. */
  lemma WrkThenAb(wrk: string, ab: string)
    requires WrkRateReading(wrk).Some? && AbRateReading(ab).Some? && WrkRateReading(ab).None?
    ensures Extract([wrk, ab]).abRps == AbRateReading(ab)
  {
    LastReadAt([wrk, ab], RateReading, 1);
  }

  /** Transfer text is last-wins too. */
  lemma TransferLastWins(body: seq<string>, i: nat)
    requires i < |body| && TransferReading(body[i]).Some?
    requires forall j | i < j < |body| :: TransferReading(body[j]).None?
    ensures Extract(body).abTp == TransferReading(body[i])
  {
    LastReadAt(body, TransferReading, i);
  }
}
