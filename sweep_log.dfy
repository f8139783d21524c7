/** `parse_c10k_log`: the concurrency sweep, one throughput per `=== C=<n>`
    level, and its summary. */
module SweepLog {
  import opened Options
  import opened Text
  import opened Numbers
  import opened Dicts
  import opened Segments

  /** The delimiter of a sweep log. */
  const LevelMarker := "=== C="

  /** The checkpoint level reported on its own line. */
  const Checkpoint: nat := 10000

  /** `re.search(r"C=([0-9]+)", s)`: the number after the first "C=" that is
      followed by a digit, `None` when there is no such place. */
  function SearchLevel(s: string): Option<nat>
    decreases |s|
  {
    if |s| < 3 then None
    else if s[0] == 'C' && s[1] == '=' && IsDigit(s[2]) then
      var n := DigitRun(s[2..]);
      Some(DigitsValue(s[2..][..n]))
    else SearchLevel(s[1..])
  }

  /** The throughput a line gives: `float(line.split(":")[1].strip())` on a
      line containing "Requests/sec:", and 0.0 where that raises. */
  function RpsReading(line: string): Option<real> {
    if Contains(line, "Requests/sec:") then
      ContainsChar(line, "Requests/sec:", 12);
      Some(ParseFloat(Strip(AfterColon(line))).GetOr(0.0))
    else None
  }

  /** The throughput a level section records: that of its first
      "Requests/sec:" line, since the level is cleared once it is stored. */
  function SectionRps(body: seq<string>): Option<real> {
    FirstRead(body, RpsReading)
  }

  /** The sweep after some sections: each section with a level and a
      throughput stores it under the level, in section order. */
  function SweepOf(secs: seq<Section>): (d: Dict<nat, real>)
    ensures d.Valid()
    decreases |secs|
  {
    if |secs| == 0 then Empty()
    else
      var d := SweepOf(secs[..|secs| - 1]);
      var last := secs[|secs| - 1];
      var level, rps := SearchLevel(last.header), SectionRps(last.body);
      if level.Some? && rps.Some? then d.Put(level.value, rps.value) else d
  }

  /** The `sweep` dict of a log. */
  function Sweep(lines: seq<string>): Dict<nat, real> {
    SweepOf(Sections(lines, LevelMarker))
  }

  /** The level waiting for its throughput line: that of the last section
      opened, as long as none of its lines has given a throughput yet. */
  function Pending(secs: seq<Section>): Option<nat> {
    if |secs| == 0 then None
    else if SectionRps(secs[|secs| - 1].body).Some? then None
    else SearchLevel(secs[|secs| - 1].header)
  }

  /** What `parse_c10k_log` returns for a sweep that is not empty. */
  datatype SweepSummary = SweepSummary(bestC: nat, bestRps: real, c10k: Option<real>, sweep: Dict<nat, real>)

  /** `max(sweep, key=lambda k: sweep[k])`, as a position in the keys: the
      first key, in insertion order, whose value no other key exceeds. */
  function BestIndex(keys: seq<nat>, vals: map<nat, real>): (b: nat)
    requires |keys| > 0 && forall i | 0 <= i < |keys| :: keys[i] in vals
    ensures b < |keys|
    ensures forall j | 0 <= j < |keys| :: vals[keys[j]] <= vals[keys[b]]
    ensures forall j | 0 <= j < b :: vals[keys[j]] < vals[keys[b]]
    decreases |keys|
  {
    if |keys| == 1 then 0
    else
      var b := BestIndex(keys[..|keys| - 1], vals);
      if vals[keys[|keys| - 1]] > vals[keys[b]] then |keys| - 1 else b
  }

  /** Lines 116-123 of the script: `{}` for an empty sweep, otherwise the
      best level, its throughput, the checkpoint's throughput when it was
      measured, and the sweep itself. */
  function Summarize(sweep: Dict<nat, real>): (r: Option<SweepSummary>)
    requires sweep.Valid()
    ensures r.None? <==> |sweep.keys| == 0
    ensures r.Some? ==> r.value.sweep == sweep && r.value.bestC in sweep.vals
    ensures r.Some? ==> r.value.bestRps == sweep.vals[r.value.bestC]
    ensures r.Some? ==> forall c | c in sweep.vals :: sweep.vals[c] <= r.value.bestRps
    ensures r.Some? ==> forall j, k | 0 <= j < k < |sweep.keys| && sweep.keys[k] == r.value.bestC ::
                          sweep.vals[sweep.keys[j]] < r.value.bestRps
    ensures r.Some? ==> (r.value.c10k.Some? <==> Checkpoint in sweep.vals)
    ensures r.Some? && Checkpoint in sweep.vals ==> r.value.c10k == Some(sweep.vals[Checkpoint])
  {
    if |sweep.keys| == 0 then None
    else
      var b := sweep.keys[BestIndex(sweep.keys, sweep.vals)];
      Some(SweepSummary(
        b, sweep.vals[b],
        if Checkpoint in sweep.vals then Some(sweep.vals[Checkpoint]) else None,
        sweep))
  }

  /** `parse_c10k_log(path)` on the file's text; `None` stands for `{}`. */
  method ParseC10kLog(text: string) returns (r: Option<SweepSummary>)
    ensures r == Summarize(Sweep(LogLines(text)))
  {
    var lines := LogLines(text);
    var sweep: Dict<nat, real> := Empty();
    var current: Option<nat> := None;
    var i := 0;
    while i < |lines|
      invariant i <= |lines|
      invariant sweep == Sweep(lines[..i])
      invariant current == Pending(Sections(lines[..i], LevelMarker))
    {
      var line := lines[i];
      SweepStep(lines, i);
      if StartsWith(line, LevelMarker) {
        current := SearchLevel(line);
      } else if current.Some? && Contains(line, "Requests/sec:") {
        ContainsChar(line, "Requests/sec:", 12);
        var parsed := ParseFloat(Strip(AfterColon(line)));
        var rps := if parsed.Some? then parsed.value else 0.0;
        sweep := sweep.Put(current.value, rps);
        current := None;
      }
      i := i + 1;
    }
    assert lines[..i] == lines;
    r := Summarize(sweep);
  }

  /** One more line of the log, as the loop of `parse_c10k_log` treats it. */
  lemma SweepStep(log: seq<string>, i: nat)
    requires i < |log|
    ensures var lines, line := log[..i], log[i];
      var pending := Pending(Sections(lines, LevelMarker));
      var next := Sections(log[..i + 1], LevelMarker);
      && (StartsWith(line, LevelMarker) ==>
            Sweep(log[..i + 1]) == Sweep(lines) && Pending(next) == SearchLevel(line))
      && (!StartsWith(line, LevelMarker) && (pending.None? || RpsReading(line).None?) ==>
            Sweep(log[..i + 1]) == Sweep(lines) && Pending(next) == pending)
      && (!StartsWith(line, LevelMarker) && pending.Some? && RpsReading(line).Some? ==>
            Sweep(log[..i + 1]) == Sweep(lines).Put(pending.value, RpsReading(line).value) &&
            Pending(next) == None)
  {
    var lines, line := log[..i], log[i];
    assert log[..i + 1] == lines + [line];
    var secs := Sections(lines, LevelMarker);
    SectionsSnoc(lines, line, LevelMarker);
    var ext := Extend(secs, line, LevelMarker);
    if StartsWith(line, LevelMarker) {
      assert ext[..|ext| - 1] == secs;
    } else if |secs| > 0 {
      var last := secs[|secs| - 1];
      assert ext[..|ext| - 1] == secs[..|secs| - 1];
      assert ext[|ext| - 1] == last.(body := last.body + [line]);
      FirstReadSnoc(last.body, line, RpsReading);
    }
  }

  /** Only the first throughput line of a level counts: the level is
      cleared when its value is stored. */
  lemma FirstRpsCounts(body: seq<string>, i: nat)
    requires i < |body| && RpsReading(body[i]).Some?
    requires forall j | 0 <= j < i :: RpsReading(body[j]).None?
    ensures SectionRps(body) == RpsReading(body[i])
  {
    FirstReadAt(body, RpsReading, i);
  }

  /** The level of a well-formed delimiter line is the number written right
      after "C=". */
  lemma LevelOfHeader(digits: string, rest: string)
    requires |digits| > 0 && AllDigits(digits)
    requires |rest| == 0 || !IsDigit(rest[0])
    ensures SearchLevel(LevelMarker + digits + rest) == Some(DigitsValue(digits))
  {
    var s := LevelMarker + digits + rest;
    assert s[0] == '=' && s[1] == '=' && s[2] == '=' && s[3] == ' ' && s[4] == 'C' && s[5] == '=';
    assert s[1..][1..][1..][1..] == s[4..];
    SearchSkip(s);
    SearchSkip(s[1..]);
    SearchSkip(s[1..][1..]);
    SearchSkip(s[1..][1..][1..]);
    assert s[4..][2..] == digits + rest;
    SearchHit(s[4..], digits, rest);
  }

  /** The search moves on past a character that cannot start "C=". */
  lemma SearchSkip(s: string)
    requires |s| >= 4 && s[0] != 'C'
    ensures SearchLevel(s) == SearchLevel(s[1..])
  {
  }

  /** "C=" and a run of digits: the run is the level. */
  lemma SearchHit(t: string, digits: string, rest: string)
    requires |t| >= 2 && t[0] == 'C' && t[1] == '=' && t[2..] == digits + rest
    requires |digits| > 0 && AllDigits(digits)
    requires |rest| == 0 || !IsDigit(rest[0])
    ensures SearchLevel(t) == Some(DigitsValue(digits))
  {
    DigitAt(digits, 0);
    assert t[2] == digits[0];
    DigitRunAppend(digits, rest);
    assert t[2..][..|digits|] == digits;
  }

  lemma {:induction false} DigitRunAppend(digits: string, rest: string)
    requires AllDigits(digits)
    requires |rest| == 0 || !IsDigit(rest[0])
    ensures DigitRun(digits + rest) == |digits|
    decreases |digits|
  {
    if |digits| > 0 {
      var s := digits + rest;
      DigitAt(digits, 0);
      assert s[0] == digits[0];
      DigitsTail(digits);
      assert s[1..] == digits[1..] + rest;
      DigitRunAppend(digits[1..], rest);
    } else {
      assert digits + rest == rest;
    }
  }

  /** The sweep `{10: 100.0, 50: 420.0, 100: 390.0}` peaks at level 50, and
      has no checkpoint entry. */
  lemma BestExample()
    ensures var d := Dict([10, 50, 100], map[10 := 100.0, 50 := 420.0, 100 := 390.0]);
      Summarize(d) == Some(SweepSummary(50, 420.0, None, d))
  {
    var d := Dict([10, 50, 100], map[10 := 100.0, 50 := 420.0, 100 := 390.0]);
    assert d.keys[..2] == [10, 50] && d.keys[..2][..1] == [10];
    assert BestIndex(d.keys, d.vals) == 1;
  }

  /** On a tie the earlier key wins, whatever the order of the levels. */
  lemma TieExample()
    ensures var d := Dict([100, 10], map[100 := 5.0, 10 := 5.0]);
      Summarize(d).value.bestC == 100
  {
    var d := Dict([100, 10], map[100 := 5.0, 10 := 5.0]);
    assert d.keys[..1] == [100];
  }
}
