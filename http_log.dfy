/** `parse_http_log`: one record per `===` section of the throughput/latency
    log (wrk and siege output). */
module HttpLog {
  import opened Options
  import opened Text
  import opened Numbers
  import opened Dicts
  import opened Segments

  /** The fields the script fills in; `None` where the dict has no key. */
  datatype HttpRecord = HttpRecord(
    wrkRps: Option<real>,
    p50: Option<real>,
    p99: Option<real>,
    siegeTx: Option<int>,
    siegeRate: Option<real>,
    siegeTp: Option<string>)

  const NoFields := HttpRecord(None, None, None, None, None, None)

  /** `float(line.split(":")[1])` on a line containing "Requests/sec:". */
  function WrkReading(line: string): Option<real> {
    if Contains(line, "Requests/sec:") then
      ContainsChar(line, "Requests/sec:", 12);
      ParseFloat(AfterColon(line))
    else None
  }

  /** The second whitespace-separated field of a line whose stripped text
      starts with `tag`, when there is one. */
  function PercentileToken(line: string, tag: string): Option<string> {
    var t := Strip(line);
    if StartsWith(t, tag) then
      var parts := Words(t);
      if |parts| > 1 then Some(parts[1]) else None
    else None
  }

  /** A latency token in milliseconds: "ms" is removed, any other final "s"
      means seconds (every "s" is removed and the number scaled by 1000), and
      a token without either is taken as it is. `None` where `float()` raises. */
  function ToMillis(raw: string): Option<real> {
    if EndsWith(raw, "ms") then ParseFloat(RemoveAll(raw, "ms"))
    else if EndsWith(raw, "s") then Thousandfold(ParseFloat(RemoveAll(raw, "s")))
    else ParseFloat(raw)
  }

  /** Seconds to milliseconds, `None` staying `None`. */
  function Thousandfold(x: Option<real>): (r: Option<real>)
    ensures r.Some? <==> x.Some?
    ensures x.Some? ==> r.value == 1000.0 * x.value
  {
    match x
    case Some(v) => Some(v * 1000.0)
    case None => None
  }

  function PercentileReading(line: string, tag: string): Option<real> {
    match PercentileToken(line, tag)
    case Some(raw) => ToMillis(raw)
    case None => None
  }

  function P50Reading(line: string): Option<real> {
    PercentileReading(line, "50%")
  }

  function P99Reading(line: string): Option<real> {
    PercentileReading(line, "99%")
  }

  /** A percentile line whose token `float()` rejects: the script does not
      catch that error, so the whole parse fails. */
  predicate BadPercentile(line: string) {
    RejectedToken(line, "50%") || RejectedToken(line, "99%")
  }

  /** The line has a `tag` percentile token and `float()` rejects it. */
  predicate RejectedToken(line: string, tag: string) {
    PercentileToken(line, tag).Some? && ToMillis(PercentileToken(line, tag).value).None?
  }

  /** `int(line.split(":")[1].split()[0])` on a "Transactions:" line. */
  function TxReading(line: string): Option<int> {
    if StartsWith(Strip(line), "Transactions:") then
      StartsWithStripped(line, "Transactions:", 12);
      var w := Words(AfterColon(line));
      if |w| > 0 then ParseInt(w[0]) else None
    else None
  }

  /** `float(line.split(":")[1].split()[0])` on a "Transaction rate:" line. */
  function RateReading(line: string): Option<real> {
    if StartsWith(Strip(line), "Transaction rate:") then
      StartsWithStripped(line, "Transaction rate:", 16);
      var w := Words(AfterColon(line));
      if |w| > 0 then ParseFloat(w[0]) else None
    else None
  }

  /** `line.split(":")[1].strip()` on a "Throughput:" line. */
  function TpReading(line: string): Option<string> {
    if StartsWith(Strip(line), "Throughput:") then
      StartsWithStripped(line, "Throughput:", 10);
      Some(Strip(AfterColon(line)))
    else None
  }

  /** The record of one section. `wrk_rps` keeps the first value read; every
      other field keeps the last. */
  function Extract(body: seq<string>): HttpRecord {
    HttpRecord(
      Pick(FirstWins, body, WrkReading),
      Pick(LastWins, body, P50Reading),
      Pick(LastWins, body, P99Reading),
      Pick(LastWins, body, TxReading),
      Pick(LastWins, body, RateReading),
      Pick(LastWins, body, TpReading))
  }

  /** A record after one more line of its section: `wrk_rps` is filled only
      while it is missing, every other field is overwritten by a reading. */
  function Advance(record: HttpRecord, line: string): HttpRecord {
    HttpRecord(
      if record.wrkRps.Some? then record.wrkRps else WrkReading(line),
      if P50Reading(line).Some? then P50Reading(line) else record.p50,
      if P99Reading(line).Some? then P99Reading(line) else record.p99,
      if TxReading(line).Some? then TxReading(line) else record.siegeTx,
      if RateReading(line).Some? then RateReading(line) else record.siegeRate,
      if TpReading(line).Some? then TpReading(line) else record.siegeTp)
  }

  /** The result of a log that parses: each label with the record of its
      latest section, labels in order of first appearance. */
  function HttpResults(lines: seq<string>): Dict<string, HttpRecord> {
    Collect(Sections(lines, Marker), LabelOf, Extract)
  }

  /** The log holds, inside some section, a percentile token `float()` rejects. */
  ghost predicate Aborts(lines: seq<string>) {
    SomeLine(Sections(lines, Marker), BadPercentile)
  }

  /** `parse_http_log(path)` on the file's text. */
  method ParseHttpLog(text: string) returns (r: Result<Dict<string, HttpRecord>>)
    ensures r.Err? <==> Aborts(LogLines(text))
    ensures r.Err? ==> r.failure == NonNumericPercentile
    ensures r.Ok? ==> r.value == HttpResults(LogLines(text)) && r.value.Valid()
  {
    var lines := LogLines(text);
    var results: Dict<string, HttpRecord> := Empty();
    var current: Option<string> := None;
    var i := 0;
    while i < |lines|
      invariant i <= |lines|
      invariant results == HttpResults(lines[..i])
      invariant current == Current(Sections(lines[..i], Marker), LabelOf)
      invariant !Aborts(lines[..i])
    {
      var line := lines[i];
      HttpStep(lines, i);
      if StartsWith(line, Marker) {
        var name := LabelOf(line);
        current := Some(name);
        results := results.Put(name, NoFields);
      } else if current.Some? {
        var record := results.vals[current.value];
        var next := ReadHttpLine(record, line);
        if next.Err? {
          AbortsAt(lines, i);
          return Err(next.failure);
        }
        results := results.Put(current.value, next.value);
      }
      i := i + 1;
    }
    assert lines[..i] == lines;
    return Ok(results);
  }

  /** One more line of the log, as the loop of `parse_http_log` treats it. */
  lemma HttpStep(log: seq<string>, i: nat)
    requires i < |log| && !Aborts(log[..i])
    ensures var lines, line, cur := log[..i], log[i], Current(Sections(log[..i], Marker), LabelOf);
      && (Aborts(log[..i + 1]) <==> !StartsWith(line, Marker) && cur.Some? && BadPercentile(line))
      && (StartsWith(line, Marker) ==>
            && HttpResults(log[..i + 1]) == HttpResults(lines).Put(LabelOf(line), NoFields)
            && Current(Sections(log[..i + 1], Marker), LabelOf) == Some(LabelOf(line)))
      && (!StartsWith(line, Marker) ==> Current(Sections(log[..i + 1], Marker), LabelOf) == cur)
      && (!StartsWith(line, Marker) && cur.None? ==> HttpResults(log[..i + 1]) == HttpResults(lines))
      && (!StartsWith(line, Marker) && cur.Some? ==>
            && cur.value in HttpResults(lines).vals
            && HttpResults(log[..i + 1]) ==
               HttpResults(lines).Put(cur.value, Advance(HttpResults(lines).vals[cur.value], line)))
  {
    var lines, line := log[..i], log[i];
    assert log[..i + 1] == lines + [line];
    var secs := Sections(lines, Marker);
    SectionsSnoc(lines, line, Marker);
    SomeLineExtend(secs, line, Marker, BadPercentile);
    if StartsWith(line, Marker) {
      CollectExtendHeader(secs, line, Marker, LabelOf, Extract);
      assert Extract([]) == NoFields;
    } else if |secs| > 0 {
      CollectExtendBody(secs, line, Marker, LabelOf, Extract);
      ExtractSnoc(secs[|secs| - 1].body, line);
    }
  }

  /** A rejected percentile inside a section aborts the whole log. */
  lemma AbortsAt(lines: seq<string>, i: nat)
    requires i < |lines| && !StartsWith(lines[i], Marker) && BadPercentile(lines[i])
    requires Current(Sections(lines[..i], Marker), LabelOf).Some?
    ensures Aborts(lines)
  {
    SomeLineAt(lines, i, Marker, BadPercentile);
  }

  /** The body of the loop for one line inside a section: the six `if`s
      of the script, in order. */
  method ReadHttpLine(record: HttpRecord, line: string) returns (r: Result<HttpRecord>)
    ensures r.Err? <==> BadPercentile(line)
    ensures r.Err? ==> r.failure == NonNumericPercentile
    ensures r.Ok? ==> r.value == Advance(record, line)
  {
    var wrk := ReadWrk(record.wrkRps, line);
    var p50 := ReadPercentile(line, "50%");
    if p50.Err? {
      return Err(p50.failure);
    }
    var p99 := ReadPercentile(line, "99%");
    if p99.Err? {
      return Err(p99.failure);
    }
    var tx := ReadTransactions(line);
    var rate := ReadRate(line);
    var tp := ReadThroughput(line);
    r := Ok(HttpRecord(
      wrk,
      if p50.value.Some? then p50.value else record.p50,
      if p99.value.Some? then p99.value else record.p99,
      if tx.Some? then tx else record.siegeTx,
      if rate.Some? then rate else record.siegeRate,
      if tp.Some? then tp else record.siegeTp));
  }

  /** The "Requests/sec:" `if`: only while `wrk_rps` is missing, and a
      value that `float()` rejects is skipped. */
  method ReadWrk(wrk: Option<real>, line: string) returns (w: Option<real>)
    ensures w == if wrk.Some? then wrk else WrkReading(line)
    ensures wrk.None? && w.Some? ==> Contains(line, "Requests/sec:")
  {
    w := wrk;
    if Contains(line, "Requests/sec:") && wrk.None? {
      ContainsChar(line, "Requests/sec:", 12);
      w := ParseFloat(AfterColon(line));
    }
  }

  /** `if stripped.startswith(tag): parts = stripped.split(); if len(parts) > 1:
      ... = to_ms(parts[1])`, where `float()` raising aborts the parse. */
  method ReadPercentile(line: string, tag: string) returns (r: Result<Option<real>>)
    ensures r.Err? <==> RejectedToken(line, tag)
    ensures r.Err? ==> r.failure == NonNumericPercentile
    ensures r.Ok? ==> r.value == PercentileReading(line, tag)
  {
    r := Ok(None);
    var stripped := Strip(line);
    if StartsWith(stripped, tag) {
      var parts := Words(stripped);
      if |parts| > 1 {
        var raw := parts[1];
        assert PercentileToken(line, tag) == Some(raw);
        var v := ToMillis(raw);
        r := if v.None? then Err(NonNumericPercentile) else Ok(v);
      }
    }
  }

  /** The "Transactions:" `if`: a count that `int()` rejects is skipped. */
  method ReadTransactions(line: string) returns (n: Option<int>)
    ensures n == TxReading(line)
    ensures n.Some? ==> StartsWith(Strip(line), "Transactions:")
  {
    n := None;
    var stripped := Strip(line);
    if StartsWith(stripped, "Transactions:") {
      StartsWithStripped(line, "Transactions:", 12);
      var w := Words(AfterColon(line));
      if |w| > 0 {
        n := ParseInt(w[0]);
      }
    }
  }

  /** The "Transaction rate:" `if`: a rate that `float()` rejects is skipped. */
  method ReadRate(line: string) returns (v: Option<real>)
    ensures v == RateReading(line)
    ensures v.Some? ==> StartsWith(Strip(line), "Transaction rate:")
  {
    v := None;
    var stripped := Strip(line);
    if StartsWith(stripped, "Transaction rate:") {
      StartsWithStripped(line, "Transaction rate:", 16);
      var w := Words(AfterColon(line));
      if |w| > 0 {
        v := ParseFloat(w[0]);
      }
    }
  }

  /** The "Throughput:" `if`: the text after the colon, stripped. */
  method ReadThroughput(line: string) returns (t: Option<string>)
    ensures t == TpReading(line)
    ensures t.Some? <==> StartsWith(Strip(line), "Throughput:")
  {
    t := None;
    var stripped := Strip(line);
    if StartsWith(stripped, "Throughput:") {
      StartsWithStripped(line, "Throughput:", 10);
      t := Some(Strip(AfterColon(line)));
    }
  }

  /** A line made of a key ending in its only colon, then a colon-free
      text: it strips to a line starting with the key, and its second
      colon-separated part is that text. */
  lemma KeyedLine(key: string, t: string)
    requires |key| > 0 && !IsSpace(key[0]) && key[|key| - 1] == ':'
    requires ':' !in key[..|key| - 1] && ':' !in t
    ensures StartsWith(Strip(key + t), key) && ':' in key + t
    ensures AfterColon(key + t) == t
  {
    StripKeepsPrefix(key, t);
    assert key + t == key[..|key| - 1] + ":" + t;
    AfterColonOf(key[..|key| - 1], t);
  }

  /** A "Requests/sec:" line holds the number after the colon. */
  lemma WrkValue(pre: string, t: string)
    requires ':' !in pre && ':' !in t
    ensures WrkReading(pre + "Requests/sec:" + t) == ParseFloat(t)
  {
    ContainsAfter(pre, "Requests/sec:", t);
    var key := "Requests/sec:";
    assert key[..|key| - 1] == "Requests/sec";
    assert pre + key + t == (pre + key[..|key| - 1]) + ":" + t;
    AfterColonOf(pre + key[..|key| - 1], t);
  }

  /** Digits are neither whitespace nor a colon. */
  lemma DigitsPlain(d: string)
    requires AllDigits(d)
    ensures forall i | 0 <= i < |d| :: !IsSpace(d[i])
    ensures ':' !in d
  {
    forall i | 0 <= i < |d| ensures !IsSpace(d[i]) && d[i] != ':' {
      DigitAt(d, i);
    }
  }

  /** Whitespace holds no colon. */
  lemma BlankPlain(sp: string)
    requires Blank(sp)
    ensures ':' !in sp
  {
  }

  /** The first field of `sp + w + rest`, for a colon-free field `w`. */
  lemma FirstField(sp: string, w: string, rest: string)
    requires Blank(sp) && Word(w) && ':' !in w
    requires ':' !in rest && (|rest| == 0 || IsSpace(rest[0]))
    ensures ':' !in sp + w + rest
    ensures var f := Words(sp + w + rest); |f| > 0 && f[0] == w
  {
    BlankPlain(sp);
    FirstWord(sp, w, rest);
  }

  /** A keyed line whose text after the colon opens with the field `w`. */
  lemma KeyedField(key: string, sp: string, w: string, rest: string)
    requires |key| > 0 && !IsSpace(key[0]) && key[|key| - 1] == ':' && ':' !in key[..|key| - 1]
    requires Blank(sp) && Word(w) && ':' !in w
    requires ':' !in rest && (|rest| == 0 || IsSpace(rest[0]))
    ensures var line := key + (sp + w + rest);
      && StartsWith(Strip(line), key) && ':' in line && AfterColon(line) == sp + w + rest
      && |Words(sp + w + rest)| > 0 && Words(sp + w + rest)[0] == w
  {
    FirstField(sp, w, rest);
    KeyedLine(key, sp + w + rest);
  }

  /** A "Transactions:" line whose first field after the colon is a digit
      string holds the count those digits denote. */
  lemma TxValue(sp: string, digits: string, rest: string)
    requires Blank(sp) && |digits| > 0 && AllDigits(digits)
    requires ':' !in rest && (|rest| == 0 || IsSpace(rest[0]))
    ensures TxReading("Transactions:" + (sp + digits + rest)) == Some(DigitsValue(digits) as int)
  {
    var key := "Transactions:";
    DigitsPlain(digits);
    TxKey();
    KeyedField(key, sp, digits, rest);
    TxOf(key + (sp + digits + rest), sp + digits + rest, digits);
  }

  /** "Transactions:" is a key ending in its only colon. */
  lemma TxKey()
    ensures var key := "Transactions:";
      |key| > 0 && !IsSpace(key[0]) && key[|key| - 1] == ':' && ':' !in key[..|key| - 1]
  {
    var key := "Transactions:";
    assert key[..|key| - 1] == "Transactions";
  }

  /** The count of a "Transactions:" line whose text after the colon opens
      with a digit string. */
  lemma TxOf(line: string, t: string, digits: string)
    requires StartsWith(Strip(line), "Transactions:") && ':' in line && AfterColon(line) == t
    requires |Words(t)| > 0 && Words(t)[0] == digits && |digits| > 0 && AllDigits(digits)
    ensures TxReading(line) == Some(DigitsValue(digits) as int)
  {
    ParseIntDigits(digits);
  }

  /** A "Transaction rate:" line whose first field after the colon is a
      decimal `whole.frac` holds that number. */
  lemma RateValue(sp: string, whole: string, frac: string, rest: string)
    requires Blank(sp) && |whole| > 0 && AllDigits(whole) && AllDigits(frac)
    requires ':' !in rest && (|rest| == 0 || IsSpace(rest[0]))
    ensures RateReading("Transaction rate:" + (sp + (whole + "." + frac) + rest)) == Some(DecimalValue(whole, frac))
  {
    var w := whole + "." + frac;
    var key := "Transaction rate:";
    DecimalPlain(whole, frac);
    assert key[..|key| - 1] == "Transaction rate";
    KeyedField(key, sp, w, rest);
    ParseFloatDecimal(whole, frac);
    RateOf(key + (sp + w + rest), sp + w + rest, DecimalValue(whole, frac));
  }

  /** The rate of a "Transaction rate:" line, from its text after the colon. */
  lemma RateOf(line: string, t: string, x: real)
    requires StartsWith(Strip(line), "Transaction rate:") && ':' in line && AfterColon(line) == t
    requires |Words(t)| > 0 && ParseFloat(Words(t)[0]) == Some(x)
    ensures RateReading(line) == Some(x)
  {
  }

  /** A decimal `whole.frac` is one colon-free field. */
  lemma DecimalPlain(whole: string, frac: string)
    requires AllDigits(whole) && AllDigits(frac)
    ensures ':' !in whole + "." + frac && Word(whole + "." + frac)
  {
    DigitsPlain(whole);
    DigitsPlain(frac);
    var w := whole + "." + frac;
    forall i | 0 <= i < |w| ensures !IsSpace(w[i]) {
      if i < |whole| {
        assert w[i] == whole[i];
      } else if i > |whole| {
        assert w[i] == frac[i - |whole| - 1];
      }
    }
  }

  /** A "Throughput:" line holds the text after the colon, stripped. */
  lemma TpValue(t: string)
    requires ':' !in t
    ensures TpReading("Throughput:" + t) == Some(Strip(t))
  {
    var key := "Throughput:";
    assert key[..|key| - 1] == "Throughput";
    KeyedLine(key, t);
  }

  /** The stripped form of an indented line that ends in a non-space. */
  lemma StripIndented(sp0: string, u: string)
    requires Blank(sp0) && |u| > 0 && !IsSpace(u[0]) && !IsSpace(u[|u| - 1])
    ensures Strip(sp0 + u) == u
  {
    LStripBlank(sp0, u);
  }

  /** A percentile line, `tag` then whitespace then a token, reads as that
      token converted to milliseconds, whatever indentation it has. */
  lemma PercentileValue(sp0: string, tag: string, sp: string, token: string, rest: string)
    requires Blank(sp0) && Word(tag) && Blank(sp) && |sp| > 0 && Word(token)
    requires |rest| == 0 || (IsSpace(rest[0]) && !IsSpace(rest[|rest| - 1]))
    ensures PercentileReading(sp0 + (tag + (sp + (token + rest))), tag) == ToMillis(token)
    ensures RejectedToken(sp0 + (tag + (sp + (token + rest))), tag) <==> ToMillis(token).None?
  {
    var v := sp + (token + rest);
    var u := tag + v;
    assert u[0] == tag[0];
    assert u[|u| - 1] == if |rest| == 0 then token[|token| - 1] else rest[|rest| - 1];
    StripIndented(sp0, u);
    assert u[..|tag|] == tag;
    TwoWords(tag, sp, token, rest);
    TokenOf(sp0 + u, tag, u, token);
  }

  /** The percentile token of a line whose stripped form starts with the
      tag and has `token` as its second field. */
  lemma TokenOf(line: string, tag: string, u: string, token: string)
    requires Strip(line) == u && StartsWith(u, tag)
    requires |Words(u)| > 1 && Words(u)[1] == token
    ensures PercentileToken(line, tag) == Some(token)
  {
  }

  /** The record of a section after one more line, field by field. */
  lemma ExtractSnoc(body: seq<string>, line: string)
    ensures Extract(body + [line]) == Advance(Extract(body), line)
  {
    PickSnoc(FirstWins, body, line, WrkReading);
    PickSnoc(LastWins, body, line, P50Reading);
    PickSnoc(LastWins, body, line, P99Reading);
    PickSnoc(LastWins, body, line, TxReading);
    PickSnoc(LastWins, body, line, RateReading);
    PickSnoc(LastWins, body, line, TpReading);
  }

  /** First wins: `wrk_rps` is the value of the first line of the section
      that gives one; later "Requests/sec:" lines change nothing. */
  lemma WrkFirstWins(body: seq<string>, i: nat)
    requires i < |body| && WrkReading(body[i]).Some?
    requires forall j | 0 <= j < i :: WrkReading(body[j]).None?
    ensures Extract(body).wrkRps == WrkReading(body[i])
  {
    FirstReadAt(body, WrkReading, i);
  }

  /** Two "Requests/sec:" lines in one section: the first one's value stays. */
  lemma WrkKeepsFirst(first: string, second: string)
    requires WrkReading(first).Some? && WrkReading(second).Some?
    ensures Extract([first, second]).wrkRps == WrkReading(first)
  {
    FirstReadAt([first, second], WrkReading, 0);
  }

  /** Last wins: `p50` is the value of the last "50%" line of the section. */
  lemma P50LastWins(body: seq<string>, i: nat)
    requires i < |body| && P50Reading(body[i]).Some?
    requires forall j | i < j < |body| :: P50Reading(body[j]).None?
    ensures Extract(body).p50 == P50Reading(body[i])
  {
    LastReadAt(body, P50Reading, i);
  }

  /** Last wins: `p99` is the value of the last "99%" line of the section. */
  lemma P99LastWins(body: seq<string>, i: nat)
    requires i < |body| && P99Reading(body[i]).Some?
    requires forall j | i < j < |body| :: P99Reading(body[j]).None?
    ensures Extract(body).p99 == P99Reading(body[i])
  {
    LastReadAt(body, P99Reading, i);
  }

  /** Last wins: the siege rate is that of the last "Transaction rate:" line. */
  lemma RateLastWins(body: seq<string>, i: nat)
    requires i < |body| && RateReading(body[i]).Some?
    requires forall j | i < j < |body| :: RateReading(body[j]).None?
    ensures Extract(body).siegeRate == RateReading(body[i])
  {
    LastReadAt(body, RateReading, i);
  }

  /** Last wins for the siege transaction count. */
  lemma TxLastWins(body: seq<string>, i: nat)
    requires i < |body| && TxReading(body[i]).Some?
    requires forall j | i < j < |body| :: TxReading(body[j]).None?
    ensures Extract(body).siegeTx == TxReading(body[i])
  {
    LastReadAt(body, TxReading, i);
  }

  /** Last wins for the siege throughput text. */
  lemma TpLastWins(body: seq<string>, i: nat)
    requires i < |body| && TpReading(body[i]).Some?
    requires forall j | i < j < |body| :: TpReading(body[j]).None?
    ensures Extract(body).siegeTp == TpReading(body[i])
  {
    LastReadAt(body, TpReading, i);
  }

  /** A number followed by "ms" is taken as milliseconds. */
  lemma {:induction false} MillisToken(number: string)
    requires 'm' !in number
    ensures ToMillis(number + "ms") == ParseFloat(number)
  {
    RemoveAllTrailing(number, "ms");
  }

  /** A number followed by a bare "s" is taken as seconds. */
  lemma {:induction false} SecondsToken(number: string)
    requires 's' !in number && (|number| == 0 || number[|number| - 1] != 'm')
    ensures ToMillis(number + "s") == Thousandfold(ParseFloat(number))
  {
    var raw := number + "s";
    if |number| > 0 {
      assert raw[|raw| - 2] == number[|number| - 1];
    }
    assert !EndsWith(raw, "ms");
    RemoveAllTrailing(number, "s");
  }

  /** A whole number of milliseconds is taken as it is. */
  lemma MillisDigits(d: string)
    requires |d| > 0 && AllDigits(d)
    ensures ToMillis(d + "ms") == Some(DigitsValue(d) as real)
  {
    DigitsLack(d, 'm');
    ParseFloatDigits(d);
    MillisToken(d);
  }

  /** "1500ms" is 1500 milliseconds. */
  lemma MillisExample()
    ensures ToMillis("1500ms") == Some(1500.0)
  {
    assert "1500" + "ms" == "1500ms";
    assert DigitsValue("1500") == 1500 by {
      assert "15"[..1] == "1" && "150"[..2] == "15" && "1500"[..3] == "150";
    }
    MillisDigits("1500");
  }

  /** A decimal number of seconds is scaled to milliseconds. */
  lemma SecondsDecimal(whole: string, frac: string)
    requires |whole| > 0 && AllDigits(whole) && AllDigits(frac)
    ensures ToMillis(whole + "." + frac + "s") == Thousandfold(Some(DecimalValue(whole, frac)))
  {
    var number := whole + "." + frac;
    DigitsLack(whole, 's');
    DigitsLack(frac, 's');
    if |frac| > 0 {
      DigitAt(frac, |frac| - 1);
      assert number[|number| - 1] == frac[|frac| - 1];
    } else {
      assert number[|number| - 1] == '.';
    }
    ParseFloatDecimal(whole, frac);
    SecondsToken(number);
  }

  /** "1.5s" is 1500 milliseconds too: both units give the same latency. */
  lemma SecondsExample()
    ensures ToMillis("1.5s") == Some(1500.0)
  {
    assert "1" + "." + "5" + "s" == "1.5s";
    assert DecimalValue("1", "5") == 1.5 by {
      assert DigitsValue("1") == 1 && DigitsValue("5") == 5 && Pow10(1) == 10;
    }
    SecondsDecimal("1", "5");
  }
}
