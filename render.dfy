/** `format_http_block`, `format_connect_block` and the sweep block that
    `main` builds: the text that goes between a region's sentinels. */
module Render {
  import opened Options
  import opened Text
  import opened Numbers
  import opened Dicts
  import opened HttpLog
  import opened ConnectLog
  import opened SweepLog
  import opened Segments

  /** How numbers are written: `format(x, ",.2f")` (thousands separators,
      two decimals) and `str(x)` for a float. Both are parameters of the
      model. */
  datatype Style = Style(fixed2: real -> string, repr: real -> string)

  /** Neither way of writing a number starts a new line. */
  ghost predicate OneLine(style: Style) {
    (forall x: real :: '\n' !in style.fixed2(x)) && (forall x: real :: '\n' !in style.repr(x))
  }

  /** `f"{x}"` for a value that may be `None`. */
  function Show(style: Style, x: Option<real>): string {
    match x
    case None => "None"
    case Some(v) => style.repr(v)
  }

  /** `f"{t}"` for a text that may be `None`. */
  function ShowText(t: Option<string>): string {
    match t
    case None => "None"
    case Some(v) => v
  }

  /** The keys that `keep` accepts, in their order. */
  function Kept(keys: seq<string>, keep: string -> bool): (r: seq<string>)
    ensures |r| <= |keys|
    ensures forall x :: x in r <==> x in keys && keep(x)
    decreases |keys|
  {
    if |keys| == 0 then []
    else
      var prev := Kept(keys[..|keys| - 1], keep);
      assert forall x :: x in keys <==> x in keys[..|keys| - 1] || x == keys[|keys| - 1];
      var last := keys[|keys| - 1];
      if keep(last) then prev + [last] else prev
  }

  /** When `keep` accepts no key, nothing is kept. */
  lemma {:induction false} KeptNothing(keys: seq<string>, keep: string -> bool)
    requires forall i | 0 <= i < |keys| :: !keep(keys[i])
    ensures Kept(keys, keep) == []
    decreases |keys|
  {
    if |keys| > 0 {
      KeptNothing(keys[..|keys| - 1], keep);
    }
  }

  // ----- format_http_block -----

  /** The line of one label whose wrk and siege rates are both known. */
  function HttpLine(style: Style, name: string, rec: HttpRecord): string
    requires rec.wrkRps.Some? && rec.siegeRate.Some?
  {
    "- " + name + ": wrk " + style.fixed2(rec.wrkRps.value) + " req/s" +
    " (p50 " + Show(style, rec.p50) + "ms, p99 " + Show(style, rec.p99) + "ms);" +
    " siege " + style.fixed2(rec.siegeRate.value) + " trans/s, throughput " + ShowText(rec.siegeTp)
  }

  /** A label gets a line when it has a wrk rate. */
  function HttpReported(vals: map<string, HttpRecord>): string -> bool {
    name => name in vals && vals[name].wrkRps.Some?
  }

  /** A record whose line cannot be written: it has a wrk rate, so it is
      reported, but no siege rate to format. */
  predicate Unrated(rec: HttpRecord) {
    rec.wrkRps.Some? && rec.siegeRate.None?
  }

  /** The lines of the labels `keys`, or the failure of formatting a missing
      siege rate with `,.2f`. */
  function HttpLines(style: Style, keys: seq<string>, vals: map<string, HttpRecord>): Result<seq<string>>
    requires forall i | 0 <= i < |keys| :: keys[i] in vals
    decreases |keys|
  {
    if |keys| == 0 then Ok([])
    else
      var init, name := keys[..|keys| - 1], keys[|keys| - 1];
      assert forall i | 0 <= i < |init| :: init[i] == keys[i];
      var prev := HttpLines(style, init, vals);
      if prev.Err? then prev
      else if vals[name].wrkRps.None? then prev
      else if vals[name].siegeRate.None? then Err(MissingSiegeRate)
      else Ok(prev.value + [HttpLine(style, name, vals[name])])
  }

  /** Formatting fails exactly when some label is unrated, and then for that
      reason. */
  lemma {:induction false} HttpLinesFail(style: Style, keys: seq<string>, vals: map<string, HttpRecord>)
    requires forall i | 0 <= i < |keys| :: keys[i] in vals
    ensures var r := HttpLines(style, keys, vals);
      && (r.Err? <==> exists i | 0 <= i < |keys| :: Unrated(vals[keys[i]]))
      && (r.Err? ==> r.failure == MissingSiegeRate)
    decreases |keys|
  {
    if |keys| > 0 {
      var init := keys[..|keys| - 1];
      assert forall i | 0 <= i < |init| :: init[i] == keys[i];
      HttpLinesFail(style, init, vals);
    }
  }

  /** When formatting succeeds there is one line per label with a wrk rate,
      in order, and each is that label's line. */
  lemma {:induction false} HttpLinesShape(style: Style, keys: seq<string>, vals: map<string, HttpRecord>)
    requires forall i | 0 <= i < |keys| :: keys[i] in vals
    ensures var r := HttpLines(style, keys, vals);
      r.Ok? ==>
        && |r.value| == |Kept(keys, HttpReported(vals))|
        && forall j | 0 <= j < |r.value| ::
             var name := Kept(keys, HttpReported(vals))[j];
             && name in vals && vals[name].wrkRps.Some? && vals[name].siegeRate.Some?
             && r.value[j] == HttpLine(style, name, vals[name])
    decreases |keys|
  {
    if |keys| > 0 {
      var init := keys[..|keys| - 1];
      assert forall i | 0 <= i < |init| :: init[i] == keys[i];
      HttpLinesShape(style, init, vals);
    }
  }

  /** What `format_http_block(results)` returns or raises. */
  function HttpBlock(style: Style, results: Dict<string, HttpRecord>): Result<string>
    requires results.Valid()
  {
    match HttpLines(style, results.keys, results.vals)
    case Ok(lines) => Ok(Join(lines, "\n"))
    case Err(f) => Err(f)
  }

  /** `format_http_block(results)`: one line per label with a wrk rate, in
      the order the labels were first seen. */
  method FormatHttpBlock(style: Style, results: Dict<string, HttpRecord>) returns (r: Result<string>)
    requires results.Valid()
    ensures r == HttpBlock(style, results)
  {
    var keys, vals := results.keys, results.vals;
    var lines: seq<string> := [];
    var failed := false;
    var i := 0;
    while i < |keys| && !failed
      invariant i <= |keys|
      invariant failed ==> HttpLines(style, keys[..i], vals) == Err(MissingSiegeRate)
      invariant !failed ==> HttpLines(style, keys[..i], vals) == Ok(lines)
    {
      HttpLinesSnoc(style, keys, vals, i);
      var data := vals[keys[i]];
      if data.wrkRps.Some? {
        if data.siegeRate.None? {
          failed := true;
        } else {
          lines := lines + [HttpLine(style, keys[i], data)];
        }
      }
      i := i + 1;
    }
    if failed {
      HttpLinesFailed(style, keys, vals, i);
      r := Err(MissingSiegeRate);
    } else {
      assert keys[..i] == keys;
      r := Ok(Join(lines, "\n"));
    }
  }

  /** One more label, as the loop of `format_http_block` treats it. */
  lemma HttpLinesSnoc(style: Style, keys: seq<string>, vals: map<string, HttpRecord>, i: nat)
    requires i < |keys| && forall j | 0 <= j < |keys| :: keys[j] in vals
    ensures keys[i] in vals
    ensures HttpLines(style, keys[..i + 1], vals) ==
      var prev := HttpLines(style, keys[..i], vals);
      if prev.Err? || vals[keys[i]].wrkRps.None? then prev
      else if vals[keys[i]].siegeRate.None? then Err(MissingSiegeRate)
      else Ok(prev.value + [HttpLine(style, keys[i], vals[keys[i]])])
  {
    assert keys[..i + 1][..i] == keys[..i];
  }

  /** A failure on some prefix of the labels is a failure of the whole. */
  lemma HttpLinesFailed(style: Style, keys: seq<string>, vals: map<string, HttpRecord>, i: nat)
    requires i <= |keys| && forall j | 0 <= j < |keys| :: keys[j] in vals
    requires HttpLines(style, keys[..i], vals).Err?
    ensures HttpLines(style, keys, vals) == Err(MissingSiegeRate)
  {
    HttpLinesFail(style, keys[..i], vals);
    HttpLinesFail(style, keys, vals);
    var j :| 0 <= j < i && Unrated(vals[keys[..i][j]]);
    assert keys[..i][j] == keys[j];
  }

  /** The HTTP block fails exactly when a label with a wrk rate lacks a
      siege rate. */
  lemma HttpBlockFails(style: Style, results: Dict<string, HttpRecord>)
    requires results.Valid()
    ensures HttpBlock(style, results).Err? <==> exists name | name in results.vals :: Unrated(results.vals[name])
    ensures HttpBlock(style, results).Err? ==> HttpBlock(style, results).failure == MissingSiegeRate
  {
    var vals := results.vals;
    HttpLinesFail(style, results.keys, vals);
    if exists name | name in vals :: Unrated(vals[name]) {
      var name :| name in vals && Unrated(vals[name]);
      var i :| 0 <= i < |results.keys| && results.keys[i] == name;
    }
  }

  /** Labels without a wrk rate are skipped: when none has one the block is
      empty. */
  lemma HttpBlockEmpty(style: Style, results: Dict<string, HttpRecord>)
    requires results.Valid()
    requires forall name | name in results.vals :: results.vals[name].wrkRps.None?
    ensures HttpBlock(style, results) == Ok("")
  {
    HttpLinesFail(style, results.keys, results.vals);
    HttpLinesShape(style, results.keys, results.vals);
    assert forall i | 0 <= i < |results.keys| :: !HttpReported(results.vals)(results.keys[i]);
    KeptNothing(results.keys, HttpReported(results.vals));
  }

  /** With labels and throughput texts free of newlines, the HTTP block has
      exactly one line per reported label, in order. */
  lemma HttpBlockLines(style: Style, results: Dict<string, HttpRecord>)
    requires results.Valid() && OneLine(style)
    requires forall name | name in results.vals :: '\n' !in name && '\n' !in ShowText(results.vals[name].siegeTp)
    requires HttpBlock(style, results).Ok? && |Kept(results.keys, HttpReported(results.vals))| > 0
    ensures var lines := HttpLines(style, results.keys, results.vals).value;
            Split(HttpBlock(style, results).value, '\n') == lines
  {
    var vals := results.vals;
    HttpLinesShape(style, results.keys, vals);
    var lines := HttpLines(style, results.keys, vals).value;
    forall j | 0 <= j < |lines| ensures '\n' !in lines[j] {
      var name := Kept(results.keys, HttpReported(vals))[j];
      assert name in Kept(results.keys, HttpReported(vals));
      HttpLineOneLine(style, name, vals[name]);
    }
    SplitJoin(lines);
  }

  /** An HTTP line is a single line when its parts are. */
  lemma HttpLineOneLine(style: Style, name: string, rec: HttpRecord)
    requires rec.wrkRps.Some? && rec.siegeRate.Some? && OneLine(style)
    requires '\n' !in name && '\n' !in ShowText(rec.siegeTp)
    ensures '\n' !in HttpLine(style, name, rec)
  {
    var wrk, rate := rec.wrkRps.value, rec.siegeRate.value;
    assert '\n' !in Show(style, rec.p50) && '\n' !in Show(style, rec.p99);
    assert '\n' !in style.fixed2(wrk) && '\n' !in style.fixed2(rate);
  }

  // ----- format_connect_block -----

  /** `f"- {label}: {ab_rps:,.2f} req/s, transfer {ab_tp}"`, an absent
      transfer rate written as the empty text. */
  function ConnectLine(style: Style, name: string, rps: real, tp: Option<string>): string {
    "- " + name + ": " + style.fixed2(rps) + " req/s, transfer " + tp.GetOr("")
  }

  /** A label gets a line when it has a request rate. */
  function ConnectReported(vals: map<string, ConnectRecord>): string -> bool {
    name => name in vals && vals[name].abRps.Some?
  }

  /** The lines of the labels `keys`. */
  function ConnectLines(style: Style, keys: seq<string>, vals: map<string, ConnectRecord>): seq<string>
    requires forall i | 0 <= i < |keys| :: keys[i] in vals
    decreases |keys|
  {
    if |keys| == 0 then []
    else
      var init, name := keys[..|keys| - 1], keys[|keys| - 1];
      assert forall i | 0 <= i < |init| :: init[i] == keys[i];
      var prev := ConnectLines(style, init, vals);
      if vals[name].abRps.None? then prev
      else prev + [ConnectLine(style, name, vals[name].abRps.value, vals[name].abTp)]
  }

  /** One line per label with a request rate, in order, and each is that
      label's line. */
  lemma {:induction false} ConnectLinesShape(style: Style, keys: seq<string>, vals: map<string, ConnectRecord>)
    requires forall i | 0 <= i < |keys| :: keys[i] in vals
    ensures var r := ConnectLines(style, keys, vals);
      && |r| == |Kept(keys, ConnectReported(vals))|
      && forall j | 0 <= j < |r| ::
           var name := Kept(keys, ConnectReported(vals))[j];
           && name in vals && vals[name].abRps.Some?
           && r[j] == ConnectLine(style, name, vals[name].abRps.value, vals[name].abTp)
    decreases |keys|
  {
    if |keys| > 0 {
      var init := keys[..|keys| - 1];
      assert forall i | 0 <= i < |init| :: init[i] == keys[i];
      ConnectLinesShape(style, init, vals);
    }
  }

  /** What `format_connect_block(results)` returns. */
  function ConnectBlock(style: Style, results: Dict<string, ConnectRecord>): string
    requires results.Valid()
  {
    Join(ConnectLines(style, results.keys, results.vals), "\n")
  }

  /** `format_connect_block(results)`: one line per label with a request
      rate, in the order the labels were first seen. */
  method FormatConnectBlock(style: Style, results: Dict<string, ConnectRecord>) returns (block: string)
    requires results.Valid()
    ensures block == ConnectBlock(style, results)
  {
    var keys, vals := results.keys, results.vals;
    var lines: seq<string> := [];
    var i := 0;
    while i < |keys|
      invariant i <= |keys|
      invariant lines == ConnectLines(style, keys[..i], vals)
    {
      assert keys[..i + 1][..i] == keys[..i];
      var data := vals[keys[i]];
      if data.abRps.Some? {
        lines := lines + [ConnectLine(style, keys[i], data.abRps.value, data.abTp)];
      }
      i := i + 1;
    }
    assert keys[..i] == keys;
    block := Join(lines, "\n");
  }

  /** With labels and transfer texts free of newlines, the connect block has
      exactly one line per label with a request rate, in order. */
  lemma ConnectBlockLines(style: Style, results: Dict<string, ConnectRecord>)
    requires results.Valid() && OneLine(style)
    requires forall name | name in results.vals :: '\n' !in name && '\n' !in results.vals[name].abTp.GetOr("")
    requires |Kept(results.keys, ConnectReported(results.vals))| > 0
    ensures Split(ConnectBlock(style, results), '\n') == ConnectLines(style, results.keys, results.vals)
  {
    ConnectLinesOneLine(style, results.keys, results.vals);
    ConnectLinesShape(style, results.keys, results.vals);
    SplitJoin(ConnectLines(style, results.keys, results.vals));
  }

  /** No connect line breaks when its label and transfer text do not. */
  lemma ConnectLinesOneLine(style: Style, keys: seq<string>, vals: map<string, ConnectRecord>)
    requires OneLine(style) && forall i | 0 <= i < |keys| :: keys[i] in vals
    requires forall name | name in vals :: '\n' !in name && '\n' !in vals[name].abTp.GetOr("")
    ensures Unbroken(ConnectLines(style, keys, vals))
  {
    ConnectLinesShape(style, keys, vals);
    var lines := ConnectLines(style, keys, vals);
    forall j | 0 <= j < |lines| ensures '\n' !in lines[j] {
      var name := Kept(keys, ConnectReported(vals))[j];
      assert name in Kept(keys, ConnectReported(vals));
      var rps := vals[name].abRps.value;
      assert '\n' !in style.fixed2(rps);
    }
  }

  // ----- the sweep block of main -----

  /** Each level is at most the next one. */
  predicate Ascending(s: seq<nat>) {
    forall i | 0 < i < |s| :: s[i - 1] <= s[i]
  }

  /** `x` put into place in an ascending sequence. */
  function Insert(x: nat, s: seq<nat>): (r: seq<nat>)
    requires Ascending(s)
    ensures Ascending(r) && multiset(r) == multiset(s) + multiset{x}
    ensures |r| > 0 && (r[0] == x || (|s| > 0 && r[0] == s[0]))
    decreases |s|
  {
    if |s| == 0 then [x]
    else if x <= s[0] then [x] + s
    else
      assert s == [s[0]] + s[1..];
      [s[0]] + Insert(x, s[1..])
  }

  /** `sorted(levels)`: the same levels, ascending. */
  function Sort(s: seq<nat>): (r: seq<nat>)
    ensures Ascending(r) && multiset(r) == multiset(s)
    decreases |s|
  {
    if |s| == 0 then []
    else
      assert s == s[..|s| - 1] + [s[|s| - 1]];
      Insert(s[|s| - 1], Sort(s[..|s| - 1]))
  }

  /** `f"  - C={c}: wrk {r:,.2f} req/s"` */
  function LevelLine(style: Style, c: nat, rps: real): string {
    "  - C=" + NatToString(c) + ": wrk " + style.fixed2(rps) + " req/s"
  }

  /** The lines of the levels `levels`. */
  function LevelLines(style: Style, levels: seq<nat>, sweep: map<nat, real>): seq<string>
    requires forall i | 0 <= i < |levels| :: levels[i] in sweep
    decreases |levels|
  {
    if |levels| == 0 then []
    else
      var init, c := levels[..|levels| - 1], levels[|levels| - 1];
      assert forall i | 0 <= i < |init| :: init[i] == levels[i];
      LevelLines(style, init, sweep) + [LevelLine(style, c, sweep[c])]
  }

  /** One line per level, in the order of the levels. */
  lemma {:induction false} LevelLinesShape(style: Style, levels: seq<nat>, sweep: map<nat, real>)
    requires forall i | 0 <= i < |levels| :: levels[i] in sweep
    ensures var r := LevelLines(style, levels, sweep);
      |r| == |levels| && forall j | 0 <= j < |r| :: r[j] == LevelLine(style, levels[j], sweep[levels[j]])
    decreases |levels|
  {
    if |levels| > 0 {
      var init := levels[..|levels| - 1];
      assert forall i | 0 <= i < |init| :: init[i] == levels[i];
      LevelLinesShape(style, init, sweep);
    }
  }

  /** One more level, as the loop of `main` treats it. */
  lemma LevelLinesStep(style: Style, levels: seq<nat>, sweep: map<nat, real>, i: nat)
    requires i < |levels| && forall j | 0 <= j < |levels| :: levels[j] in sweep
    ensures LevelLines(style, levels[..i + 1], sweep) ==
            LevelLines(style, levels[..i], sweep) + [LevelLine(style, levels[i], sweep[levels[i]])]
  {
    assert levels[..i + 1][..i] == levels[..i];
  }

  /** `f"- C=10000: wrk {c10k_results.get('c10k', 'n/a')}"` */
  function CheckpointLine(style: Style, c10k: Option<real>): string {
    "- C=10000: wrk " + (if c10k.Some? then style.repr(c10k.value) else "n/a")
  }

  /** The header lines of a sweep that ran. */
  function SummaryLines(style: Style, summary: SweepSummary): seq<string> {
    [ "- best: wrk " + style.fixed2(summary.bestRps) + " req/s at C=" + NatToString(summary.bestC),
      CheckpointLine(style, summary.c10k),
      "- sweep:" ]
  }

  /** The checkpoint line of a sweep that ran shows the throughput at
      C=10000 when the sweep measured that level, and "n/a" otherwise. */
  lemma CheckpointShown(style: Style, sweep: Dict<nat, real>)
    requires sweep.Valid() && |sweep.keys| > 0
    ensures Summarize(sweep).Some?
    ensures SummaryLines(style, Summarize(sweep).value)[1] ==
      "- C=10000: wrk " + (if Checkpoint in sweep.vals then style.repr(sweep.vals[Checkpoint]) else "n/a")
  {
  }

  /** The block `main` writes for the sweep log. */
  function SweepBlock(style: Style, summary: Option<SweepSummary>): string
    requires summary.Some? ==> summary.value.sweep.Valid()
  {
    match summary
    case None => "- not run yet"
    case Some(s) =>
      var levels := Sort(s.sweep.keys);
      SweepKeysIn(s.sweep, levels);
      Join(SummaryLines(style, s) + LevelLines(style, levels, s.sweep.vals), "\n")
  }

  /** Every sorted level has a throughput. */
  lemma SweepKeysIn(sweep: Dict<nat, real>, levels: seq<nat>)
    requires sweep.Valid() && multiset(levels) == multiset(sweep.keys)
    ensures forall i | 0 <= i < |levels| :: levels[i] in sweep.vals
  {
    forall i | 0 <= i < |levels| ensures levels[i] in sweep.vals {
      assert levels[i] in multiset(sweep.keys);
    }
  }

  /** The sweep block as `main` builds it: the level lines in a loop over
      the sorted levels, then the whole joined with newlines. */
  method FormatSweepBlock(style: Style, summary: Option<SweepSummary>) returns (block: string)
    requires summary.Some? ==> summary.value.sweep.Valid()
    ensures block == SweepBlock(style, summary)
  {
    if summary.None? {
      block := "- not run yet";
    } else {
      var s := summary.value;
      var levels := Sort(s.sweep.keys);
      SweepKeysIn(s.sweep, levels);
      var lines: seq<string> := [];
      var i := 0;
      while i < |levels|
        invariant i <= |levels|
        invariant lines == LevelLines(style, levels[..i], s.sweep.vals)
      {
        LevelLinesStep(style, levels, s.sweep.vals, i);
        lines := lines + [LevelLine(style, levels[i], s.sweep.vals[levels[i]])];
        i := i + 1;
      }
      assert levels[..i] == levels;
      block := Join(SummaryLines(style, s) + lines, "\n");
    }
  }

  /** A sweep that ran: three header lines, then one line per level in
      ascending order of level, each level of the sweep exactly once. */
  lemma SweepBlockLines(style: Style, summary: SweepSummary)
    requires summary.sweep.Valid() && OneLine(style)
    ensures var levels := Sort(summary.sweep.keys);
      && Ascending(levels) && multiset(levels) == multiset(summary.sweep.keys)
      && (forall i | 0 <= i < |levels| :: levels[i] in summary.sweep.vals)
      && Split(SweepBlock(style, Some(summary)), '\n') ==
         SummaryLines(style, summary) + LevelLines(style, levels, summary.sweep.vals)
  {
    var levels := Sort(summary.sweep.keys);
    SweepKeysIn(summary.sweep, levels);
    var head, tail := SummaryLines(style, summary), LevelLines(style, levels, summary.sweep.vals);
    SummaryOneLine(style, summary);
    LevelsOneLine(style, levels, summary.sweep.vals);
    UnbrokenConcat(head, tail);
    SplitJoin(head + tail);
  }

  /** None of the lines holds a newline. */
  predicate Unbroken(lines: seq<string>) {
    forall j | 0 <= j < |lines| :: '\n' !in lines[j]
  }

  lemma UnbrokenConcat(a: seq<string>, b: seq<string>)
    requires Unbroken(a) && Unbroken(b)
    ensures Unbroken(a + b)
  {
    forall j | 0 <= j < |a + b| ensures '\n' !in (a + b)[j] {
      if j < |a| {
        assert (a + b)[j] == a[j];
      } else {
        assert (a + b)[j] == b[j - |a|];
      }
    }
  }

  /** No header line of the sweep block breaks. */
  lemma SummaryOneLine(style: Style, summary: SweepSummary)
    requires OneLine(style)
    ensures Unbroken(SummaryLines(style, summary))
  {
    var best := summary.bestRps;
    assert '\n' !in style.fixed2(best);
    DigitsLack(NatToString(summary.bestC), '\n');
    if summary.c10k.Some? {
      var v := summary.c10k.value;
      assert '\n' !in style.repr(v);
    }
  }

  /** No level line breaks. */
  lemma LevelsOneLine(style: Style, levels: seq<nat>, sweep: map<nat, real>)
    requires OneLine(style) && forall i | 0 <= i < |levels| :: levels[i] in sweep
    ensures Unbroken(LevelLines(style, levels, sweep))
  {
    LevelLinesShape(style, levels, sweep);
    var r := LevelLines(style, levels, sweep);
    forall j | 0 <= j < |r| ensures '\n' !in r[j] {
      var c := levels[j];
      var v := sweep[c];
      assert '\n' !in style.fixed2(v);
      DigitsLack(NatToString(c), '\n');
    }
  }
}
