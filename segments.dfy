/** How a log is cut into labelled sections, and how the fields of one
    section's record are chosen from its lines. */
module Segments {
  import opened Options
  import opened Text
  import opened Dicts
  import Ansi

  /** `strip_ansi(text).splitlines()`: the lines every parser walks through. */
  function LogLines(text: string): seq<string> {
    SplitLines(Ansi.StripAnsi(text))
  }

  /** The delimiter of the throughput/latency and connection-rate logs. */
  const Marker := "==="

  /** The label of a `===` delimiter line: `line.strip("= ").strip()`. */
  function LabelOf(header: string): string {
    Strip(StripChars(header, {'=', ' '}))
  }

  /** A delimiter line and the lines that follow it up to the next one. */
  datatype Section = Section(header: string, body: seq<string>)

  /** Lines not starting with `marker` before the next line that does. */
  function BodyLength(lines: seq<string>, marker: string): (n: nat)
    ensures n <= |lines|
    ensures forall i | 0 <= i < n :: !StartsWith(lines[i], marker)
    ensures n < |lines| ==> StartsWith(lines[n], marker)
    decreases |lines|
  {
    if |lines| == 0 || StartsWith(lines[0], marker) then 0
    else 1 + BodyLength(lines[1..], marker)
  }

  /** The sections of a log whose delimiter lines start with `marker`, in
      log order. Lines before the first delimiter belong to none. */
  function Sections(lines: seq<string>, marker: string): seq<Section>
    decreases |lines|
  {
    if |lines| == 0 then []
    else if !StartsWith(lines[0], marker) then Sections(lines[1..], marker)
    else
      var n := BodyLength(lines[1..], marker);
      [Section(lines[0], lines[1..1 + n])] + Sections(lines[1 + n..], marker)
  }

  /** The sections after one more line: a delimiter opens an empty section,
      any other line joins the last section, or is dropped when there is none. */
  function Extend(secs: seq<Section>, line: string, marker: string): seq<Section> {
    if StartsWith(line, marker) then secs + [Section(line, [])]
    else if |secs| == 0 then secs
    else secs[..|secs| - 1] + [secs[|secs| - 1].(body := secs[|secs| - 1].body + [line])]
  }

  lemma {:induction false} BodyLengthSnoc(lines: seq<string>, line: string, marker: string)
    ensures BodyLength(lines + [line], marker) ==
      if BodyLength(lines, marker) < |lines| || StartsWith(line, marker)
      then BodyLength(lines, marker) else |lines| + 1
    decreases |lines|
  {
    if |lines| > 0 && !StartsWith(lines[0], marker) {
      assert (lines + [line])[1..] == lines[1..] + [line];
      BodyLengthSnoc(lines[1..], line, marker);
    }
  }

  lemma ExtendCons(head: Section, tail: seq<Section>, line: string, marker: string)
    requires |tail| > 0
    ensures [head] + Extend(tail, line, marker) == Extend([head] + tail, line, marker)
  {
    if !StartsWith(line, marker) {
      assert ([head] + tail)[..|tail|] == [head] + tail[..|tail| - 1];
    }
  }

  /** Reading a log one line at a time rebuilds its sections. */
  lemma {:induction false} SectionsSnoc(lines: seq<string>, line: string, marker: string)
    ensures Sections(lines + [line], marker) == Extend(Sections(lines, marker), line, marker)
    decreases |lines|
  {
    var all := lines + [line];
    if |lines| == 0 {
      assert all == [line] && all[0] == line;
      assert all[1..] == [];
      if StartsWith(line, marker) {
        assert BodyLength(all[1..], marker) == 0;
        assert all[1..1] == [];
        assert Sections(all, marker) == [Section(line, [])] + Sections([], marker);
      }
    } else if !StartsWith(lines[0], marker) {
      assert all[0] == lines[0];
      assert all[1..] == lines[1..] + [line];
      SectionsSnoc(lines[1..], line, marker);
    } else {
      SectionsSnocAfterDelimiter(lines, line, marker);
    }
  }

  lemma {:induction false} SectionsSnocAfterDelimiter(lines: seq<string>, line: string, marker: string)
    requires |lines| > 0 && StartsWith(lines[0], marker)
    ensures Sections(lines + [line], marker) == Extend(Sections(lines, marker), line, marker)
    decreases |lines|, 1
  {
    var all := lines + [line];
    var n := BodyLength(lines[1..], marker);
    assert all[0] == lines[0];
    assert all[1..] == lines[1..] + [line];
    BodyLengthSnoc(lines[1..], line, marker);
    if n < |lines| - 1 {
      SectionsSnocInnerBody(lines, line, marker);
    } else if StartsWith(line, marker) {
      SectionsSnocSecondHeader(lines, line, marker);
    } else {
      SectionsSnocSameBody(lines, line, marker);
    }
  }

  /** The line falls after a later delimiter: only the later sections change. */
  lemma {:induction false} SectionsSnocInnerBody(lines: seq<string>, line: string, marker: string)
    requires |lines| > 0 && StartsWith(lines[0], marker)
    requires BodyLength(lines[1..], marker) < |lines| - 1
    requires BodyLength(lines[1..] + [line], marker) == BodyLength(lines[1..], marker)
    ensures Sections(lines + [line], marker) == Extend(Sections(lines, marker), line, marker)
    decreases |lines|, 0
  {
    var all := lines + [line];
    var n := BodyLength(lines[1..], marker);
    var head := Section(lines[0], lines[1..1 + n]);
    assert all[0] == lines[0];
    assert all[1..] == lines[1..] + [line];
    assert all[1..1 + n] == lines[1..1 + n];
    assert all[1 + n..] == lines[1 + n..] + [line];
    SectionsSnoc(lines[1 + n..], line, marker);
    var tail := Sections(lines[1 + n..], marker);
    assert |tail| > 0 by {
      assert lines[1 + n..][0] == lines[1 + n];
    }
    assert Sections(lines, marker) == [head] + tail;
    assert Sections(all, marker) == [head] + Sections(all[1 + n..], marker);
    ExtendCons(head, tail, line, marker);
  }

  /** The log so far is one section; the line opens a second one. */
  lemma SectionsSnocSecondHeader(lines: seq<string>, line: string, marker: string)
    requires |lines| > 0 && StartsWith(lines[0], marker) && StartsWith(line, marker)
    requires BodyLength(lines[1..], marker) == |lines| - 1
    requires BodyLength(lines[1..] + [line], marker) == |lines| - 1
    ensures Sections(lines, marker) == [Section(lines[0], lines[1..])]
    ensures Sections(lines + [line], marker) == [Section(lines[0], lines[1..]), Section(line, [])]
  {
    var all := lines + [line];
    var n := |lines| - 1;
    assert lines[1 + n..] == [];
    assert lines[1..1 + n] == lines[1..];
    assert Sections(lines, marker) == [Section(lines[0], lines[1..])] + Sections([], marker);
    assert all[0] == lines[0];
    assert all[1..] == lines[1..] + [line];
    assert all[1..1 + n] == lines[1..];
    assert all[1 + n..] == [line];
    assert [line][1..] == [];
    assert [line][1..1] == [];
    assert Sections([line], marker) == [Section(line, [])] + Sections([], marker);
    assert Sections(all, marker) == [Section(lines[0], lines[1..])] + Sections([line], marker);
  }

  /** The log so far is one section; the line joins it. */
  lemma SectionsSnocSameBody(lines: seq<string>, line: string, marker: string)
    requires |lines| > 0 && StartsWith(lines[0], marker) && !StartsWith(line, marker)
    requires BodyLength(lines[1..], marker) == |lines| - 1
    requires BodyLength(lines[1..] + [line], marker) == |lines|
    ensures Sections(lines, marker) == [Section(lines[0], lines[1..])]
    ensures Sections(lines + [line], marker) == [Section(lines[0], lines[1..] + [line])]
  {
    var all := lines + [line];
    var n := |lines| - 1;
    assert lines[1 + n..] == [];
    assert lines[1..1 + n] == lines[1..];
    assert Sections(lines, marker) == [Section(lines[0], lines[1..])] + Sections([], marker);
    assert all[0] == lines[0];
    assert all[1..] == lines[1..] + [line];
    assert all[1..1 + n + 1] == lines[1..] + [line];
    assert all[1 + n + 1..] == [];
    assert Sections(all, marker) == [Section(lines[0], lines[1..] + [line])] + Sections([], marker);
  }

  /** Lines before the first delimiter contribute nothing. */
  lemma {:induction false} PreambleIgnored(pre: seq<string>, rest: seq<string>, marker: string)
    requires forall i | 0 <= i < |pre| :: !StartsWith(pre[i], marker)
    ensures Sections(pre + rest, marker) == Sections(rest, marker)
    decreases |pre|
  {
    if |pre| > 0 {
      assert (pre + rest)[0] == pre[0];
      assert !StartsWith(pre[0], marker);
      assert (pre + rest)[1..] == pre[1..] + rest;
      PreambleIgnored(pre[1..], rest, marker);
      assert Sections(pre + rest, marker) == Sections((pre + rest)[1..], marker);
    } else {
      assert pre + rest == rest;
    }
  }

  /** A delimiter line followed by non-delimiter lines adds exactly one
      section, holding those lines. */
  lemma {:induction false} LastSection(before: seq<string>, delimiter: string, body: seq<string>, marker: string)
    requires StartsWith(delimiter, marker)
    requires forall i | 0 <= i < |body| :: !StartsWith(body[i], marker)
    ensures Sections(before + [delimiter] + body, marker) ==
            Sections(before, marker) + [Section(delimiter, body)]
    decreases |body|
  {
    if |body| == 0 {
      assert before + [delimiter] + body == before + [delimiter];
      SectionsSnoc(before, delimiter, marker);
    } else {
      var init := body[..|body| - 1];
      var line := body[|body| - 1];
      assert before + [delimiter] + body == (before + [delimiter] + init) + [line];
      LastSection(before, delimiter, init, marker);
      SectionsSnoc(before + [delimiter] + init, line, marker);
      assert init + [line] == body;
    }
  }

  /** Whether a field keeps the first value read in its section or the last. */
  datatype Policy = FirstWins | LastWins

  /** The value of the first line `read` accepts. */
  function FirstRead<T>(body: seq<string>, read: string -> Option<T>): Option<T>
    decreases |body|
  {
    if |body| == 0 then None
    else if read(body[0]).Some? then read(body[0])
    else FirstRead(body[1..], read)
  }

  /** The value of the last line `read` accepts. */
  function LastRead<T>(body: seq<string>, read: string -> Option<T>): Option<T>
    decreases |body|
  {
    if |body| == 0 then None
    else if read(body[|body| - 1]).Some? then read(body[|body| - 1])
    else LastRead(body[..|body| - 1], read)
  }

  /** A field's value in a section: what `read` gives on the lines of the
      section, kept according to `policy`. */
  function Pick<T>(policy: Policy, body: seq<string>, read: string -> Option<T>): Option<T> {
    match policy
    case FirstWins => FirstRead(body, read)
    case LastWins => LastRead(body, read)
  }

  /** One more line: a first-wins field changes only while unset, a
      last-wins field whenever the line is read. */
  lemma PickSnoc<T>(policy: Policy, body: seq<string>, line: string, read: string -> Option<T>)
    ensures Pick(policy, body + [line], read) ==
      match policy
      case FirstWins => if Pick(policy, body, read).Some? then Pick(policy, body, read) else read(line)
      case LastWins => if read(line).Some? then read(line) else Pick(policy, body, read)
  {
    match policy
    case FirstWins => FirstReadSnoc(body, line, read);
    case LastWins => assert (body + [line])[..|body|] == body;
  }

  lemma {:induction false} FirstReadSnoc<T>(body: seq<string>, line: string, read: string -> Option<T>)
    ensures FirstRead(body + [line], read) ==
      if FirstRead(body, read).Some? then FirstRead(body, read) else read(line)
    decreases |body|
  {
    if |body| == 0 {
      assert [line][1..] == [];
    } else {
      assert (body + [line])[1..] == body[1..] + [line];
      FirstReadSnoc(body[1..], line, read);
    }
  }

  /** First wins: the line at `i` sets the field when no earlier line does. */
  lemma {:induction false} FirstReadAt<T>(body: seq<string>, read: string -> Option<T>, i: nat)
    requires i < |body| && read(body[i]).Some?
    requires forall j | 0 <= j < i :: read(body[j]).None?
    ensures FirstRead(body, read) == read(body[i])
    decreases i
  {
    if i > 0 {
      FirstReadAt(body[1..], read, i - 1);
    }
  }

  /** Last wins: the line at `i` sets the field when no later line does. */
  lemma {:induction false} LastReadAt<T>(body: seq<string>, read: string -> Option<T>, i: nat)
    requires i < |body| && read(body[i]).Some?
    requires forall j | i < j < |body| :: read(body[j]).None?
    ensures LastRead(body, read) == read(body[i])
    decreases |body|
  {
    if i < |body| - 1 {
      LastReadAt(body[..|body| - 1], read, i);
    }
  }

  /** The result of a log: for each label, the record of its latest
      section; labels in order of first appearance. */
  function Collect<R>(secs: seq<Section>, labelOf: string -> string, extract: seq<string> -> R): (d: Dict<string, R>)
    ensures d.Valid()
    ensures forall k | 0 <= k < |secs| :: labelOf(secs[k].header) in d.vals
    decreases |secs|
  {
    if |secs| == 0 then Empty()
    else
      var last := secs[|secs| - 1];
      Collect(secs[..|secs| - 1], labelOf, extract).Put(labelOf(last.header), extract(last.body))
  }

  /** The label of the last section opened, `None` before any delimiter. */
  function Current(secs: seq<Section>, labelOf: string -> string): Option<string> {
    if |secs| == 0 then None else Some(labelOf(secs[|secs| - 1].header))
  }

  /** A label seen again keeps its place, and its record becomes that of its
      newest section alone; a new label goes last. */
  lemma CollectNewSection<R>(secs: seq<Section>, s: Section, labelOf: string -> string, extract: seq<string> -> R)
    ensures var before := Collect(secs, labelOf, extract);
            var after := Collect(secs + [s], labelOf, extract);
            && after.vals == before.vals[labelOf(s.header) := extract(s.body)]
            && (labelOf(s.header) in before.vals ==> after.keys == before.keys)
            && (labelOf(s.header) !in before.vals ==> after.keys == before.keys + [labelOf(s.header)])
  {
    assert (secs + [s])[..|secs|] == secs;
  }

  /** A section just opened holds the empty record under its label. */
  lemma CollectExtendHeader<R>(secs: seq<Section>, line: string, marker: string,
                               labelOf: string -> string, extract: seq<string> -> R)
    requires StartsWith(line, marker)
    ensures Collect(Extend(secs, line, marker), labelOf, extract) ==
            Collect(secs, labelOf, extract).Put(labelOf(line), extract([]))
  {
    var ext := Extend(secs, line, marker);
    assert ext[..|ext| - 1] == secs;
  }

  /** A line read inside the last section replaces that section's record. */
  lemma CollectExtendBody<R>(secs: seq<Section>, line: string, marker: string,
                             labelOf: string -> string, extract: seq<string> -> R)
    requires |secs| > 0 && !StartsWith(line, marker)
    ensures var last := secs[|secs| - 1];
            && Collect(secs, labelOf, extract).vals[labelOf(last.header)] == extract(last.body)
            && Collect(Extend(secs, line, marker), labelOf, extract) ==
               Collect(secs, labelOf, extract).Put(labelOf(last.header), extract(last.body + [line]))
  {
    var last := secs[|secs| - 1];
    var init := secs[..|secs| - 1];
    var ext := Extend(secs, line, marker);
    assert ext[..|ext| - 1] == init;
    PutPut(Collect(init, labelOf, extract), labelOf(last.header), extract(last.body), extract(last.body + [line]));
  }

  /** Some line of `body` satisfies `p`. */
  predicate AnyLine(body: seq<string>, p: string -> bool)
    decreases |body|
  {
    |body| > 0 && (AnyLine(body[..|body| - 1], p) || p(body[|body| - 1]))
  }

  /** Some line of some section satisfies `p`. */
  predicate SomeLine(secs: seq<Section>, p: string -> bool)
    decreases |secs|
  {
    |secs| > 0 && (SomeLine(secs[..|secs| - 1], p) || AnyLine(secs[|secs| - 1].body, p))
  }

  /** One more line: earlier lines keep their sections, and the new line
      counts only when it joins a section. */
  lemma SomeLineExtend(secs: seq<Section>, line: string, marker: string, p: string -> bool)
    ensures SomeLine(Extend(secs, line, marker), p) <==>
            SomeLine(secs, p) || (!StartsWith(line, marker) && |secs| > 0 && p(line))
  {
    var ext := Extend(secs, line, marker);
    if StartsWith(line, marker) {
      assert ext[..|ext| - 1] == secs;
    } else if |secs| > 0 {
      var last := secs[|secs| - 1];
      assert ext[..|ext| - 1] == secs[..|secs| - 1];
      assert (last.body + [line])[..|last.body|] == last.body;
    }
  }

  /** A line that satisfies `p` inside a section of a prefix of the log
      does so in the whole log. */
  lemma {:induction false} SomeLineGrows(lines: seq<string>, i: nat, marker: string, p: string -> bool)
    requires i <= |lines|
    requires SomeLine(Sections(lines[..i], marker), p)
    ensures SomeLine(Sections(lines, marker), p)
    decreases |lines| - i
  {
    if i < |lines| {
      assert lines[..i + 1] == lines[..i] + [lines[i]];
      SectionsSnoc(lines[..i], lines[i], marker);
      SomeLineExtend(Sections(lines[..i], marker), lines[i], marker, p);
      SomeLineGrows(lines, i + 1, marker, p);
    } else {
      assert lines[..i] == lines;
    }
  }

  /** A line inside a section that satisfies `p` makes `SomeLine` hold of
      the whole log. */
  lemma SomeLineAt(lines: seq<string>, i: nat, marker: string, p: string -> bool)
    requires i < |lines| && !StartsWith(lines[i], marker) && p(lines[i])
    requires |Sections(lines[..i], marker)| > 0
    ensures SomeLine(Sections(lines, marker), p)
  {
    assert lines[..i + 1] == lines[..i] + [lines[i]];
    SectionsSnoc(lines[..i], lines[i], marker);
    SomeLineExtend(Sections(lines[..i], marker), lines[i], marker, p);
    SomeLineGrows(lines, i + 1, marker, p);
  }
}
