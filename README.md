# Benchmark README updater, modelled in Dafny

`scripts/update_readme_results.py` reads three benchmark logs:

- an HTTP load-test log, with wrk and siege output;
- a connection-rate log, with ab and wrk output;
- an optional concurrency sweep log.

It strips ANSI colour sequences from each log. It cuts the log into `===`-delimited sections and pulls a few metrics out of every section. Each metric has its own policy: either the first value wins or the last one does. Then it renders three Markdown blocks and splices each one into the README between its `<!-- NAME_START -->` and `<!-- NAME_END -->` sentinels.

The project models that script with the file handling left out.

- **Shared text support.**
  - `options.dfy`: `None` and the exceptions that escape the script.
  - `text.dfy`: the Python string methods the script uses (`strip`, `split`, `splitlines`, `replace`, `join`, `in`, `startswith`).
  - `numbers.dfy`: the parts of `float()`, `int()` and `str(int)` the script relies on.
  - `dicts.dfy`: an insertion-ordered dict.
- **Log parsing.**
  - `ansi.dfy`: `strip_ansi`.
  - `segments.dfy`: the section structure shared by the three parsers, given as a declarative definition. It also gives the first-wins and last-wins field policies.
  - `http_log.dfy`, `connect_log.dfy` and `sweep_log.dfy`: the three parsers. Each is a loop-carrying method that is proved equal to the declarative definition.
- **Output.**
  - `render.dfy`: the three block formatters.
  - `patch.dfy`: `replace_block`, which is `re.sub` with a lazy `.*?` and `DOTALL`, written out as a scan.
  - `pipeline.dfy`: `main` without the file handling.

### Script behaviour worth knowing

The model follows the script in each of these cases:

- **Percentile values can abort the run.** A `50%`/`99%` line whose value is not a number is not skipped. `float()` is called outside any `try`, so the whole run stops. `HttpLog.ParseHttpLog` returns `Err(NonNumericPercentile)` in exactly that case.
- **A missing siege rate can abort the run.** A label with a wrk rate but no siege rate makes `format_http_block` raise, because it formats `None` with `,.2f`. The model gives `Err(MissingSiegeRate)`.
- **Ties for the best level.** When several levels share the best throughput, `max` picks the one inserted first, not the smallest one (`SweepLog.TieExample`).
- **Every region is replaced.** `replace_block` replaces every start…end span in the document, not only the first one. Each span ends at the first end sentinel after its start.

## Model

| member | source | states |
|---|---|---|
| Ansi.StripAnsi | scripts/update_readme_results.py:6-7 | stripping only deletes characters: the result is never longer and holds no character the input lacks |
| Ansi.NoSequenceUnchanged | scripts/update_readme_results.py:6-7 | text in which no complete `ESC [ params letter` sequence starts is returned unchanged, so an ESC opening no such sequence is kept |
| Ansi.UnterminatedKept | scripts/update_readme_results.py:6-7 | an unterminated `ESC[31` with no final letter is kept as it is |
| Ansi.NoEscapeUnchanged | scripts/update_readme_results.py:6-7 | text without an ESC character is returned unchanged |
| Ansi.StripAroundSequence | scripts/update_readme_results.py:6-7 | a complete `ESC [ params letter` sequence is removed, and the text on each side of it is stripped as if the other side were absent |
| Text.SplitLines | scripts/update_readme_results.py:14 | no line produced by `splitlines` contains a line boundary |
| Text.SplitJoin | scripts/update_readme_results.py:149 | splitting a newline-joined list of newline-free lines on newlines gives the list back |
| Numbers.ParseFloatDecimal | scripts/update_readme_results.py:24 | `float()` of a `digits.digits` token is the decimal number it denotes |
| Numbers.NatToStringRoundTrip | scripts/update_readme_results.py:179 | the decimal text printed for a level reads back as that level |
| Dicts.PutPut | scripts/update_readme_results.py:18 | assigning a key twice leaves only the second value |
| Segments.PreambleIgnored | scripts/update_readme_results.py:20-21 | lines before the first delimiter belong to no section |
| Segments.LastSection | scripts/update_readme_results.py:15-19 | a delimiter and the non-delimiter lines after it form one new last section |
| Segments.SectionsSnoc | scripts/update_readme_results.py:14-21 | one more log line either opens a new section (a delimiter) or extends the current one |
| Segments.CollectNewSection | scripts/update_readme_results.py:15-18 | a section whose label was seen before replaces that label's record and keeps its place; a new label is appended |
| Segments.CollectExtendHeader | scripts/update_readme_results.py:15-18 | a delimiter line puts a fresh empty record under its label |
| Segments.FirstReadAt | scripts/update_readme_results.py:22 | under first-wins, a field takes the value of the first line that yields one |
| Segments.LastReadAt | scripts/update_readme_results.py:37 | under last-wins, a field takes the value of the last line that yields one |
| HttpLog.ParseHttpLog | scripts/update_readme_results.py:10-64 | fails, with `NonNumericPercentile`, exactly when some line inside a section has a non-numeric percentile; otherwise returns, label by label in first-seen order, the record of that label's latest section |
| HttpLog.HttpStep | scripts/update_readme_results.py:14-63 | one line's effect on the parser state: a delimiter resets its label, a body line advances the current record, and a line outside any section changes nothing |
| HttpLog.ReadHttpLine | scripts/update_readme_results.py:22-63 | a body line fails exactly when it is a bad percentile line; otherwise the record advances by that line |
| HttpLog.ExtractSnoc | scripts/update_readme_results.py:22-63 | a section's record after one more line is the record advanced by that line |
| HttpLog.WrkValue | scripts/update_readme_results.py:22-26 | a line holding `Requests/sec:` reads as `float()` of the text after it, whatever comes before the key |
| HttpLog.PercentileValue | scripts/update_readme_results.py:27-37 | an indented `tag`, whitespace, token line reads as the token in milliseconds; it aborts the parse exactly when that conversion fails |
| HttpLog.TxValue | scripts/update_readme_results.py:49-53 | a `Transactions:` line whose first field is a digit string reads as the count those digits denote |
| HttpLog.RateValue | scripts/update_readme_results.py:54-58 | a `Transaction rate:` line whose first field is `d.f` reads as that decimal number |
| HttpLog.TpValue | scripts/update_readme_results.py:59-63 | a `Throughput:` line reads as the text after the colon, stripped |
| HttpLog.WrkFirstWins | scripts/update_readme_results.py:22-26 | the wrk rate of a section is the one on its first line that yields a rate |
| HttpLog.WrkKeepsFirst | scripts/update_readme_results.py:22-26 | of two `Requests/sec:` lines, the first one's value is kept |
| HttpLog.P50LastWins | scripts/update_readme_results.py:27-37 | p50 is taken from the last `50%` line |
| HttpLog.P99LastWins | scripts/update_readme_results.py:38-48 | p99 is taken from the last `99%` line |
| HttpLog.TxLastWins | scripts/update_readme_results.py:49-53 | the transaction count is taken from the last line that gives one |
| HttpLog.RateLastWins | scripts/update_readme_results.py:54-58 | the siege rate is taken from the last line that gives one |
| HttpLog.TpLastWins | scripts/update_readme_results.py:59-63 | the throughput text is taken from the last line that gives one |
| HttpLog.MillisToken | scripts/update_readme_results.py:31-32 | a token ending in `ms` is read as milliseconds as written |
| HttpLog.SecondsToken | scripts/update_readme_results.py:33-34 | a token ending in `s` (but not `ms`) is read as seconds and multiplied by 1000 |
| HttpLog.MillisExample | scripts/update_readme_results.py:31-32 | `1500ms` normalises to 1500.0 |
| HttpLog.SecondsExample | scripts/update_readme_results.py:33-34 | `1.5s` normalises to 1500.0 |
| ConnectLog.ParseConnectLog | scripts/update_readme_results.py:67-93 | never fails, and returns, label by label in first-seen order, the record of that label's latest section |
| ConnectLog.ConnectStep | scripts/update_readme_results.py:71-92 | one line's effect on the parser state, as for the HTTP log |
| ConnectLog.ReadConnectLine | scripts/update_readme_results.py:79-92 | the four checks in sequence amount to: a wrk-shaped rate on a line beats an ab-shaped one, and any transfer text overwrites |
| ConnectLog.ExtractSnoc | scripts/update_readme_results.py:79-92 | a section's record after one more line is the record advanced by that line |
| ConnectLog.RateLastWins | scripts/update_readme_results.py:79-88 | the rate is that of the last line that gives one, whichever shape that line has |
| ConnectLog.AbThenWrk | scripts/update_readme_results.py:79-88 | an ab line followed by a wrk line: the wrk rate is stored |
| ConnectLog.WrkThenAb | scripts/update_readme_results.py:79-88 | a wrk line followed by an ab line: the ab rate is stored |
| ConnectLog.TransferLastWins | scripts/update_readme_results.py:89-92 | the transfer text is that of the last line that gives one |
| SweepLog.ParseC10kLog | scripts/update_readme_results.py:96-123 | the loop computes the summary of the sweep that the level sections define |
| SweepLog.SweepStep | scripts/update_readme_results.py:100-115 | a level header sets or clears the pending level; a rate line is stored only while a level is pending, and storing it clears the level |
| SweepLog.FirstRpsCounts | scripts/update_readme_results.py:109-115 | a level section records the value of its first `Requests/sec:` line, and later ones are dropped |
| SweepLog.LevelOfHeader | scripts/update_readme_results.py:101-105 | a header `=== C=<digits>…` selects the level those digits denote |
| SweepLog.SearchHit | scripts/update_readme_results.py:104 | `C=` followed by a digit run gives the number of that whole run |
| SweepLog.BestIndex | scripts/update_readme_results.py:118 | the chosen level's value is at least every other value, and strictly above every earlier-inserted level's value |
| SweepLog.Summarize | scripts/update_readme_results.py:116-123 | no summary exactly for an empty sweep; otherwise the best level is a measured level with the maximum value, every level inserted before it has a strictly smaller value, and the checkpoint value is present exactly when C=10000 was measured |
| SweepLog.BestExample | scripts/update_readme_results.py:118-119 | for `{10: 100.0, 50: 420.0, 100: 390.0}` the best level is 50, at 420.0, with no checkpoint |
| SweepLog.TieExample | scripts/update_readme_results.py:118 | on a tie, the level inserted first wins |
| Patch.FirstAt | scripts/update_readme_results.py:129 | the position of the first occurrence of a sentinel, with none before it |
| Patch.FirstAtIs | scripts/update_readme_results.py:129 | an occurrence with none before it is the first occurrence |
| Patch.NoStartUnchanged | scripts/update_readme_results.py:129-130 | text without a start sentinel is not changed |
| Patch.NoEndUnchanged | scripts/update_readme_results.py:129-130 | text without an end sentinel is not changed |
| Patch.NoPairUnchanged | scripts/update_readme_results.py:130 | text in which no start sentinel has an end sentinel after it is returned unchanged |
| Patch.NoRegionUnchanged | scripts/update_readme_results.py:126-130 | a document in which no start sentinel of the region is followed by its end sentinel comes back unchanged, e.g. one whose end sentinel only precedes its start |
| Patch.MissingRegionUnchanged | scripts/update_readme_results.py:126-130 | a document missing either sentinel of the region comes back byte for byte unchanged |
| Patch.OpenWithoutEnd | scripts/update_readme_results.py:129-130 | a start sentinel with no end sentinel after it stays as it is |
| Patch.SpanAtHead | scripts/update_readme_results.py:129-130 | a span at the head is cut at the first end sentinel after the start (the lazy match), and the replacement goes in its place |
| Patch.FirstSpan | scripts/update_readme_results.py:129-130 | the text before the first span is kept, the span becomes the replacement, and the rest is rewritten on its own |
| Patch.SingleSpan | scripts/update_readme_results.py:129-130 | with no start sentinel before the span, no end sentinel inside it and no start sentinel after it, exactly that span is replaced and everything around it kept |
| Patch.ReplaceSingleRegion | scripts/update_readme_results.py:126-130 | a README with one region of that name, whatever other regions or HTML it holds, has that region rewritten as start sentinel, newline, block, newline, end sentinel, and the surrounding text kept |
| Patch.SubAllIdempotent | scripts/update_readme_results.py:129-130 | rewriting with a region replacement twice gives the same text as once |
| Patch.ReplaceBlockIdempotent | scripts/update_readme_results.py:126-130 | patching the same block twice gives the same document as patching once |
| Render.Kept | scripts/update_readme_results.py:135-142 | the labels rendered are exactly the labels with the required field, and there are never more of them than labels |
| Render.KeptNothing | scripts/update_readme_results.py:141-142 | when no label has the required field, nothing is rendered |
| Render.HttpLinesFail | scripts/update_readme_results.py:135-148 | rendering fails exactly when some label has a wrk rate but no siege rate, and then with the missing-rate failure |
| Render.HttpLinesShape | scripts/update_readme_results.py:135-148 | on success, one line per label with a wrk rate, in dict order, each formatted from that label's record |
| Render.HttpLinesSnoc | scripts/update_readme_results.py:135-148 | one more label either adds its line, is skipped (no wrk rate), or fails (no siege rate) |
| Render.FormatHttpBlock | scripts/update_readme_results.py:133-149 | the loop builds the block that the line-by-line definition describes |
| Render.HttpBlockFails | scripts/update_readme_results.py:143-147 | the HTTP block fails exactly when some label has a wrk rate but no siege rate |
| Render.HttpBlockEmpty | scripts/update_readme_results.py:141-149 | a log with no wrk rate renders the empty block |
| Render.HttpBlockLines | scripts/update_readme_results.py:149 | the block's lines, split back on newlines, are exactly the rendered label lines |
| Render.HttpLineOneLine | scripts/update_readme_results.py:143-147 | a rendered label line holds no newline |
| Render.ConnectLinesShape | scripts/update_readme_results.py:154-159 | one line per label with a rate, in dict order, with the transfer text or an empty string |
| Render.FormatConnectBlock | scripts/update_readme_results.py:152-160 | the loop builds the block that the line-by-line definition describes |
| Render.ConnectBlockLines | scripts/update_readme_results.py:160 | the block's lines, split back on newlines, are exactly the rendered label lines |
| Render.ConnectLinesOneLine | scripts/update_readme_results.py:157-159 | no rendered connection line holds a newline |
| Render.Insert | scripts/update_readme_results.py:178 | inserting a level into an ascending list keeps it ascending and adds exactly that level |
| Render.Sort | scripts/update_readme_results.py:178 | the levels come out ascending and as a permutation of the sweep's levels |
| Render.LevelLinesShape | scripts/update_readme_results.py:178-185 | one indented line per level, in the given order, showing that level's value |
| Render.LevelLinesStep | scripts/update_readme_results.py:177-179 | one more level appends exactly its line |
| Render.CheckpointShown | scripts/update_readme_results.py:183 | the checkpoint line shows the C=10000 value when it was measured, and `n/a` otherwise |
| Render.FormatSweepBlock | scripts/update_readme_results.py:176-189 | the loop builds the sweep block that the definition describes, and `- not run yet` for no sweep |
| Render.SweepBlockLines | scripts/update_readme_results.py:176-187 | a sweep block is the three summary lines and then one line per level, ascending, each measured level exactly once |
| Render.SummaryOneLine | scripts/update_readme_results.py:182-184 | no summary line holds a newline |
| Render.LevelsOneLine | scripts/update_readme_results.py:179-185 | no level line holds a newline |
| Pipeline.UpdateReadme | scripts/update_readme_results.py:163-195 | parses the logs, renders the blocks and patches the three regions in order, with the failures in the order the script raises them |
| Pipeline.NoRegionsUnchanged | scripts/update_readme_results.py:191-193 | a README with none of the three start sentinels comes out unchanged |

## Left out

- Command-line arguments, the default sweep log path, `exists()`, `read_text` and `write_text` (lines 164-173 and 195) are left out. `Pipeline.UpdateReadme` takes the texts themselves. A missing sweep log is `None`, and the new README is the returned text.
- Decoding with `errors="ignore"` is left out. The logs are taken to be text already.
- Files that cannot be opened or read are left out. Such a fatal error happens before any write, so it is outside the model.
- `float()` and `int()` handle only these forms: surrounding whitespace, an optional sign, ASCII digits and an optional fraction. Exponents, `inf`, `nan`, underscores and non-ASCII digits are not handled. Such a token counts as one Python would reject.
- `{:,.2f}` and `str(float)` are the two functions of a `Render.Style` parameter; the digits they print are left out.
- Render.HttpBlockLines: stated only for a `Style` that never prints a newline, and for labels and throughput texts without a newline. The same holds for Render.ConnectBlockLines and Render.SweepBlockLines.
- Patch.ReplaceBlock: requires a block without a backslash. Python's `re.sub` treats a backslash in the replacement as a template escape, and that is not modelled.
- Patch.ReplaceBlock: requires the region name to be capital letters, digits and `_`. The three names the script uses all qualify.
- Pipeline.UpdateReadme: returns `Err(EscapeInBlock)` when a rendered block contains a backslash, instead of performing Python's template expansion.
- NaN throughputs are not modelled: `real` has no NaN, so `max` over the sweep is a plain maximum.
- Python integers are unbounded, as are Dafny's `int` and `nat`, so no integer width is modelled.
- `c_relay_helper.c` and `setup.py` are not part of this model. They are the system being benchmarked and its build, and the script never calls them.
