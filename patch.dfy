/** `replace_block`: every `<!-- M_START -->…<!-- M_END -->` span of a
    document is rewritten around a fresh block, as `re.sub` does with the
    non-greedy, dot-matches-newline pattern `start.*?end`. */
module Patch {
  import opened Text

  /** `s[k..]` starts with `pat` for some `k`. */
  lemma {:induction false} ContainsAt(s: string, pat: string, k: nat)
    requires k <= |s| && StartsWith(s[k..], pat)
    ensures Contains(s, pat)
    decreases k
  {
    if k > 0 {
      assert s[1..][k - 1..] == s[k..];
      ContainsAt(s[1..], pat, k - 1);
    }
  }

  /** Where the first occurrence of `pat` in `s` starts. */
  function FirstAt(s: string, pat: string): (n: nat)
    requires Contains(s, pat)
    ensures n + |pat| <= |s| && StartsWith(s[n..], pat)
    ensures forall k | 0 <= k < n :: !StartsWith(s[k..], pat)
    decreases |s|
  {
    if StartsWith(s, pat) then 0
    else
      var n := 1 + FirstAt(s[1..], pat);
      assert forall k | 1 <= k <= |s| :: s[1..][k - 1..] == s[k..];
      n
  }

  /** With no occurrence of `pat` in `s`, none starts at `k`. */
  lemma NotContainsAt(s: string, pat: string, k: nat)
    requires k <= |s| && !Contains(s, pat)
    ensures !StartsWith(s[k..], pat)
  {
    if StartsWith(s[k..], pat) {
      ContainsAt(s, pat, k);
    }
  }

  /** An occurrence with none before it is the first. */
  lemma FirstAtIs(s: string, pat: string, n: nat)
    requires n <= |s| && StartsWith(s[n..], pat)
    requires forall k | 0 <= k < n :: !StartsWith(s[k..], pat)
    ensures Contains(s, pat) && FirstAt(s, pat) == n
  {
    ContainsAt(s, pat, n);
    var f := FirstAt(s, pat);
  }

  /** `re.sub(start + ".*?" + end, rep, s)` with DOTALL: scanning from the
      left, a `start` that has an `end` somewhere after it opens a span
      that closes at the first such `end`; the span becomes `rep` and the
      scan resumes after it. A position where no span opens is kept. */
  function SubAll(s: string, start: string, end: string, rep: string): string
    requires |start| > 0
    decreases |s|
  {
    if |s| == 0 then ""
    else if StartsWith(s, start) && Contains(s[|start|..], end) then
      var j := FirstAt(s[|start|..], end);
      rep + SubAll(s[|start| + j + |end|..], start, end, rep)
    else [s[0]] + SubAll(s[1..], start, end, rep)
  }

  /** Characters a region name is made of: A-Z, 0-9 and `_`, none of which
      means anything to a regular expression. */
  predicate IsNameChar(c: char) {
    'A' <= c <= 'Z' || '0' <= c <= '9' || c == '_'
  }

  predicate ValidName(marker: string) {
    forall i | 0 <= i < |marker| :: IsNameChar(marker[i])
  }

  function StartSentinel(marker: string): string {
    "<!-- " + marker + "_START -->"
  }

  function EndSentinel(marker: string): string {
    "<!-- " + marker + "_END -->"
  }

  /** What a region becomes: the new block between the two sentinels. */
  function Region(marker: string, block: string): string {
    StartSentinel(marker) + "\n" + block + "\n" + EndSentinel(marker)
  }

  /** `replace_block(content, marker, new_block)`. The block is used as the
      replacement template, so it must hold no backslash for `re.sub` to
      insert it literally. */
  function ReplaceBlock(content: string, marker: string, block: string): string
    requires ValidName(marker) && '\\' !in block
  {
    SubAll(content, StartSentinel(marker), EndSentinel(marker), Region(marker, block))
  }

  /** Text without a start sentinel is left alone. */
  lemma {:induction false} NoStartUnchanged(s: string, start: string, end: string, rep: string)
    requires |start| > 0 && !Contains(s, start)
    ensures SubAll(s, start, end, rep) == s
    decreases |s|
  {
    if |s| > 0 {
      assert !Contains(s[1..], start);
      NoStartUnchanged(s[1..], start, end, rep);
    }
  }

  /** Text without an end sentinel is left alone. */
  lemma {:induction false} NoEndUnchanged(s: string, start: string, end: string, rep: string)
    requires |start| > 0 && !Contains(s, end)
    ensures SubAll(s, start, end, rep) == s
    decreases |s|
  {
    if |s| > 0 {
      if StartsWith(s, start) && Contains(s[|start|..], end) {
        var j := FirstAt(s[|start|..], end);
        assert s[|start|..][j..] == s[|start| + j..];
        ContainsAt(s, end, |start| + j);
        assert false;
      }
      assert !Contains(s[1..], end);
      NoEndUnchanged(s[1..], start, end, rep);
    }
  }

  /** Text in which no start sentinel has an end sentinel after it is left
      alone: there is no span to rewrite. */
  lemma {:induction false} NoPairUnchanged(s: string, start: string, end: string, rep: string)
    requires |start| > 0
    requires forall i | 0 <= i <= |s| && StartsWith(s[i..], start) :: !Contains(s[i + |start|..], end)
    ensures SubAll(s, start, end, rep) == s
    decreases |s|
  {
    if |s| > 0 {
      assert s[0..] == s;
      forall i | 0 <= i <= |s| - 1 && StartsWith(s[1..][i..], start)
        ensures !Contains(s[1..][i + |start|..], end)
      {
        assert s[1..][i..] == s[i + 1..];
        assert s[1..][i + |start|..] == s[i + 1 + |start|..];
      }
      NoPairUnchanged(s[1..], start, end, rep);
      SubAllKeep(s, start, end, rep);
      assert [s[0]] + s[1..] == s;
    }
  }

  /** A document with no start sentinel of a region followed by an end
      sentinel is returned unchanged, e.g. one whose end sentinel only
      comes before its start sentinel. */
  lemma NoRegionUnchanged(content: string, marker: string, block: string)
    requires ValidName(marker) && '\\' !in block
    requires forall i | 0 <= i <= |content| && StartsWith(content[i..], StartSentinel(marker)) ::
               !Contains(content[i + |StartSentinel(marker)|..], EndSentinel(marker))
    ensures ReplaceBlock(content, marker, block) == content
  {
    NoPairUnchanged(content, StartSentinel(marker), EndSentinel(marker), Region(marker, block));
  }

  /** A document lacking either sentinel of a region is returned unchanged. */
  lemma MissingRegionUnchanged(content: string, marker: string, block: string)
    requires ValidName(marker) && '\\' !in block
    requires !Contains(content, StartSentinel(marker)) || !Contains(content, EndSentinel(marker))
    ensures ReplaceBlock(content, marker, block) == content
  {
    var start, end := StartSentinel(marker), EndSentinel(marker);
    forall i | 0 <= i <= |content| && StartsWith(content[i..], start)
      ensures !Contains(content[i + |start|..], end)
    {
      ContainsAt(content, start, i);
      if Contains(content[i + |start|..], end) {
        SuffixContains(content, i + |start|, end);
      }
    }
    NoRegionUnchanged(content, marker, block);
  }

  /** What a suffix contains, the whole text contains. */
  lemma SuffixContains(s: string, m: nat, pat: string)
    requires m <= |s| && Contains(s[m..], pat)
    ensures Contains(s, pat)
  {
    var f := FirstAt(s[m..], pat);
    assert s[m..][f..] == s[m + f..];
    ContainsAt(s, pat, m + f);
  }

  /** Where no span opens, the first character is kept. */
  lemma SubAllKeep(s: string, start: string, end: string, rep: string)
    requires |start| > 0 && |s| > 0 && !(StartsWith(s, start) && Contains(s[|start|..], end))
    ensures SubAll(s, start, end, rep) == [s[0]] + SubAll(s[1..], start, end, rep)
  {
  }

  /** A span opens at the head of `s` and its first end sentinel starts
      `j` characters after the start sentinel. */
  lemma SpanUnfold(s: string, start: string, end: string, rep: string, j: nat)
    requires |start| > 0 && StartsWith(s, start) && |start| + j <= |s|
    requires StartsWith(s[|start| + j..], end)
    requires forall k | 0 <= k < j :: !StartsWith(s[|start|..][k..], end)
    ensures |start| + j + |end| <= |s|
    ensures SubAll(s, start, end, rep) == rep + SubAll(s[|start| + j + |end|..], start, end, rep)
  {
    assert s[|start|..][j..] == s[|start| + j..];
    FirstAtIs(s[|start|..], end, j);
  }

  /** No end sentinel starts inside `mid` when `mid + end` is followed by
      more text. */
  lemma NoEarlyEnd(mid: string, end: string, post: string)
    requires forall k | 0 <= k < |mid| :: !StartsWith((mid + end)[k..], end)
    ensures forall k | 0 <= k < |mid| :: !StartsWith((mid + end + post)[k..], end)
  {
    forall k | 0 <= k < |mid| ensures !StartsWith((mid + end + post)[k..], end) {
      assert (mid + end + post)[k..][..|end|] == (mid + end)[k..][..|end|];
    }
  }

  /** A span at the head of the text: `start`, then text without `end`,
      then `end`. */
  lemma SpanAtHead(start: string, mid: string, end: string, post: string, rep: string)
    requires |start| > 0
    requires forall k | 0 <= k < |mid| :: !StartsWith((mid + end)[k..], end)
    ensures SubAll(start + mid + end + post, start, end, rep) == rep + SubAll(post, start, end, rep)
  {
    var s := start + mid + end + post;
    assert s[..|start|] == start && s[|start|..] == mid + end + post;
    assert s[|start| + |mid|..] == end + post;
    NoEarlyEnd(mid, end, post);
    SpanUnfold(s, start, end, rep, |mid|);
    assert s[|start| + |mid| + |end|..] == post;
  }

  /** Text before the first start sentinel, one character at a time: the
      whole does not open with `start`, and neither does anything in the
      rest of `pre`. */
  lemma NoStartInTail(pre: string, start: string, rest: string)
    requires |pre| > 0 && StartsWith(rest, start)
    requires forall k | 0 <= k < |pre| :: !StartsWith((pre + start)[k..], start)
    ensures !StartsWith(pre + rest, start)
    ensures forall k | 0 <= k < |pre| - 1 :: !StartsWith((pre[1..] + start)[k..], start)
  {
    assert (pre + rest)[..|start|] == (pre + start)[0..][..|start|];
    forall k | 0 <= k < |pre| - 1 ensures !StartsWith((pre[1..] + start)[k..], start) {
      assert (pre[1..] + start)[k..] == (pre + start)[k + 1..];
    }
  }

  /** Where no span opens at the head of `pre + rest`, the characters of
      `pre` are kept one at a time. */
  lemma KeepStep(pre: string, rest: string, x: string, start: string, end: string, rep: string)
    requires |start| > 0 && |pre| > 0 && !StartsWith(pre + rest, start)
    requires SubAll(pre[1..] + rest, start, end, rep) == pre[1..] + x
    ensures SubAll(pre + rest, start, end, rep) == pre + x
  {
    assert (pre + rest)[1..] == pre[1..] + rest;
    SubAllKeep(pre + rest, start, end, rep);
    assert [pre[0]] + (pre[1..] + x) == pre + x;
  }

  /** The first span: text before the first start sentinel is kept, the span
      up to the first end sentinel after it becomes `rep`, and the rest of
      the text is rewritten on its own. */
  lemma {:induction false} FirstSpan(pre: string, mid: string, post: string, start: string, end: string, rep: string)
    requires |start| > 0
    requires forall k | 0 <= k < |pre| :: !StartsWith((pre + start)[k..], start)
    requires forall k | 0 <= k < |mid| :: !StartsWith((mid + end)[k..], end)
    ensures SubAll(pre + (start + mid + end + post), start, end, rep) ==
            pre + (rep + SubAll(post, start, end, rep))
    decreases |pre|
  {
    var rest := start + mid + end + post;
    if |pre| == 0 {
      assert pre + rest == rest;
      SpanAtHead(start, mid, end, post, rep);
    } else {
      assert rest[..|start|] == start;
      NoStartInTail(pre, start, rest);
      FirstSpan(pre[1..], mid, post, start, end, rep);
      KeepStep(pre, rest, rep + SubAll(post, start, end, rep), start, end, rep);
    }
  }

  /** The conditions on a sentinel pair under which rewriting is idempotent:
      both begin with the same character, which occurs nowhere else in the
      start sentinel, and the end sentinel holds no newline. */
  predicate SentinelPair(start: string, end: string) {
    && |start| > 0 && |end| > 0 && start[0] == end[0]
    && start[0] !in start[1..] && end[0] !in end[1..] && '\n' !in end
  }

  /** The sentinels of a region name form such a pair. */
  lemma RegionSentinels(marker: string)
    requires ValidName(marker)
    ensures SentinelPair(StartSentinel(marker), EndSentinel(marker))
  {
    var start, end := StartSentinel(marker), EndSentinel(marker);
    assert start[1..] == "!-- " + marker + "_START -->";
    assert end[1..] == "!-- " + marker + "_END -->";
    forall i | 0 <= i < |marker| ensures marker[i] != '<' && marker[i] != '\n' {
      assert IsNameChar(marker[i]);
    }
  }

  /** The first characters of a text, up to the length of the start
      sentinel, are the same before and after rewriting: a span begins with
      the start sentinel and so does its replacement. */
  lemma {:induction false} PrefixKept(t: string, p: string, start: string, end: string, rep: string)
    requires |start| > 0 && |p| <= |start| && StartsWith(rep, start)
    ensures StartsWith(SubAll(t, start, end, rep), p) <==> StartsWith(t, p)
    decreases |t|
  {
    var r := SubAll(t, start, end, rep);
    if |t| > 0 && !(StartsWith(t, start) && Contains(t[|start|..], end)) && |p| > 0 {
      PrefixKept(t[1..], p[1..], start, end, rep);
      assert r == [t[0]] + SubAll(t[1..], start, end, rep);
      assert StartsWith(r, p) <==> r[0] == p[0] && StartsWith(r[1..], p[1..]);
      assert StartsWith(t, p) <==> t[0] == p[0] && StartsWith(t[1..], p[1..]);
    } else if |t| > 0 && StartsWith(t, start) && Contains(t[|start|..], end) {
      assert r[..|p|] == rep[..|p|] == start[..|p|] == t[..|p|];
    }
  }

  /** Between a region's start sentinel and its end sentinel there is no
      other end sentinel. */
  lemma RegionInside(start: string, end: string, block: string, t: string)
    requires SentinelPair(start, end) && !Contains(block, end)
    ensures var u := "\n" + block + "\n" + end + t;
            forall k | 0 <= k < |block| + 2 :: !StartsWith(u[k..], end)
  {
    var u := "\n" + block + "\n" + end + t;
    var n := |block| + 2;
    assert u[0] == '\n' && u[n - 1] == '\n' && u[1..n - 1] == block;
    forall k | 0 <= k < n ensures !StartsWith(u[k..], end) {
      NoEndInside(u, block, end, k);
    }
  }

  /** No end sentinel starts at position `k` of a newline, `block`, a
      newline and more. */
  lemma NoEndInside(u: string, block: string, end: string, k: nat)
    requires |block| + 2 <= |u| && u[0] == '\n' && u[|block| + 1] == '\n' && u[1..|block| + 1] == block
    requires |end| > 0 && '\n' !in end && !Contains(block, end)
    requires k < |block| + 2
    ensures !StartsWith(u[k..], end)
  {
    var n := |block| + 2;
    if k == 0 || k == n - 1 {
      CharBlocks(u[k..], end, 0);
    } else if k - 1 + |end| <= |block| {
      NoEndInBlock(u, block, end, k);
    } else {
      CharBlocks(u[k..], end, n - 1 - k);
    }
  }

  /** An end sentinel that would lie wholly inside `block` is not there. */
  lemma NoEndInBlock(u: string, block: string, end: string, k: nat)
    requires |block| + 1 <= |u| && u[1..|block| + 1] == block && !Contains(block, end)
    requires 1 <= k && k - 1 + |end| <= |block|
    ensures !StartsWith(u[k..], end)
  {
    assert forall i | 0 <= i < |end| :: u[k..][i] == block[k - 1..][i];
    NotContainsAt(block, end, k - 1);
  }

  /** A text that differs from a pattern at some position of both does
      not start with it. */
  lemma CharBlocks(w: string, pat: string, i: nat)
    requires i < |w| && i < |pat| && w[i] != pat[i]
    ensures !StartsWith(w, pat)
  {
    if |pat| <= |w| {
      assert w[..|pat|][i] != pat[i];
    }
  }

  /** A region at the head of a text is a span of its own: the first end
      sentinel after its start sentinel is its own end sentinel. */
  lemma RegionFirst(t: string, start: string, end: string, block: string)
    requires SentinelPair(start, end) && !Contains(block, end)
    ensures var rep := start + "\n" + block + "\n" + end;
            SubAll(rep + t, start, end, rep) == rep + SubAll(t, start, end, rep)
  {
    var rep := start + "\n" + block + "\n" + end;
    var s := rep + t;
    var u := "\n" + block + "\n" + end + t;
    var n := |block| + 2;
    assert s[..|start|] == start && s[|start|..] == u;
    assert s[|start| + n..] == end + t;
    RegionInside(start, end, block, t);
    SpanUnfold(s, start, end, rep, n);
    assert s[|start| + n + |end|..] == t;
  }

  /** Rewriting a text that does not open with the start sentinel keeps
      its first character, and the result does not open with it either. */
  lemma KeptHead(s: string, start: string, end: string, rep: string)
    requires |start| > 0 && StartsWith(rep, start) && |s| > 0 && !StartsWith(s, start)
    ensures var v := SubAll(s, start, end, rep);
            |v| > 0 && v[0] == s[0] && v[1..] == SubAll(s[1..], start, end, rep) && !StartsWith(v, start)
  {
    var v := SubAll(s, start, end, rep);
    SubAllKeep(s, start, end, rep);
    PrefixKept(s[1..], start[1..], start, end, rep);
    StartsWithCons(s, start);
    StartsWithCons(v, start);
  }

  /** Starting with a non-empty pattern is matching its first character and
      then the rest. */
  lemma StartsWithCons(s: string, p: string)
    requires |s| > 0 && |p| > 0
    ensures StartsWith(s, p) <==> s[0] == p[0] && StartsWith(s[1..], p[1..])
  {
    if |p| <= |s| {
      assert s[..|p|] == [s[0]] + s[1..][..|p| - 1];
      assert p == [p[0]] + p[1..];
    }
  }

  /** A start sentinel with no end sentinel after it opens no span, and
      nothing after its first character does either. */
  lemma OpenWithoutEnd(s: string, start: string, end: string, rep: string)
    requires SentinelPair(start, end) && StartsWith(s, start) && !Contains(s[|start|..], end)
    ensures SubAll(s, start, end, rep) == s
  {
    forall k | 0 <= k <= |s| - 1 ensures !StartsWith(s[1..][k..], end) {
      if k + 1 >= |start| {
        assert s[|start|..][k + 1 - |start|..] == s[1..][k..];
        NotContainsAt(s[|start|..], end, k + 1 - |start|);
      } else {
        assert s[1..][k..][0] == start[1..][k];
      }
    }
    NoneAfter(s[1..], end);
    SubAllKeep(s, start, end, rep);
    NoEndUnchanged(s[1..], start, end, rep);
    assert [s[0]] + s[1..] == s;
  }

  /** A pattern found at no position is not contained. */
  lemma {:induction false} NoneAfter(s: string, pat: string)
    requires forall k | 0 <= k <= |s| :: !StartsWith(s[k..], pat)
    ensures !Contains(s, pat)
    decreases |s|
  {
    assert s[0..] == s;
    if |s| > 0 {
      forall k | 0 <= k <= |s| - 1 ensures !StartsWith(s[1..][k..], pat) {
        assert s[1..][k..] == s[k + 1..];
      }
      NoneAfter(s[1..], pat);
    }
  }

  /** Rewriting twice with the same block gives what rewriting once gives,
      as long as the block holds no end sentinel. */
  lemma {:induction false} SubAllIdempotent(s: string, start: string, end: string, block: string)
    requires SentinelPair(start, end) && !Contains(block, end)
    ensures var rep := start + "\n" + block + "\n" + end;
            SubAll(SubAll(s, start, end, rep), start, end, rep) == SubAll(s, start, end, rep)
    decreases |s|
  {
    var rep := start + "\n" + block + "\n" + end;
    if |s| > 0 {
      if StartsWith(s, start) && Contains(s[|start|..], end) {
        var rest := s[|start| + FirstAt(s[|start|..], end) + |end|..];
        SubAllIdempotent(rest, start, end, block);
        RegionFirst(SubAll(rest, start, end, rep), start, end, block);
      } else if !StartsWith(s, start) {
        KeptHead(s, start, end, rep);
        var v := SubAll(s, start, end, rep);
        SubAllKeep(v, start, end, rep);
        SubAllIdempotent(s[1..], start, end, block);
      } else {
        OpenWithoutEnd(s, start, end, rep);
      }
    }
  }

  /** `replace_block` is idempotent: patching a document twice with the
      same block equals patching it once, when the block does not hold the
      region's end sentinel. */
  lemma ReplaceBlockIdempotent(content: string, marker: string, block: string)
    requires ValidName(marker) && '\\' !in block
    requires !Contains(block, EndSentinel(marker))
    ensures ReplaceBlock(ReplaceBlock(content, marker, block), marker, block) ==
            ReplaceBlock(content, marker, block)
  {
    RegionSentinels(marker);
    SubAllIdempotent(content, StartSentinel(marker), EndSentinel(marker), block);
  }

  /** A document holding one region: no start sentinel before it, no end
      sentinel inside it and no start sentinel after it. The text around the
      region is kept and its inner content gives way to the block, whatever
      else (other regions, HTML) the text holds. */
  lemma ReplaceSingleRegion(pre: string, inner: string, post: string, marker: string, block: string)
    requires ValidName(marker) && '\\' !in block
    requires !Contains(pre, StartSentinel(marker)) && !Contains(inner, EndSentinel(marker))
    requires !Contains(post, StartSentinel(marker))
    ensures ReplaceBlock(pre + StartSentinel(marker) + inner + EndSentinel(marker) + post, marker, block) ==
            pre + Region(marker, block) + post
  {
    RegionSentinels(marker);
    SingleSpan(pre, inner, post, StartSentinel(marker), EndSentinel(marker), Region(marker, block));
  }

  /** One span in the text: no start before it, no end inside it and no
      start after it, for sentinels whose first character does not recur in
      them (so an occurrence cannot straddle the boundary). */
  lemma SingleSpan(pre: string, mid: string, post: string, start: string, end: string, rep: string)
    requires |start| > 0 && start[0] !in start[1..] && |end| > 0 && end[0] !in end[1..]
    requires !Contains(pre, start) && !Contains(mid, end) && !Contains(post, start)
    ensures SubAll(pre + start + mid + end + post, start, end, rep) == pre + rep + post
  {
    OnlySpan(pre, mid, post, start, end, rep);
    Regroup(pre, start, mid, end, post);
    assert pre + rep + post == pre + (rep + post);
  }

  lemma Regroup(a: string, b: string, c: string, d: string, e: string)
    ensures a + b + c + d + e == a + (b + c + d + e)
  {
  }

  lemma OnlySpan(pre: string, mid: string, post: string, start: string, end: string, rep: string)
    requires |start| > 0 && start[0] !in start[1..] && |end| > 0 && end[0] !in end[1..]
    requires !Contains(pre, start) && !Contains(mid, end) && !Contains(post, start)
    ensures SubAll(pre + (start + mid + end + post), start, end, rep) == pre + (rep + post)
  {
    NoOverlap(pre, start);
    NoOverlap(mid, end);
    FirstSpan(pre, mid, post, start, end, rep);
    NoStartUnchanged(post, start, end, rep);
  }

  /** A pattern whose first character does not recur in it, and which `s`
      does not contain, starts at no position of `s` even with the pattern
      appended. */
  lemma NoOverlap(s: string, pat: string)
    requires |pat| > 0 && pat[0] !in pat[1..] && !Contains(s, pat)
    ensures forall k | 0 <= k < |s| :: !StartsWith((s + pat)[k..], pat)
  {
    forall k | 0 <= k < |s| ensures !StartsWith((s + pat)[k..], pat) {
      NoOverlapAt(s, pat, k);
    }
  }

  lemma NoOverlapAt(s: string, pat: string, k: nat)
    requires |pat| > 0 && pat[0] !in pat[1..] && !Contains(s, pat) && k < |s|
    ensures !StartsWith((s + pat)[k..], pat)
  {
    var w := (s + pat)[k..];
    if k + |pat| <= |s| {
      NotContainsAt(s, pat, k);
      assert w[..|pat|] == s[k..][..|pat|];
    } else {
      var j := |s| - k;
      assert w[j] == pat[0];
      assert pat[j] == pat[1..][j - 1];
      CharBlocks(w, pat, j);
    }
  }
}
