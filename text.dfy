/** The Python string operations the script relies on (`in`, `startswith`,
    `endswith`, `strip`, `split`, `splitlines`, `replace(pat, "")` and
    `join`), written out over `seq<char>`. */
module Text {

  /** Python's `str.isspace()`: the characters `strip()` and `split()`
      without arguments treat as whitespace. */
  predicate IsSpace(c: char) {
    c == ' ' || ('\t' <= c <= '\r') || ('\U{1C}' <= c <= '\U{1F}') ||
    c == '\U{85}' || c == '\U{A0}' || c == '\U{1680}' ||
    ('\U{2000}' <= c <= '\U{200A}') || c == '\U{2028}' || c == '\U{2029}' ||
    c == '\U{202F}' || c == '\U{205F}' || c == '\U{3000}'
  }

  /** The line boundaries of `str.splitlines()` ("\r\n" counts as one). */
  predicate IsLineBreak(c: char) {
    c == '\n' || c == '\r' || c == '\U{0B}' || c == '\U{0C}' ||
    c == '\U{1C}' || c == '\U{1D}' || c == '\U{1E}' ||
    c == '\U{85}' || c == '\U{2028}' || c == '\U{2029}'
  }

  predicate StartsWith(s: string, prefix: string) {
    |prefix| <= |s| && s[..|prefix|] == prefix
  }

  /** Every character of a prefix of `s.strip()` occurs in `s`. */
  lemma StartsWithStripped(s: string, prefix: string, k: nat)
    requires StartsWith(Strip(s), prefix) && k < |prefix|
    ensures prefix[k] in s
  {
    var l := LStrip(s, IsSpace);
    var r := Strip(s);
    assert r == l[..|r|];
    assert l == s[|s| - |l|..];
    assert prefix[k] == s[|s| - |l| + k];
  }

  predicate EndsWith(s: string, suffix: string) {
    |suffix| <= |s| && s[|s| - |suffix|..] == suffix
  }

  /** `pat in s` */
  predicate Contains(s: string, pat: string)
    decreases |s|
  {
    StartsWith(s, pat) || (|s| > 0 && Contains(s[1..], pat))
  }

  /** Every character of a pattern found in `s` occurs in `s`. */
  lemma {:induction false} ContainsChar(s: string, pat: string, k: nat)
    requires Contains(s, pat) && k < |pat|
    ensures pat[k] in s
    decreases |s|
  {
    if StartsWith(s, pat) {
      assert s[k] == pat[k];
    } else {
      ContainsChar(s[1..], pat, k);
      assert pat[k] in s[1..];
    }
  }

  /** Index of the first `c` in `s`, or `|s|` when there is none. */
  function IndexOf(s: string, c: char): (n: nat)
    ensures n <= |s|
    ensures n < |s| <==> c in s
    ensures n < |s| ==> s[n] == c
    ensures forall i | 0 <= i < n :: s[i] != c
    decreases |s|
  {
    if |s| == 0 then 0
    else if s[0] == c then 0
    else 1 + IndexOf(s[1..], c)
  }

  /** A character missing from `a` is first found in `a + b` where it is
      first found in `b`. */
  lemma {:induction false} IndexOfAfter(a: string, b: string, c: char)
    requires c !in a
    ensures IndexOf(a + b, c) == |a| + IndexOf(b, c)
    decreases |a|
  {
    if |a| > 0 {
      assert (a + b)[1..] == a[1..] + b;
      IndexOfAfter(a[1..], b, c);
    } else {
      assert a + b == b;
    }
  }

  /** `s.lstrip(chars)` for the characters `drop` accepts. */
  function LStrip(s: string, drop: char -> bool): (r: string)
    ensures |r| <= |s| && r == s[|s| - |r|..]
    ensures |r| > 0 ==> !drop(r[0])
    decreases |s|
  {
    if |s| > 0 && drop(s[0]) then LStrip(s[1..], drop) else s
  }

  /** `s.rstrip(chars)` for the characters `drop` accepts. */
  function RStrip(s: string, drop: char -> bool): (r: string)
    ensures |r| <= |s| && r == s[..|r|]
    ensures |r| > 0 ==> !drop(r[|r| - 1])
    decreases |s|
  {
    if |s| > 0 && drop(s[|s| - 1]) then RStrip(s[..|s| - 1], drop) else s
  }

  /** `s.strip()` */
  function Strip(s: string): (r: string)
    ensures |r| <= |s|
  {
    RStrip(LStrip(s, IsSpace), IsSpace)
  }

  /** A string that neither starts nor ends with whitespace strips to itself. */
  lemma StripUnspaced(s: string)
    requires |s| > 0 && !IsSpace(s[0]) && !IsSpace(s[|s| - 1])
    ensures Strip(s) == s
  {
  }

  /** `s.strip(chars)` */
  function StripChars(s: string, chars: set<char>): string {
    RStrip(LStrip(s, c => c in chars), c => c in chars)
  }

  /** Length of the run of non-space characters at the start of `t`. */
  function WordLength(t: string): (n: nat)
    ensures n <= |t|
    ensures |t| > 0 && !IsSpace(t[0]) ==> n >= 1
    decreases |t|
  {
    if |t| == 0 || IsSpace(t[0]) then 0 else 1 + WordLength(t[1..])
  }

  /** `s.split()`: the maximal runs of non-space characters. */
  function Words(s: string): seq<string>
    decreases |s|
  {
    var t := LStrip(s, IsSpace);
    if |t| == 0 then []
    else
      var n := WordLength(t);
      [t[..n]] + Words(t[n..])
  }

  /** `s.split(sep)` for a one-character separator. */
  function Split(s: string, sep: char): (parts: seq<string>)
    ensures |parts| >= 1
    ensures sep in s ==> |parts| >= 2
    ensures sep !in s ==> parts == [s]
    decreases |s|
  {
    var n := IndexOf(s, sep);
    if n == |s| then [s] else [s[..n]] + Split(s[n + 1..], sep)
  }

  /** `s.split(":")[1]`: the text between the first colon and the next one. */
  function AfterColon(s: string): string
    requires ':' in s
  {
    Split(s, ':')[1]
  }

  /** Number of characters before the first line boundary of `s`. */
  function LineLength(s: string): (n: nat)
    ensures n <= |s|
    ensures forall i | 0 <= i < n :: !IsLineBreak(s[i])
    ensures n < |s| ==> IsLineBreak(s[n])
    decreases |s|
  {
    if |s| == 0 || IsLineBreak(s[0]) then 0 else 1 + LineLength(s[1..])
  }

  /** `s.splitlines()`: no line keeps its boundary, and a final boundary
      does not open an empty last line. */
  function SplitLines(s: string): (lines: seq<string>)
    ensures forall i, j | 0 <= i < |lines| && 0 <= j < |lines[i]| :: !IsLineBreak(lines[i][j])
    decreases |s|
  {
    if |s| == 0 then []
    else
      var n := LineLength(s);
      if n == |s| then [s]
      else
        var width := if s[n] == '\r' && n + 1 < |s| && s[n + 1] == '\n' then 2 else 1;
        [s[..n]] + SplitLines(s[n + width..])
  }

  /** `s.replace(pat, "")`: one left-to-right pass deleting non-overlapping
      occurrences. */
  function RemoveAll(s: string, pat: string): (r: string)
    requires |pat| > 0
    ensures |r| <= |s|
    decreases |s|
  {
    if |s| == 0 then ""
    else if StartsWith(s, pat) then RemoveAll(s[|pat|..], pat)
    else [s[0]] + RemoveAll(s[1..], pat)
  }

  /** A pattern whose first character does not occur in `t`, written after
      `t`, is the only thing `replace` deletes. */
  lemma {:induction false} RemoveAllTrailing(t: string, pat: string)
    requires |pat| > 0 && pat[0] !in t
    ensures RemoveAll(t + pat, pat) == t
    decreases |t|
  {
    if |t| == 0 {
      assert t + pat == pat;
      assert pat[|pat|..] == "";
    } else {
      assert (t + pat)[0] == t[0];
      assert !StartsWith(t + pat, pat);
      assert (t + pat)[1..] == t[1..] + pat;
      assert pat[0] !in t[1..];
      RemoveAllTrailing(t[1..], pat);
    }
  }

  /** `sep.join(parts)` */
  function Join(parts: seq<string>, sep: string): string
    decreases |parts|
  {
    if |parts| == 0 then ""
    else if |parts| == 1 then parts[0]
    else parts[0] + sep + Join(parts[1..], sep)
  }

  /** Joining lines that hold no newline with "\n" and splitting the result
      on "\n" gives the lines back: a joined block has exactly one line per
      part. */
  lemma {:induction false} SplitJoin(parts: seq<string>)
    requires |parts| >= 1
    requires forall i | 0 <= i < |parts| :: '\n' !in parts[i]
    ensures Split(Join(parts, "\n"), '\n') == parts
    decreases |parts|
  {
    if |parts| > 1 {
      SplitCons(parts[0], Join(parts[1..], "\n"));
      SplitJoin(parts[1..]);
      assert parts == [parts[0]] + parts[1..];
    }
  }

  /** A newline-free line, a newline and more text split into that line
      and the split of the rest. */
  lemma SplitCons(a: string, rest: string)
    requires '\n' !in a
    ensures Split(a + "\n" + rest, '\n') == [a] + Split(rest, '\n')
  {
    var s := a + "\n" + rest;
    assert IndexOf(s, '\n') == |a| by {
      assert s[|a|] == '\n';
      assert forall i | 0 <= i < |a| :: s[i] == a[i];
    }
    assert s[..|a|] == a;
    assert s[|a| + 1..] == rest;
  }

  /** Nothing but whitespace. */
  predicate Blank(s: string) {
    forall i | 0 <= i < |s| :: IsSpace(s[i])
  }

  /** A pattern followed by anything is found after any prefix. */
  lemma {:induction false} ContainsAfter(pre: string, pat: string, t: string)
    ensures Contains(pre + pat + t, pat)
    decreases |pre|
  {
    if |pre| == 0 {
      assert pre + pat + t == pat + t;
      assert (pat + t)[..|pat|] == pat;
    } else {
      assert (pre + pat + t)[1..] == pre[1..] + pat + t;
      ContainsAfter(pre[1..], pat, t);
    }
  }

  /** `rstrip` stops at the last character it does not drop. */
  lemma {:induction false} RStripKeeps(s: string, drop: char -> bool, i: nat)
    requires i < |s| && !drop(s[i])
    ensures |RStrip(s, drop)| > i
    decreases |s|
  {
    if drop(s[|s| - 1]) {
      assert s[..|s| - 1][i] == s[i];
      RStripKeeps(s[..|s| - 1], drop, i);
    }
  }

  /** A line that begins with a word framed by non-space characters still
      begins with it once stripped. */
  lemma StripKeepsPrefix(p: string, t: string)
    requires |p| > 0 && !IsSpace(p[0]) && !IsSpace(p[|p| - 1])
    ensures StartsWith(Strip(p + t), p)
  {
    var s := p + t;
    assert s[0] == p[0];
    assert LStrip(s, IsSpace) == s;
    assert s[|p| - 1] == p[|p| - 1];
    RStripKeeps(s, IsSpace, |p| - 1);
    var r := Strip(s);
    assert r[..|p|] == s[..|p|];
    assert s[..|p|] == p;
  }

  /** Leading whitespace is what `lstrip` removes. */
  lemma {:induction false} LStripBlank(sp: string, t: string)
    requires Blank(sp) && (|t| == 0 || !IsSpace(t[0]))
    ensures LStrip(sp + t, IsSpace) == t
    decreases |sp|
  {
    if |sp| == 0 {
      assert sp + t == t;
    } else {
      assert (sp + t)[0] == sp[0];
      assert (sp + t)[1..] == sp[1..] + t;
      LStripBlank(sp[1..], t);
    }
  }

  /** A non-empty run of non-space characters. */
  predicate Word(w: string) {
    |w| > 0 && forall i | 0 <= i < |w| :: !IsSpace(w[i])
  }

  /** A word followed by nothing or by whitespace is one whole word. */
  lemma {:induction false} WordLengthOf(w: string, rest: string)
    requires forall i | 0 <= i < |w| :: !IsSpace(w[i])
    requires |rest| == 0 || IsSpace(rest[0])
    ensures WordLength(w + rest) == |w|
    decreases |w|
  {
    if |w| == 0 {
      assert w + rest == rest;
    } else {
      assert (w + rest)[0] == w[0];
      assert (w + rest)[1..] == w[1..] + rest;
      WordLengthOf(w[1..], rest);
    }
  }

  /** `(w + rest).split()` is `w` and then the words of `rest`. */
  lemma WordsCons(w: string, rest: string)
    requires Word(w) && (|rest| == 0 || IsSpace(rest[0]))
    ensures Words(w + rest) == [w] + Words(rest)
  {
    assert (w + rest)[0] == w[0];
    assert LStrip(w + rest, IsSpace) == w + rest;
    WordLengthOf(w, rest);
    assert (w + rest)[..|w|] == w;
    assert (w + rest)[|w|..] == rest;
  }

  /** Leading whitespace does not change `split()`. */
  lemma WordsBlank(sp: string, x: string)
    requires Blank(sp) && (|x| == 0 || !IsSpace(x[0]))
    ensures Words(sp + x) == Words(x)
  {
    LStripBlank(sp, x);
    assert LStrip(x, IsSpace) == x;
  }

  /** `(sp + w + rest).split()` starts with the word `w`. */
  lemma FirstWord(sp: string, w: string, rest: string)
    requires Blank(sp) && Word(w) && (|rest| == 0 || IsSpace(rest[0]))
    ensures Words(sp + w + rest) == [w] + Words(rest)
  {
    assert sp + w + rest == sp + (w + rest);
    assert (w + rest)[0] == w[0];
    WordsBlank(sp, w + rest);
    WordsCons(w, rest);
  }

  /** `(p + ":" + t).split(":")[1]` is `t` when neither side holds a colon. */
  lemma AfterColonOf(p: string, t: string)
    requires ':' !in p && ':' !in t
    ensures ':' in p + ":" + t
    ensures AfterColon(p + ":" + t) == t
  {
    var s := p + ":" + t;
    assert s == p + (":" + t);
    IndexOfAfter(p, ":" + t, ':');
    assert s[|p|] == ':';
    assert s[..|p|] == p;
    assert s[|p| + 1..] == t;
  }

  /** A word's first character heads any text it starts. */
  lemma WordHead(w: string, rest: string)
    requires Word(w)
    ensures !IsSpace((w + rest)[0])
  {
    assert (w + rest)[0] == w[0];
  }

  /** Non-empty whitespace heads any text it starts. */
  lemma BlankHead(sp: string, x: string)
    requires Blank(sp) && |sp| > 0
    ensures IsSpace((sp + x)[0])
  {
    assert (sp + x)[0] == sp[0];
  }

  /** `(w1 + sp + w2 + rest).split()` starts with the words `w1` and `w2`. */
  lemma TwoWords(w1: string, sp: string, w2: string, rest: string)
    requires Word(w1) && Blank(sp) && |sp| > 0 && Word(w2)
    requires |rest| == 0 || IsSpace(rest[0])
    ensures Words(w1 + (sp + (w2 + rest))) == [w1] + ([w2] + Words(rest))
    ensures var ws := Words(w1 + (sp + (w2 + rest))); |ws| > 1 && ws[0] == w1 && ws[1] == w2
  {
    var x := w2 + rest;
    var y := sp + x;
    WordsCons(w2, rest);
    WordHead(w2, rest);
    WordsBlank(sp, x);
    BlankHead(sp, x);
    WordsCons(w1, y);
  }
}
