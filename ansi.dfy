/** `strip_ansi`: deletes every `ESC [ [0-9;]* [A-Za-z]` sequence. */
module Ansi {
  import opened Numbers

  const ESC: char := '\U{1B}'

  predicate IsParameter(c: char) {
    IsDigit(c) || c == ';'
  }

  predicate IsAsciiLetter(c: char) {
    'a' <= c <= 'z' || 'A' <= c <= 'Z'
  }

  /** Length of the run of parameter characters at the start of `s`. */
  function ParameterRun(s: string): (n: nat)
    ensures n <= |s|
    ensures forall i | 0 <= i < n :: IsParameter(s[i])
    ensures n < |s| ==> !IsParameter(s[n])
    decreases |s|
  {
    if |s| == 0 || !IsParameter(s[0]) then 0 else 1 + ParameterRun(s[1..])
  }

  /** Length of the escape sequence `s` starts with, 0 when it starts with
      none. The greedy parameter run never needs to give characters back:
      a parameter character is not a letter. */
  function SequenceLength(s: string): (n: nat)
    ensures n == 0 || 3 <= n <= |s|
  {
    if |s| >= 2 && s[0] == ESC && s[1] == '[' then
      var k := ParameterRun(s[2..]);
      if 2 + k < |s| && IsAsciiLetter(s[2 + k]) then 3 + k else 0
    else 0
  }

  /** `strip_ansi(s)`, the left-to-right scan of `re.sub`. */
  function StripAnsi(s: string): (r: string)
    ensures |r| <= |s|
    ensures multiset(r) <= multiset(s)
    decreases |s|
  {
    if |s| == 0 then ""
    else
      var n := SequenceLength(s);
      if n > 0 then
        var rest := StripAnsi(s[n..]);
        assert s == s[..n] + s[n..];
        rest
      else
        var rest := StripAnsi(s[1..]);
        assert s == [s[0]] + s[1..];
        [s[0]] + rest
  }

  /** A complete escape sequence with parameters `params` and final letter `final`. */
  function Sequence(params: string, final: char): string {
    [ESC, '['] + params + [final]
  }

  /** Text without ESC comes back unchanged. */
  lemma {:induction false} NoEscapeUnchanged(s: string)
    requires ESC !in s
    ensures StripAnsi(s) == s
    decreases |s|
  {
    if |s| > 0 {
      assert SequenceLength(s) == 0;
      assert ESC !in s[1..];
      NoEscapeUnchanged(s[1..]);
    }
  }

  /** Text in which no complete sequence starts anywhere comes back
      unchanged: an ESC that opens no `ESC [ params letter` is kept. */
  lemma {:induction false} NoSequenceUnchanged(s: string)
    requires forall i | 0 <= i < |s| :: SequenceLength(s[i..]) == 0
    ensures StripAnsi(s) == s
    decreases |s|
  {
    if |s| > 0 {
      assert SequenceLength(s[0..]) == 0;
      assert s[0..] == s;
      forall i | 0 <= i < |s| - 1
        ensures SequenceLength(s[1..][i..]) == 0
      {
        assert s[1..][i..] == s[i + 1..];
      }
      NoSequenceUnchanged(s[1..]);
      assert s == [s[0]] + s[1..];
    }
  }

  /** An unterminated sequence, with parameters but no final letter, is kept. */
  lemma UnterminatedKept()
    ensures StripAnsi([ESC, '[', '3', '1']) == [ESC, '[', '3', '1']
  {
    var s := [ESC, '[', '3', '1'];
    forall i | 0 <= i < |s|
      ensures SequenceLength(s[i..]) == 0
    {
      if i == 0 {
        assert s[2..] == ['3', '1'];
        assert ParameterRun(['1']) == 1 by {
          assert ['1'][1..] == [];
        }
        assert ['3', '1'][1..] == ['1'];
      }
    }
    NoSequenceUnchanged(s);
  }

  lemma {:induction false} ParameterRunAppend(a: string, b: string)
    requires |b| > 0 && !IsParameter(b[0])
    ensures ParameterRun(a + b) == ParameterRun(a)
    decreases |a|
  {
    if |a| > 0 && IsParameter(a[0]) {
      assert (a + b)[1..] == a[1..] + b;
      ParameterRunAppend(a[1..], b);
    }
  }

  /** A sequence that begins in `x` also ends in `x` when ESC follows `x`:
      ESC is neither a parameter character nor a letter. */
  lemma SequenceLengthBeforeEsc(x: string, rest: string)
    requires |x| > 0 && |rest| > 0 && rest[0] == ESC
    ensures SequenceLength(x + rest) == SequenceLength(x)
    ensures SequenceLength(x) <= |x|
  {
    var s := x + rest;
    if |x| >= 2 && x[0] == ESC && x[1] == '[' {
      assert s[2..] == x[2..] + rest;
      ParameterRunAppend(x[2..], rest);
      var k := ParameterRun(x[2..]);
      if 2 + k < |x| {
        assert s[2 + k] == x[2 + k];
      } else {
        assert s[2 + k] == rest[0];
      }
    } else if |x| == 1 {
      assert s[1] == rest[0];
    }
  }

  /** The length of a complete sequence at the start of the text is its
      whole length. */
  lemma SequenceLengthOfSequence(params: string, final: char, y: string)
    requires forall i | 0 <= i < |params| :: IsParameter(params[i])
    requires IsAsciiLetter(final)
    ensures SequenceLength(Sequence(params, final) + y) == |Sequence(params, final)|
  {
    var s := Sequence(params, final) + y;
    assert s[2..] == params + ([final] + y);
    ParameterRunAppend(params, [final] + y);
    assert ParameterRun(params) == |params|;
    assert s[2 + |params|] == final;
  }

  /** Deleting one complete sequence: whatever surrounds it is stripped on
      its own, so a sequence is removed whole and nothing next to it is. */
  lemma {:induction false} StripAroundSequence(x: string, params: string, final: char, y: string)
    requires forall i | 0 <= i < |params| :: IsParameter(params[i])
    requires IsAsciiLetter(final)
    ensures StripAnsi(x + Sequence(params, final) + y) == StripAnsi(x) + StripAnsi(y)
    decreases |x|
  {
    var q := Sequence(params, final);
    Assoc(x, q, y);
    if |x| == 0 {
      assert x + (q + y) == q + y;
      SequenceAtHead(params, final, y);
    } else {
      SequenceLengthBeforeEsc(x, q + y);
      var n := SequenceLength(x);
      if n > 0 {
        StripSkip(x, q + y, n);
        StripAroundSequence(x[n..], params, final, y);
        Assoc(x[n..], q, y);
      } else {
        StripKeep(x, q + y);
        StripAroundSequence(x[1..], params, final, y);
        Assoc(x[1..], q, y);
        Assoc([x[0]], StripAnsi(x[1..]), StripAnsi(y));
      }
    }
  }

  lemma Assoc(a: string, b: string, c: string)
    ensures a + b + c == a + (b + c)
  {
  }

  /** A complete sequence at the head of a text is dropped whole. */
  lemma SequenceAtHead(params: string, final: char, y: string)
    requires forall i | 0 <= i < |params| :: IsParameter(params[i])
    requires IsAsciiLetter(final)
    ensures StripAnsi(Sequence(params, final) + y) == StripAnsi(y)
  {
    var q := Sequence(params, final);
    SequenceLengthOfSequence(params, final, y);
    assert (q + y)[|q|..] == y;
  }

  /** A sequence that starts and ends in `x` is skipped both in `x` and in
      `x` followed by more text. */
  lemma StripSkip(x: string, z: string, n: nat)
    requires 0 < n <= |x| && SequenceLength(x) == n && SequenceLength(x + z) == n
    ensures StripAnsi(x + z) == StripAnsi(x[n..] + z)
    ensures StripAnsi(x) == StripAnsi(x[n..])
  {
    assert (x + z)[n..] == x[n..] + z;
  }

  /** A first character that opens no sequence is kept, both in `x` and in
      `x` followed by more text. */
  lemma StripKeep(x: string, z: string)
    requires |x| > 0 && SequenceLength(x) == 0 && SequenceLength(x + z) == 0
    ensures StripAnsi(x + z) == [x[0]] + StripAnsi(x[1..] + z)
    ensures StripAnsi(x) == [x[0]] + StripAnsi(x[1..])
  {
    assert (x + z)[1..] == x[1..] + z;
  }
}
