/** Splitting a text into tokens in place. */
module Tokenizer {
  import opened CStrings

  // The first position from `from` on where `s` ends or (does not) have a delimiter.
  function Skip(s: string, delm: string, from: nat, delims: bool): (to: nat)
    requires from <= |s|
    ensures from <= to <= |s|
    ensures forall i :: from <= i < to ==> (s[i] in delm) == delims
    ensures to < |s| ==> (s[to] in delm) != delims
    decreases |s| - from
  {
    if from < |s| && (s[from] in delm) == delims then Skip(s, delm, from + 1, delims) else from
  }

  datatype Span = Span(start: nat, end: nat)

  // A maximal run of characters that are no delimiters.
  predicate IsRun(s: string, delm: string, r: Span) {
    && r.start < r.end <= |s|
    && (forall i :: r.start <= i < r.end ==> s[i] !in delm)
    && (r.start > 0 ==> s[r.start - 1] in delm)
    && (r.end < |s| ==> s[r.end] in delm)
  }

  // All such runs from a position on, in order.
  function Runs(s: string, delm: string, from: nat): seq<Span>
    requires from <= |s|
    decreases |s| - from
  {
    var start := Skip(s, delm, from, true);
    if start == |s| then []
    else
      var end := Skip(s, delm, start, false);
      [Span(start, end)] + Runs(s, delm, end)
  }

  /** The runs are exactly the maximal delimiter-free stretches, from left to right. */
  lemma {:induction false} RunsExactly(s: string, delm: string, from: nat)
    requires from <= |s| && (0 < from < |s| ==> s[from - 1] in delm || s[from] in delm)
    ensures forall r :: r in Runs(s, delm, from) <==> from <= r.start && IsRun(s, delm, r)
    ensures forall i, j :: 0 <= i < j < |Runs(s, delm, from)| ==>
      Runs(s, delm, from)[i].end < Runs(s, delm, from)[j].start
    decreases |s| - from
  {
    var rs, start := Runs(s, delm, from), Skip(s, delm, from, true);
    if start < |s| {
      var end := Skip(s, delm, start, false);
      var head, tail := Span(start, end), Runs(s, delm, end);
      RunsExactly(s, delm, end);
      assert rs == [head] + tail;
      forall r
        ensures r in rs <==> from <= r.start && IsRun(s, delm, r)
      {
        RunCases(s, delm, from, start, end, r);
      }
      forall i, j | 0 <= i < j < |rs|
        ensures rs[i].end < rs[j].start
      {
        assert rs[j] == tail[j - 1] && tail[j - 1] in tail;
        if i > 0 {
          assert rs[i] == tail[i - 1];
        }
      }
    } else {
      assert forall r: Span :: from <= r.start < |s| ==> s[r.start] in delm;
    }
  }

  // A run at or after `from` is the first one or starts after its end.
  lemma RunCases(s: string, delm: string, from: nat, start: nat, end: nat, r: Span)
    requires from <= |s| && start == Skip(s, delm, from, true) < |s| && end == Skip(s, delm, start, false)
    requires 0 < from < |s| ==> s[from - 1] in delm || s[from] in delm
    ensures from <= r.start && IsRun(s, delm, r) <==> r == Span(start, end) || (end <= r.start && IsRun(s, delm, r))
  {
    assert s[start] !in delm && (end < |s| ==> s[end] in delm);
    if from <= r.start && IsRun(s, delm, r) {
      assert s[r.start] !in delm;
    }
  }

  // Where a run starts the search goes on; a delimiter does not matter to it.
  lemma RunsStep(s: string, delm: string, from: nat)
    requires from <= |s|
    ensures from < |s| && s[from] in delm ==> Runs(s, delm, from) == Runs(s, delm, from + 1)
    ensures Runs(s, delm, |s|) == []
  {}

  // Text s with the delimiters after its first n runs overwritten.
  function Cut(s: string, runs: seq<Span>, n: nat): (r: string)
    requires n <= |runs|
    ensures |r| == |s|
  {
    if n == 0 then s
    else
      var c, end := Cut(s, runs, n - 1), runs[n - 1].end;
      if end < |s| then c[end := NUL] else c
  }

  predicate Ordered(runs: seq<Span>) {
    forall i, j :: 0 <= i < j < |runs| ==> runs[i].end < runs[j].start
  }

  // Cutting leaves everything alone but the ends of runs.
  lemma {:induction false} CutAt(s: string, runs: seq<Span>, n: nat, i: nat)
    requires n <= |runs| && i < |s|
    ensures (forall k :: 0 <= k < n ==> runs[k].end != i) ==> Cut(s, runs, n)[i] == s[i]
    ensures (exists k :: 0 <= k < n && runs[k].end == i) ==> Cut(s, runs, n)[i] == NUL
  {
    if n == 0 {
    } else {
      CutAt(s, runs, n - 1, i);
    }
  }

  // A run that was cut off is a text of its own.
  lemma CutHolds(buf: seq<char>, s: string, runs: seq<Span>, n: nat, k: nat)
    requires k < n <= |runs| && Ordered(runs) && |s| < |buf| && buf[..|s|] == Cut(s, runs, n)
    requires NUL !in s && buf[|s|] == NUL
    requires forall r :: r in runs ==> r.start < r.end <= |s|
    ensures runs[k] in runs && Holds(buf, runs[k].start, s[runs[k].start..runs[k].end])
  {
    var r := runs[k];
    forall i | r.start <= i < r.end
      ensures buf[i] == s[i]
    {
      assert buf[i] == buf[..|s|][i];
      forall j | 0 <= j < n
        ensures runs[j].end != i
      {
        assert runs[j] in runs;
      }
      CutAt(s, runs, n, i);
    }
    if r.end < |s| {
      assert buf[r.end] == buf[..|s|][r.end];
      CutAt(s, runs, n, r.end);
    }
  }

  datatype Result = Count(n: nat) | InvalidArgs

  // The state of the tokenizer after n tokens, at position p.
  predicate Midway(buf: seq<char>, buf0: seq<char>, tokens: seq<nat>, s: string, delm: string, p: nat, n: nat) {
    var runs := Runs(s, delm, 0);
    && Holds(buf0, 0, s) && |buf| == |buf0| && p <= |s| && n <= |tokens|
    && n <= |runs| && runs[n..] == Runs(s, delm, p)
    && buf[..|s|] == Cut(s, runs, n) && buf[|s|..] == buf0[|s|..]
    && (forall i :: p <= i < |s| ==> buf[i] == s[i])
    && (forall k :: 0 <= k < n ==> tokens[k] == runs[k].start)
  }

  lemma NextRun(runs: seq<Span>, s: string, delm: string, p: nat, n: nat) returns (start: nat, end: nat)
    requires p <= |s| && n <= |runs| && runs[n..] == Runs(s, delm, p) && Skip(s, delm, p, true) < |s|
    ensures start == Skip(s, delm, p, true) && end == Skip(s, delm, start, false) && start < end <= |s|
    ensures n < |runs| && runs[n] == Span(start, end) && runs[n + 1..] == Runs(s, delm, end)
    ensures end < |s| ==> runs[n + 1..] == Runs(s, delm, end + 1)
  {
    start := Skip(s, delm, p, true);
    end := Skip(s, delm, start, false);
    var here := runs[n..];
    assert here == [Span(start, end)] + Runs(s, delm, end);
    assert here[0] == runs[n] && here[1..] == runs[n + 1..];
    RunsStep(s, delm, end);
  }

  // Overwriting the delimiter after the next run.
  lemma CutNext(buf: seq<char>, s: string, runs: seq<Span>, n: nat)
    requires n < |runs| && |s| < |buf| && buf[..|s|] == Cut(s, runs, n)
    ensures var end := runs[n].end;
      && (end >= |s| ==> buf[..|s|] == Cut(s, runs, n + 1))
      && (end < |s| ==> buf[end := NUL][..|s|] == Cut(s, runs, n + 1) && buf[end := NUL][|s|..] == buf[|s|..])
  {}

  lemma MidwayText(buf: seq<char>, buf0: seq<char>, tokens: seq<nat>, s: string, delm: string, p: nat, n: nat)
    requires Midway(buf, buf0, tokens, s, delm, p, n)
    ensures NUL !in s && |s| < |buf| && buf[|s|] == NUL
  {
    assert buf[|s|] == buf[|s|..][0] == buf0[|s|..][0] == buf0[0 + |s|];
  }

  lemma MidwayAtEnd(buf: seq<char>, buf0: seq<char>, tokens: seq<nat>, s: string, delm: string, p: nat, n: nat,
                    start: nat, end: nat)
    requires Midway(buf, buf0, tokens, s, delm, p, n) && n < |tokens| && p <= start < end == |s|
    requires var runs := Runs(s, delm, 0);
      n < |runs| && runs[n] == Span(start, end) && runs[n + 1..] == Runs(s, delm, end)
    ensures Midway(buf, buf0, tokens[n := start], s, delm, end, n + 1)
  {
    CutNext(buf, s, Runs(s, delm, 0), n);
  }

  lemma MidwayAtDelimiter(buf: seq<char>, buf0: seq<char>, tokens: seq<nat>, s: string, delm: string, p: nat, n: nat,
                          start: nat, end: nat)
    requires Midway(buf, buf0, tokens, s, delm, p, n) && n < |tokens| && p <= start < end < |s|
    requires var runs := Runs(s, delm, 0);
      n < |runs| && runs[n] == Span(start, end) && runs[n + 1..] == Runs(s, delm, end + 1)
    ensures Midway(buf[end := NUL], buf0, tokens[n := start], s, delm, end + 1, n + 1)
  {
    CutNext(buf, s, Runs(s, delm, 0), n);
  }

  // What the tokenizer has found so far, whatever it did to the buffer.
  lemma MidwayRuns(buf: seq<char>, buf0: seq<char>, tokens: seq<nat>, s: string, delm: string, p: nat, n: nat)
    requires Midway(buf, buf0, tokens, s, delm, p, n)
    ensures p <= |s| && n <= |Runs(s, delm, 0)| && Runs(s, delm, 0)[n..] == Runs(s, delm, p)
  {}

  // One more token, which ends where the text ends or at a delimiter that is overwritten.
  lemma MidwayStep(buf: seq<char>, buf0: seq<char>, tokens: seq<nat>, s: string, delm: string, p: nat, n: nat,
                   start: nat, end: nat)
    requires Midway(buf, buf0, tokens, s, delm, p, n) && n < |tokens| && p <= |s|
    requires start == Skip(s, delm, p, true) < |s| && end == Skip(s, delm, start, false)
    ensures start < end && (end == |s| ==> Midway(buf, buf0, tokens[n := start], s, delm, end, n + 1))
    ensures end < |s| ==> Midway(buf[end := NUL], buf0, tokens[n := start], s, delm, end + 1, n + 1)
  {
    MidwayRuns(buf, buf0, tokens, s, delm, p, n);
    var start', end' := NextRun(Runs(s, delm, 0), s, delm, p, n);
    if end == |s| {
      MidwayAtEnd(buf, buf0, tokens, s, delm, p, n, start, end);
    } else {
      MidwayAtDelimiter(buf, buf0, tokens, s, delm, p, n, start, end);
    }
  }

  // The first `max` runs were found: tokens[k] points at the k-th, which has become a text of its own, and
  // nothing but the delimiters that end these runs was overwritten.
  predicate Tokenized(buf: seq<char>, buf0: seq<char>, tokens: seq<nat>, s: string, delm: string, n: nat, max: nat) {
    var runs := Runs(s, delm, 0);
    && n == (if max < |runs| then max else |runs|) && n <= |tokens| && |s| <= |buf| && |s| <= |buf0|
    && buf[..|s|] == Cut(s, runs, n) && buf[|s|..] == buf0[|s|..]
    && forall k :: 0 <= k < n ==>
         var r := runs[k]; tokens[k] == r.start < r.end <= |s| && Holds(buf, tokens[k], s[r.start..r.end])
  }

  // The tokenizer stops when it has enough tokens or there are no more runs.
  lemma MidwayEnds(buf: seq<char>, buf0: seq<char>, tokens: seq<nat>, s: string, delm: string, p: nat, n: nat, max: nat)
    requires Midway(buf, buf0, tokens, s, delm, p, n) && n <= max && (n == max || Runs(s, delm, p) == [])
    ensures Tokenized(buf, buf0, tokens, s, delm, n, max)
  {
    var runs := Runs(s, delm, 0);
    assert Runs(s, delm, p) == [] ==> n == |runs|;
    RunsExactly(s, delm, 0);
    MidwayText(buf, buf0, tokens, s, delm, p, n);
    forall k | 0 <= k < n
      ensures var r := runs[k]; tokens[k] == r.start < r.end <= |s| && Holds(buf, tokens[k], s[r.start..r.end])
    {
      CutHolds(buf, s, runs, n, k);
    }
  }

  lemma MidwayStarts(buf: seq<char>, tokens: seq<nat>, s: string, delm: string)
    requires Holds(buf, 0, s)
    ensures Midway(buf, buf, tokens, s, delm, 0, 0) && (buf[0] == NUL <==> s == "")
  {
    assert forall i :: 0 <= i < |s| ==> buf[i] == buf[0 + i];
    assert buf[..|s|] == s;
  }

  // Advances over delimiters, or over anything but delimiters.
  method Advance(buf: array<char>, from: nat, delm: string, delims: bool, ghost text: string) returns (p: nat)
    requires from <= |text| < buf.Length && buf[|text|] == NUL && NUL !in text
    requires forall i :: from <= i < |text| ==> buf[i] == text[i]
    ensures p == Skip(text, delm, from, delims) && (buf[p] == NUL <==> p == |text|)
  {
    p := from;
    while buf[p] != NUL && (buf[p] in delm) == delims
      invariant from <= p <= |text| && Skip(text, delm, p, delims) == Skip(text, delm, from, delims)
      decreases |text| - p
    {
      p := p + 1;
    }
  }

  // The next token from position p on, if there is one, and the position at which it ends.
  method NextToken(buf: array<char>, tokens: array<nat>, p: nat, n: nat, delm: string, ghost buf0: seq<char>,
                   ghost text: string)
    returns (found: bool, end: nat, more: bool)
    requires Midway(buf[..], buf0, tokens[..], text, delm, p, n) && n < tokens.Length
    modifies buf, tokens
    ensures !found ==> buf[..] == old(buf[..]) && tokens[..] == old(tokens[..]) && Runs(text, delm, p) == []
    ensures found ==> p < end <= |text| < buf.Length && (more <==> end < |text|)
    ensures found ==> Midway(buf[..], buf0, tokens[..], text, delm, if more then end + 1 else end, n + 1)
  {
    ghost var b, t := buf[..], tokens[..];
    MidwayText(b, buf0, t, text, delm, p, n);
    var start := Advance(buf, p, delm, true, text);
    if buf[start] == NUL {
      return false, start, false;
    }
    MidwayStep(b, buf0, t, text, delm, p, n, start, Skip(text, delm, start, false));
    tokens[n] := start;
    assert tokens[..] == t[n := start];
    end := Advance(buf, start, delm, false, text);
    found, more := true, buf[end] != NUL;
    if more {
      buf[end] := NUL;
      assert buf[..] == b[end := NUL];
    }
  }

  /** Points at the first `max` runs of the text, each made a text of its own in place. */
  method Tokenize(buf: array<char>, tokens: array<nat>, max: nat, delm: string, ghost text: string)
    returns (ret: Result)
    requires Holds(buf[..], 0, text) && tokens.Length >= max && NUL !in delm
    modifies buf, tokens
    ensures text == "" || delm == "" ==> ret == InvalidArgs && buf[..] == old(buf[..])
    ensures text != "" && delm != "" ==>
      ret.Count? && Tokenized(buf[..], old(buf[..]), tokens[..], text, delm, ret.n, max)
  {
    MidwayStarts(buf[..], tokens[..], text, delm);
    if buf[0] == NUL || delm == "" {
      return InvalidArgs;
    }
    var p, n := 0, 0;
    ghost var buf0, q := buf[..], 0;
    while buf[p] != NUL && n < max
      invariant Midway(buf[..], buf0, tokens[..], text, delm, p, n) && n <= max && q == p
      decreases |text| - p
    {
      var found, end, more := NextToken(buf, tokens, p, n, delm, buf0, text);
      if !found {
        break;
      }
      n := n + 1;
      q := if more then end + 1 else end;
      if !more || buf[end + 1] == NUL {
        break;
      }
      p := end + 1;
    }
    MidwayEnds(buf[..], buf0, tokens[..], text, delm, q, n, max);
    return Count(n);
  }
}
