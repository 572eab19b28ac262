/**
 * The regular expressions of the text normalizer, each written out as a scanner over the text,
 * with the meaning of the regular expression stated beside it.
 */
module TextPatterns {
  import opened Wrappers
  import opened PyStrings

  // ---------------------------------------------------------------------------------------------
  // EMOJI_PATTERN: one or more characters of a fixed class.

  /**
   * The character class of `EMOJI_PATTERN`. Its last range, U+24C2 to U+1F251, also takes in
   * CJK ideographs, Hangul and the ideographic space.
   */
  predicate IsEmoji(c: char) {
    ('\U{1F600}' <= c <= '\U{1F64F}') || ('\U{1F300}' <= c <= '\U{1F5FF}')
    || ('\U{1F680}' <= c <= '\U{1F6FF}') || ('\U{1F1E0}' <= c <= '\U{1F1FF}')
    || ('\U{2702}' <= c <= '\U{27B0}') || ('\U{24C2}' <= c <= '\U{1F251}')
  }

  /** Where the run of emoji-class characters that starts at `p` ends: the longest such run. */
  function RunEnd(s: string, p: nat): (e: nat)
    requires p <= |s|
    ensures p <= e <= |s|
    ensures forall m :: p <= m < e ==> IsEmoji(s[m])
    ensures e < |s| ==> !IsEmoji(s[e])
    decreases |s| - p
  {
    if p < |s| && IsEmoji(s[p]) then RunEnd(s, p + 1) else p
  }

  /** `p` does not fall inside a run: it is not preceded and followed by emoji-class characters. */
  ghost predicate NotInsideRun(s: string, p: nat)
    requires p <= |s|
  {
    p == 0 || p == |s| || !IsEmoji(s[p - 1]) || !IsEmoji(s[p])
  }

  /** `findall` from index `p` on: each run of emoji-class characters, taken whole, left to right. */
  function EmojiRunsFrom(s: string, p: nat): seq<string>
    requires p <= |s|
    decreases |s| - p
  {
    if p == |s| then []
    else if !IsEmoji(s[p]) then EmojiRunsFrom(s, p + 1)
    else
      var e := RunEnd(s, p);
      [s[p..e]] + EmojiRunsFrom(s, e)
  }

  /** `EMOJI_PATTERN.findall(text)`: the maximal runs of emoji-class characters, left to right. */
  function EmojiRuns(s: string): seq<string> {
    EmojiRunsFrom(s, 0)
  }

  /** The emoji-class characters of `s` from index `p` on, in order. */
  function EmojiCharsFrom(s: string, p: nat): string
    requires p <= |s|
    decreases |s| - p
  {
    if p == |s| then [] else (if IsEmoji(s[p]) then [s[p]] else []) + EmojiCharsFrom(s, p + 1)
  }

  function Concat(parts: seq<string>): string
    decreases |parts|
  {
    if parts == [] then [] else parts[0] + Concat(parts[1..])
  }

  lemma {:induction false} EmojiCharsAcrossRun(s: string, p: nat, e: nat)
    requires p <= e <= |s| && forall m :: p <= m < e ==> IsEmoji(s[m])
    ensures EmojiCharsFrom(s, p) == s[p..e] + EmojiCharsFrom(s, e)
    decreases e - p
  {
    if p < e {
      EmojiCharsAcrossRun(s, p + 1, e);
      assert EmojiCharsFrom(s, p) == [s[p]] + EmojiCharsFrom(s, p + 1);
      assert s[p..e] == [s[p]] + s[p + 1..e];
      SeqAssoc([s[p]], s[p + 1..e], EmojiCharsFrom(s, e));
    }
  }

  lemma SeqAssoc(a: string, b: string, c: string)
    ensures a + (b + c) == (a + b) + c
  {
  }

  lemma {:induction false} ConcatRunsFrom(s: string, p: nat)
    requires p <= |s|
    ensures Concat(EmojiRunsFrom(s, p)) == EmojiCharsFrom(s, p)
    decreases |s| - p
  {
    if p < |s| {
      if !IsEmoji(s[p]) {
        ConcatRunsFrom(s, p + 1);
      } else {
        var e := RunEnd(s, p);
        var rest := EmojiRunsFrom(s, e);
        ConcatRunsFrom(s, e);
        EmojiCharsAcrossRun(s, p, e);
        assert ([s[p..e]] + rest)[1..] == rest;
      }
    }
  }

  /** Together the runs hold every emoji-class character of the text, in order. */
  lemma EmojiRunsHoldEmojiChars(s: string)
    ensures Concat(EmojiRuns(s)) == EmojiCharsFrom(s, 0)
  {
    ConcatRunsFrom(s, 0);
  }

  /** Whether `s[i..j]` is a maximal run of emoji-class characters. */
  ghost predicate IsEmojiRunAt(s: string, i: int, j: int) {
    0 <= i < j <= |s|
    && (forall k :: i <= k < j ==> IsEmoji(s[k]))
    && (i == 0 || !IsEmoji(s[i - 1]))
    && (j == |s| || !IsEmoji(s[j]))
  }

  /** Whether a maximal run of emoji-class characters starts at `m`. */
  ghost predicate IsEmojiRunStart(s: string, m: int) {
    0 <= m < |s| && IsEmoji(s[m]) && (m == 0 || !IsEmoji(s[m - 1]))
  }

  /** The number of maximal emoji runs that start before index `i`. */
  ghost function RunsBefore(s: string, i: nat): nat
    requires i <= |s|
  {
    if i == 0 then 0 else RunsBefore(s, i - 1) + (if IsEmojiRunStart(s, i - 1) then 1 else 0)
  }

  /** Inside a run that starts at `p`, only the start at `p` is counted. */
  lemma {:induction false} RunsBeforeInRun(s: string, p: nat, m: nat)
    requires p < m <= |s| && IsEmojiRunStart(s, p)
    requires forall k :: p <= k < m ==> IsEmoji(s[k])
    ensures RunsBefore(s, m) == RunsBefore(s, p) + 1
    decreases m - p
  {
    if m > p + 1 {
      RunsBeforeInRun(s, p, m - 1);
    }
  }

  /** The run found at `p` is a maximal run, and the next scan position does not cut a run. */
  lemma RunAtScan(s: string, p: nat)
    requires p < |s| && NotInsideRun(s, p) && IsEmoji(s[p])
    ensures IsEmojiRunStart(s, p) && IsEmojiRunAt(s, p, RunEnd(s, p)) && NotInsideRun(s, RunEnd(s, p))
    ensures RunsBefore(s, RunEnd(s, p)) == RunsBefore(s, p) + 1
  {
    RunsBeforeInRun(s, p, RunEnd(s, p));
  }

  /** Past a character outside the class, the scan position does not cut a run and no run starts. */
  lemma SkipAtScan(s: string, p: nat)
    requires p < |s| && !IsEmoji(s[p])
    ensures NotInsideRun(s, p + 1) && RunsBefore(s, p + 1) == RunsBefore(s, p)
  {
  }

  /** `findall` lists one run per maximal run: as many runs as run starts. */
  lemma {:induction false} EmojiRunsFromCount(s: string, p: nat)
    requires p <= |s| && NotInsideRun(s, p)
    ensures |EmojiRunsFrom(s, p)| == RunsBefore(s, |s|) - RunsBefore(s, p)
    decreases |s| - p
  {
    if p < |s| {
      if !IsEmoji(s[p]) {
        SkipAtScan(s, p);
        EmojiRunsFromCount(s, p + 1);
      } else {
        RunAtScan(s, p);
        EmojiRunsFromCount(s, RunEnd(s, p));
      }
    }
  }

  /** The number of runs `findall` lists is the number of maximal emoji runs of the text. */
  lemma EmojiRunsCount(s: string)
    ensures |EmojiRuns(s)| == RunsBefore(s, |s|)
  {
    EmojiRunsFromCount(s, 0);
  }

  /** A maximal run that starts at `i` ends where the scan from `i` ends it. */
  lemma FirstRunEnd(s: string, i: int, j: int)
    requires IsEmojiRunAt(s, i, j)
    ensures RunEnd(s, i) == j
  {
  }

  /** A scan that starts before a maximal run stops before that run. */
  lemma LaterRunStart(s: string, p: nat, i: int, j: int)
    requires IsEmojiRunAt(s, i, j) && p < i
    ensures RunEnd(s, p) < i
  {
  }

  /** A maximal run at or after `p` is listed, after the runs that start between `p` and it. */
  lemma {:induction false} EmojiRunListedFrom(s: string, p: nat, i: int, j: int)
    requires IsEmojiRunAt(s, i, j) && p <= i && NotInsideRun(s, p)
    ensures RunsBefore(s, p) <= RunsBefore(s, i)
    ensures RunsBefore(s, i) - RunsBefore(s, p) < |EmojiRunsFrom(s, p)|
    ensures EmojiRunsFrom(s, p)[RunsBefore(s, i) - RunsBefore(s, p)] == s[i..j]
    decreases |s| - p
  {
    if !IsEmoji(s[p]) {
      SkipAtScan(s, p);
      EmojiRunListedFrom(s, p + 1, i, j);
    } else {
      var e := RunEnd(s, p);
      RunAtScan(s, p);
      if i == p {
        FirstRunEnd(s, i, j);
      } else {
        LaterRunStart(s, p, i, j);
        EmojiRunListedFrom(s, e, i, j);
      }
    }
  }

  /** Each maximal run is listed, at the index given by the number of runs before it. */
  lemma EmojiRunListed(s: string, i: int, j: int)
    requires IsEmojiRunAt(s, i, j)
    ensures RunsBefore(s, i) < |EmojiRuns(s)| && EmojiRuns(s)[RunsBefore(s, i)] == s[i..j]
  {
    EmojiRunListedFrom(s, 0, i, j);
  }

  /** Each run listed from `p` on is a maximal run at or after `p`. */
  lemma {:induction false} ListedFromIsMaximal(s: string, p: nat, k: nat) returns (i: int, j: int)
    requires p <= |s| && NotInsideRun(s, p) && k < |EmojiRunsFrom(s, p)|
    ensures p <= i && IsEmojiRunAt(s, i, j) && EmojiRunsFrom(s, p)[k] == s[i..j]
    decreases |s| - p
  {
    if !IsEmoji(s[p]) {
      SkipAtScan(s, p);
      i, j := ListedFromIsMaximal(s, p + 1, k);
    } else {
      var e := RunEnd(s, p);
      RunAtScan(s, p);
      if k == 0 {
        i, j := p, e;
      } else {
        i, j := ListedFromIsMaximal(s, e, k - 1);
      }
    }
  }

  /** Each listed run is a maximal run of the text. */
  lemma ListedRunIsMaximal(s: string, k: nat) returns (i: int, j: int)
    requires k < |EmojiRuns(s)|
    ensures IsEmojiRunAt(s, i, j) && EmojiRuns(s)[k] == s[i..j]
  {
    i, j := ListedFromIsMaximal(s, 0, k);
  }

  /** Every run `findall` lists is non-empty and made of emoji-class characters. */
  lemma EmojiRunsShape(s: string)
    ensures forall k :: 0 <= k < |EmojiRuns(s)| ==> EmojiRuns(s)[k] != []
    ensures forall k, m :: 0 <= k < |EmojiRuns(s)| && 0 <= m < |EmojiRuns(s)[k]| ==> IsEmoji(EmojiRuns(s)[k][m])
  {
    forall k | 0 <= k < |EmojiRuns(s)|
      ensures EmojiRuns(s)[k] != [] && forall m :: 0 <= m < |EmojiRuns(s)[k]| ==> IsEmoji(EmojiRuns(s)[k][m])
    {
      var i, j := ListedRunIsMaximal(s, k);
      assert forall m :: 0 <= m < j - i ==> s[i..j][m] == s[i + m];
    }
  }

  /** A string is a run found by `findall` exactly when it is a maximal emoji run of the text. */
  lemma EmojiRunsAreMaximalRuns(s: string, r: string)
    ensures r in EmojiRuns(s) <==> exists i, j :: IsEmojiRunAt(s, i, j) && s[i..j] == r
  {
    if r in EmojiRuns(s) {
      var k :| 0 <= k < |EmojiRuns(s)| && EmojiRuns(s)[k] == r;
      var i, j := ListedRunIsMaximal(s, k);
    }
    if exists i, j :: IsEmojiRunAt(s, i, j) && s[i..j] == r {
      var i, j :| IsEmojiRunAt(s, i, j) && s[i..j] == r;
      EmojiRunListed(s, i, j);
    }
  }

  /** The characters of a string, as the class `[...]` built from it. */
  function CharSet(run: string): (cs: set<char>)
    ensures forall c :: c in cs <==> c in run
  {
    set m | 0 <= m < |run| :: run[m]
  }

  // ---------------------------------------------------------------------------------------------
  // Lazy spans `[open].*?[close]`, substituted left to right as `re.sub` does.

  /** A character of `close` stands at `k`, and no line break lies between `from` and it. */
  ghost predicate CloserOnLine(s: string, from: int, k: int, close: set<char>) {
    0 <= from <= k < |s| && s[k] in close && forall m :: from <= m < k ==> s[m] != '\n'
  }

  /** `s[i..j + 1]` matches `[open].*?[close]` (`.` does not match a line break). */
  ghost predicate IsSpan(s: string, i: int, j: int, open: set<char>, close: set<char>) {
    0 <= i < j < |s| && s[i] in open && CloserOnLine(s, i + 1, j, close)
  }

  /** Where `.*?[close]` tried from index `from` stops: the nearest closer on the same line. */
  function NearestCloser(s: string, from: nat, close: set<char>): (r: Option<nat>)
    ensures r.Some? ==> CloserOnLine(s, from, r.value, close)
    ensures r.Some? ==> forall k :: from <= k < r.value ==> s[k] !in close
    ensures r.None? ==> forall k :: !CloserOnLine(s, from, k, close)
    decreases |s| - from
  {
    if from >= |s| then None
    else if s[from] in close then Some(from)
    else if s[from] == '\n' then None
    else
      var r := NearestCloser(s, from + 1, close);
      assert forall k :: CloserOnLine(s, from, k, close) <==>
        (k == from && s[from] in close) || CloserOnLine(s, from + 1, k, close);
      r
  }

  /** `re.sub("[open].*?[close]", repl, s)`: each leftmost shortest span is replaced by `repl`. */
  function ReplaceSpans(s: string, open: set<char>, close: set<char>, repl: string): string
    decreases |s|
  {
    if s == [] then []
    else if s[0] in open then
      match NearestCloser(s, 1, close)
      case Some(j) => repl + ReplaceSpans(s[j + 1..], open, close, repl)
      case None => [s[0]] + ReplaceSpans(s[1..], open, close, repl)
    else [s[0]] + ReplaceSpans(s[1..], open, close, repl)
  }

  lemma CloserShift(s: string, d: nat, from: int, k: int, close: set<char>)
    requires d <= |s| && 0 <= from
    ensures CloserOnLine(s[d..], from, k, close) <==> CloserOnLine(s, from + d, k + d, close)
  {
    var t := s[d..];
    if CloserOnLine(t, from, k, close) {
      forall m | from + d <= m < k + d ensures s[m] != '\n' {
        assert s[m] == t[m - d];
      }
      assert s[k + d] == t[k];
    }
    if CloserOnLine(s, from + d, k + d, close) {
      forall m | from <= m < k ensures t[m] != '\n' {
        assert t[m] == s[m + d];
      }
      assert t[k] == s[k + d];
    }
  }

  lemma SpanShift(s: string, d: nat, i: int, j: int, open: set<char>, close: set<char>)
    requires d <= |s| && 0 <= i
    ensures IsSpan(s[d..], i, j, open, close) <==> IsSpan(s, i + d, j + d, open, close)
  {
    CloserShift(s, d, i + 1, j, close);
    if 0 <= i < |s| - d {
      assert s[d..][i] == s[i + d];
    }
  }

  /** A text without any span is left as it is. */
  lemma {:induction false} ReplaceSpansNoSpan(s: string, open: set<char>, close: set<char>, repl: string)
    requires forall i, j :: !IsSpan(s, i, j, open, close)
    ensures ReplaceSpans(s, open, close, repl) == s
    decreases |s|
  {
    if s != [] {
      ReplaceSpansHeadKept(s, open, close, repl);
      forall i, j ensures !IsSpan(s[1..], i, j, open, close) {
        if 0 <= i {
          SpanShift(s, 1, i, j, open, close);
        }
      }
      ReplaceSpansNoSpan(s[1..], open, close, repl);
    }
  }

  /**
   * The first replacement is the leftmost span, ended at its nearest closer: everything before it
   * is kept, and the substitution resumes after it.
   */
  lemma {:induction false} ReplaceSpansLeftmost(s: string, i: nat, j: nat, open: set<char>, close: set<char>, repl: string)
    requires IsSpan(s, i, j, open, close)
    requires forall i', j' :: i' < i ==> !IsSpan(s, i', j', open, close)
    requires forall j' :: j' < j ==> !IsSpan(s, i, j', open, close)
    ensures ReplaceSpans(s, open, close, repl) == s[..i] + repl + ReplaceSpans(s[j + 1..], open, close, repl)
    decreases i, 2
  {
    if i == 0 {
      ReplaceSpansLeftmostAtStart(s, j, open, close, repl);
    } else {
      ReplaceSpansLeftmostLater(s, i, j, open, close, repl);
    }
  }

  lemma ReplaceSpansLeftmostAtStart(s: string, j: nat, open: set<char>, close: set<char>, repl: string)
    requires IsSpan(s, 0, j, open, close)
    requires forall j' :: j' < j ==> !IsSpan(s, 0, j', open, close)
    ensures ReplaceSpans(s, open, close, repl) == repl + ReplaceSpans(s[j + 1..], open, close, repl)
  {
    forall k | CloserOnLine(s, 1, k, close) ensures IsSpan(s, 0, k, open, close) {
    }
    assert NearestCloser(s, 1, close) == Some(j);
  }

  lemma {:induction false} ReplaceSpansLeftmostLater(s: string, i: nat, j: nat, open: set<char>, close: set<char>, repl: string)
    requires 0 < i
    requires IsSpan(s, i, j, open, close)
    requires forall i', j' :: i' < i ==> !IsSpan(s, i', j', open, close)
    requires forall j' :: j' < j ==> !IsSpan(s, i, j', open, close)
    ensures ReplaceSpans(s, open, close, repl) == s[..i] + repl + ReplaceSpans(s[j + 1..], open, close, repl)
    decreases i, 1
  {
    ReplaceSpansHeadKept(s, open, close, repl);
    var t := s[1..];
    var i1, j1 := i - 1, j - 1;
    LeftmostShift(s, t, i, i1, j, open, close);
    ReplaceSpansLeftmost(t, i1, j1, open, close, repl);
    KeptHeadJoin(s, t, i, i1, j, j1, ReplaceSpans(s, open, close, repl), ReplaceSpans(t, open, close, repl),
      ReplaceSpans(t[j1 + 1..], open, close, repl), ReplaceSpans(s[j + 1..], open, close, repl), repl);
  }

  /** Putting the kept first character back in front of the replaced rest of the text. */
  lemma KeptHeadJoin(s: string, t: string, i: nat, i1: nat, j: nat, j1: nat, rs: string, rt: string, rtTail: string, rsTail: string, repl: string)
    requires 0 < i <= j < |s| && t == s[1..] && i1 + 1 == i && j1 + 1 == j
    requires rs == [s[0]] + rt && rt == t[..i1] + repl + rtTail
    requires t[j1 + 1..] == s[j + 1..] ==> rtTail == rsTail
    ensures rs == s[..i] + repl + rsTail
  {
    DropHead(s, i, j);
  }

  /** Dropping the first character keeps the leftmost span leftmost, one place earlier. */
  lemma LeftmostShift(s: string, t: string, i: nat, i1: nat, j: nat, open: set<char>, close: set<char>)
    requires IsSpan(s, i, j, open, close)
    requires t == s[1..] && i1 + 1 == i
    requires forall i', j' :: i' < i ==> !IsSpan(s, i', j', open, close)
    requires forall j' :: j' < j ==> !IsSpan(s, i, j', open, close)
    ensures IsSpan(t, i1, j - 1, open, close)
    ensures forall i', j' :: i' < i1 ==> !IsSpan(t, i', j', open, close)
    ensures forall j' :: j' < j - 1 ==> !IsSpan(t, i1, j', open, close)
  {
    SpanShift(s, 1, i1, j - 1, open, close);
    forall i', j' | i' < i1 ensures !IsSpan(t, i', j', open, close) {
      if 0 <= i' {
        SpanShift(s, 1, i', j', open, close);
      }
    }
    forall j' | j' < j - 1 ensures !IsSpan(t, i1, j', open, close) {
      SpanShift(s, 1, i1, j', open, close);
    }
  }

  lemma DropHead(s: string, i: nat, j: nat)
    requires 0 < i <= j < |s|
    ensures s[1..][j..] == s[j + 1..]
    ensures s[..i] == [s[0]] + s[1..][..i - 1]
  {
  }

  /** A first character that opens no span is kept, and the substitution goes on after it. */
  lemma ReplaceSpansHeadKept(s: string, open: set<char>, close: set<char>, repl: string)
    requires s != []
    requires forall j :: !IsSpan(s, 0, j, open, close)
    ensures ReplaceSpans(s, open, close, repl) == [s[0]] + ReplaceSpans(s[1..], open, close, repl)
  {
    if s[0] in open && NearestCloser(s, 1, close).Some? {
      var k := NearestCloser(s, 1, close).value;
      assert IsSpan(s, 0, k, open, close);
    }
  }

  /** Substituting never brings a closer onto the first line of a text whose first line has none. */
  lemma {:induction false} NoCloserKept(t: string, k: int, open: set<char>, close: set<char>, repl: string)
    requires '\n' !in open
    requires forall k' :: !CloserOnLine(t, 0, k', close)
    ensures !CloserOnLine(ReplaceSpans(t, open, close, repl), 0, k, close)
    decreases |t|
  {
    var r := ReplaceSpans(t, open, close, repl);
    if t == [] {
    } else if t[0] == '\n' {
      assert !CloserOnLine(t, 0, 0, close);
      assert r[0] == t[0];
    } else {
      assert !CloserOnLine(t, 0, 0, close);
      forall k' ensures CloserOnLine(t[1..], 0, k', close) ==> CloserOnLine(t, 0, k' + 1, close) {
        CloserShift(t, 1, 0, k', close);
      }
      forall j ensures IsSpan(t, 0, j, open, close) ==> CloserOnLine(t, 0, j, close) {
      }
      ReplaceSpansHeadKept(t, open, close, repl);
      var r' := ReplaceSpans(t[1..], open, close, repl);
      assert r == [t[0]] + r';
      if k > 0 {
        NoCloserKept(t[1..], k - 1, open, close, repl);
        CloserShift(r, 1, 0, k - 1, close);
        assert r[1..] == r';
      }
    }
  }

  /** No span starts at `i` in the substituted text. */
  lemma {:induction false} NoSpanAt(s: string, i: int, j: int, open: set<char>, close: set<char>, repl: string)
    requires '\n' !in open
    requires forall m :: 0 <= m < |repl| ==> repl[m] !in open
    ensures !IsSpan(ReplaceSpans(s, open, close, repl), i, j, open, close)
    decreases |s|, 1
  {
    if s == [] {
    } else if s[0] in open && NearestCloser(s, 1, close).Some? {
      NoSpanAtReplaced(s, i, j, open, close, repl);
    } else {
      NoSpanAtKept(s, i, j, open, close, repl);
    }
  }

  lemma {:induction false} NoSpanAtReplaced(s: string, i: int, j: int, open: set<char>, close: set<char>, repl: string)
    requires '\n' !in open
    requires forall m :: 0 <= m < |repl| ==> repl[m] !in open
    requires s != [] && s[0] in open && NearestCloser(s, 1, close).Some?
    ensures !IsSpan(ReplaceSpans(s, open, close, repl), i, j, open, close)
    decreases |s|, 0
  {
    var r := ReplaceSpans(s, open, close, repl);
    var c := NearestCloser(s, 1, close).value;
    var r' := ReplaceSpans(s[c + 1..], open, close, repl);
    assert r == repl + r';
    if i >= |repl| {
      NoSpanAt(s[c + 1..], i - |repl|, j - |repl|, open, close, repl);
      assert r[|repl|..] == r';
      SpanShift(r, |repl|, i - |repl|, j - |repl|, open, close);
    } else if 0 <= i {
      assert r[i] == repl[i];
    }
  }

  lemma {:induction false} NoSpanAtKept(s: string, i: int, j: int, open: set<char>, close: set<char>, repl: string)
    requires '\n' !in open
    requires forall m :: 0 <= m < |repl| ==> repl[m] !in open
    requires s != [] && (s[0] !in open || NearestCloser(s, 1, close).None?)
    ensures !IsSpan(ReplaceSpans(s, open, close, repl), i, j, open, close)
    decreases |s|, 0
  {
    var r := ReplaceSpans(s, open, close, repl);
    var r' := ReplaceSpans(s[1..], open, close, repl);
    assert r == [s[0]] + r';
    assert r[1..] == r';
    if i >= 1 {
      NoSpanAt(s[1..], i - 1, j - 1, open, close, repl);
      SpanShift(r, 1, i - 1, j - 1, open, close);
    } else if i == 0 && s[0] in open {
      forall k' ensures !CloserOnLine(s[1..], 0, k', close) {
        CloserShift(s, 1, 0, k', close);
      }
      NoCloserKept(s[1..], j - 1, open, close, repl);
      CloserShift(r, 1, 0, j - 1, close);
    }
  }

  /**
   * When the replacement holds no opener and no opener is a line break, the substituted text
   * has no span left.
   */
  lemma ReplaceSpansLeavesNoSpan(s: string, open: set<char>, close: set<char>, repl: string)
    requires '\n' !in open
    requires forall m :: 0 <= m < |repl| ==> repl[m] !in open
    ensures forall i, j :: !IsSpan(ReplaceSpans(s, open, close, repl), i, j, open, close)
  {
    forall i, j ensures !IsSpan(ReplaceSpans(s, open, close, repl), i, j, open, close) {
      NoSpanAt(s, i, j, open, close, repl);
    }
  }

  // ---------------------------------------------------------------------------------------------
  // BRACKETS_PATTERN, SPECIAL_CHARS_PATTERN, WHITESPACE_PATTERN.

  const BracketOpeners: set<char> := {'(', '[', '<', '"', '|'}
  const BracketClosers: set<char> := {')', ']', '>', '"', '|'}

  predicate IsSpecial(c: char) {
    c == '-' || c == '_' || c == '*'
  }

  /** Whitespace stands both at `i` and at `i + 1`. */
  predicate SpacePair(s: string, i: int) {
    0 <= i && i + 1 < |s| && IsSpace(s[i]) && IsSpace(s[i + 1])
  }

  /** The non-whitespace characters of `s`, in order. */
  function NonSpaceChars(s: string): string
    decreases |s|
  {
    if s == [] then [] else (if NotSpace(s[0]) then [s[0]] else []) + NonSpaceChars(s[1..])
  }

  lemma {:induction false} NonSpaceCharsAfterSpaces(s: string, n: nat)
    requires n <= |s| && forall i :: 0 <= i < n ==> IsSpace(s[i])
    ensures NonSpaceChars(s) == NonSpaceChars(s[n..])
    decreases n
  {
    if n > 0 {
      NonSpaceCharsAfterSpaces(s[1..], n - 1);
      assert s[1..][n - 1..] == s[n..];
    }
  }

  /**
   * `WHITESPACE_PATTERN.sub(' ', text)`: each maximal whitespace run becomes one space. The result
   * has no two whitespace characters side by side, its only whitespace is ' ', its non-whitespace
   * characters are those of the text in the same order, and it starts with whitespace exactly when
   * the text does.
   */
  function CollapseWhitespace(s: string): (r: string)
    ensures forall i :: 0 <= i < |r| && IsSpace(r[i]) ==> r[i] == ' '
    ensures forall i :: !SpacePair(r, i)
    ensures forall i :: 0 <= i < |r| ==> r[i] == ' ' || r[i] in s
    ensures NonSpaceChars(r) == NonSpaceChars(s)
    ensures r == [] <==> s == []
    ensures r != [] ==> (IsSpace(r[0]) <==> IsSpace(s[0]))
    decreases |s|
  {
    if s == [] then []
    else if IsSpace(s[0]) then
      var n := SpaceRunLen(s);
      var rest := CollapseWhitespace(s[n..]);
      NonSpaceCharsAfterSpaces(s, n);
      assert forall i :: 0 <= i < |rest| && rest[i] in s[n..] ==> rest[i] in s;
      assert NonSpaceChars(" " + rest) == NonSpaceChars(rest) by {
        assert (" " + rest)[1..] == rest;
      }
      forall i ensures !SpacePair(" " + rest, i) {
        if i >= 1 {
          assert !SpacePair(rest, i - 1);
        }
      }
      " " + rest
    else
      var rest := CollapseWhitespace(s[1..]);
      assert forall i :: 0 <= i < |rest| && rest[i] in s[1..] ==> rest[i] in s;
      assert ([s[0]] + rest)[1..] == rest;
      forall i ensures !SpacePair([s[0]] + rest, i) {
        if i >= 1 {
          assert !SpacePair(rest, i - 1);
        }
      }
      [s[0]] + rest
  }

  /**
   * One unfolding step of the collapse: a leading non-whitespace character is kept. It is the
   * definition read at its first branch, named for the proofs below and the concrete examples.
   */
  lemma CollapseKeepsHead(s: string)
    requires s != [] && NotSpace(s[0])
    ensures CollapseWhitespace(s) == [s[0]] + CollapseWhitespace(s[1..])
  {
  }

  /**
   * One unfolding step of the collapse: a leading whitespace run becomes one space. It is the
   * definition read at its other branch, named for the proofs below and the concrete examples.
   */
  lemma CollapseSpaceHead(s: string)
    requires s != [] && IsSpace(s[0])
    ensures CollapseWhitespace(s) == " " + CollapseWhitespace(s[SpaceRunLen(s)..])
  {
  }

  /** A leading word is kept whole by the collapse. */
  lemma {:induction false} CollapseKeepsWord(s: string, n: nat)
    requires n <= WordLen(s)
    ensures CollapseWhitespace(s) == s[..n] + CollapseWhitespace(s[n..])
    decreases n
  {
    if n > 0 {
      assert WordLen(s) == 1 + WordLen(s[1..]);
      CollapseKeepsHead(s);
      CollapseKeepsWord(s[1..], n - 1);
      assert s[1..][n - 1..] == s[n..];
      ConsJoin(s, n, CollapseWhitespace(s), CollapseWhitespace(s[1..]), CollapseWhitespace(s[n..]));
    }
  }

  lemma ConsJoin(s: string, n: nat, a: string, b: string, c: string)
    requires 0 < n <= |s| && a == [s[0]] + b && b == s[1..][..n - 1] + c
    ensures a == s[..n] + c
  {
    assert s[..n] == [s[0]] + s[1..][..n - 1];
  }

  /**
   * The collapse changes only whitespace: `str.split()` finds the same words, in the same order, in
   * the text before and after it.
   */
  lemma {:induction false} CollapseKeepsWords(s: string)
    ensures Words(CollapseWhitespace(s)) == Words(s)
    decreases |s|
  {
    if s != [] {
      if IsSpace(s[0]) {
        var n := SpaceRunLen(s);
        var rest := CollapseWhitespace(s[n..]);
        CollapseSpaceHead(s);
        assert (" " + rest)[1..] == rest;
        WordsSkip(" " + rest);
        WordsAfterSpaces(s, n);
        CollapseKeepsWords(s[n..]);
      } else {
        var n := WordLen(s);
        var rest := CollapseWhitespace(s[n..]);
        CollapseKeepsWord(s, n);
        WordsOfWordThenSpace(s[..n], rest);
        WordsCons(s, n);
        CollapseKeepsWords(s[n..]);
      }
    }
  }

  /** The collapsed text ends with whitespace exactly when the text does. */
  lemma {:induction false} CollapseKeepsLast(s: string)
    ensures CollapseWhitespace(s) != [] ==> (IsSpace(CollapseWhitespace(s)[|CollapseWhitespace(s)| - 1]) <==> IsSpace(s[|s| - 1]))
    decreases |s|
  {
    if s != [] {
      if IsSpace(s[0]) {
        var n := SpaceRunLen(s);
        CollapseSpaceHead(s);
        CollapseKeepsLast(s[n..]);
        if n < |s| {
          assert s[n..][|s| - n - 1] == s[|s| - 1];
        }
      } else {
        CollapseKeepsHead(s);
        CollapseKeepsLast(s[1..]);
        if 1 < |s| {
          assert s[1..][|s| - 2] == s[|s| - 1];
        }
      }
    }
  }

  // ---------------------------------------------------------------------------------------------
  // PHONE_PATTERN = (\+84|0)[0-9]{9,10}, searched anywhere in the text.

  /** At least `n` ASCII digits stand in `s` from index `k` on. */
  ghost predicate DigitsAt(s: string, k: int, n: nat) {
    0 <= k && k + n <= |s| && forall m :: k <= m < k + n ==> IsDigit(s[m])
  }

  /** `PHONE_PATTERN` matches at index `i`: `+84` or `0`, then nine digits (a tenth is optional). */
  ghost predicate PhoneAt(s: string, i: int) {
    (OccursAt(s, "+84", i) && DigitsAt(s, i + 3, 9)) || (0 <= i < |s| && s[i] == '0' && DigitsAt(s, i + 1, 9))
  }

  /** The number of consecutive ASCII digits in `s` from index `k` on. */
  function DigitRun(s: string, k: nat): (n: nat)
    ensures k <= |s| ==> k + n <= |s|
    ensures forall m :: k <= m < k + n ==> m < |s| && IsDigit(s[m])
    ensures k + n < |s| ==> !IsDigit(s[k + n])
    decreases |s| - k
  {
    if k < |s| && IsDigit(s[k]) then 1 + DigitRun(s, k + 1) else 0
  }

  /** Matching `PHONE_PATTERN` at index `i`: try `+84`, then `0`, then count the digits after it. */
  function MatchPhoneAt(s: string, i: nat): (r: bool)
    ensures r <==> PhoneAt(s, i)
  {
    if i + 3 <= |s| && s[i..i + 3] == "+84" then
      DigitRun(s, i + 3) >= 9
    else if i < |s| && s[i] == '0' then
      DigitRun(s, i + 1) >= 9
    else
      assert !OccursAt(s, "+84", i);
      false
  }

  /** `PHONE_PATTERN.search(s[from..])`: some start position at or after `from` matches. */
  function SearchPhone(s: string, from: nat): (r: bool)
    ensures r <==> exists i :: from <= i < |s| && PhoneAt(s, i)
    decreases |s| - from
  {
    if from >= |s| then false else MatchPhoneAt(s, from) || SearchPhone(s, from + 1)
  }

  // ---------------------------------------------------------------------------------------------
  // URL_PATTERN = http[s]?://(?:[a-zA-Z]|[0-9]|[$-_@.&+]|[!*\\(\\),]|(?:%[0-9a-fA-F][0-9a-fA-F]))+

  /**
   * A character one of the single-character alternatives of `URL_PATTERN` takes. `[$-_@.&+]` is a
   * range from '$' to '_' plus four characters, and `[!*\\(\\),]` holds a backslash. The `%XX`
   * alternative starts with '%', which the range already holds, so a URL needs one of these.
   */
  predicate IsUrlChar(c: char) {
    ('a' <= c <= 'z') || ('A' <= c <= 'Z') || ('0' <= c <= '9')
    || ('$' <= c <= '_') || c == '@' || c == '.' || c == '&' || c == '+'
    || c == '!' || c == '*' || c == '\\' || c == '(' || c == ')' || c == ','
  }

  /** `URL_PATTERN` matches at index `i`: `http://` or `https://`, then at least one URL character. */
  ghost predicate UrlAt(s: string, i: int) {
    (OccursAt(s, "http://", i) && i + 7 < |s| && IsUrlChar(s[i + 7]))
    || (OccursAt(s, "https://", i) && i + 8 < |s| && IsUrlChar(s[i + 8]))
  }

  /** Matching `URL_PATTERN` at index `i`: `http`, an optional `s` taken greedily, `://`, one URL character. */
  function MatchUrlAt(s: string, i: nat): (r: bool)
    ensures r <==> UrlAt(s, i)
  {
    if i + 4 <= |s| && s[i..i + 4] == "http" then
      var k := if i + 4 < |s| && s[i + 4] == 's' then i + 5 else i + 4;
      assert OccursAt(s, "http://", i) <==> k == i + 4 && OccursAt(s, "://", k) by {
        if OccursAt(s, "http://", i) {
          assert s[i + 4] == "http://"[4];
          assert s[k..k + 3] == s[i..i + 7][4..];
        }
        if k == i + 4 && OccursAt(s, "://", k) {
          assert s[i..i + 7] == s[i..i + 4] + s[k..k + 3];
        }
      }
      assert OccursAt(s, "https://", i) <==> k == i + 5 && OccursAt(s, "://", k) by {
        if OccursAt(s, "https://", i) {
          assert s[i + 4] == "https://"[4];
          assert s[k..k + 3] == s[i..i + 8][5..];
        }
        if k == i + 5 && OccursAt(s, "://", k) {
          assert s[i..i + 8] == s[i..i + 4] + [s[i + 4]] + s[k..k + 3];
        }
      }
      OccursAt(s, "://", k) && k + 3 < |s| && IsUrlChar(s[k + 3])
    else
      assert !OccursAt(s, "http://", i) && !OccursAt(s, "https://", i) by {
        if i + 7 <= |s| {
          assert s[i..i + 4] == s[i..i + 7][..4];
        }
        if i + 8 <= |s| {
          assert s[i..i + 4] == s[i..i + 8][..4];
        }
      }
      false
  }

  /** `URL_PATTERN.search(s[from..])`: some start position at or after `from` matches. */
  function SearchUrl(s: string, from: nat): (r: bool)
    ensures r <==> exists i :: from <= i < |s| && UrlAt(s, i)
    decreases |s| - from
  {
    if from >= |s| then false else MatchUrlAt(s, from) || SearchUrl(s, from + 1)
  }
}
