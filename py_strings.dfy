/** The Python `str` operations the profiler and the text normalizer rely on. */
module PyStrings {
  import opened Wrappers

  /** `str.isspace()`. In a `str` pattern the `re` module's `\s` matches exactly these characters. */
  predicate IsSpace(c: char) {
    c == ' ' || ('\t' <= c <= '\r') || ('\U{1C}' <= c <= '\U{1F}') || c == '\U{85}' || c == '\U{A0}'
    || c == '\U{1680}' || ('\U{2000}' <= c <= '\U{200A}') || c == '\U{2028}' || c == '\U{2029}'
    || c == '\U{202F}' || c == '\U{205F}' || c == '\U{3000}'
  }

  predicate NotSpace(c: char) {
    !IsSpace(c)
  }

  /** Neither the first nor the last character of `s` is whitespace. */
  predicate NoSpaceAtEnds(s: string) {
    s != [] ==> NotSpace(s[0]) && NotSpace(s[|s| - 1])
  }

  /** The class `[0-9]` of a regular expression. */
  predicate IsDigit(c: char) {
    '0' <= c <= '9'
  }

  predicate IsUpper(c: char) {
    'A' <= c <= 'Z'
  }

  function LowerChar(c: char): char {
    if IsUpper(c) then (c as int + 32) as char else c
  }

  /** `str.lower()` on ASCII letters; every other character is kept. */
  function Lower(s: string): (r: string)
    ensures |r| == |s|
    ensures forall i :: 0 <= i < |r| ==> !IsUpper(r[i])
    ensures forall i :: 0 <= i < |s| && !IsUpper(s[i]) ==> r[i] == s[i]
    ensures forall i :: 0 <= i < |s| && IsUpper(s[i]) ==> r[i] as int == s[i] as int + 32
  {
    seq(|s|, i requires 0 <= i < |s| => LowerChar(s[i]))
  }

  /** Length of the longest prefix of `s` made of whitespace. */
  function SpaceRunLen(s: string): (n: nat)
    ensures n <= |s|
    ensures forall i :: 0 <= i < n ==> IsSpace(s[i])
    ensures n < |s| ==> NotSpace(s[n])
    decreases |s|
  {
    if s != [] && IsSpace(s[0]) then 1 + SpaceRunLen(s[1..]) else 0
  }

  /** Length of the longest prefix of `s` made of non-whitespace characters. */
  function WordLen(s: string): (n: nat)
    ensures n <= |s|
    ensures forall i :: 0 <= i < n ==> NotSpace(s[i])
    ensures n < |s| ==> IsSpace(s[n])
    decreases |s|
  {
    if s != [] && NotSpace(s[0]) then 1 + WordLen(s[1..]) else 0
  }

  /** `str.lstrip()`: leading whitespace removed. */
  function LStrip(s: string): (r: string)
    ensures |r| <= |s| && r == s[|s| - |r|..]
    ensures forall i :: 0 <= i < |s| - |r| ==> IsSpace(s[i])
    ensures r != [] ==> NotSpace(r[0])
  {
    s[SpaceRunLen(s)..]
  }

  /** `str.rstrip()`: trailing whitespace removed. */
  function RStrip(s: string): (r: string)
    ensures |r| <= |s| && r == s[..|r|]
    ensures forall i :: |r| <= i < |s| ==> IsSpace(s[i])
    ensures r != [] ==> NotSpace(r[|r| - 1])
    decreases |s|
  {
    if s != [] && IsSpace(s[|s| - 1]) then RStrip(s[..|s| - 1]) else s
  }

  /** `str.rstrip(chars)`: trailing characters that belong to `chars` removed. */
  function RStripChars(s: string, chars: set<char>): (r: string)
    ensures |r| <= |s| && r == s[..|r|]
    ensures forall i :: |r| <= i < |s| ==> s[i] in chars
    ensures r != [] ==> r[|r| - 1] !in chars
    decreases |s|
  {
    if s != [] && s[|s| - 1] in chars then RStripChars(s[..|s| - 1], chars) else s
  }

  /**
   * `str.strip()`: leading and trailing whitespace removed. What is left is the text that follows
   * the leading whitespace run, and only whitespace follows it.
   */
  function Strip(s: string): (r: string)
    ensures NoSpaceAtEnds(r)
    ensures r == [] <==> forall i :: 0 <= i < |s| ==> IsSpace(s[i])
    ensures SpaceRunLen(s) + |r| <= |s| && r == s[SpaceRunLen(s)..SpaceRunLen(s) + |r|]
    ensures forall i :: SpaceRunLen(s) + |r| <= i < |s| ==> IsSpace(s[i])
  {
    var t := LStrip(s);
    assert t == [] ==> forall i :: 0 <= i < |s| ==> IsSpace(s[i]);
    RStrip(t)
  }

  /** Whether `s[i..j]` is a maximal run of non-whitespace characters. */
  ghost predicate IsTokenAt(s: string, i: int, j: int) {
    0 <= i < j <= |s|
    && (forall k :: i <= k < j ==> NotSpace(s[k]))
    && (i == 0 || IsSpace(s[i - 1]))
    && (j == |s| || IsSpace(s[j]))
  }

  /** `str.split()` with no argument: the maximal runs of non-whitespace characters, in order. */
  function Words(s: string): (ws: seq<string>)
    decreases |s|
  {
    if s == [] then []
    else if IsSpace(s[0]) then Words(s[1..])
    else
      var n := WordLen(s);
      [s[..n]] + Words(s[n..])
  }

  /** A maximal run seen in `s[d..]` is the same run of `s`, `d` places further on. */
  lemma TokenShift(s: string, d: nat, i: int, j: int)
    requires d <= |s| && 0 <= i
    requires i == 0 ==> 0 < d && IsSpace(s[d - 1])
    ensures IsTokenAt(s[d..], i, j) <==> IsTokenAt(s, i + d, j + d)
  {
    if IsTokenAt(s[d..], i, j) {
      assert forall k :: i + d <= k < j + d ==> s[k] == s[d..][k - d];
    }
    if IsTokenAt(s, i + d, j + d) {
      assert forall k :: i <= k < j ==> s[d..][k] == s[k + d];
    }
  }

  lemma SliceOfDrop(s: string, d: nat, i: nat, j: nat)
    requires d <= |s| && i <= j <= |s| - d
    ensures s[d..][i..j] == s[i + d..j + d]
  {
  }

  /** `str.split()` skips a leading whitespace character. */
  lemma WordsSkip(s: string)
    requires s != [] && IsSpace(s[0])
    ensures Words(s) == Words(s[1..])
  {
  }

  /** `str.split()` skips a whole leading whitespace run. */
  lemma {:induction false} WordsAfterSpaces(s: string, n: nat)
    requires n <= |s| && forall i :: 0 <= i < n ==> IsSpace(s[i])
    ensures Words(s) == Words(s[n..])
    decreases n
  {
    if n > 0 {
      WordsSkip(s);
      WordsAfterSpaces(s[1..], n - 1);
      assert s[1..][n - 1..] == s[n..];
    }
  }

  /** A word followed by nothing or by whitespace is the whole first word. */
  lemma {:induction false} WordLenOfWordThenSpace(w: string, t: string)
    requires forall i :: 0 <= i < |w| ==> NotSpace(w[i])
    requires t == [] || IsSpace(t[0])
    ensures WordLen(w + t) == |w|
    decreases |w|
  {
    if w != [] {
      assert (w + t)[1..] == w[1..] + t;
      WordLenOfWordThenSpace(w[1..], t);
    }
  }

  /** `str.split()` of a word followed by nothing or by whitespace: the word, then the words of the rest. */
  lemma WordsOfWordThenSpace(w: string, t: string)
    requires w != [] && forall i :: 0 <= i < |w| ==> NotSpace(w[i])
    requires t == [] || IsSpace(t[0])
    ensures Words(w + t) == [w] + Words(t)
  {
    WordLenOfWordThenSpace(w, t);
    assert (w + t)[..|w|] == w && (w + t)[|w|..] == t;
    WordsCons(w + t, |w|);
  }

  /** `str.split()` of a text that starts with a word: that word, then the words of the rest. */
  lemma WordsCons(s: string, n: nat)
    requires s != [] && NotSpace(s[0]) && n == WordLen(s)
    ensures Words(s) == [s[..n]] + Words(s[n..])
  {
  }

  lemma FirstWordIsToken(s: string, n: nat)
    requires s != [] && NotSpace(s[0]) && n == WordLen(s)
    ensures IsTokenAt(s, 0, n) && s[0..n] == s[..n]
  {
  }

  lemma TailWordMember(s: string, n: nat, w: string)
    requires s != [] && NotSpace(s[0]) && n == WordLen(s)
    requires w in Words(s) && w != s[..n]
    ensures w in Words(s[n..])
  {
    WordsCons(s, n);
  }

  /** A run of the text after the first word is a run of the whole text, `n` places further on. */
  lemma ShiftTokenPastFirstWord(s: string, n: nat, w: string, i': int, j': int) returns (i: int, j: int)
    requires n == WordLen(s) && IsTokenAt(s[n..], i', j') && s[n..][i'..j'] == w
    ensures IsTokenAt(s, i, j) && s[i..j] == w
  {
    TokenAfterFirstWord(s, n, i', j');
    TokenShift(s, n, i', j');
    SliceOfDrop(s, n, i', j');
    i, j := i' + n, j' + n;
  }

  lemma FirstTokenIsFirstWord(s: string, n: nat, j: int)
    requires n == WordLen(s) && IsTokenAt(s, 0, j)
    ensures 0 < |Words(s)| && Words(s)[0] == s[0..j]
  {
    assert j == n;
    assert s[0..j] == s[..n];
    WordsCons(s, n);
  }

  /** A run found after the first word of a text starts after a whitespace character. */
  lemma TokenAfterFirstWord(s: string, n: nat, i: int, j: int)
    requires n == WordLen(s) && IsTokenAt(s[n..], i, j)
    ensures 0 < i
  {
    assert IsSpace(s[n..][0]) by {
      assert s[n..][0] == s[n];
    }
  }

  lemma LaterTokenAfterFirstWord(s: string, n: nat, i: int, j: int)
    requires n == WordLen(s) && IsTokenAt(s, i, j) && 0 < i
    ensures n < i
  {
    assert IsSpace(s[i - 1]);
  }

  /** Every piece of `str.split()` is a maximal non-whitespace run of the text; the run is returned. */
  lemma {:induction false} WordIsToken(s: string, w: string) returns (i: int, j: int)
    requires w in Words(s)
    ensures IsTokenAt(s, i, j) && s[i..j] == w
    decreases |s|, 1
  {
    if IsSpace(s[0]) {
      i, j := WordIsTokenAfterSpace(s, w);
    } else {
      i, j := WordIsTokenAfterWord(s, w);
    }
  }

  lemma {:induction false} WordIsTokenAfterSpace(s: string, w: string) returns (i: int, j: int)
    requires s != [] && IsSpace(s[0]) && w in Words(s)
    ensures IsTokenAt(s, i, j) && s[i..j] == w
    decreases |s|, 0
  {
    WordsSkip(s);
    var i', j' := WordIsToken(s[1..], w);
    TokenShift(s, 1, i', j');
    SliceOfDrop(s, 1, i', j');
    i, j := i' + 1, j' + 1;
  }

  lemma {:induction false} WordIsTokenAfterWord(s: string, w: string) returns (i: int, j: int)
    requires s != [] && NotSpace(s[0]) && w in Words(s)
    ensures IsTokenAt(s, i, j) && s[i..j] == w
    decreases |s|, 0
  {
    var n := WordLen(s);
    if w == s[..n] {
      FirstWordIsToken(s, n);
      i, j := 0, n;
    } else {
      TailWordMember(s, n, w);
      var i', j' := WordIsToken(s[n..], w);
      i, j := ShiftTokenPastFirstWord(s, n, w, i', j');
    }
  }

  /** Every maximal non-whitespace run of the text is a piece of `str.split()`; its index is returned. */
  lemma {:induction false} TokenIsWord(s: string, i: int, j: int) returns (k: nat)
    requires IsTokenAt(s, i, j)
    ensures k < |Words(s)| && Words(s)[k] == s[i..j]
    decreases |s|, 1
  {
    if IsSpace(s[0]) {
      k := TokenIsWordAfterSpace(s, i, j);
    } else {
      k := TokenIsWordAfterWord(s, i, j);
    }
  }

  lemma {:induction false} TokenIsWordAfterSpace(s: string, i: int, j: int) returns (k: nat)
    requires IsTokenAt(s, i, j) && IsSpace(s[0])
    ensures k < |Words(s)| && Words(s)[k] == s[i..j]
    decreases |s|, 0
  {
    TokenShift(s, 1, i - 1, j - 1);
    k := TokenIsWord(s[1..], i - 1, j - 1);
    SliceOfDrop(s, 1, i - 1, j - 1);
    WordsSkip(s);
  }

  lemma {:induction false} TokenIsWordAfterWord(s: string, i: int, j: int) returns (k: nat)
    requires IsTokenAt(s, i, j) && NotSpace(s[0])
    ensures k < |Words(s)| && Words(s)[k] == s[i..j]
    decreases |s|, 0
  {
    var n := WordLen(s);
    if i == 0 {
      FirstTokenIsFirstWord(s, n, j);
      k := 0;
    } else {
      TokenPastFirstWord(s, n, i, j);
      var k' := TokenIsWord(s[n..], i - n, j - n);
      k := WordPastFirstWord(s, n, i, j, k');
    }
  }

  /** A token after the first word is a token of the rest that follows the first word. */
  lemma TokenPastFirstWord(s: string, n: nat, i: int, j: int)
    requires IsTokenAt(s, i, j) && 0 < i && n == WordLen(s)
    ensures n < i && IsTokenAt(s[n..], i - n, j - n)
  {
    LaterTokenAfterFirstWord(s, n, i, j);
    TokenShift(s, n, i - n, j - n);
  }

  /** The word at `k'` of the rest after the first word is the word at `k' + 1` of the text. */
  lemma WordPastFirstWord(s: string, n: nat, i: int, j: int, k': nat) returns (k: nat)
    requires s != [] && NotSpace(s[0]) && n == WordLen(s) && n < i <= j <= |s|
    requires k' < |Words(s[n..])| && Words(s[n..])[k'] == s[n..][i - n..j - n]
    ensures k < |Words(s)| && Words(s)[k] == s[i..j]
  {
    WordsCons(s, n);
    TailTokenIndex(s, n, i, j, k');
    k := k' + 1;
  }

  /** The word at index `k` of the rest after the first word is the word at `k + 1` of the text. */
  lemma TailTokenIndex(s: string, n: nat, i: int, j: int, k: nat)
    requires n < i <= j <= |s| && Words(s) == [s[..n]] + Words(s[n..])
    requires k < |Words(s[n..])| && Words(s[n..])[k] == s[n..][i - n..j - n]
    ensures k + 1 < |Words(s)| && Words(s)[k + 1] == s[i..j]
  {
    SliceOfDrop(s, n, i - n, j - n);
    ConsIndex(s[..n], Words(s[n..]), k);
  }

  lemma ConsIndex<T>(x: T, xs: seq<T>, k: nat)
    requires k < |xs|
    ensures k + 1 < |[x] + xs| && ([x] + xs)[k + 1] == xs[k]
  {
  }

  /** A string is a piece of `str.split()` exactly when it is a maximal non-whitespace run of the text. */
  lemma WordsAreTokens(s: string, w: string)
    ensures w in Words(s) <==> exists i, j :: IsTokenAt(s, i, j) && s[i..j] == w
  {
    if w in Words(s) {
      var i, j := WordIsToken(s, w);
    }
    if exists i, j :: IsTokenAt(s, i, j) && s[i..j] == w {
      var i, j :| IsTokenAt(s, i, j) && s[i..j] == w;
      var k := TokenIsWord(s, i, j);
    }
  }

  /** Whether `sep` occurs in `s` starting at index `i`. */
  predicate OccursAt(s: string, sep: string, i: int) {
    0 <= i && i + |sep| <= |s| && s[i..i + |sep|] == sep
  }

  /** The leftmost index, at or after `from`, at which `sep` occurs in `s` (`str.find`). */
  function FindFrom(s: string, sep: string, from: nat): (r: Option<nat>)
    ensures r.Some? ==> from <= r.value && OccursAt(s, sep, r.value)
    ensures r.Some? ==> forall i :: from <= i < r.value ==> !OccursAt(s, sep, i)
    ensures r.None? ==> forall i :: from <= i ==> !OccursAt(s, sep, i)
    decreases |s| - from
  {
    if from + |sep| > |s| then None
    else if OccursAt(s, sep, from) then Some(from)
    else FindFrom(s, sep, from + 1)
  }

  /** `s.split(sep)`: the pieces between the leftmost non-overlapping occurrences of `sep`. */
  function SplitOn(s: string, sep: string): (pieces: seq<string>)
    requires sep != []
    ensures |pieces| >= 1
    ensures forall k, i :: 0 <= k < |pieces| ==> !OccursAt(pieces[k], sep, i)
    decreases |s|
  {
    match FindFrom(s, sep, 0)
    case None => [s]
    case Some(i) =>
      assert forall m :: OccursAt(s[..i], sep, m) ==> OccursAt(s, sep, m) by {
        forall m | OccursAt(s[..i], sep, m) ensures OccursAt(s, sep, m) {
          assert s[..i][m..m + |sep|] == s[m..m + |sep|];
        }
      }
      [s[..i]] + SplitOn(s[i + |sep|..], sep)
  }

  /** `s.count(sep)`: the occurrences of `sep`, counted left to right without overlapping. */
  function Count(s: string, sep: string): nat
    requires sep != []
    decreases |s|
  {
    if |s| < |sep| then 0
    else if OccursAt(s, sep, 0) then 1 + Count(s[|sep|..], sep)
    else Count(s[1..], sep)
  }

  /** Searching the text without its first character finds the same occurrences, one index earlier. */
  lemma {:induction false} FindFromShift(s: string, sep: string, from: nat)
    requires sep != [] && s != []
    ensures FindFrom(s, sep, from + 1).None? ==> FindFrom(s[1..], sep, from).None?
    ensures FindFrom(s, sep, from + 1).Some? ==> FindFrom(s[1..], sep, from) == Some(FindFrom(s, sep, from + 1).value - 1)
    decreases |s| - from
  {
    var t := s[1..];
    if from + |sep| <= |t| {
      assert OccursAt(t, sep, from) <==> OccursAt(s, sep, from + 1) by {
        assert t[from..from + |sep|] == s[from + 1..from + 1 + |sep|];
      }
      FindFromShift(s, sep, from + 1);
    }
  }

  lemma FindFromSkip(s: string, sep: string)
    requires sep != [] && s != [] && !OccursAt(s, sep, 0)
    ensures FindFrom(s, sep, 0).None? ==> FindFrom(s[1..], sep, 0).None?
    ensures FindFrom(s, sep, 0).Some? ==>
      FindFrom(s, sep, 0).value > 0 && FindFrom(s[1..], sep, 0) == Some(FindFrom(s, sep, 0).value - 1)
  {
    FindFromShift(s, sep, 0);
    assert FindFrom(s, sep, 0) == FindFrom(s, sep, 1);
  }

  lemma SplitOnShifted(s: string, sep: string, i: nat)
    requires sep != [] && 0 < i
    requires FindFrom(s, sep, 0) == Some(i)
    requires FindFrom(s[1..], sep, 0) == Some(i - 1)
    ensures |SplitOn(s, sep)| == |SplitOn(s[1..], sep)|
  {
    var rest := s[i + |sep|..];
    SplitOnLength(s, sep, i, rest);
    assert s[1..][i - 1 + |sep|..] == rest;
    SplitOnLength(s[1..], sep, i - 1, rest);
  }

  /** A split at a first occurrence `i` has one piece more than the split of what follows it. */
  lemma SplitOnLength(s: string, sep: string, i: nat, rest: string)
    requires sep != [] && FindFrom(s, sep, 0) == Some(i) && rest == s[i + |sep|..]
    ensures |SplitOn(s, sep)| == 1 + |SplitOn(rest, sep)|
  {
  }

  /** Dropping a first character at which `sep` does not occur leaves the number of pieces alone. */
  lemma SplitOnSkip(s: string, sep: string)
    requires sep != [] && s != [] && !OccursAt(s, sep, 0)
    ensures |SplitOn(s, sep)| == |SplitOn(s[1..], sep)|
  {
    FindFromSkip(s, sep);
    match FindFrom(s, sep, 0) {
      case None =>
      case Some(i) =>
        SplitOnShifted(s, sep, i);
    }
  }

  /** `s.split(sep)` has one piece more than `sep` has occurrences in `s`. */
  lemma {:induction false} SplitOnCount(s: string, sep: string)
    requires sep != []
    ensures |SplitOn(s, sep)| == Count(s, sep) + 1
    decreases |s|
  {
    if |s| < |sep| {
      assert FindFrom(s, sep, 0) == None;
    } else if OccursAt(s, sep, 0) {
      assert FindFrom(s, sep, 0) == Some(0);
      SplitOnCount(s[|sep|..], sep);
    } else {
      SplitOnCount(s[1..], sep);
      SplitOnSkip(s, sep);
    }
  }

  /** `sep.join(parts)`. */
  function Join(parts: seq<string>, sep: string): string
    decreases |parts|
  {
    if |parts| == 0 then ""
    else if |parts| == 1 then parts[0]
    else parts[0] + sep + Join(parts[1..], sep)
  }

  /** Joining two non-empty lists: the two joins with one separator between them. */
  lemma {:induction false} JoinAppend(a: seq<string>, b: seq<string>, sep: string)
    requires a != [] && b != []
    ensures Join(a + b, sep) == Join(a, sep) + sep + Join(b, sep)
    decreases |a|
  {
    if |a| > 1 {
      assert (a + b)[1..] == a[1..] + b;
      JoinAppend(a[1..], b, sep);
    } else {
      assert (a + b)[1..] == b;
    }
  }

  /** Putting the separator back between the pieces of a split gives the text back. */
  lemma {:induction false} JoinSplitOn(s: string, sep: string)
    requires sep != []
    ensures Join(SplitOn(s, sep), sep) == s
    decreases |s|
  {
    match FindFrom(s, sep, 0)
    case None =>
    case Some(i) =>
      var rest := SplitOn(s[i + |sep|..], sep);
      JoinSplitOn(s[i + |sep|..], sep);
      assert SplitOn(s, sep) == [s[..i]] + rest;
      assert ([s[..i]] + rest)[1..] == rest;
      assert s == s[..i] + sep + s[i + |sep|..];
  }

  /** Splitting a join gives the parts back when the separator's first character occurs in no part. */
  lemma {:induction false} SplitOnJoin(parts: seq<string>, sep: string)
    requires |parts| >= 1 && sep != []
    requires forall k :: 0 <= k < |parts| ==> sep[0] !in parts[k]
    ensures SplitOn(Join(parts, sep), sep) == parts
    decreases |parts|
  {
    var s := Join(parts, sep);
    if |parts| > 1 {
      var p := parts[0];
      var tail := Join(parts[1..], sep);
      assert s == p + sep + tail;
      assert OccursAt(s, sep, |p|) by {
        assert s[|p|..|p| + |sep|] == sep;
      }
      match FindFrom(s, sep, 0)
      case None =>
      case Some(i) =>
        assert i == |p|;
        assert s[..i] == p;
        assert s[i + |sep|..] == tail;
        SplitOnJoin(parts[1..], sep);
        assert parts == [p] + parts[1..];
    }
  }

  function DigitChar(d: nat): char
    requires d < 10
  {
    ('0' as int + d) as char
  }

  /** `str(n)` for a natural number: its decimal digits. */
  function NatToString(n: nat): (r: string)
    ensures r != [] && forall i :: 0 <= i < |r| ==> IsDigit(r[i])
    decreases n
  {
    if n < 10 then [DigitChar(n)] else NatToString(n / 10) + [DigitChar(n % 10)]
  }

  /** The number a string of decimal digits denotes. */
  function DigitsValue(s: string): int
    decreases |s|
  {
    if s == [] then 0 else DigitsValue(s[..|s| - 1]) * 10 + (s[|s| - 1] as int - '0' as int)
  }

  lemma {:induction false} NatToStringRoundTrip(n: nat)
    ensures DigitsValue(NatToString(n)) == n
    decreases n
  {
    if n >= 10 {
      var r := NatToString(n);
      NatToStringRoundTrip(n / 10);
      assert r[..|r| - 1] == NatToString(n / 10);
    }
  }

  /** Distinct numbers print differently. */
  lemma NatToStringInjective(a: nat, b: nat)
    requires NatToString(a) == NatToString(b)
    ensures a == b
  {
    NatToStringRoundTrip(a);
    NatToStringRoundTrip(b);
  }

  /** `str(i)` for an integer: a minus sign before the digits of a negative number. */
  function IntToString(i: int): (r: string)
    ensures r != [] && (r[0] == '-' <==> i < 0)
    ensures i >= 0 ==> DigitsValue(r) == i
    ensures i < 0 ==> DigitsValue(r[1..]) == -i
  {
    NatToStringRoundTrip(if i < 0 then -i else i);
    if i < 0 then "-" + NatToString(-i) else NatToString(i)
  }
}
