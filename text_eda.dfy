/**
 * `TextEDA`: the text normalizer and the detectors that add a column to a data frame. Each
 * static method of the class is a function here; the emoji replacement of the `emoji` package
 * is a parameter.
 */
module TextEda {
  import opened Wrappers
  import opened PyStrings
  import opened TextPatterns
  import opened Frames

  // ---------------------------------------------------------------------------------------------
  // The steps of `clean_text_pipeline`.

  /**
   * `remove_text_between_emojis`: with fewer than two emoji runs the text is returned as it is;
   * otherwise every lazy span from a character of the first run to a character of the second run
   * is deleted, and no such span is left.
   */
  function RemoveTextBetweenEmojis(text: string): (r: string)
    ensures |EmojiRuns(text)| < 2 ==> r == text
    ensures |EmojiRuns(text)| >= 2 ==>
      var runs := EmojiRuns(text);
      forall i, j :: !IsSpan(r, i, j, CharSet(runs[0]), CharSet(runs[1]))
  {
    var runs := EmojiRuns(text);
    if |runs| < 2 then text
    else
      var open := CharSet(runs[0]);
      assert '\n' !in open by {
        EmojiRunsShape(text);
        assert !IsEmoji('\n');
      }
      ReplaceSpansLeavesNoSpan(text, open, CharSet(runs[1]), "");
      ReplaceSpans(text, open, CharSet(runs[1]), "")
  }

  /** `BRACKETS_PATTERN.sub(' ', text)`: afterwards no bracketed span is left. */
  function StripBrackets(s: string): (r: string)
    ensures forall i, j :: !IsSpan(r, i, j, BracketOpeners, BracketClosers)
  {
    ReplaceSpansLeavesNoSpan(s, BracketOpeners, BracketClosers, " ");
    ReplaceSpans(s, BracketOpeners, BracketClosers, " ")
  }

  /** `SPECIAL_CHARS_PATTERN.sub(' ', text)`: every '-', '_' and '*' becomes a space, nothing else moves. */
  function ReplaceSpecials(s: string): (r: string)
    ensures |r| == |s|
    ensures forall i :: 0 <= i < |r| ==> !IsSpecial(r[i])
    ensures forall i :: 0 <= i < |s| ==> if IsSpecial(s[i]) then r[i] == ' ' else r[i] == s[i]
  {
    seq(|s|, i requires 0 <= i < |s| => if IsSpecial(s[i]) then ' ' else s[i])
  }

  /**
   * What the normalizer promises of its output: no '-', '_' or '*', no whitespace other than ' ',
   * and no two whitespace characters side by side.
   */
  ghost predicate Normalized(s: string) {
    (forall i :: 0 <= i < |s| ==> !IsSpecial(s[i]) && (IsSpace(s[i]) ==> s[i] == ' '))
    && (forall i :: !SpacePair(s, i))
  }

  lemma NormalizedSlice(s: string, a: nat, b: nat)
    requires Normalized(s) && a <= b <= |s|
    ensures Normalized(s[a..b])
  {
    var t := s[a..b];
    forall i | 0 <= i < |t| - 1 ensures !SpacePair(t, i) {
      assert !SpacePair(s, a + i);
      assert t[i] == s[a + i] && t[i + 1] == s[a + i + 1];
    }
  }

  /** Collapsing the whitespace of a text without special characters leaves it normalized. */
  lemma CollapseNormalizes(s: string)
    requires forall i :: 0 <= i < |s| ==> !IsSpecial(s[i])
    ensures Normalized(CollapseWhitespace(s))
  {
    var r := CollapseWhitespace(s);
    forall i | 0 <= i < |r| ensures !IsSpecial(r[i]) {
      if r[i] != ' ' {
        var k :| 0 <= k < |s| && s[k] == r[i];
      }
    }
  }

  /**
   * The first steps of `clean_text_pipeline`: `str(text).lower().strip()`, then
   * `remove_text_between_emojis`.
   */
  function Prepare(text: string): string {
    RemoveTextBetweenEmojis(Strip(Lower(text)))
  }

  /**
   * The steps after the emoji replacement: blank out bracketed spans and special characters,
   * collapse whitespace, then `rstrip('.').strip()`. The result is normalized and neither starts
   * nor ends with whitespace.
   */
  function Normalize(t: string): (r: string)
    ensures Normalized(r)
    ensures NoSpaceAtEnds(r)
  {
    var noSpecials := ReplaceSpecials(StripBrackets(t));
    CollapseNormalizes(noSpecials);
    Trim(CollapseWhitespace(noSpecials))
  }

  /** `rstrip('.').strip()`: the result keeps a normalized text normalized and has no whitespace at its ends. */
  function Trim(s: string): (r: string)
    ensures Normalized(s) ==> Normalized(r)
    ensures NoSpaceAtEnds(r)
  {
    TrimNormalizes(s);
    Strip(RStripChars(s, {'.'}))
  }

  /** `rstrip('.').strip()` keeps a text normalized. */
  lemma TrimNormalizes(s: string)
    ensures Normalized(s) ==> Normalized(Strip(RStripChars(s, {'.'})))
  {
    if Normalized(s) {
      var noDots := RStripChars(s, {'.'});
      NormalizedSliceOf(s, noDots, 0, |noDots|);
      var a := SpaceRunLen(noDots);
      var r := Strip(noDots);
      NormalizedSliceOf(noDots, r, a, a + |r|);
    }
  }

  lemma NormalizedSliceOf(s: string, t: string, a: nat, b: nat)
    requires Normalized(s) && a <= b <= |s| && t == s[a..b]
    ensures Normalized(t)
  {
    NormalizedSlice(s, a, b);
  }

  /**
   * `clean_text_pipeline`: lower-case and strip, drop the text between the first two emoji runs,
   * replace emoji, blank out bracketed spans and special characters, collapse whitespace, drop
   * trailing periods and strip. The result has no '-', '_' or '*', its only whitespace is single
   * spaces between other characters. `replaceEmoji` stands for `emoji.replace_emoji(text, ' ')`.
   */
  function CleanTextPipeline(text: string, replaceEmoji: string -> string): (r: string)
    ensures Normalized(r)
    ensures NoSpaceAtEnds(r)
  {
    var replaced := replaceEmoji(Prepare(text));
    Normalize(replaced)
  }

  lemma LowerUnchanged(s: string)
    requires forall i :: 0 <= i < |s| ==> !IsUpper(s[i])
    ensures Lower(s) == s
  {
  }

  lemma StripUnchanged(s: string)
    requires s != [] && NotSpace(s[0]) && NotSpace(s[|s| - 1])
    ensures Strip(s) == s
  {
    assert SpaceRunLen(s) == 0;
    assert LStrip(s) == s;
  }

  lemma EmojiFreeHasNoRuns(s: string)
    requires forall i :: 0 <= i < |s| ==> !IsEmoji(s[i])
    ensures EmojiRuns(s) == []
  {
    EmojiFreeHasNoRunsFrom(s, 0);
  }

  lemma {:induction false} EmojiFreeHasNoRunsFrom(s: string, p: nat)
    requires p <= |s| && forall i :: p <= i < |s| ==> !IsEmoji(s[i])
    ensures EmojiRunsFrom(s, p) == []
    decreases |s| - p
  {
    if p < |s| {
      EmojiFreeHasNoRunsFrom(s, p + 1);
    }
  }

  /** A text already free of upper case, emoji and outer whitespace passes the first steps unchanged. */
  lemma PrepareUnchanged(s: string)
    requires s != [] && NotSpace(s[0]) && NotSpace(s[|s| - 1])
    requires forall i :: 0 <= i < |s| ==> !IsUpper(s[i]) && !IsEmoji(s[i])
    ensures Prepare(s) == s
  {
    LowerUnchanged(s);
    StripUnchanged(s);
    EmojiFreeHasNoRuns(s);
  }

  /** Collapsing whitespace leaves a text whose whitespace is already single spaces as it is. */
  lemma {:induction false} CollapseUnchanged(s: string)
    requires forall i :: 0 <= i < |s| && IsSpace(s[i]) ==> s[i] == ' '
    requires forall i :: !SpacePair(s, i)
    ensures CollapseWhitespace(s) == s
    decreases |s|
  {
    if s != [] {
      var t := s[1..];
      forall i ensures !SpacePair(t, i) {
        assert !SpacePair(s, i + 1);
      }
      CollapseUnchanged(t);
      if IsSpace(s[0]) {
        assert !SpacePair(s, 0);
        assert SpaceRunLen(t) == 0;
        assert SpaceRunLen(s) == 1;
      }
      assert s == [s[0]] + t;
    }
  }

  lemma StripBracketsUnchanged(s: string)
    requires forall i :: 0 <= i < |s| ==> s[i] !in BracketOpeners
    ensures StripBrackets(s) == s
  {
    ReplaceSpansNoSpan(s, BracketOpeners, BracketClosers, " ");
  }

  lemma NormalizeTrailingPeriod()
    ensures Normalize("a.-") == "a."
  {
    StripBracketsUnchanged("a.-");
    ReplaceSpecialsOfPeriodDash();
    CollapseUnchanged("a. ");
    StripTrailingSpace();
  }

  lemma ReplaceSpecialsOfPeriodDash()
    ensures ReplaceSpecials("a.-") == "a. "
    ensures RStripChars("a. ", {'.'}) == "a. "
  {
  }

  lemma StripTrailingSpace()
    ensures Strip("a. ") == "a."
  {
    var r := Strip("a. ");
    assert SpaceRunLen("a. ") == 0;
    assert |r| == 2;
  }

  /**
   * `text.rstrip('.').strip()` strips periods before whitespace, so a period that stood before a
   * special character survives: "a.-" comes out as "a.".
   */
  lemma TrailingPeriodSurvives(replaceEmoji: string -> string)
    requires replaceEmoji("a.-") == "a.-"
    ensures CleanTextPipeline("a.-", replaceEmoji) == "a."
  {
    PrepareUnchanged("a.-");
    NormalizeTrailingPeriod();
  }

  lemma BracketsAcrossLine()
    ensures StripBrackets("(a\nb)") == "(a\nb)"
  {
    var s := "(a\nb)";
    forall i, j ensures !IsSpan(s, i, j, BracketOpeners, BracketClosers) {
      assert !CloserOnLine(s, 1, j, BracketClosers) by {
        if j == 4 {
          assert s[2] == '\n';
        }
      }
    }
    ReplaceSpansNoSpan(s, BracketOpeners, BracketClosers, " ");
  }

  lemma CollapseLineBreak()
    ensures CollapseWhitespace("(a\nb)") == "(a b)"
  {
    CollapseLineBreakRest();
    CollapseCons('(', "a\nb)", "a b)");
    ConsParen();
  }

  lemma ConsParen()
    ensures ['('] + "a\nb)" == "(a\nb)" && ['('] + "a b)" == "(a b)"
  {
  }

  lemma CollapseLineBreakRest()
    ensures CollapseWhitespace("a\nb)") == "a b)"
  {
    CollapseLineBreakTail();
    CollapseCons('a', "\nb)", " b)");
    ConsLetter();
  }

  lemma ConsLetter()
    ensures ['a'] + "\nb)" == "a\nb)" && ['a'] + " b)" == "a b)"
  {
  }

  /** A non-whitespace character in front of a text is kept in front of its collapse. */
  lemma CollapseCons(c: char, t: string, r: string)
    requires NotSpace(c) && CollapseWhitespace(t) == r
    ensures CollapseWhitespace([c] + t) == [c] + r
  {
    CollapseKeepsHead([c] + t);
    assert ([c] + t)[1..] == t;
  }

  lemma CollapseLineBreakTail()
    ensures CollapseWhitespace("\nb)") == " b)"
  {
    CollapseSpaceHead("\nb)");
    assert SpaceRunLen("\nb)") == 1 by {
      assert "\nb)"[1..] == "b)";
    }
    assert "\nb)"[1..] == "b)";
    CollapseClosing();
  }

  lemma CollapseClosing()
    ensures CollapseWhitespace("b)") == "b)"
  {
    CollapseUnchanged("b)");
  }

  lemma NormalizeBracketAcrossLine()
    ensures Normalize("(a\nb)") == "(a b)"
  {
    BracketsAcrossLine();
    BracketAcrossLineSteps();
    CollapseLineBreak();
  }

  lemma BracketAcrossLineSteps()
    ensures ReplaceSpecials("(a\nb)") == "(a\nb)"
    ensures RStripChars("(a b)", {'.'}) == "(a b)"
    ensures Strip("(a b)") == "(a b)"
  {
    StripUnchanged("(a b)");
  }

  lemma PrepareBracketAcrossLine()
    ensures Prepare("(a\nb)") == "(a\nb)"
  {
    PrepareUnchanged("(a\nb)");
  }

  /**
   * Whitespace is collapsed after the bracketed spans are removed, so a span that a line break
   * kept apart comes out whole: "(a\nb)" comes out as "(a b)", itself a bracketed span.
   */
  lemma BracketAcrossLineSurvives(replaceEmoji: string -> string)
    requires replaceEmoji("(a\nb)") == "(a\nb)"
    ensures CleanTextPipeline("(a\nb)", replaceEmoji) == "(a b)"
    ensures IsSpan("(a b)", 0, 4, BracketOpeners, BracketClosers)
  {
    PrepareBracketAcrossLine();
    NormalizeBracketAcrossLine();
    BracketSpanWhole();
  }

  lemma BracketSpanWhole()
    ensures IsSpan("(a b)", 0, 4, BracketOpeners, BracketClosers)
  {
    assert CloserOnLine("(a b)", 1, 4, BracketClosers);
  }

  // ---------------------------------------------------------------------------------------------
  // Cells as the Python callbacks see them.

  /** `str(x)` for a cell: `None`, `True`/`False`, an integer's decimal digits, or the text itself. */
  function PyStr(v: Value): string {
    match v
    case Null => "None"
    case Str(s) => s
    case Int(i) => IntToString(i)
    case Bool(b) => if b then "True" else "False"
  }

  /** Every cell is text or missing: the cells a `str` callback run by `map_elements` accepts. */
  predicate AllText(vs: seq<Value>) {
    forall k :: 0 <= k < |vs| ==> vs[k].Null? || vs[k].Str?
  }

  // ---------------------------------------------------------------------------------------------
  // len_text

  function WordCounts(vs: seq<Value>, sep: string): (out: seq<Value>)
    requires sep != [] && AllText(vs)
    ensures |out| == |vs|
  {
    seq(|vs|, k requires 0 <= k < |vs| => if vs[k].Null? then Null else Int(|SplitOn(vs[k].s, sep)|))
  }

  /**
   * `len_text`: adds the column `<col>_word_count` holding, per row, the number of pieces the
   * text splits into at `sep`, one more than the occurrences of `sep` (missing stays missing). A missing column raises `ColumnNotFound`,
   * a column that is not text raises `NotText`; all other columns are kept.
   */
  function LenText(data: Frame, col: string, sep: string): (r: Result<Frame, FrameError>)
    requires sep != []
    ensures col !in Names(data) ==> r == Failure(ColumnNotFound(col))
    ensures col in Names(data) && !AllText(Get(data, col).value) ==> r == Failure(NotText(col))
    ensures col in Names(data) && AllText(Get(data, col).value) ==> r.Success?
    ensures r.Success? ==>
      var vs := Get(data, col).value;
      var out := Get(r.value, col + "_word_count");
      out.Success? && |out.value| == |vs|
      && forall k :: 0 <= k < |vs| ==>
        (vs[k].Null? ==> out.value[k] == Null)
        && (vs[k].Str? ==> out.value[k] == Int(Count(vs[k].s, sep) + 1) && Join(SplitOn(vs[k].s, sep), sep) == vs[k].s)
    ensures r.Success? ==> forall n :: n != col + "_word_count" ==> Get(r.value, n) == Get(data, n)
    ensures r.Success? && Valid(data) ==> Valid(r.value)
  {
    match Get(data, col)
    case Failure(e) => Failure(e)
    case Success(vs) =>
      if !AllText(vs) then Failure(NotText(col))
      else
        forall k | 0 <= k < |vs| && vs[k].Str?
          ensures |SplitOn(vs[k].s, sep)| == Count(vs[k].s, sep) + 1
          ensures Join(SplitOn(vs[k].s, sep), sep) == vs[k].s
        {
          SplitOnCount(vs[k].s, sep);
          JoinSplitOn(vs[k].s, sep);
        }
        Success(WithColumn(data, Column(col + "_word_count", WordCounts(vs, sep))))
  }

  /** A text made of `n` parts joined by `sep`, none holding the separator's first character, counts `n` words. */
  lemma WordCountOfJoin(parts: seq<string>, sep: string)
    requires |parts| >= 1 && sep != []
    requires forall k :: 0 <= k < |parts| ==> sep[0] !in parts[k]
    ensures |SplitOn(Join(parts, sep), sep)| == |parts|
  {
    SplitOnJoin(parts, sep);
  }

  // ---------------------------------------------------------------------------------------------
  // clean_text

  function CleanCells(vs: seq<Value>, replaceEmoji: string -> string): (out: seq<Value>)
    ensures |out| == |vs|
    ensures forall k :: 0 <= k < |vs| ==> out[k].Str? && Normalized(out[k].s)
  {
    seq(|vs|, k requires 0 <= k < |vs| => Str(CleanTextPipeline(PyStr(vs[k]), replaceEmoji)))
  }

  /**
   * `clean_text`: adds the column `<col>_clean` holding the normalized `str()` of every cell, so a
   * missing cell becomes the text "none". A missing column raises `ColumnNotFound`.
   */
  function CleanText(data: Frame, col: string, replaceEmoji: string -> string): (r: Result<Frame, FrameError>)
    ensures r.Failure? <==> col !in Names(data)
    ensures r.Failure? ==> r.error == ColumnNotFound(col)
    ensures r.Success? ==>
      var vs := Get(data, col).value;
      var out := Get(r.value, col + "_clean");
      out.Success? && |out.value| == |vs|
      && forall k :: 0 <= k < |vs| ==>
        out.value[k] == Str(CleanTextPipeline(PyStr(vs[k]), replaceEmoji)) && Normalized(out.value[k].s)
    ensures r.Success? ==> forall n :: n != col + "_clean" ==> Get(r.value, n) == Get(data, n)
    ensures r.Success? && Valid(data) ==> Valid(r.value)
  {
    match Get(data, col)
    case Failure(e) => Failure(e)
    case Success(vs) => Success(WithColumn(data, Column(col + "_clean", CleanCells(vs, replaceEmoji))))
  }

  lemma NormalizeUnchanged(s: string)
    requires s != [] && NotSpace(s[0]) && NotSpace(s[|s| - 1]) && s[|s| - 1] != '.'
    requires forall i :: 0 <= i < |s| ==> s[i] !in BracketOpeners && !IsSpecial(s[i])
    requires forall i :: 0 <= i < |s| ==> NotSpace(s[i])
    ensures Normalize(s) == s
  {
    StripBracketsUnchanged(s);
    assert ReplaceSpecials(s) == s;
    CollapseUnchanged(s);
    assert RStripChars(s, {'.'}) == s;
    StripUnchanged(s);
  }

  /** A missing cell is cleaned as the text "None", which lower-cases to "none". */
  lemma CleanMissingIsNone(replaceEmoji: string -> string)
    requires replaceEmoji("none") == "none"
    ensures CleanTextPipeline(PyStr(Null), replaceEmoji) == "none"
  {
    PrepareNone();
    NormalizeNone();
  }

  lemma NormalizeNone()
    ensures Normalize("none") == "none"
  {
    NormalizeUnchanged("none");
  }

  lemma PrepareNone()
    ensures Prepare("None") == "none"
  {
    LowerNone();
    StripUnchanged("none");
    EmojiFreeHasNoRuns("none");
    PrepareWithoutRuns("None", "none");
  }

  lemma PrepareWithoutRuns(s: string, t: string)
    requires Strip(Lower(s)) == t && EmojiRuns(t) == []
    ensures Prepare(s) == t
  {
  }

  lemma LowerNone()
    ensures Lower("None") == "none"
  {
    assert Lower("None")[0] == 'n';
  }

  // ---------------------------------------------------------------------------------------------
  // detect_phone, detect_url, detect_words

  /** The patterns a detector searches for. */
  datatype Detector = Phone | Url | AnyWord(patterns: set<string>)

  /** `bool(patterns_set.intersection(x.split()))`: some whitespace-separated word is a pattern. */
  function HasPatternWord(text: string, patterns: set<string>): (r: bool)
    ensures r <==> exists p, i, j :: p in patterns && IsTokenAt(text, i, j) && text[i..j] == p
  {
    var ws := Words(text);
    var r := exists k :: 0 <= k < |ws| && ws[k] in patterns;
    forall p | p in patterns ensures p in ws <==> exists i, j :: IsTokenAt(text, i, j) && text[i..j] == p {
      WordsAreTokens(text, p);
    }
    r
  }

  /** `_detect_pattern` and the word test, on one text. */
  function Detect(text: string, d: Detector): bool {
    match d
    case Phone => SearchPhone(text, 0)
    case Url => SearchUrl(text, 0)
    case AnyWord(ps) => HasPatternWord(text, ps)
  }

  function DetectCells(vs: seq<Value>, d: Detector): (out: seq<Value>)
    requires AllText(vs)
    ensures |out| == |vs|
  {
    seq(|vs|, k requires 0 <= k < |vs| => if vs[k].Null? then Null else Bool(Detect(vs[k].s, d)))
  }

  /**
   * `pl.col(col).map_elements(test, return_dtype=pl.Boolean).alias(name)`: the column `name` holds
   * the test's answer per text cell, and missing where the cell is missing (`map_elements` skips
   * them). A missing column raises `ColumnNotFound`; a cell that is not text raises `NotText`.
   */
  function DetectColumn(data: Frame, col: string, d: Detector, name: string): (r: Result<Frame, FrameError>)
    ensures col !in Names(data) ==> r == Failure(ColumnNotFound(col))
    ensures col in Names(data) && !AllText(Get(data, col).value) ==> r == Failure(NotText(col))
    ensures col in Names(data) && AllText(Get(data, col).value) ==> r.Success?
    ensures r.Success? ==>
      var vs := Get(data, col).value;
      var out := Get(r.value, name);
      out.Success? && |out.value| == |vs|
      && forall k :: 0 <= k < |vs| ==>
        (vs[k].Null? ==> out.value[k] == Null) && (vs[k].Str? ==> out.value[k] == Bool(Detect(vs[k].s, d)))
    ensures r.Success? ==> forall n :: n != name ==> Get(r.value, n) == Get(data, n)
    ensures r.Success? && Valid(data) ==> Valid(r.value)
  {
    match Get(data, col)
    case Failure(e) => Failure(e)
    case Success(vs) =>
      if !AllText(vs) then Failure(NotText(col))
      else Success(WithColumn(data, Column(name, DetectCells(vs, d))))
  }

  /**
   * `detect_phone`: the column `phone_detect` is true exactly for the texts in which `PHONE_PATTERN`
   * matches somewhere.
   */
  function DetectPhone(data: Frame, col: string): (r: Result<Frame, FrameError>)
    ensures col !in Names(data) ==> r == Failure(ColumnNotFound(col))
    ensures col in Names(data) ==> (r.Failure? <==> !AllText(Get(data, col).value))
    ensures r.Failure? && col in Names(data) ==> r.error == NotText(col)
    ensures r.Success? ==>
      var vs := Get(data, col).value;
      var out := Get(r.value, "phone_detect");
      out.Success? && |out.value| == |vs|
      && forall k :: 0 <= k < |vs| && vs[k].Str? ==>
        out.value[k].Bool? && (out.value[k].b <==> exists i :: 0 <= i < |vs[k].s| && PhoneAt(vs[k].s, i))
    ensures r.Success? ==> forall n :: n != "phone_detect" ==> Get(r.value, n) == Get(data, n)
  {
    DetectColumn(data, col, Phone, "phone_detect")
  }

  /** `detect_url`: the column `url_detect` is true exactly for the texts in which `URL_PATTERN` matches somewhere. */
  function DetectUrl(data: Frame, col: string): (r: Result<Frame, FrameError>)
    ensures col !in Names(data) ==> r == Failure(ColumnNotFound(col))
    ensures col in Names(data) ==> (r.Failure? <==> !AllText(Get(data, col).value))
    ensures r.Failure? && col in Names(data) ==> r.error == NotText(col)
    ensures r.Success? ==>
      var vs := Get(data, col).value;
      var out := Get(r.value, "url_detect");
      out.Success? && |out.value| == |vs|
      && forall k :: 0 <= k < |vs| && vs[k].Str? ==>
        out.value[k].Bool? && (out.value[k].b <==> exists i :: 0 <= i < |vs[k].s| && UrlAt(vs[k].s, i))
    ensures r.Success? ==> forall n :: n != "url_detect" ==> Get(r.value, n) == Get(data, n)
  {
    DetectColumn(data, col, Url, "url_detect")
  }

  /**
   * `detect_words`: the column `word_detect` is true exactly for the texts one of whose
   * whitespace-separated words equals one of the patterns; a pattern inside a longer word does not count.
   */
  function DetectWords(data: Frame, patterns: seq<string>, col: string): (r: Result<Frame, FrameError>)
    ensures col !in Names(data) ==> r == Failure(ColumnNotFound(col))
    ensures col in Names(data) ==> (r.Failure? <==> !AllText(Get(data, col).value))
    ensures r.Failure? && col in Names(data) ==> r.error == NotText(col)
    ensures r.Success? ==>
      var vs := Get(data, col).value;
      var out := Get(r.value, "word_detect");
      out.Success? && |out.value| == |vs|
      && forall k :: 0 <= k < |vs| && vs[k].Str? ==>
        out.value[k].Bool?
        && (out.value[k].b <==> exists p, i, j :: p in patterns && IsTokenAt(vs[k].s, i, j) && vs[k].s[i..j] == p)
    ensures r.Success? ==> forall n :: n != "word_detect" ==> Get(r.value, n) == Get(data, n)
  {
    var ps := set p | p in patterns;
    assert forall p :: p in ps <==> p in patterns;
    DetectColumn(data, col, AnyWord(ps), "word_detect")
  }
}
