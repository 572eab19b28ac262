# core_eda in Dafny

A model of the two pieces of logic in `core_eda`, a small exploratory-data-analysis package:

- **`TextEDA`** (`src/core_eda/text_eda.py`) is a text normalizer for product names and similar
  free text. `clean_text_pipeline` lower-cases and strips the text. It then removes the text
  between the first two emoji runs, replaces emoji, and blanks out bracketed segments and the
  characters `-`, `_` and `*`. Finally it collapses whitespace and drops trailing periods.
  Column helpers add a word count, a cleaned copy, or a phone/URL/keyword flag to a Polars data
  frame.
- **`EDA`** (`src/core_eda/eda.py`) is a profiler for a data file read through DuckDB. It keeps
  a sample, the row count, an overview with one row per column, and aggregate tables for the
  text columns (`VARCHAR`, `BOOLEAN`) and for the other, numeric, columns.

Modules:

| file | module | what it holds |
|---|---|---|
| `wrappers.dfy` | `Wrappers` | `Option` (Python's `None`) and `Result` (a raised exception) |
| `py_strings.dfy` | `PyStrings` | the Python `str` operations used: `isspace`, `lower`, `strip`, `rstrip(chars)`, `split()`, `split(sep)`, `count`, `join`, `str(int)` |
| `frames.dfy` | `Frames` | a Polars data frame as named columns of cells; `data[col]` and `with_columns` |
| `text_patterns.dfy` | `TextPatterns` | every regular expression of `TextEDA`, written as a scanner and proved against a statement of what it matches |
| `text_eda.dfy` | `TextEda` | `clean_text_pipeline` and the column helpers of `TextEDA` |
| `eda.dfy` | `Eda` | file type, read expression, bucket split, query texts, and the class `EDA` with its result fields |

`TextEDA` only has static methods and no state, so it is modelled by functions. `EDA` updates
its five result fields step by step, so it is a class whose methods modify them. A ghost
field `issued` records the queries the profiler has sent, in order. DuckDB is an `Engine`
value: three functions from query text to the result table, the row count, and the overview
rows. The profiler's methods take it as a parameter.

## Model

| member | source | states |
|---|---|---|
| `PyStrings.Lower` | src/core_eda/text_eda.py:42 | `lower()` keeps the length, leaves no upper-case letter, keeps every other character and moves each upper-case letter 32 code points up |
| `PyStrings.Strip` | src/core_eda/text_eda.py:42 | `strip()` leaves no whitespace at either end; it is empty exactly when the text is all whitespace; it is the text after the leading whitespace run, followed only by whitespace |
| `PyStrings.RStripChars` | src/core_eda/text_eda.py:48 | `rstrip('.')` is a prefix of the text, everything cut is a '.', and it does not end with '.' |
| `PyStrings.WordsAreTokens` | src/core_eda/text_eda.py:90 | a string is a word of `split()` exactly when it is a maximal run of non-whitespace characters of the text |
| `PyStrings.FindFrom` | src/core_eda/text_eda.py:53 | the leftmost occurrence of the separator at or after a position, or none at all |
| `PyStrings.SplitOn` | src/core_eda/text_eda.py:53 | `split(sep)` gives at least one piece, and no piece contains the separator |
| `PyStrings.JoinSplitOn` | src/core_eda/text_eda.py:53 | joining the pieces of `split(sep)` with `sep` gives the text back |
| `PyStrings.SplitOnCount` | src/core_eda/text_eda.py:53 | `split(sep)` has exactly one piece more than `count(sep)`, the left-to-right non-overlapping occurrences |
| `PyStrings.SplitOnJoin` | src/core_eda/eda.py:59 | splitting a `join` gives the parts back when the separator's first character occurs in no part |
| `PyStrings.NatToString` | src/core_eda/eda.py:89 | the decimal text of a natural number is non-empty and all digits |
| `PyStrings.NatToStringRoundTrip` | src/core_eda/eda.py:89 | reading the decimal digits back gives the number |
| `PyStrings.NatToStringInjective` | src/core_eda/eda.py:89 | distinct numbers print differently |
| `PyStrings.IntToString` | src/core_eda/eda.py:28 | `str(limit)` starts with '-' exactly for a negative number, and its digits denote the absolute value |
| `Frames.Get` | src/core_eda/text_eda.py:58 | `data[col]` fails with `ColumnNotFound` exactly when no column has that name, and otherwise returns the values of a column of that name |
| `Frames.WithColumn` | src/core_eda/text_eda.py:59 | `with_columns` makes the new column readable under its name, leaves every other name unchanged, and replaces a column of that name where it stands or appends the column; a well-formed frame stays well-formed |
| `TextPatterns.RunEnd` | src/core_eda/text_eda.py:10-20 | the greedy `[...]+` ends a run at the first character outside the emoji class: every character before the end is in the class |
| `TextPatterns.EmojiRunsAreMaximalRuns` | src/core_eda/text_eda.py:33 | a string is listed by `findall` of the emoji pattern exactly when it is a maximal run of emoji-class characters of the text |
| `TextPatterns.EmojiRunListed` | src/core_eda/text_eda.py:33 | every maximal run of emoji-class characters is listed, at the index given by the number of maximal runs that start before it, so the runs are listed left to right |
| `TextPatterns.ListedRunIsMaximal` | src/core_eda/text_eda.py:33 | every listed run is a maximal run of emoji-class characters of the text |
| `TextPatterns.EmojiRunsCount` | src/core_eda/text_eda.py:33 | `findall` lists as many runs as the text has maximal runs of emoji-class characters |
| `TextPatterns.EmojiRunsShape` | src/core_eda/text_eda.py:33 | every listed run is non-empty and made of emoji-class characters |
| `TextPatterns.EmojiRunsHoldEmojiChars` | src/core_eda/text_eda.py:33 | the listed runs, put together, are the emoji-class characters of the text in order |
| `TextPatterns.CharSet` | src/core_eda/text_eda.py:36 | the class `[run]` built from a run holds exactly the run's characters |
| `TextPatterns.NearestCloser` | src/core_eda/text_eda.py:22 | the lazy `.*?[close]` stops at the nearest closer that lies on the same line, and fails when a line break or the end comes first |
| `TextPatterns.ReplaceSpansNoSpan` | src/core_eda/text_eda.py:45 | `re.sub` leaves a text with no span `[open].*?[close]` unchanged |
| `TextPatterns.ReplaceSpansLeftmost` | src/core_eda/text_eda.py:45 | the first replacement is the leftmost span ended at its nearest closer: the text before it is kept, the span becomes the replacement, and the substitution resumes after it |
| `TextPatterns.ReplaceSpansLeavesNoSpan` | src/core_eda/text_eda.py:37 | when the replacement holds no opener and no opener is a line break, no span is left after the substitution |
| `TextPatterns.CollapseWhitespace` | src/core_eda/text_eda.py:47 | `\s+` to ' ': only ' ' is left as whitespace, never two whitespace characters side by side; the other characters are kept in order; the result is empty and starts with whitespace exactly when the text is empty or starts with whitespace |
| `TextPatterns.CollapseKeepsWords` | src/core_eda/text_eda.py:47 | `split()` finds the same words, in the same order, before and after the collapse: only whitespace runs are touched |
| `TextPatterns.CollapseKeepsLast` | src/core_eda/text_eda.py:47 | the collapsed text ends with whitespace exactly when the text does |
| `TextPatterns.DigitRun` | src/core_eda/text_eda.py:25 | the number of consecutive ASCII digits from a position |
| `TextPatterns.MatchPhoneAt` | src/core_eda/text_eda.py:25 | the phone pattern matches at a position exactly when `+84` or `0` stands there followed by at least nine ASCII digits |
| `TextPatterns.SearchPhone` | src/core_eda/text_eda.py:64 | `search` with the phone pattern succeeds exactly when it matches at some position |
| `TextPatterns.MatchUrlAt` | src/core_eda/text_eda.py:26-28 | the URL pattern matches at a position exactly when `http://` or `https://` stands there followed by a URL character |
| `TextPatterns.SearchUrl` | src/core_eda/text_eda.py:64 | `search` with the URL pattern succeeds exactly when it matches at some position |
| `TextEda.RemoveTextBetweenEmojis` | src/core_eda/text_eda.py:31-37 | with fewer than two emoji runs the text is returned unchanged; otherwise no span from a character of the first run to a character of the second is left |
| `TextEda.StripBrackets` | src/core_eda/text_eda.py:45 | no bracketed span, from any of `( [ < " \|` to the nearest of `) ] > " \|` on the same line, is left |
| `TextEda.ReplaceSpecials` | src/core_eda/text_eda.py:46 | every '-', '_' and '*' becomes a space, every other character stays where it is, and none of the three is left |
| `TextEda.CollapseNormalizes` | src/core_eda/text_eda.py:46-47 | collapsing the whitespace of a text without special characters gives a normalized text: no special character, only single ' ' as whitespace |
| `TextEda.NormalizedSlice` | src/core_eda/text_eda.py:48 | stripping characters from the ends keeps a text normalized |
| `TextEda.Trim` | src/core_eda/text_eda.py:48 | `rstrip('.').strip()` keeps a normalized text normalized and leaves no whitespace at either end |
| `TextEda.Normalize` | src/core_eda/text_eda.py:45-48 | the steps after the emoji replacement give a normalized text that neither starts nor ends with whitespace |
| `TextEda.CleanTextPipeline` | src/core_eda/text_eda.py:40-48 | the cleaned text has no '-', '_' or '*', its only whitespace is single spaces, and it neither starts nor ends with whitespace |
| `TextEda.PrepareUnchanged` | src/core_eda/text_eda.py:42-43 | a text without upper case, emoji and outer whitespace passes lower-casing, stripping and the emoji-span removal unchanged |
| `TextEda.CollapseUnchanged` | src/core_eda/text_eda.py:47 | collapsing whitespace leaves a text whose whitespace is already single spaces unchanged |
| `TextEda.TrailingPeriodSurvives` | src/core_eda/text_eda.py:48 | periods are stripped before whitespace is, so "a.-" is cleaned to "a.", which still ends with a period |
| `TextEda.BracketAcrossLineSurvives` | src/core_eda/text_eda.py:45-47 | a bracketed span broken by a line break survives bracket stripping and is joined by whitespace collapsing: "(a\nb)" is cleaned to "(a b)", itself a bracketed span |
| `TextEda.LenText` | src/core_eda/text_eda.py:51-53 | `<col>_word_count` holds, per row, one more than the occurrences of the separator; a missing cell stays missing; the pieces join back to the text; missing column, non-text column and untouched other columns as in the source |
| `TextEda.WordCountOfJoin` | src/core_eda/text_eda.py:53 | a text made of n parts joined by the separator, none holding its first character, counts n words |
| `TextEda.CleanText` | src/core_eda/text_eda.py:56-59 | `<col>_clean` holds one cleaned `str()` per row in row order, each normalized; it fails only on a missing column; other columns are untouched |
| `TextEda.CleanMissingIsNone` | src/core_eda/text_eda.py:58 | a missing cell is cleaned as `str(None)` and comes out as "none" |
| `TextEda.HasPatternWord` | src/core_eda/text_eda.py:87-90 | true exactly when a maximal run of non-whitespace characters equals one of the patterns |
| `TextEda.DetectColumn` | src/core_eda/text_eda.py:62-64 | `map_elements` with a detector: one flag per text cell, missing for a missing cell, `NotText` for a non-text cell, `ColumnNotFound` for a missing column, other columns untouched |
| `TextEda.DetectPhone` | src/core_eda/text_eda.py:67-73 | `phone_detect` is true exactly for the texts in which the phone pattern matches at some position |
| `TextEda.DetectUrl` | src/core_eda/text_eda.py:76-82 | `url_detect` is true exactly for the texts in which the URL pattern matches at some position |
| `TextEda.DetectWords` | src/core_eda/text_eda.py:85-92 | `word_detect` is true exactly for the texts one of whose whitespace-separated words equals a pattern; a pattern inside a longer word does not count |
| `Eda.LastIndexOf` | src/core_eda/eda.py:14 | the last index of a character, with no occurrence after it, or none at all |
| `Eda.PathName` | src/core_eda/eda.py:14 | the name of the path holds no '/' |
| `Eda.PathNameShape` | src/core_eda/eda.py:14 | the name ends the path, and when it is shorter than the path a '/' stands right before it |
| `Eda.FileType` | src/core_eda/eda.py:14 | `suffix[1:]` holds no '.' or '/' |
| `Eda.FileTypeShape` | src/core_eda/eda.py:14 | the file type is empty exactly when the name is empty, ends with '.', or has no '.' after its first character; otherwise it ends the name right after a '.' that follows a non-empty stem |
| `Eda.ReadExpression` | src/core_eda/eda.py:19 | the read expression is `read_`, the file type, `('`, the path and `')`, in that order |
| `Eda.BucketsPartition` | src/core_eda/eda.py:56-79 | each overview column with a type lands in exactly one of the two buckets, and a column whose type is NULL in neither: buckets and untyped names together hold the column names once per row |
| `Eda.TypedRowsLeaveNoneOut` | src/core_eda/eda.py:56-79 | when every overview column has a type, no column is left out of the buckets |
| `Eda.TextNamesMembers` | src/core_eda/eda.py:56-57 | a name is in the text bucket exactly when an overview row of that name has type `VARCHAR` or `BOOLEAN` |
| `Eda.NumericNamesMembers` | src/core_eda/eda.py:78-79 | a name is in the numeric bucket exactly when an overview row of that name has a type, and neither `VARCHAR` nor `BOOLEAN` (`not in` rejects a NULL type) |
| `Eda.ProjectionListRoundTrip` | src/core_eda/eda.py:59 | names without a comma can be read back from their `', '`-joined projection list |
| `Eda.NumericFields` | src/core_eda/eda.py:86-90 | the numeric struct lists `name_` and `type_`, then one `<f>_` per function in order, then one `q_<p>th` per percentile in order, and `nulls_count` last |
| `Eda.QuantileLabel` | src/core_eda/eda.py:89 | a `q_<p>th` key is `q_`, then decimal digits that denote the percentile, then `th` |
| `Eda.FieldLineAt` | src/core_eda/eda.py:40-46 | each struct line of the overview and text queries is the field's key, `: `, its expression and a comma |
| `Eda.GroupLineAsFieldLines` | src/core_eda/eda.py:88-89 | a non-empty group of the numeric struct, joined by `, ` and followed by `,`, reads like its fields each followed by a comma |
| `Eda.NumericLinesUniform` | src/core_eda/eda.py:84-91 | with at least one function and one percentile, the numeric struct is every field, in order, followed by a comma, like the other two structs |
| `Eda.EmptyPercentilesLoneComma` | src/core_eda/eda.py:89 | with no percentile, the percentile group of the numeric struct is a lone comma |
| `Eda.QuantileLabelsDiffer` | src/core_eda/eda.py:89 | distinct percentiles get distinct `q_<p>th` keys |
| `Eda.NumericKeysDiffer` | src/core_eda/eda.py:86-90 | any two positions of the numeric struct carry different keys when the functions are distinct and none is `name` or `type`, and the percentiles are distinct |
| `Eda.NumericLabelsDistinct` | src/core_eda/eda.py:86-90 | under the same conditions, the keys of the numeric struct are pairwise distinct |
| `Eda.DefaultNumericLabelsDistinct` | src/core_eda/eda.py:16 | with the default functions `mean`, `stddev_pop`, `min` and `max`, the keys are distinct for any distinct percentiles |
| `Eda.SummaryQueries` | src/core_eda/eda.py:35-97 | `summary_data_type` sends the overview query and the text bucket selection first, then three queries plus one per non-empty bucket in all |
| `Eda.EmptyOverviewNoAggregates` | src/core_eda/eda.py:58-81 | with no column in the overview, no aggregate query is sent |
| `Eda.EDA.constructor` | src/core_eda/eda.py:12-25 | the file type comes from the suffix, the functions are the defaults, the read expression is built from type and path, and every result is `None` with nothing sent |
| `Eda.EDA.Sample` | src/core_eda/eda.py:27-29 | `df_sample` is the engine's answer to `SELECT * FROM <read> limit <limit>`, which is sent; the other results are unchanged |
| `Eda.EDA.CountRows` | src/core_eda/eda.py:31-33 | `total_rows` is the engine's count for `SELECT count(*) total_rows FROM <read>`, which is sent; the other results are unchanged |
| `Eda.EDA.SummaryDataType` | src/core_eda/eda.py:35-97 | `df_overview` is the overview; `df_varchar` and `df_numeric` are the answers to their bucket's aggregate when the bucket is not empty and keep their old value otherwise; the queries sent are exactly those of `SummaryQueries` |
| `Eda.EDA.Analyze` | src/core_eda/eda.py:99-115 | `sample` with ten rows, `count_rows` and `summary_data_type` run in that order, and the report holds exactly overview, sample, numeric and varchar |
| `Eda.AnalyzeFresh` | src/core_eda/eda.py:21-25 | on a profiler whose results are all `None`, `analyze` leaves a bucket's table `None` exactly when the bucket is empty, and sends five queries plus one per non-empty bucket |

## Left out

- `str.lower()` is modelled on ASCII letters only. Unicode case mapping needs the Unicode tables.
- `emoji.replace_emoji(text, ' ')` belongs to the `emoji` package. The model takes it as a parameter `replaceEmoji` and assumes nothing about it. So the properties of the cleaned text hold whatever it does, and the concrete examples require it to leave their input alone.
- DuckDB is not modelled. What it answers is the `Engine` parameter: the sample and the aggregate tables, the row count, and the overview rows. The two bucket selections over `df_overview` are recorded as sent, and their answer is computed by the model as SQL evaluates them: a column whose type is NULL, as every column of a file with no rows, is in neither bucket.
- Eda.OverviewRow: a column name is a string. On a file with no rows DuckDB gives a NULL name as well, which is not modelled; such a column has a NULL type, so its name is never selected into a bucket.
- Query layout: each run of line breaks and indentation in the source's triple-quoted strings is written as one space, or left out next to `{`, `}` and parentheses. Every other character is kept, among them the comma after each struct field and the comma after each joined group of the numeric struct, which an empty percentile list leaves alone.
- Percentiles are whole percents. `int(i*100)` on a float percentile, and its rounding (0.29 gives 28), is not modelled. The percentile literal inside `quantile_cont` is the decimal `p/100`. Distinct float percentiles can therefore share a key (0.28 and 0.29 both give `q_28th`), so `Eda.QuantileLabelsDiffer`, `Eda.NumericKeysDiffer`, `Eda.NumericLabelsDistinct` and `Eda.DefaultNumericLabelsDistinct` hold for whole percents only.
- `Path` normalisation is not modelled: trailing slashes, `.` components, Windows separators. The path is the text `str(file_path)` gives.
- Cells are null, text, integer or boolean. Float, date and nested Polars types are not modelled. A string callback applied to a non-text cell raises the single error `NotText`, whatever exception Polars or Python would name.
- LenText: an empty separator is excluded by its precondition. What Polars does with `split("")` is not modelled.
- DetectWords: the patterns are strings. A non-string item in the pattern list, which never equals a word, is not modelled.
- `analyze` prints the data shape, and `clean_text` shows a `tqdm` progress bar. Output, logging (`loguru`) and the matplotlib style are left out.
- `src/core_eda/stats_check.py` is not part of this model. It is float statistics, random sampling, a `jsd` function from a module that is not available, and plotting.
- `test/test.py` is not part of this model. It is a script over a fixed local file, with no checks.
- `clean_text_pipeline` is not idempotent, and no such property is stated. `TextEda.BracketAcrossLineSurvives` shows the reason: a bracketed span that a line break kept apart survives one pass, and would be removed by a second.
