/**
 * The profiler `EDA`: a file is read through DuckDB, and the profiler keeps a sample, the row
 * count, an overview with one row per column, and aggregate tables for the text columns and
 * the numeric columns. The query texts are built here; what DuckDB answers to them is an
 * `Engine`, a parameter of the methods.
 */
module Eda {
  import opened Wrappers
  import opened PyStrings
  import opened Frames

  // ---------------------------------------------------------------------------------------------
  // File type and read expression.

  /** `str.rfind(c)`: the last index of `c`, if any. */
  function LastIndexOf(s: string, c: char): (r: Option<nat>)
    ensures r.Some? ==> r.value < |s| && s[r.value] == c && forall k :: r.value < k < |s| ==> s[k] != c
    ensures r.None? ==> forall k :: 0 <= k < |s| ==> s[k] != c
    decreases |s|
  {
    if s == [] then None
    else if s[|s| - 1] == c then Some(|s| - 1)
    else LastIndexOf(s[..|s| - 1], c)
  }

  /** `Path.name`: the last component of the path, after the last '/'. */
  function PathName(path: string): (n: string)
    ensures '/' !in n
  {
    match LastIndexOf(path, '/')
    case None => path
    case Some(i) => AbsentFromTail(path, i + 1, '/'); path[i + 1..]
  }

  /** The name ends the path, and a '/' stands before it unless it is the whole path. */
  lemma PathNameShape(path: string)
    ensures var n := PathName(path); |n| <= |path| && n == path[|path| - |n|..]
    ensures var n := PathName(path); |n| < |path| ==> path[|path| - |n| - 1] == '/'
  {
  }

  /**
   * `Path.suffix` of a file name: from the last '.' on, when that '.' is neither the first nor
   * the last character of the name; otherwise empty.
   */
  function Suffix(n: string): (s: string)
    ensures s == [] <==> (n == [] || n[|n| - 1] == '.' || forall k :: 0 < k < |n| ==> n[k] != '.')
    ensures s != [] ==> 2 <= |s| < |n| && s[0] == '.' && '.' !in s[1..] && n[|n| - |s|..] == s
  {
    match LastIndexOf(n, '.')
    case Some(i) =>
      if 0 < i < |n| - 1 then
        AbsentFromTail(n, i + 1, '.');
        assert n[i..][1..] == n[i + 1..];
        n[i..]
      else ""
    case None => ""
  }

  /** A character absent from every index from `i` on is absent from `s[i..]`. */
  lemma AbsentFromTail(s: string, i: nat, c: char)
    requires i <= |s|
    requires forall k :: i <= k < |s| ==> s[k] != c
    ensures c !in s[i..]
  {
    forall m | 0 <= m < |s| - i
      ensures s[i..][m] != c
    {
      assert s[i..][m] == s[i + m];
    }
  }

  /** `file_path.suffix[1:]`: the characters after the last '.' of the file name, if any. */
  function FileType(path: string): (t: string)
    ensures '.' !in t && '/' !in t
  {
    var s := Suffix(PathName(path));
    if s == [] then "" else SuffixTail(PathName(path)); s[1..]
  }

  /**
   * The file type is empty exactly when the name has no '.' after its first character or ends
   * with '.'; otherwise a non-empty stem and a '.' stand before it at the end of the name.
   */
  lemma FileTypeShape(path: string)
    ensures var n := PathName(path); var t := FileType(path);
      t == [] <==> (n == [] || n[|n| - 1] == '.' || forall k :: 0 < k < |n| ==> n[k] != '.')
    ensures var n := PathName(path); var t := FileType(path);
      t != [] ==> |t| + 1 < |n| && n[|n| - |t| - 1] == '.' && n[|n| - |t|..] == t
  {
    var n := PathName(path);
    if Suffix(n) != [] {
      SuffixTail(n);
    }
  }

  /** Dropping the '.' from a non-empty suffix leaves the end of the name after that '.'. */
  lemma SuffixTail(n: string)
    requires Suffix(n) != []
    ensures var s := Suffix(n); '/' !in n ==> '/' !in s[1..]
    ensures var s := Suffix(n); n[|n| - |s| + 1..] == s[1..]
  {
    var s := Suffix(n);
    assert n[|n| - |s|..][1..] == n[|n| - |s| + 1..];
  }

  /** `f"read_{file_type}('{file_path}')"`: the table function that reads the file. */
  function ReadExpression(fileType: string, path: string): (r: string)
    ensures |r| == |fileType| + |path| + 9
    ensures r[..5] == "read_" && r[5..5 + |fileType|] == fileType
    ensures r[5 + |fileType|..7 + |fileType|] == "('" && r[7 + |fileType|..|r| - 2] == path && r[|r| - 2..] == "')"
  {
    "read_" + fileType + "('" + path + "')"
  }

  // ---------------------------------------------------------------------------------------------
  // The overview and its two buckets.

  /**
   * One row of `df_overview`: a column's name, DuckDB type, largest and smallest value as text, and
   * null count. The type is `first(typeof(...))` over the rows of the file, so it is NULL (`None`)
   * when the file has no rows.
   */
  datatype OverviewRow = OverviewRow(name: string, typeName: Option<string>, max: Option<string>, min: Option<string>, nulls: int)

  /** The types of the text bucket: `type in ('VARCHAR', 'BOOLEAN')` holds. */
  predicate IsTextType(typeName: Option<string>) {
    typeName == Some("VARCHAR") || typeName == Some("BOOLEAN")
  }

  /**
   * The types of the numeric bucket: `type not in ('VARCHAR', 'BOOLEAN')` holds. In SQL both tests
   * are NULL, and so reject the row, when the type is NULL.
   */
  predicate IsNumericType(typeName: Option<string>) {
    typeName.Some? && !IsTextType(typeName)
  }

  function RowNames(rows: seq<OverviewRow>): (names: seq<string>)
    ensures |names| == |rows|
    ensures forall k :: 0 <= k < |rows| ==> names[k] == rows[k].name
  {
    seq(|rows|, k requires 0 <= k < |rows| => rows[k].name)
  }

  /** `select name from df_overview where type in ('VARCHAR', 'BOOLEAN')`, in overview order. */
  function TextNames(rows: seq<OverviewRow>): seq<string>
    decreases |rows|
  {
    if rows == [] then []
    else (if IsTextType(rows[0].typeName) then [rows[0].name] else []) + TextNames(rows[1..])
  }

  /** `select name from df_overview where type not in ('VARCHAR', 'BOOLEAN')`, in overview order. */
  function NumericNames(rows: seq<OverviewRow>): seq<string>
    decreases |rows|
  {
    if rows == [] then []
    else (if IsNumericType(rows[0].typeName) then [rows[0].name] else []) + NumericNames(rows[1..])
  }

  /** The names of the overview rows whose type is NULL, which neither selection returns. */
  function UntypedNames(rows: seq<OverviewRow>): seq<string>
    decreases |rows|
  {
    if rows == [] then []
    else (if rows[0].typeName.None? then [rows[0].name] else []) + UntypedNames(rows[1..])
  }

  /**
   * Every overview column with a type lands in exactly one bucket, and a column whose type is NULL
   * in none: the buckets and the untyped names hold each name once per row.
   */
  lemma {:induction false} BucketsPartition(rows: seq<OverviewRow>)
    ensures multiset(TextNames(rows)) + multiset(NumericNames(rows)) + multiset(UntypedNames(rows)) == multiset(RowNames(rows))
    ensures |TextNames(rows)| + |NumericNames(rows)| + |UntypedNames(rows)| == |rows|
    decreases |rows|
  {
    if rows != [] {
      var tail := rows[1..];
      BucketsPartition(tail);
      HeadJoinsOneBucket(rows);
      PartitionStep(rows[0].name, TextNames(tail), NumericNames(tail), UntypedNames(tail), RowNames(tail),
        TextNames(rows), NumericNames(rows), UntypedNames(rows), RowNames(rows));
    }
  }

  /** The first row's name goes to exactly one of the text bucket, the numeric bucket and the untyped names. */
  lemma HeadJoinsOneBucket(rows: seq<OverviewRow>)
    requires rows != []
    ensures RowNames(rows) == [rows[0].name] + RowNames(rows[1..])
    ensures var x, t := rows[0].name, rows[1..];
      (TextNames(rows) == [x] + TextNames(t) && NumericNames(rows) == NumericNames(t) && UntypedNames(rows) == UntypedNames(t))
      || (TextNames(rows) == TextNames(t) && NumericNames(rows) == [x] + NumericNames(t) && UntypedNames(rows) == UntypedNames(t))
      || (TextNames(rows) == TextNames(t) && NumericNames(rows) == NumericNames(t) && UntypedNames(rows) == [x] + UntypedNames(t))
  {
    assert RowNames(rows) == [rows[0].name] + RowNames(rows[1..]);
  }

  /** Adding one name to one of three parts of a partition, and to the whole. */
  lemma PartitionStep(x: string, a: seq<string>, b: seq<string>, c: seq<string>, all: seq<string>,
                      a': seq<string>, b': seq<string>, c': seq<string>, all': seq<string>)
    requires multiset(a) + multiset(b) + multiset(c) == multiset(all) && |a| + |b| + |c| == |all|
    requires all' == [x] + all
    requires (a' == [x] + a && b' == b && c' == c) || (a' == a && b' == [x] + b && c' == c) || (a' == a && b' == b && c' == [x] + c)
    ensures multiset(a') + multiset(b') + multiset(c') == multiset(all') && |a'| + |b'| + |c'| == |all'|
  {
  }

  /** When every column has a type, no name is left out of the buckets. */
  lemma {:induction false} TypedRowsLeaveNoneOut(rows: seq<OverviewRow>)
    requires forall k :: 0 <= k < |rows| ==> rows[k].typeName.Some?
    ensures UntypedNames(rows) == []
    decreases |rows|
  {
    if rows != [] {
      assert forall k :: 0 <= k < |rows| - 1 ==> rows[1..][k] == rows[k + 1];
      TypedRowsLeaveNoneOut(rows[1..]);
    }
  }

  /** A name is in the text bucket exactly when some overview row of that name has a text type. */
  lemma {:induction false} TextNamesMembers(rows: seq<OverviewRow>, n: string)
    ensures n in TextNames(rows) <==> exists k :: 0 <= k < |rows| && rows[k].name == n && IsTextType(rows[k].typeName)
    decreases |rows|
  {
    if rows != [] {
      TextNamesMembers(rows[1..], n);
      if n in TextNames(rows[1..]) {
        var k :| 0 <= k < |rows| - 1 && rows[1..][k].name == n && IsTextType(rows[1..][k].typeName);
        assert rows[k + 1] == rows[1..][k];
      }
      if exists k :: 0 <= k < |rows| && rows[k].name == n && IsTextType(rows[k].typeName) {
        var k :| 0 <= k < |rows| && rows[k].name == n && IsTextType(rows[k].typeName);
        if k > 0 {
          assert rows[1..][k - 1] == rows[k];
        }
      }
    }
  }

  /** A name is in the numeric bucket exactly when some overview row of that name has a type, and not a text one. */
  lemma {:induction false} NumericNamesMembers(rows: seq<OverviewRow>, n: string)
    ensures n in NumericNames(rows) <==> exists k :: 0 <= k < |rows| && rows[k].name == n && IsNumericType(rows[k].typeName)
    decreases |rows|
  {
    if rows != [] {
      NumericNamesMembers(rows[1..], n);
      if n in NumericNames(rows[1..]) {
        var k :| 0 <= k < |rows| - 1 && rows[1..][k].name == n && IsNumericType(rows[1..][k].typeName);
        assert rows[k + 1] == rows[1..][k];
      }
      if exists k :: 0 <= k < |rows| && rows[k].name == n && IsNumericType(rows[k].typeName) {
        var k :| 0 <= k < |rows| && rows[k].name == n && IsNumericType(rows[k].typeName);
        if k > 0 {
          assert rows[1..][k - 1] == rows[k];
        }
      }
    }
  }

  /** `', '.join(names)`: the projection list of a bucket query. */
  function ProjectionList(names: seq<string>): string {
    Join(names, ", ")
  }

  /** Names without a comma can be read back from their projection list. */
  lemma ProjectionListRoundTrip(names: seq<string>)
    requires |names| >= 1
    requires forall k :: 0 <= k < |names| ==> ',' !in names[k]
    ensures SplitOn(ProjectionList(names), ", ") == names
  {
    SplitOnJoin(names, ", ");
  }

  // ---------------------------------------------------------------------------------------------
  // Query texts. Line breaks and indentation of the original query texts are not kept.

  /** `f"SELECT * FROM {read} limit {limit}"`. */
  function SampleQuery(read: string, limit: int): string {
    "SELECT * FROM " + read + " limit " + IntToString(limit)
  }

  /** `f"SELECT count(*) total_rows FROM {read}"`. */
  function CountQuery(read: string): string {
    "SELECT count(*) total_rows FROM " + read
  }

  const TextBucketQuery: string := "select name from df_overview where type in ('VARCHAR', 'BOOLEAN')"
  const NumericBucketQuery: string := "select name from df_overview where type not in ('VARCHAR', 'BOOLEAN')"

  /** One field `key: expression` of the struct an aggregate query builds per column. */
  datatype StructField = StructField(key: string, expression: string)

  /** `key: expression` for each field, in order. */
  function RenderFields(fields: seq<StructField>): (texts: seq<string>)
    ensures |texts| == |fields|
  {
    seq(|fields|, k requires 0 <= k < |fields| => fields[k].key + ": " + fields[k].expression)
  }

  /** The struct lines of the overview and text queries: one `key: expression,` line per field. */
  function FieldLines(fields: seq<StructField>): (lines: seq<string>)
    ensures |lines| == |fields|
  {
    seq(|fields|, k requires 0 <= k < |fields| => RenderFields(fields)[k] + ",")
  }

  /**
   * One line of the numeric struct holding a whole group of fields: the fields joined by `, ` and
   * followed by `,`. An empty group leaves the comma alone.
   */
  function GroupLine(fields: seq<StructField>): string {
    Join(RenderFields(fields), ", ") + ","
  }

  /**
   * The struct lines of the numeric query: `name_`, `type_`, the function group, the percentile
   * group and `nulls_count`.
   */
  function NumericLines(funcs: seq<string>, percentiles: seq<nat>): seq<string> {
    FieldLines([BucketNameField, BucketTypeField])
    + [GroupLine(FuncFields(funcs)), GroupLine(QuantileFields(percentiles))]
    + FieldLines([NullsCountField])
  }

  lemma FieldLinesAppend(a: seq<StructField>, b: seq<StructField>)
    ensures FieldLines(a + b) == FieldLines(a) + FieldLines(b)
  {
    var l, la, lb := FieldLines(a + b), FieldLines(a), FieldLines(b);
    forall k | 0 <= k < |l| ensures l[k] == (la + lb)[k] {
      FieldLineAt(a + b, k);
      if k < |a| {
        FieldLineAt(a, k);
      } else {
        FieldLineAt(b, k - |a|);
      }
    }
  }

  /** The line of field `k`: its key, `: `, its expression and a comma. */
  lemma FieldLineAt(fields: seq<StructField>, k: nat)
    requires k < |fields|
    ensures FieldLines(fields)[k] == fields[k].key + ": " + fields[k].expression + ","
  {
    assert RenderFields(fields)[k] == fields[k].key + ": " + fields[k].expression;
  }

  /** A non-empty group line reads like the group's fields written one per line: each followed by a comma. */
  lemma {:induction false} GroupLineAsFieldLines(fields: seq<StructField>)
    requires fields != []
    ensures GroupLine(fields) == Join(FieldLines(fields), " ")
    decreases |fields|
  {
    if |fields| > 1 {
      GroupLineAsFieldLines(fields[1..]);
      assert RenderFields(fields)[1..] == RenderFields(fields[1..]);
      assert FieldLines(fields)[1..] == FieldLines(fields[1..]);
    }
  }

  /**
   * With at least one function and one percentile, the numeric struct has the layout of the other
   * two: every field, in order, followed by a comma.
   */
  lemma NumericLinesUniform(funcs: seq<string>, percentiles: seq<nat>)
    requires funcs != [] && percentiles != []
    ensures Join(NumericLines(funcs, percentiles), " ") == Join(FieldLines(NumericFields(funcs, percentiles)), " ")
  {
    var a := FieldLines([BucketNameField, BucketTypeField]);
    var z := FieldLines([NullsCountField]);
    var f := FieldLines(FuncFields(funcs));
    var q := FieldLines(QuantileFields(percentiles));
    var g1, g2 := GroupLine(FuncFields(funcs)), GroupLine(QuantileFields(percentiles));
    NumericFieldLines(funcs, percentiles);
    NumericLinesBlocks(funcs, percentiles);
    GroupLineAsFieldLines(FuncFields(funcs));
    GroupLineAsFieldLines(QuantileFields(percentiles));
    UniformJoin(NumericLines(funcs, percentiles), FieldLines(NumericFields(funcs, percentiles)), a, f, q, z, g1, g2);
  }

  /** The numeric struct's lines, as four blocks. */
  lemma NumericLinesBlocks(funcs: seq<string>, percentiles: seq<nat>)
    ensures NumericLines(funcs, percentiles)
      == FieldLines([BucketNameField, BucketTypeField]) + [GroupLine(FuncFields(funcs))] + [GroupLine(QuantileFields(percentiles))] + FieldLines([NullsCountField])
  {
    var g1, g2 := GroupLine(FuncFields(funcs)), GroupLine(QuantileFields(percentiles));
    assert [g1, g2] == [g1] + [g2];
  }

  /** Two lists of lines, blocks of which join to the same text, join to the same text. */
  lemma UniformJoin(lines: seq<string>, fieldLines: seq<string>, a: seq<string>, f: seq<string>, q: seq<string>, z: seq<string>, g1: string, g2: string)
    requires a != [] && f != [] && q != [] && z != []
    requires lines == a + [g1] + [g2] + z && fieldLines == a + f + q + z
    requires g1 == Join(f, " ") && g2 == Join(q, " ")
    ensures Join(lines, " ") == Join(fieldLines, " ")
  {
    JoinFour(a, f, q, z, " ");
    JoinFour(a, [g1], [g2], z, " ");
    assert Join([g1], " ") == g1 && Join([g2], " ") == g2;
  }

  /** The numeric struct's fields, one per line, as four blocks. */
  lemma NumericFieldLines(funcs: seq<string>, percentiles: seq<nat>)
    ensures FieldLines(NumericFields(funcs, percentiles))
      == FieldLines([BucketNameField, BucketTypeField]) + FieldLines(FuncFields(funcs)) + FieldLines(QuantileFields(percentiles)) + FieldLines([NullsCountField])
  {
    FieldLinesAppend([BucketNameField, BucketTypeField], FuncFields(funcs));
    FieldLinesAppend([BucketNameField, BucketTypeField] + FuncFields(funcs), QuantileFields(percentiles));
    FieldLinesAppend([BucketNameField, BucketTypeField] + FuncFields(funcs) + QuantileFields(percentiles), [NullsCountField]);
  }

  lemma JoinFour(a: seq<string>, b: seq<string>, c: seq<string>, d: seq<string>, sep: string)
    requires a != [] && b != [] && c != [] && d != []
    ensures Join(a + b + c + d, sep) == Join(a, sep) + sep + Join(b, sep) + sep + Join(c, sep) + sep + Join(d, sep)
  {
    JoinAppend(a + b + c, d, sep);
    JoinAppend(a + b, c, sep);
    JoinAppend(a, b, sep);
  }

  /** With no percentile, the numeric struct keeps a line that is a lone comma. */
  lemma EmptyPercentilesLoneComma(funcs: seq<string>)
    ensures NumericLines(funcs, [])[3] == ","
  {
  }

  /**
   * An aggregate over every column of `source`, unpivoted into one row per column. The struct's
   * lines are separated by whitespace, written here as one space.
   */
  function AggregateQuery(source: string, lines: seq<string>): string {
    "with aggregate as (from " + source + " select {" + Join(lines, " ")
    + "}), columns as (unpivot aggregate on columns(*)) select value.* from columns"
  }

  const OverviewFields: seq<StructField> := [
    StructField("name", "first(alias(columns(*)))"),
    StructField("type", "first(typeof(columns(*)))"),
    StructField("max", "max(columns(*))::varchar"),
    StructField("min", "min(columns(*))::varchar"),
    StructField("nulls", "count(*) - count(columns(*))")
  ]

  const VarcharFields: seq<StructField> := [
    StructField("name_", "first(alias(columns(*)))"),
    StructField("type_", "first(typeof(columns(*)))"),
    StructField("sample_", "max(columns(*))::varchar"),
    StructField("approx_unique_", "approx_count_distinct(columns(*))"),
    StructField("nulls_count_", "count(*) - count(columns(*))")
  ]

  /** The aggregate functions applied to every numeric column, in this order. */
  const DefaultFuncs: seq<string> := ["mean", "stddev_pop", "min", "max"]

  /** The default percentiles 0.25, 0.5 and 0.75, as whole percents. */
  const DefaultPercentiles: seq<nat> := [25, 50, 75]

  /** `str(p / 100)` for a whole percent `p`: the shortest decimal, with at least one fraction digit. */
  function PercentLiteral(p: nat): string {
    var frac := p % 100;
    NatToString(p / 100) + "."
    + (if frac == 0 then "0" else if frac % 10 == 0 then [DigitChar(frac / 10)] else [DigitChar(frac / 10), DigitChar(frac % 10)])
  }

  /**
   * The label `q_<p>th` of the field holding percentile `p`: the prefix `q_`, the decimal digits
   * of `p`, and the suffix `th`.
   */
  function QuantileLabel(p: nat): (q: string)
    ensures |q| >= 5 && q[..2] == "q_" && q[|q| - 2..] == "th"
    ensures forall i :: 2 <= i < |q| - 2 ==> IsDigit(q[i])
    ensures DigitsValue(q[2..|q| - 2]) == p
  {
    var digits := NatToString(p);
    NatToStringRoundTrip(p);
    var q := "q_" + digits + "th";
    assert q[2..|q| - 2] == digits;
    q
  }

  /** One field `<f>_` per aggregate function, in order. */
  function FuncFields(funcs: seq<string>): (fields: seq<StructField>)
    ensures |fields| == |funcs|
    ensures forall k :: 0 <= k < |funcs| ==> fields[k] == StructField(funcs[k] + "_", funcs[k] + "(columns(*))::varchar")
  {
    seq(|funcs|, k requires 0 <= k < |funcs| => StructField(funcs[k] + "_", funcs[k] + "(columns(*))::varchar"))
  }

  /** One field `q_<p>th` per percentile, in order. */
  function QuantileFields(percentiles: seq<nat>): (fields: seq<StructField>)
    ensures |fields| == |percentiles|
    ensures forall k :: 0 <= k < |percentiles| ==>
      fields[k] == StructField(QuantileLabel(percentiles[k]), "quantile_cont(columns(*), " + PercentLiteral(percentiles[k]) + ")")
  {
    seq(|percentiles|, k requires 0 <= k < |percentiles| =>
      StructField(QuantileLabel(percentiles[k]), "quantile_cont(columns(*), " + PercentLiteral(percentiles[k]) + ")"))
  }

  const BucketNameField: StructField := StructField("name_", "first(alias(columns(*)))")
  const BucketTypeField: StructField := StructField("type_", "first(typeof(columns(*)))")
  const NullsCountField: StructField := StructField("nulls_count", "count(*) - count(columns(*))")

  /**
   * The struct of the numeric query: `name_`, `type_`, one `<f>_` per function in order, one
   * `q_<p>th` per percentile in order, and `nulls_count` last.
   */
  function NumericFields(funcs: seq<string>, percentiles: seq<nat>): (fields: seq<StructField>)
    ensures |fields| == |funcs| + |percentiles| + 3
    ensures fields[0].key == "name_" && fields[1].key == "type_"
    ensures forall k :: 0 <= k < |funcs| ==> fields[2 + k] == FuncFields(funcs)[k]
    ensures forall k :: 0 <= k < |percentiles| ==> fields[2 + |funcs| + k] == QuantileFields(percentiles)[k]
    ensures fields[|fields| - 1].key == "nulls_count"
  {
    [BucketNameField, BucketTypeField] + FuncFields(funcs) + QuantileFields(percentiles) + [NullsCountField]
  }

  function Labels(fields: seq<StructField>): (labels: seq<string>)
    ensures |labels| == |fields|
    ensures forall k :: 0 <= k < |fields| ==> labels[k] == fields[k].key
  {
    seq(|fields|, k requires 0 <= k < |fields| => fields[k].key)
  }

  /** Distinct percentiles get distinct keys: the digits of a key denote its percentile. */
  lemma QuantileLabelsDiffer(p: nat, q: nat)
    requires p != q
    ensures QuantileLabel(p) != QuantileLabel(q)
  {
  }

  /** The key at position `k` of the numeric struct. */
  function NumericKey(funcs: seq<string>, percentiles: seq<nat>, k: nat): string
    requires k < |funcs| + |percentiles| + 3
  {
    if k == 0 then "name_"
    else if k == 1 then "type_"
    else if k < 2 + |funcs| then funcs[k - 2] + "_"
    else if k < 2 + |funcs| + |percentiles| then QuantileLabel(percentiles[k - 2 - |funcs|])
    else "nulls_count"
  }

  lemma NumericFieldKey(funcs: seq<string>, percentiles: seq<nat>, k: nat)
    requires k < |funcs| + |percentiles| + 3
    ensures NumericFields(funcs, percentiles)[k].key == NumericKey(funcs, percentiles, k)
  {
    if 2 <= k < 2 + |funcs| {
      assert NumericFields(funcs, percentiles)[2 + (k - 2)] == FuncFields(funcs)[k - 2];
    } else if 2 + |funcs| <= k < 2 + |funcs| + |percentiles| {
      assert NumericFields(funcs, percentiles)[2 + |funcs| + (k - 2 - |funcs|)] == QuantileFields(percentiles)[k - 2 - |funcs|];
    }
  }

  /** Two keys ending in different characters differ. */
  lemma LastCharsDiffer(a: string, b: string)
    requires a != [] && b != [] && a[|a| - 1] != b[|b| - 1]
    ensures a != b
  {
  }

  /** Two function keys `<f>_` and `<g>_` differ when the functions do. */
  lemma FuncKeysDiffer(f: string, g: string)
    requires f != g
    ensures f + "_" != g + "_"
  {
    assert (f + "_")[..|f|] == f;
    assert (g + "_")[..|g|] == g;
  }

  lemma NumericKeysDiffer(funcs: seq<string>, percentiles: seq<nat>, k: nat, m: nat)
    requires Distinct(funcs) && Distinct(percentiles)
    requires "name" !in funcs && "type" !in funcs
    requires k < m < |funcs| + |percentiles| + 3
    ensures NumericKey(funcs, percentiles, k) != NumericKey(funcs, percentiles, m)
  {
    var n := |funcs|;
    var last := n + |percentiles| + 2;
    var a := NumericKey(funcs, percentiles, k);
    var b := NumericKey(funcs, percentiles, m);
    if 2 <= k < 2 + n && 2 <= m < 2 + n {
      FuncKeysDiffer(funcs[k - 2], funcs[m - 2]);
    } else if 2 + n <= k && m < last {
      QuantileLabelsDiffer(percentiles[k - 2 - n], percentiles[m - 2 - n]);
    } else if k < 2 && 2 <= m < 2 + n {
      FuncKeysDiffer(funcs[m - 2], "name");
      FuncKeysDiffer(funcs[m - 2], "type");
    } else if k < 2 + n && 2 + n <= m {
      assert a[|a| - 1] == '_';
      LastCharsDiffer(a, b);
    } else if m == last {
      assert b[|b| - 1] == 't';
      LastCharsDiffer(a, b);
    }
  }

  /** No element of `s` occurs twice. */
  predicate Distinct<T(==)>(s: seq<T>) {
    forall k, m :: 0 <= k < m < |s| ==> s[k] != s[m]
  }

  /**
   * The numeric struct never repeats a key, as long as the functions are distinct, are not
   * called `name` or `type`, and the percentiles are distinct.
   */
  lemma NumericLabelsDistinct(funcs: seq<string>, percentiles: seq<nat>)
    requires Distinct(funcs) && Distinct(percentiles)
    requires "name" !in funcs && "type" !in funcs
    ensures Distinct(Labels(NumericFields(funcs, percentiles)))
  {
    var labels := Labels(NumericFields(funcs, percentiles));
    forall k, m | 0 <= k < m < |labels| ensures labels[k] != labels[m] {
      NumericFieldKey(funcs, percentiles, k);
      NumericFieldKey(funcs, percentiles, m);
      NumericKeysDiffer(funcs, percentiles, k, m);
    }
  }

  /** With the default functions, the struct's keys are distinct for any distinct percentiles. */
  lemma DefaultNumericLabelsDistinct(percentiles: seq<nat>)
    requires Distinct(percentiles)
    ensures Distinct(Labels(NumericFields(DefaultFuncs, percentiles)))
  {
    NumericLabelsDistinct(DefaultFuncs, percentiles);
  }

  /** `OverviewQuery`: the overview aggregate over the file. */
  function OverviewQuery(read: string): string {
    AggregateQuery(read, FieldLines(OverviewFields))
  }

  /** `(select {list} from {read})`: the bucket's columns of the file. */
  function BucketSource(list: string, read: string): string {
    "(select " + list + " from " + read + ")"
  }

  function VarcharQuery(names: seq<string>, read: string): string {
    AggregateQuery(BucketSource(ProjectionList(names), read), FieldLines(VarcharFields))
  }

  function NumericQuery(names: seq<string>, read: string, funcs: seq<string>, percentiles: seq<nat>): string {
    AggregateQuery(BucketSource(ProjectionList(names), read), NumericLines(funcs, percentiles))
  }

  /**
   * The queries `summary_data_type` issues, in order: the overview, the text bucket selection,
   * the text aggregate when that bucket is not empty, the numeric bucket selection, and the
   * numeric aggregate when that bucket is not empty.
   */
  function SummaryQueries(read: string, overview: seq<OverviewRow>, funcs: seq<string>, percentiles: seq<nat>): (qs: seq<string>)
    ensures |qs| == 3 + (if TextNames(overview) == [] then 0 else 1) + (if NumericNames(overview) == [] then 0 else 1)
    ensures qs[0] == OverviewQuery(read) && qs[1] == TextBucketQuery
  {
    var texts := TextNames(overview);
    var numerics := NumericNames(overview);
    [OverviewQuery(read), TextBucketQuery]
    + QueryIfAny(texts, VarcharQuery(texts, read))
    + [NumericBucketQuery]
    + QueryIfAny(numerics, NumericQuery(numerics, read, funcs, percentiles))
  }

  /** The aggregate query of a bucket, issued only when the bucket holds a column. */
  function QueryIfAny(names: seq<string>, query: string): seq<string> {
    if names == [] then [] else [query]
  }

  /** An overview with no column at all leads to no aggregate query. */
  lemma EmptyOverviewNoAggregates(read: string, funcs: seq<string>, percentiles: seq<nat>)
    ensures SummaryQueries(read, [], funcs, percentiles) == [OverviewQuery(read), TextBucketQuery, NumericBucketQuery]
  {
  }

  // ---------------------------------------------------------------------------------------------
  // The engine and the profiler.

  /**
   * What DuckDB answers: the table a query returns, the `total_rows` value of the count query,
   * and the rows of the overview query.
   */
  datatype Engine = Engine(table: string -> Frame, rowCount: string -> int, overview: string -> seq<OverviewRow>)

  /** The dictionary `analyze` returns: exactly the keys overview, sample, numeric and varchar. */
  datatype Report = Report(overview: Option<seq<OverviewRow>>, sample: Option<Frame>, numeric: Option<Frame>, varchar: Option<Frame>)

  class EDA {
    const filePath: string
    const fileType: string
    const funcs: seq<string>
    const percentile: seq<nat>
    const queryReadFile: string

    var dfSample: Option<Frame>
    var totalRows: Option<int>
    var dfNumeric: Option<Frame>
    var dfVarchar: Option<Frame>
    var dfOverview: Option<seq<OverviewRow>>

    /** The queries sent to DuckDB so far, in order. */
    ghost var issued: seq<string>

    /** Every result is `None` until the corresponding query has run. */
    ghost predicate Fresh()
      reads this
    {
      dfSample.None? && totalRows.None? && dfNumeric.None? && dfVarchar.None? && dfOverview.None? && issued == []
    }

    /** `__init__`: the file type from the suffix, the default functions, the read expression, no results. */
    constructor(filePath: string, percentile: seq<nat>)
      ensures this.filePath == filePath && this.percentile == percentile
      ensures fileType == FileType(filePath) && funcs == DefaultFuncs
      ensures queryReadFile == ReadExpression(FileType(filePath), filePath)
      ensures Fresh()
    {
      var t := FileType(filePath);
      this.filePath := filePath;
      this.fileType := t;
      this.funcs := DefaultFuncs;
      this.percentile := percentile;
      this.queryReadFile := ReadExpression(t, filePath);
      dfSample := None;
      totalRows := None;
      dfNumeric := None;
      dfVarchar := None;
      dfOverview := None;
      issued := [];
    }

    /** `sample`: the first `limit` rows of the file. */
    method Sample(db: Engine, limit: int)
      modifies this
      ensures dfSample == Some(db.table(SampleQuery(queryReadFile, limit)))
      ensures issued == old(issued) + [SampleQuery(queryReadFile, limit)]
      ensures totalRows == old(totalRows) && dfNumeric == old(dfNumeric)
      ensures dfVarchar == old(dfVarchar) && dfOverview == old(dfOverview)
    {
      var query := SampleQuery(queryReadFile, limit);
      issued := issued + [query];
      dfSample := Some(db.table(query));
    }

    /** `count_rows`: the number of rows of the file. */
    method CountRows(db: Engine)
      modifies this
      ensures totalRows == Some(db.rowCount(CountQuery(queryReadFile)))
      ensures issued == old(issued) + [CountQuery(queryReadFile)]
      ensures dfSample == old(dfSample) && dfNumeric == old(dfNumeric)
      ensures dfVarchar == old(dfVarchar) && dfOverview == old(dfOverview)
    {
      var query := CountQuery(queryReadFile);
      issued := issued + [query];
      totalRows := Some(db.rowCount(query));
    }

    /**
     * `summary_data_type`: the overview, then the aggregate of each bucket that is not empty.
     * A bucket that is empty issues no aggregate query and leaves its result as it was.
     */
    method SummaryDataType(db: Engine)
      modifies this
      ensures var overview := db.overview(OverviewQuery(queryReadFile));
        dfOverview == Some(overview)
        && dfVarchar == (if TextNames(overview) == [] then old(dfVarchar)
                         else Some(db.table(VarcharQuery(TextNames(overview), queryReadFile))))
        && dfNumeric == (if NumericNames(overview) == [] then old(dfNumeric)
                         else Some(db.table(NumericQuery(NumericNames(overview), queryReadFile, funcs, percentile))))
        && issued == old(issued) + SummaryQueries(queryReadFile, overview, funcs, percentile)
      ensures dfSample == old(dfSample) && totalRows == old(totalRows)
    {
      var query := OverviewQuery(queryReadFile);
      var overview := db.overview(query);
      dfOverview := Some(overview);

      var listVarchar := TextNames(overview);
      ghost var textAggregate := [];
      if listVarchar != [] {
        query := VarcharQuery(listVarchar, queryReadFile);
        textAggregate := [query];
        dfVarchar := Some(db.table(query));
      }

      var listNumeric := NumericNames(overview);
      ghost var numericAggregate := [];
      if listNumeric != [] {
        query := NumericQuery(listNumeric, queryReadFile, funcs, percentile);
        numericAggregate := [query];
        dfNumeric := Some(db.table(query));
      }
      issued := issued + ([OverviewQuery(queryReadFile), TextBucketQuery] + textAggregate
                          + [NumericBucketQuery] + numericAggregate);
    }

    /**
     * `analyze`: `sample` (ten rows), `count_rows` and `summary_data_type`, in that order, then
     * the four result tables.
     */
    method Analyze(db: Engine) returns (report: Report)
      modifies this
      ensures var overview := db.overview(OverviewQuery(queryReadFile));
        issued == old(issued) + [SampleQuery(queryReadFile, 10), CountQuery(queryReadFile)]
                  + SummaryQueries(queryReadFile, overview, funcs, percentile)
        && dfOverview == Some(overview)
        && dfVarchar == (if TextNames(overview) == [] then old(dfVarchar)
                         else Some(db.table(VarcharQuery(TextNames(overview), queryReadFile))))
        && dfNumeric == (if NumericNames(overview) == [] then old(dfNumeric)
                         else Some(db.table(NumericQuery(NumericNames(overview), queryReadFile, funcs, percentile))))
      ensures dfSample == Some(db.table(SampleQuery(queryReadFile, 10)))
      ensures totalRows == Some(db.rowCount(CountQuery(queryReadFile)))
      ensures report == Report(dfOverview, dfSample, dfNumeric, dfVarchar)
    {
      Sample(db, 10);
      CountRows(db);
      SummaryDataType(db);
      report := Report(dfOverview, dfSample, dfNumeric, dfVarchar);
    }
  }

  /**
   * On a fresh profiler, `analyze` leaves a bucket's table `None` exactly when the overview puts
   * no column in that bucket, and issues five queries plus one per non-empty bucket.
   */
  method AnalyzeFresh(p: EDA, db: Engine) returns (report: Report)
    requires p.Fresh()
    modifies p
    ensures var overview := db.overview(OverviewQuery(p.queryReadFile));
      report.overview == Some(overview)
      && (report.varchar.None? <==> TextNames(overview) == [])
      && (report.numeric.None? <==> NumericNames(overview) == [])
      && |p.issued| == 5 + (if TextNames(overview) == [] then 0 else 1) + (if NumericNames(overview) == [] then 0 else 1)
    ensures report.sample.Some? && p.totalRows.Some?
  {
    report := p.Analyze(db);
  }
}
