/** A Polars `DataFrame` as the text normalizer and the profiler see it: named columns of cells. */
module Frames {
  import opened Wrappers

  /** One cell. `Null` is Polars' missing value, which Python sees as `None`. */
  datatype Value = Null | Str(s: string) | Int(i: int) | Bool(b: bool)

  datatype Column = Column(name: string, values: seq<Value>)

  /** The columns of a data frame, in order. */
  datatype Frame = Frame(columns: seq<Column>)

  /** The exceptions the modelled column operations raise. */
  datatype FrameError =
    | ColumnNotFound(name: string)  // Polars' `ColumnNotFoundError`
    | NotText(name: string)         // a string operation applied to a column holding non-string values

  function Names(f: Frame): (names: seq<string>)
    ensures |names| == |f.columns|
    ensures forall k :: 0 <= k < |names| ==> names[k] == f.columns[k].name
  {
    seq(|f.columns|, k requires 0 <= k < |f.columns| => f.columns[k].name)
  }

  /** The number of rows. */
  function Height(f: Frame): nat {
    if f.columns == [] then 0 else |f.columns[0].values|
  }

  /** What Polars keeps true of every frame: distinct column names, one height for all columns. */
  ghost predicate Valid(f: Frame) {
    (forall k, m :: 0 <= k < m < |f.columns| ==> f.columns[k].name != f.columns[m].name)
    && (forall k :: 0 <= k < |f.columns| ==> |f.columns[k].values| == Height(f))
  }

  /** The first position, at or after `from`, of a column called `name`. */
  function IndexFrom(cols: seq<Column>, name: string, from: nat): (r: Option<nat>)
    ensures r.Some? ==> from <= r.value < |cols| && cols[r.value].name == name
    ensures r.Some? ==> forall k :: from <= k < r.value ==> cols[k].name != name
    ensures r.None? ==> forall k :: from <= k < |cols| ==> cols[k].name != name
    decreases |cols| - from
  {
    if from >= |cols| then None
    else if cols[from].name == name then Some(from)
    else IndexFrom(cols, name, from + 1)
  }

  /** Two column lists that agree on where `name` stands have the same first position for it. */
  lemma IndexFromAgrees(a: seq<Column>, b: seq<Column>, name: string)
    requires |a| <= |b|
    requires forall k :: 0 <= k < |a| ==> (a[k].name == name <==> b[k].name == name)
    requires forall k :: |a| <= k < |b| ==> b[k].name != name
    ensures IndexFrom(a, name, 0) == IndexFrom(b, name, 0)
  {
  }

  /** The first position of `name` is the one before which no column has that name. */
  lemma IndexFromIs(cols: seq<Column>, name: string, k: nat)
    requires k < |cols| && cols[k].name == name
    requires forall j :: 0 <= j < k ==> cols[j].name != name
    ensures IndexFrom(cols, name, 0) == Some(k)
  {
  }

  /** `data[name]`: the values of the column called `name`, or `ColumnNotFound`. */
  function Get(f: Frame, name: string): (r: Result<seq<Value>, FrameError>)
    ensures r.Failure? <==> name !in Names(f)
    ensures r.Failure? ==> r.error == ColumnNotFound(name)
    ensures r.Success? ==> exists k :: 0 <= k < |f.columns| && f.columns[k] == Column(name, r.value)
  {
    match IndexFrom(f.columns, name, 0)
    case None => Failure(ColumnNotFound(name))
    case Some(k) =>
      assert f.columns[k] == Column(name, f.columns[k].values);
      Success(f.columns[k].values)
  }

  /**
   * `data.with_columns(series)`: a column with the series' name is replaced where it stands,
   * otherwise the series becomes the last column.
   */
  function WithColumn(f: Frame, c: Column): (g: Frame)
    ensures Get(g, c.name) == Success(c.values)
    ensures forall n :: n != c.name ==> Get(g, n) == Get(f, n)
    ensures c.name in Names(f) ==> Names(g) == Names(f)
    ensures c.name !in Names(f) ==> Names(g) == Names(f) + [c.name]
    ensures Valid(f) && (f.columns == [] || |c.values| == Height(f)) ==> Valid(g) && Height(g) == |c.values|
  {
    match IndexFrom(f.columns, c.name, 0)
    case None =>
      var g := Frame(f.columns + [c]);
      forall n | n != c.name
        ensures Get(g, n) == Get(f, n)
      {
        IndexFromAgrees(f.columns, g.columns, n);
      }
      IndexFromIs(g.columns, c.name, |f.columns|);
      assert Names(g) == Names(f) + [c.name];
      g
    case Some(k) =>
      var g := Frame(f.columns[k := c]);
      forall n | n != c.name
        ensures Get(g, n) == Get(f, n)
      {
        IndexFromAgrees(f.columns, g.columns, n);
      }
      IndexFromIs(g.columns, c.name, k);
      assert Names(g) == Names(f);
      g
  }
}
