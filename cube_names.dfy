/** `generate_column_names`: the dimension names, then one `{column}_{func}`
    label per aggregation function of each metric in the metrics' order, each
    with its trailing underscores removed. */
module ColumnNaming {

  /** A metric's value in the metrics dict: one function name, or a list. */
  datatype AggFuncs = Bare(func: string) | Listed(funcs: seq<string>)

  /** The metrics dict as its (column, functions) items in insertion order. */
  type Metrics = seq<(string, AggFuncs)>

  function FuncNames(a: AggFuncs): seq<string> {
    match a
    case Bare(f) => [f]
    case Listed(fs) => fs
  }

  /** The f-string `f"{column}_{func}"`. */
  function Label(column: string, func: string): string {
    column + "_" + func
  }

  function Labels(column: string, funcs: seq<string>): seq<string> {
    seq(|funcs|, i requires 0 <= i < |funcs| => Label(column, funcs[i]))
  }

  /** The labels the loop appends, item by item (defined from the last item so
      that it grows the way the loop does). */
  function MetricNames(metrics: Metrics): seq<string>
    decreases |metrics|
  {
    if metrics == [] then []
    else
      var last := metrics[|metrics| - 1];
      MetricNames(metrics[..|metrics| - 1]) + Labels(last.0, FuncNames(last.1))
  }

  /** How many labels the metrics contribute: a list's length, or 1 for a bare function. */
  function NameCount(metrics: Metrics): nat
    decreases |metrics|
  {
    if metrics == [] then 0
    else NameCount(metrics[..|metrics| - 1]) + |FuncNames(metrics[|metrics| - 1].1)|
  }

  predicate NoTrailingUnderscore(s: string) {
    s == [] || s[|s| - 1] != '_'
  }

  /** `s.rstrip("_")`: the longest prefix of `s` that does not end in `_`,
      all of whose removed characters are `_`. */
  function RStrip(s: string): (r: string)
    ensures r <= s
    ensures NoTrailingUnderscore(r)
    ensures forall i | |r| <= i < |s| :: s[i] == '_'
    decreases |s|
  {
    if s != [] && s[|s| - 1] == '_' then RStrip(s[..|s| - 1]) else s
  }

  function StripAll(names: seq<string>): seq<string> {
    seq(|names|, i requires 0 <= i < |names| => RStrip(names[i]))
  }

  /** The value `generate_column_names(dimensions, metrics)` returns. */
  function ColumnNames(dimensions: seq<string>, metrics: Metrics): (r: seq<string>)
    ensures |r| == |dimensions| + NameCount(metrics)
  {
    MetricNamesLength(metrics);
    StripAll(dimensions + MetricNames(metrics))
  }

  /** The inner loop: one label per function of a list, in the list's order. */
  method AppendLabels(columnNames: seq<string>, column: string, funcs: seq<string>) returns (out: seq<string>)
    ensures out == columnNames + Labels(column, funcs)
  {
    out := columnNames;
    var k := 0;
    while k < |funcs|
      invariant 0 <= k <= |funcs|
      invariant out == columnNames + Labels(column, funcs[..k])
    {
      assert Labels(column, funcs[..k + 1]) == Labels(column, funcs[..k]) + [Label(column, funcs[k])];
      out := out + [Label(column, funcs[k])];
      k := k + 1;
    }
    assert funcs[..k] == funcs;
  }

  /** The loop over the metrics, appending to a copy of the dimensions, then
      the comprehension that strips every label. */
  method GenerateColumnNames(dimensions: seq<string>, metrics: Metrics) returns (names: seq<string>)
    ensures names == ColumnNames(dimensions, metrics)
    ensures |names| == |dimensions| + NameCount(metrics)
    ensures forall i | 0 <= i < |names| :: NoTrailingUnderscore(names[i])
  {
    var columnNames := dimensions;
    var m := 0;
    while m < |metrics|
      invariant 0 <= m <= |metrics|
      invariant columnNames == dimensions + MetricNames(metrics[..m])
    {
      var column := metrics[m].0;
      var aggFuncs := metrics[m].1;
      assert metrics[..m + 1][..m] == metrics[..m];
      if aggFuncs.Listed? {
        columnNames := AppendLabels(columnNames, column, aggFuncs.funcs);
      } else {
        assert Labels(column, [aggFuncs.func]) == [Label(column, aggFuncs.func)];
        columnNames := columnNames + [Label(column, aggFuncs.func)];
      }
      m := m + 1;
    }
    assert metrics[..m] == metrics;
    names := seq(|columnNames|, i requires 0 <= i < |columnNames| => RStrip(columnNames[i]));
    ColumnNamesLength(dimensions, metrics);
  }

  lemma {:induction false} MetricNamesLength(metrics: Metrics)
    ensures |MetricNames(metrics)| == NameCount(metrics)
    decreases |metrics|
  {
    if metrics != [] {
      MetricNamesLength(metrics[..|metrics| - 1]);
    }
  }

  /** The returned list has one name per dimension plus one per aggregation
      function, and no name ends with `_`. */
  lemma ColumnNamesLength(dimensions: seq<string>, metrics: Metrics)
    ensures |ColumnNames(dimensions, metrics)| == |dimensions| + NameCount(metrics)
    ensures forall i | 0 <= i < |ColumnNames(dimensions, metrics)| ::
      NoTrailingUnderscore(ColumnNames(dimensions, metrics)[i])
  {
    MetricNamesLength(metrics);
  }

  lemma {:induction false} MetricNamesAppend(a: Metrics, b: Metrics)
    ensures MetricNames(a + b) == MetricNames(a) + MetricNames(b)
    decreases |b|
  {
    if b == [] {
      assert a + b == a;
    } else {
      var front, last := b[..|b| - 1], b[|b| - 1];
      var ab := a + b;
      assert ab[..|ab| - 1] == a + front && ab[|ab| - 1] == last;
      assert MetricNames(ab) == MetricNames(a + front) + Labels(last.0, FuncNames(last.1));
      assert MetricNames(b) == MetricNames(front) + Labels(last.0, FuncNames(last.1));
      MetricNamesAppend(a, front);
    }
  }

  /** Metric by metric from the front: each item contributes its labels, in
      the order of its function list, ahead of the later items'. */
  lemma MetricNamesCons(column: string, funcs: AggFuncs, rest: Metrics)
    ensures MetricNames([(column, funcs)] + rest) == Labels(column, FuncNames(funcs)) + MetricNames(rest)
  {
    MetricNamesAppend([(column, funcs)], rest);
    assert [(column, funcs)][..0] == [];
  }

  /** The dimensions come first, stripped, in their given order. */
  lemma ColumnNamesDimensionsFirst(dimensions: seq<string>, metrics: Metrics)
    ensures ColumnNames(dimensions, metrics)[..|dimensions|] == StripAll(dimensions)
    ensures ColumnNames(dimensions, metrics)[|dimensions|..] == StripAll(MetricNames(metrics))
  {
    var names := ColumnNames(dimensions, metrics);
    MetricNamesLength(metrics);
    assert names[|dimensions|..] == StripAll(MetricNames(metrics)) by {
      forall i | 0 <= i < |MetricNames(metrics)|
        ensures names[|dimensions|..][i] == RStrip(MetricNames(metrics)[i])
      {
        assert (dimensions + MetricNames(metrics))[|dimensions| + i] == MetricNames(metrics)[i];
      }
    }
  }

  /** A prefix of `s` that does not end in `_` and is followed only by `_` is
      the stripped string: `rstrip` removes all trailing underscores and no more. */
  lemma RStripUnique(s: string, p: string)
    requires p <= s && NoTrailingUnderscore(p)
    requires forall i | |p| <= i < |s| :: s[i] == '_'
    ensures RStrip(s) == p
  {
    var r := RStrip(s);
    assert |r| == |p|;
    assert r == s[..|r|] && p == s[..|p|];
  }

  /** Stripping again changes nothing. */
  lemma RStripIdempotent(s: string)
    ensures RStrip(RStrip(s)) == RStrip(s)
  {
    RStripUnique(RStrip(s), RStrip(s));
  }

  lemma StripAllIdempotent(names: seq<string>)
    ensures StripAll(StripAll(names)) == StripAll(names)
  {
    forall i | 0 <= i < |names| ensures RStrip(RStrip(names[i])) == RStrip(names[i]) {
      RStripIdempotent(names[i]);
    }
  }

  /** A bare function name and the one-element list holding it give the same names. */
  lemma BareAsList(dimensions: seq<string>, metrics: Metrics, m: nat)
    requires m < |metrics| && metrics[m].1.Bare?
    ensures ColumnNames(dimensions, metrics)
      == ColumnNames(dimensions, metrics[m := (metrics[m].0, Listed([metrics[m].1.func]))])
  {
    var listed := metrics[m := (metrics[m].0, Listed([metrics[m].1.func]))];
    assert metrics == metrics[..m] + [metrics[m]] + metrics[m + 1..];
    assert listed == metrics[..m] + [listed[m]] + metrics[m + 1..];
    MetricNamesAppend(metrics[..m] + [metrics[m]], metrics[m + 1..]);
    MetricNamesAppend(metrics[..m], [metrics[m]]);
    MetricNamesAppend(metrics[..m] + [listed[m]], metrics[m + 1..]);
    MetricNamesAppend(metrics[..m], [listed[m]]);
    MetricNamesCons(metrics[m].0, metrics[m].1, []);
    MetricNamesCons(listed[m].0, listed[m].1, []);
  }
}
