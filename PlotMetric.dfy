/** The data part of `plot_metric`: the series one chart compares.  The
    test names are the first table's keys in its order; each table gives
    one series, its records' field `metricId` for those names in that order. */
module PlotMetric {
  import opened Outcomes
  import opened PyBuiltins
  import opened MetricsTable
  import opened ChampsimParser

  /** `m[test][metric_id]`: KeyError for a missing test, then IndexError
      for an index outside the 5-tuple (Python accepts -5 to 4). */
  function Lookup<N>(m: Table<Record<N>>, test: string, metricId: int): (r: Result<N>)
    ensures r.Ok? <==> test in m.entries && -5 <= metricId < 5
    ensures test !in m.entries ==> r == Err(KeyNotFound(test))
    ensures test in m.entries && !(-5 <= metricId < 5) ==> r == Err(IndexOutOfRange)
    // a negative index counts from the end of the tuple
    ensures r.Ok? ==> r.value == m.entries[test].Fields()[metricId % 5]
  {
    var rec :- Get(m, test);
    PyIndex(rec.Fields(), metricId)
  }

  /** `[m[test][metric_id] for test in tests]` */
  function Column<N>(m: Table<Record<N>>, tests: seq<string>, metricId: int): (r: Result<seq<N>>)
    ensures r.Ok? <==> forall j :: 0 <= j < |tests| ==> Lookup(m, tests[j], metricId).Ok?
    ensures r.Ok? ==> |r.value| == |tests|
    ensures r.Ok? ==> forall j :: 0 <= j < |tests| ==> r.value[j] == Lookup(m, tests[j], metricId).value
    // the exception is that of the first test that fails
    ensures r.Err? ==> exists j :: 0 <= j < |tests| && Lookup(m, tests[j], metricId) == Err(r.error)
                                   && forall j' :: 0 <= j' < j ==> Lookup(m, tests[j'], metricId).Ok?
  {
    if tests == [] then Ok([])
    else
      var v :- Lookup(m, tests[0], metricId);
      var rest :- Column(m, tests[1..], metricId);
      Ok([v] + rest)
  }

  /** What a chart of one metric is drawn from. */
  datatype Series<N> = Series(testNames: seq<string>, values: seq<seq<N>>)

  /** Lines 43-48: `test_names` and `exp_values_s`. */
  method PlotMetricSeries<N>(metrics: seq<Table<Record<N>>>, metricId: int) returns (r: Result<Series<N>>)
    // `metrics_s[0]` on an empty list
    ensures metrics == [] ==> r == Err(IndexOutOfRange)
    ensures r.Ok? <==> (metrics != [] &&
      forall i :: 0 <= i < |metrics| ==> Column(metrics[i], metrics[0].keys, metricId).Ok?)
    ensures r.Ok? ==> r.value.testNames == metrics[0].keys && |r.value.values| == |metrics|
    ensures r.Ok? ==> forall i :: 0 <= i < |metrics| ==>
      r.value.values[i] == Column(metrics[i], metrics[0].keys, metricId).value
    // the exception is that of the first table that fails
    ensures r.Err? && metrics != [] ==>
      exists i :: 0 <= i < |metrics| && Column(metrics[i], metrics[0].keys, metricId) == Err(r.error)
                  && forall i' :: 0 <= i' < i ==> Column(metrics[i'], metrics[0].keys, metricId).Ok?
  {
    if metrics == [] {
      return Err(IndexOutOfRange);
    }
    var testNames := metrics[0].keys;
    var expValues: seq<seq<N>> := [];
    for i := 0 to |metrics|
      invariant |expValues| == i
      invariant forall k :: 0 <= k < i ==> Column(metrics[k], testNames, metricId) == Ok(expValues[k])
    {
      var column := Column(metrics[i], testNames, metricId);
      if column.Err? {
        assert Column(metrics[i], testNames, metricId) == Err(column.error);
        return Err(column.error);
      }
      ghost var before := expValues;
      expValues := expValues + [column.value];
      assert forall k :: 0 <= k < i ==> expValues[k] == before[k];
      assert Column(metrics[i], testNames, metricId) == Ok(expValues[i]);
    }
    return Ok(Series(testNames, expValues));
  }

  /** Every series has one value per test name, and value `j` of series `i`
      is field `metricId` of table `i`'s record for the first table's
      `j`-th test. */
  lemma ColumnEntries<N>(m: Table<Record<N>>, tests: seq<string>, metricId: int, j: nat)
    requires Column(m, tests, metricId).Ok? && j < |tests|
    ensures tests[j] in m.entries && -5 <= metricId < 5
    ensures Column(m, tests, metricId).value[j] == m.entries[tests[j]].Fields()[metricId % 5]
  {
    assert Lookup(m, tests[j], metricId).Ok?;
  }

  /** A column fails, with no value put in its place, exactly when a test
      is missing from the table or the index is outside the tuple (this
      last only matters when there is a test to look up). */
  lemma ColumnFails<N>(m: Table<Record<N>>, tests: seq<string>, metricId: int)
    ensures Column(m, tests, metricId).Err? <==>
      (exists j :: 0 <= j < |tests| && tests[j] !in m.entries) || (tests != [] && !(-5 <= metricId < 5))
  {
    if tests != [] && !(-5 <= metricId < 5) {
      assert !Lookup(m, tests[0], metricId).Ok?;
    }
  }

  /** Tables that hold every test of the first table align, for any field of
      the tuple. */
  lemma AlignsWhenTestsShared<N>(metrics: seq<Table<Record<N>>>, metricId: int, i: nat)
    requires i < |metrics| && -5 <= metricId < 5
    requires forall t :: t in metrics[0].keys ==> t in metrics[i].entries
    ensures Column(metrics[i], metrics[0].keys, metricId).Ok?
    ensures |Column(metrics[i], metrics[0].keys, metricId).value| == |metrics[0].keys|
  {
    ColumnFails(metrics[i], metrics[0].keys, metricId);
  }

  /** A later table that lacks a test of the first makes the column fail
      with KeyError on the first test it lacks. */
  lemma FailsOnMissingTest<N>(m: Table<Record<N>>, tests: seq<string>, metricId: int, j: nat)
    requires j < |tests| && tests[j] !in m.entries
    requires forall j' :: 0 <= j' < j ==> tests[j'] in m.entries
    requires -5 <= metricId < 5
    ensures Column(m, tests, metricId) == Err(KeyNotFound(tests[j]))
  {
    var r := Column(m, tests, metricId);
    assert !Lookup(m, tests[j], metricId).Ok?;
    var e :| 0 <= e < |tests| && Lookup(m, tests[e], metricId) == Err(r.error)
             && forall j' :: 0 <= j' < e ==> Lookup(m, tests[j'], metricId).Ok?;
    assert e == j;
  }
}
