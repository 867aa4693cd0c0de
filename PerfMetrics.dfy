/** The collection loop of `obtain_perf_metrics`, run sequentially: the
    futures are drained in submission order, each finished run is parsed
    and stored under its trace's base name, and the first exception ends
    the whole collection. */
module PerfMetrics {
  import opened Outcomes
  import opened PyBuiltins
  import opened MetricsTable
  import opened ChampsimParser

  /** What `future.result()` gives for one launched simulator run: the
      captured standard output, or the exception the launcher raised
      (a non-zero exit with `check=True`, or a failure to spawn). */
  datatype Launch = Completed(stdout: string) | Raised(diagnostic: string)

  /** One entry of `running_tasks`: the trace path and its run's outcome. */
  type Run = (string, Launch)

  /** `parse_champsim_output(sub_res.result().stdout)` for one run. */
  function RunRecord<N>(float: string -> Option<N>, run: Run): (r: Result<Record<N>>)
    ensures run.1.Raised? ==> r == Err(LaunchFailed(run.0, run.1.diagnostic))
    ensures run.1.Completed? ==> r == ParseChampsimOutput(float, run.1.stdout)
  {
    match run.1
    case Raised(d) => Err(LaunchFailed(run.0, d))
    case Completed(out) => ParseChampsimOutput(float, out)
  }

  /** Each run's key, the base name of its trace, with the record the run
      yields or the exception. */
  function RunOutcomes<N>(float: string -> Option<N>, runs: seq<Run>): (outs: seq<(string, Result<Record<N>>)>)
    ensures |outs| == |runs|
    ensures forall i :: 0 <= i < |runs| ==> outs[i] == (Basename(runs[i].0), RunRecord(float, runs[i]))
  {
    seq(|runs|, i requires 0 <= i < |runs| => (Basename(runs[i].0), RunRecord(float, runs[i])))
  }

  /** The keys of the outcomes, in submission order. */
  function Keys<V>(outs: seq<(string, V)>): (r: seq<string>)
    ensures |r| == |outs|
    ensures forall i :: 0 <= i < |outs| ==> r[i] == outs[i].0
  {
    if outs == [] then [] else Keys(outs[..|outs| - 1]) + [outs[|outs| - 1].0]
  }

  /** The elements of `s`, each once, in the order they first appear. */
  function FirstOccurrences(s: seq<string>): (r: seq<string>)
    ensures forall i, j :: 0 <= i < j < |r| ==> r[i] != r[j]
    ensures forall x :: x in r <==> x in s
    // in the order of their first positions in `s`
    ensures forall i, j :: 0 <= i < j < |r| ==> ListIndex(s, r[i]).value < ListIndex(s, r[j]).value
  {
    if s == [] then []
    else
      var n := |s| - 1;
      var d := FirstOccurrences(s[..n]);
      ListIndexOfPrefix(s, n);
      if s[n] in d then d else d + [s[n]]
  }

  /** A value present in a prefix is first found inside that prefix. */
  lemma ListIndexOfPrefix(s: seq<string>, n: nat)
    requires n <= |s|
    ensures forall x :: x in s[..n] ==> ListIndex(s, x) == ListIndex(s[..n], x)
    ensures forall x :: x in s[..n] ==> ListIndex(s, x).value < n
  {
    forall x | x in s[..n]
      ensures ListIndex(s, x) == ListIndex(s[..n], x)
    {
      var k := ListIndex(s[..n], x).value;
      assert IsFirst(s, x, k);
      FirstIsUnique(s, x, k, ListIndex(s, x).value);
    }
  }

  lemma {:induction false} FirstOccurrencesOfDistinct(s: seq<string>)
    requires forall i, j :: 0 <= i < j < |s| ==> s[i] != s[j]
    ensures FirstOccurrences(s) == s
  {
    if s != [] {
      var n := |s| - 1;
      FirstOccurrencesOfDistinct(s[..n]);
      assert s[n] !in s[..n];
      assert s[..n] + [s[n]] == s;
    }
  }

  /** `metrics` after the loop has drained the outcomes `outs`
      (`metrics[key] = record` for each), or the first exception it met. */
  function Collect<V>(outs: seq<(string, Result<V>)>): (r: Result<Table<V>>)
    // an exception escaping the loop is one of the runs' exceptions
    ensures r.Err? ==> exists i :: 0 <= i < |outs| && outs[i].1 == Err(r.error)
    decreases |outs|
  {
    if outs == [] then Ok(Empty())
    else
      var n := |outs| - 1;
      assert forall i :: 0 <= i < n ==> outs[..n][i] == outs[i];
      var t :- Collect(outs[..n]);
      var v :- outs[n].1;
      Ok(Insert(t, outs[n].0, v))
  }

  /** Lines 29, 36-38, with the futures drained in submission order. */
  method ObtainPerfMetrics<N>(float: string -> Option<N>, runs: seq<Run>)
    returns (r: Result<Table<Record<N>>>)
    ensures r == Collect(RunOutcomes(float, runs))
  {
    ghost var outs := RunOutcomes(float, runs);
    var metrics := Empty();
    var i := 0;
    while i < |runs|
      invariant 0 <= i <= |runs|
      invariant Collect(outs[..i]) == Ok(metrics)
    {
      var (trace, launch) := runs[i];
      assert outs[..i + 1][..i] == outs[..i];
      assert outs[i] == (Basename(trace), RunRecord(float, runs[i]));
      match launch {
        case Raised(d) =>
          CollectErrorSticks(outs, i + 1);
          return Err(LaunchFailed(trace, d));
        case Completed(stdout) =>
          var rec := ParseChampsimOutput(float, stdout);
          if rec.Err? {
            CollectErrorSticks(outs, i + 1);
            return Err(rec.error);
          }
          metrics := Insert(metrics, Basename(trace), rec.value);
      }
      i := i + 1;
    }
    assert outs[..i] == outs;
    return Ok(metrics);
  }

  /** The table built is a well-formed dict. */
  lemma {:induction false} CollectValid<V>(outs: seq<(string, Result<V>)>)
    requires Collect(outs).Ok?
    ensures Collect(outs).value.Valid()
    decreases |outs|
  {
    if outs != [] {
      CollectValid(outs[..|outs| - 1]);
    }
  }

  lemma CollectStopsAtError<V>(outs: seq<(string, Result<V>)>)
    requires outs != [] && Collect(outs[..|outs| - 1]).Err?
    ensures Collect(outs) == Collect(outs[..|outs| - 1])
  {
  }

  /** Once a prefix of the outcomes has failed, the whole collection fails
      with the same exception. */
  lemma {:induction false} CollectErrorSticks<V>(outs: seq<(string, Result<V>)>, i: nat)
    requires i <= |outs| && Collect(outs[..i]).Err?
    ensures Collect(outs) == Collect(outs[..i])
    decreases |outs|
  {
    if i == |outs| {
      assert outs[..i] == outs;
    } else {
      var n := |outs| - 1;
      var pre := outs[..n];
      assert pre[..i] == outs[..i];
      CollectErrorSticks(pre, i);
      CollectStopsAtError(outs);
    }
  }

  /** The collection succeeds exactly when every run yields a record. */
  lemma {:induction false} CollectOk<V>(outs: seq<(string, Result<V>)>)
    ensures Collect(outs).Ok? <==> forall i :: 0 <= i < |outs| ==> outs[i].1.Ok?
    decreases |outs|
  {
    if outs != [] {
      var n := |outs| - 1;
      var pre := outs[..n];
      CollectOk(pre);
      assert forall i :: 0 <= i < n ==> pre[i] == outs[i];
      if Collect(pre).Err? {
        var e :| 0 <= e < n && !pre[e].1.Ok?;
        assert !outs[e].1.Ok?;
        assert Collect(outs).Err?;
      } else if outs[n].1.Err? {
        assert Collect(outs).Err?;
      } else {
        assert Collect(outs).Ok?;
      }
    }
  }

  /** Fail fast: the collection fails with the exception of the first run
      that fails, whatever the later runs do. */
  lemma CollectFirstFailure<V>(outs: seq<(string, Result<V>)>, i: nat)
    requires i < |outs| && outs[i].1.Err?
    requires forall j :: 0 <= j < i ==> outs[j].1.Ok?
    ensures Collect(outs) == Err(outs[i].1.error)
  {
    var pre := outs[..i + 1];
    assert pre[..i] == outs[..i];
    CollectOk(outs[..i]);
    assert Collect(pre[..i]).Ok?;
    CollectErrorSticks(outs, i + 1);
  }

  /** Collecting over the runs succeeds exactly when every run finishes
      and its output parses. */
  lemma ObtainOk<N>(float: string -> Option<N>, runs: seq<Run>)
    ensures Collect(RunOutcomes(float, runs)).Ok? <==> forall i :: 0 <= i < |runs| ==> RunRecord(float, runs[i]).Ok?
  {
    var outs := RunOutcomes(float, runs);
    CollectOk(outs);
    assert forall i :: 0 <= i < |runs| ==> outs[i].1 == RunRecord(float, runs[i]);
  }

  /** The first run, in submission order, that raises or does not parse
      decides the exception, whatever the later runs do. */
  lemma RunFailureAborts<N>(float: string -> Option<N>, runs: seq<Run>, i: nat)
    requires i < |runs| && RunRecord(float, runs[i]).Err?
    requires forall j :: 0 <= j < i ==> RunRecord(float, runs[j]).Ok?
    ensures Collect(RunOutcomes(float, runs)) == Err(RunRecord(float, runs[i]).error)
  {
    var outs := RunOutcomes(float, runs);
    assert forall j :: 0 <= j < i ==> outs[j].1.Ok?;
    CollectFirstFailure(outs, i);
  }

  /** In particular a launcher exception aborts the collection and names
      its trace. */
  lemma LaunchFailureAborts<N>(float: string -> Option<N>, runs: seq<Run>, i: nat)
    requires i < |runs| && runs[i].1.Raised?
    requires forall j :: 0 <= j < i ==> RunRecord(float, runs[j]).Ok?
    ensures Collect(RunOutcomes(float, runs)) == Err(LaunchFailed(runs[i].0, runs[i].1.diagnostic))
  {
    RunFailureAborts(float, runs, i);
  }

  /** The table's keys are the outcomes' keys (the traces' base names),
      each once, in the order they were first submitted. */
  lemma {:induction false} CollectKeys<V>(outs: seq<(string, Result<V>)>)
    requires Collect(outs).Ok?
    ensures Collect(outs).value.keys == FirstOccurrences(Keys(outs))
    decreases |outs|
  {
    if outs != [] {
      var n := |outs| - 1;
      assert Keys(outs)[..n] == Keys(outs[..n]);
      CollectKeys(outs[..n]);
      CollectValid(outs[..n]);
    }
  }

  /** On success, a base name is a key of the table exactly when some
      submitted trace has it. */
  lemma ObtainedKeysAreBasenames<N>(float: string -> Option<N>, runs: seq<Run>, k: string)
    requires Collect(RunOutcomes(float, runs)).Ok?
    ensures k in Collect(RunOutcomes(float, runs)).value.entries <==>
            exists i :: 0 <= i < |runs| && Basename(runs[i].0) == k
  {
    var outs := RunOutcomes(float, runs);
    CollectKeys(outs);
    CollectValid(outs);
    if k in Keys(outs) {
      var i :| 0 <= i < |outs| && Keys(outs)[i] == k;
      assert Basename(runs[i].0) == k;
    }
  }

  /** With K traces of distinct base names and no failure, the table has K
      entries, one per base name, in submission order. */
  lemma CollectOnePerTrace<V>(outs: seq<(string, Result<V>)>)
    requires Collect(outs).Ok?
    requires forall i, j :: 0 <= i < j < |outs| ==> outs[i].0 != outs[j].0
    ensures Collect(outs).value.keys == Keys(outs)
    ensures |Collect(outs).value.keys| == |outs|
  {
    CollectKeys(outs);
    FirstOccurrencesOfDistinct(Keys(outs));
  }

  /** The last outcome of a successful collection is stored on top of the
      table built from the others. */
  lemma CollectLast<V>(outs: seq<(string, Result<V>)>)
    requires outs != [] && Collect(outs).Ok?
    ensures Collect(outs[..|outs| - 1]).Ok? && outs[|outs| - 1].1.Ok?
    ensures Collect(outs).value == Insert(Collect(outs[..|outs| - 1]).value, outs[|outs| - 1].0,
                                          outs[|outs| - 1].1.value)
  {
  }

  /** Runs that share a base name overwrite each other: the entry is the
      record of the last of them. */
  lemma {:induction false} CollectLastWins<V>(outs: seq<(string, Result<V>)>, k: string, i: nat)
    requires Collect(outs).Ok?
    requires IsLast(Keys(outs), k, i)
    ensures outs[i].1.Ok? && k in Collect(outs).value.entries
    ensures Collect(outs).value.entries[k] == outs[i].1.value
    decreases |outs|
  {
    var n := |outs| - 1;
    CollectOk(outs);
    assert outs[i].1.Ok?;
    CollectLast(outs);
    var t := Collect(outs[..n]).value;
    var b, v := outs[n].0, outs[n].1.value;
    var whole := Collect(outs).value;
    assert whole == Insert(t, b, v);
    if i < n {
      var names := Keys(outs);
      assert names[n] == b;
      var pre := Keys(outs[..n]);
      assert pre == names[..n];
      assert IsLast(pre, k, i) by {
        forall j | i < j < n ensures pre[j] != k {
          assert pre[j] == names[j];
        }
      }
      CollectLastWins(outs[..n], k, i);
      assert outs[..n][i] == outs[i];
      assert Get(whole, k) == Get(t, k) == Ok(outs[i].1.value);
    } else {
      assert Keys(outs)[n] == b == k;
      assert Get(whole, k) == Ok(v);
    }
  }

  /** Traces with the same base name overwrite each other: the entry holds
      the record of the last one submitted. */
  lemma LatestRunWins<N>(float: string -> Option<N>, runs: seq<Run>, i: nat)
    requires Collect(RunOutcomes(float, runs)).Ok?
    requires i < |runs|
    requires forall j :: i < j < |runs| ==> Basename(runs[j].0) != Basename(runs[i].0)
    ensures RunRecord(float, runs[i]).Ok? && Basename(runs[i].0) in Collect(RunOutcomes(float, runs)).value.entries
    ensures Collect(RunOutcomes(float, runs)).value.entries[Basename(runs[i].0)] == RunRecord(float, runs[i]).value
  {
    var outs := RunOutcomes(float, runs);
    var k := Basename(runs[i].0);
    assert IsLast(Keys(outs), k, i);
    CollectLastWins(outs, k, i);
  }
}
