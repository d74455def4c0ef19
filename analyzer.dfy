/** The OpenMP benchmark driver analyzer.py: run_program's command line,
    the thread sweep that keeps a (threads, time) record for every run that
    printed a time, and the speedup list computed against the first record.
    The program's standard output for each run is a parameter. */
module Analyzer {
  import opened Wrappers
  import opened OutputParse
  import Numerals

  const Program := "./main"
  const UseFilesFlag := "--use-files"

  /** The command list of run_program (lines 27-29). */
  method BuildCommand(useFiles: bool) returns (command: seq<string>)
    ensures |command| == (if useFiles then 2 else 1) && command[0] == Program
    ensures UseFilesFlag in command <==> useFiles
  {
    command := [Program];
    if useFiles {
      command := command + [UseFilesFlag];
    }
  }

  /** run_program (lines 25-41): the OMP_NUM_THREADS value it exports, the
      command it runs, and what it reads from the output the command
      printed. */
  method RunProgram(threads: int, useFiles: bool, stdout: string)
    returns (ompNumThreads: string, command: seq<string>, r: Result<Fields, PyError>)
    ensures ompNumThreads == Numerals.PyStr(threads)
    ensures |command| == (if useFiles then 2 else 1) && command[0] == Program
    ensures UseFilesFlag in command <==> useFiles
    ensures r == RunFields(stdout)
  {
    ompNumThreads := Numerals.PyStr(threads);
    command := BuildCommand(useFiles);
    r := ParseRunOutput(stdout);
  }

  // ---------------------------------------------------------------------
  // The sweep over thread counts (lines 66-81)

  /** An entry of `results`. */
  datatype Record = Record(threads: int, time: string)

  /** What the sweep reads from one run's output: the first line carrying
      "Execution Time" decides. */
  function SweepTime(stdout: string): Result<Option<string>, PyError>
  {
    ValueOf(FirstMatching(Lines(stdout), TimeLabel))
  }

  /** The run printed a time the sweep could read. */
  predicate Timed(stdout: string)
  {
    SweepTime(stdout).Success? && SweepTime(stdout).value.Some?
  }

  /** The sweep over the runs, one output per thread count; an IndexError
      ends the script. */
  function Sweep(threadCounts: seq<int>, outputs: seq<string>): Result<seq<Record>, PyError>
    requires |outputs| == |threadCounts|
  {
    if |threadCounts| == 0 then Success([])
    else
      var n := |threadCounts| - 1;
      match Sweep(threadCounts[..n], outputs[..n])
      case Failure(e) => Failure(e)
      case Success(rs) =>
        match SweepTime(outputs[n])
        case Failure(e) => Failure(e)
        case Success(None) => Success(rs)
        case Success(Some(t)) => Success(rs + [Record(threadCounts[n], t)])
  }

  /** Once the sweep has failed, later runs do not matter. */
  lemma {:induction false} SweepFailureStays(threadCounts: seq<int>, outputs: seq<string>, k: nat)
    requires |outputs| == |threadCounts| && k <= |threadCounts|
    requires Sweep(threadCounts[..k], outputs[..k]).Failure?
    ensures Sweep(threadCounts, outputs) == Sweep(threadCounts[..k], outputs[..k])
    decreases |threadCounts| - k
  {
    if k < |threadCounts| {
      var n := |threadCounts| - 1;
      assert threadCounts[..n][..k] == threadCounts[..k];
      assert outputs[..n][..k] == outputs[..k];
      SweepFailureStays(threadCounts[..n], outputs[..n], k);
    } else {
      assert threadCounts[..k] == threadCounts;
      assert outputs[..k] == outputs;
    }
  }

  /** Lines 66-81: one run per thread count, a record appended for each run
      whose time was read. */
  method ThreadSweep(threadCounts: seq<int>, outputs: seq<string>) returns (r: Result<seq<Record>, PyError>)
    requires |outputs| == |threadCounts|
    ensures r == Sweep(threadCounts, outputs)
  {
    var results: seq<Record> := [];
    var k := 0;
    while k < |threadCounts|
      invariant 0 <= k <= |threadCounts|
      invariant Sweep(threadCounts[..k], outputs[..k]) == Success(results)
    {
      var executionTime := FirstExecutionTime(outputs[k]);
      assert threadCounts[..k + 1][..k] == threadCounts[..k];
      assert outputs[..k + 1][..k] == outputs[..k];
      if executionTime.Failure? {
        SweepFailureStays(threadCounts, outputs, k + 1);
        return Failure(executionTime.error);
      }
      if executionTime.value.Some? {
        results := results + [Record(threadCounts[k], executionTime.value.value)];
      }
      k := k + 1;
    }
    assert threadCounts[..k] == threadCounts;
    assert outputs[..k] == outputs;
    r := Success(results);
  }

  /** The indices of the runs that printed a time, in run order. */
  function TimedRuns(outputs: seq<string>): (idx: seq<int>)
    ensures forall k :: 0 <= k < |idx| ==> 0 <= idx[k] < |outputs| && Timed(outputs[idx[k]])
  {
    if |outputs| == 0 then []
    else
      var n := |outputs| - 1;
      TimedRuns(outputs[..n]) + (if Timed(outputs[n]) then [n] else [])
  }

  /** TimedRuns is in increasing order. */
  lemma {:induction false} TimedRunsIncreasing(outputs: seq<string>)
    ensures forall k1, k2 :: 0 <= k1 < k2 < |TimedRuns(outputs)| ==> TimedRuns(outputs)[k1] < TimedRuns(outputs)[k2]
  {
    if |outputs| > 0 {
      var n := |outputs| - 1;
      TimedRunsIncreasing(outputs[..n]);
    }
  }

  /** TimedRuns lists every timed run, and only those. */
  lemma {:induction false} TimedRunsExactly(outputs: seq<string>)
    ensures forall i :: 0 <= i < |outputs| ==> (i in TimedRuns(outputs) <==> Timed(outputs[i]))
  {
    if |outputs| > 0 {
      var n := |outputs| - 1;
      var init := outputs[..n];
      TimedRunsExactly(init);
      forall i | 0 <= i < |outputs|
        ensures i in TimedRuns(outputs) <==> Timed(outputs[i])
      {
        if i < n {
          assert init[i] == outputs[i];
          assert i in TimedRuns(outputs) <==> i in TimedRuns(init);
        }
      }
    }
  }

  /** The sweep succeeds exactly when no run's time line lacks a ':'. */
  lemma {:induction false} SweepSucceeds(threadCounts: seq<int>, outputs: seq<string>)
    requires |outputs| == |threadCounts|
    ensures Sweep(threadCounts, outputs).Success? <==> forall i :: 0 <= i < |outputs| ==> SweepTime(outputs[i]).Success?
  {
    if |threadCounts| > 0 {
      var n := |threadCounts| - 1;
      SweepSucceeds(threadCounts[..n], outputs[..n]);
      assert forall i :: 0 <= i < n ==> outputs[..n][i] == outputs[i];
    }
  }

  /** The records are those of the timed runs, in thread_counts order. */
  lemma {:induction false} SweepRecords(threadCounts: seq<int>, outputs: seq<string>)
    requires |outputs| == |threadCounts| && Sweep(threadCounts, outputs).Success?
    ensures var rs, idx := Sweep(threadCounts, outputs).value, TimedRuns(outputs);
      && |rs| == |idx|
      && forall k :: 0 <= k < |rs| ==> rs[k] == Record(threadCounts[idx[k]], SweepTime(outputs[idx[k]]).value.value)
  {
    if |threadCounts| > 0 {
      var n := |threadCounts| - 1;
      SweepRecords(threadCounts[..n], outputs[..n]);
      assert forall i :: 0 <= i < n ==> outputs[..n][i] == outputs[i] && threadCounts[..n][i] == threadCounts[i];
    }
  }

  /** Run i is the first run that printed a time. */
  predicate FirstTimed(outputs: seq<string>, i: int)
  {
    0 <= i < |outputs| && Timed(outputs[i]) && forall j :: 0 <= j < i ==> !Timed(outputs[j])
  }

  /** The baseline of the speedups, the first record, comes from the first
      run that printed a time, whichever thread count that was. */
  lemma BaselineIsFirstTimedRun(threadCounts: seq<int>, outputs: seq<string>, i: int)
    requires |outputs| == |threadCounts| && Sweep(threadCounts, outputs).Success?
    requires FirstTimed(outputs, i)
    ensures |Sweep(threadCounts, outputs).value| > 0
    ensures Sweep(threadCounts, outputs).value[0] == Record(threadCounts[i], SweepTime(outputs[i]).value.value)
  {
    var idx := TimedRuns(outputs);
    SweepRecords(threadCounts, outputs);
    TimedRunsExactly(outputs);
    assert i in idx;
    TimedRunsIncreasing(outputs);
    var k :| 0 <= k < |idx| && idx[k] == i;
  }

  /** No run printed a time exactly when there are no records. */
  lemma NoRecords(threadCounts: seq<int>, outputs: seq<string>)
    requires |outputs| == |threadCounts| && Sweep(threadCounts, outputs).Success?
    ensures |Sweep(threadCounts, outputs).value| == 0 <==> forall i :: 0 <= i < |outputs| ==> !Timed(outputs[i])
  {
    SweepRecords(threadCounts, outputs);
    TimedRunsExactly(outputs);
  }

  /** With thread_counts starting at 1 and without repeats, the baseline is
      the 1-thread run exactly when that run printed a time. */
  lemma BaselineIsOneThread(threadCounts: seq<int>, outputs: seq<string>)
    requires |outputs| == |threadCounts| && Sweep(threadCounts, outputs).Success?
    requires |threadCounts| > 0 && threadCounts[0] == 1
    requires forall i, j :: 0 <= i < j < |threadCounts| ==> threadCounts[i] != threadCounts[j]
    requires |Sweep(threadCounts, outputs).value| > 0
    ensures Sweep(threadCounts, outputs).value[0].threads == 1 <==> Timed(outputs[0])
  {
    var rs := Sweep(threadCounts, outputs).value;
    var idx := TimedRuns(outputs);
    SweepRecords(threadCounts, outputs);
    TimedRunsExactly(outputs);
    TimedRunsIncreasing(outputs);
    assert rs[0].threads == threadCounts[idx[0]];
    if Timed(outputs[0]) {
      assert 0 in idx;
      var k :| 0 <= k < |idx| && idx[k] == 0;
      assert idx[0] <= idx[k];
    } else {
      assert idx[0] != 0;
    }
  }

  // ---------------------------------------------------------------------
  // The speedup list (lines 83-89)

  /** threads, times = zip(*results) and the speedups against times[0]. */
  datatype Table = Table(threads: seq<int>, times: seq<string>, speedups: seq<Ratio>)

  /** Lines 83-89: None when there are no records (the script exits);
      otherwise the two columns of results and, in the same order, every
      time divided into the first one. */
  method SpeedupTable(results: seq<Record>) returns (r: Option<Table>)
    ensures r.None? <==> |results| == 0
    ensures r.Some? ==> |r.value.threads| == |r.value.times| == |r.value.speedups| == |results|
    ensures r.Some? ==> forall k :: 0 <= k < |results| ==>
      && r.value.threads[k] == results[k].threads
      && r.value.times[k] == results[k].time
      && r.value.speedups[k] == Ratio(results[0].time, results[k].time)
  {
    if |results| == 0 {
      return None;
    }
    var threads: seq<int> := [];
    var times: seq<string> := [];
    var k := 0;
    while k < |results|
      invariant 0 <= k <= |results| && |threads| == |times| == k
      invariant forall i :: 0 <= i < k ==> threads[i] == results[i].threads && times[i] == results[i].time
    {
      threads := threads + [results[k].threads];
      times := times + [results[k].time];
      k := k + 1;
    }
    var sequentialTime := times[0];
    var speedups: seq<Ratio> := [];
    k := 0;
    while k < |times|
      invariant 0 <= k <= |times| && |speedups| == k
      invariant forall i :: 0 <= i < k ==> speedups[i] == Ratio(sequentialTime, times[i])
    {
      speedups := speedups + [Ratio(sequentialTime, times[k])];
      k := k + 1;
    }
    r := Some(Table(threads, times, speedups));
  }
}
