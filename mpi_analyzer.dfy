/** The MPI benchmark driver MPI_solution/analyzer.py: run_program's
    mpirun command line, the sweep that fills execution_times[size][threads]
    for every run that printed a time, and the speedup tables looked up from
    it. The program's standard output for each run and the text of
    time.time() are parameters. */
module MpiAnalyzer {
  import opened Wrappers
  import opened OutputParse
  import Numerals
  import Args

  const Launcher := "mpirun"
  const ProcessCountFlag := "--np"
  const Program := "./mpi_matrix"
  const FixedSeed := 532556
  const DefaultUseRandom := 42

  /** Python truthiness of an int. */
  predicate Truthy(v: int)
  {
    v != 0
  }

  /** The seed argument: the clock's text when use_random is truthy, and
      str(fixed_seed) otherwise. */
  function SeedArgument(useRandom: int, now: string): string
  {
    if Truthy(useRandom) then now else Numerals.PyStr(FixedSeed)
  }

  /** The command of run_program (lines 18-22). */
  function Command(threads: int, size: int, useRandom: int, now: string): seq<string>
  {
    [Launcher, ProcessCountFlag, Numerals.PyStr(threads), Program,
     Args.SizeFlag, Numerals.PyStr(size), Args.SeedFlag, SeedArgument(useRandom, now)]
  }

  /** run_program (lines 17-34): the command list built by append, and what
      the parse loop reads from the output the command printed. */
  method RunProgram(threads: int, size: int, useRandom: int, now: string, stdout: string)
    returns (command: seq<string>, r: Result<Fields, PyError>)
    ensures command == Command(threads, size, useRandom, now)
    ensures r == RunFields(stdout)
  {
    command := [Launcher, ProcessCountFlag, Numerals.PyStr(threads), Program,
                Args.SizeFlag, Numerals.PyStr(size), Args.SeedFlag];
    if Truthy(useRandom) {
      command := command + [now];
    } else {
      command := command + [Numerals.PyStr(FixedSeed)];
    }
    r := ParseRunOutput(stdout);
  }

  /** The scan of main2.cpp over "--size a --seed b". */
  lemma ScanSizeThenSeed(a: string, b: string, st: Args.Settings)
    ensures Args.Scan([Args.SizeFlag, a, Args.SeedFlag, b], st) == Args.Settings(Numerals.Atoi(a), Numerals.Atoi(b))
  {
    var args := [Args.SizeFlag, a, Args.SeedFlag, b];
    var rest := [Args.SeedFlag, b];
    assert args[2..] == rest && rest[2..] == [];
    assert Args.SeedFlag != Args.SizeFlag by {
      assert Args.SeedFlag[3] != Args.SizeFlag[3];
    }
    var sized := st.(n := Numerals.Atoi(a));
    assert Args.Scan(rest, sized) == Args.Scan([], sized.(seed := Numerals.Atoi(b)));
    assert Args.Scan(args, st) == Args.Scan(rest, sized);
  }

  /** main2.cpp started as "prog --size a --seed b" reads n from a and the
      seed from b. */
  lemma ParsedSizeThenSeed(prog: string, a: string, b: string)
    ensures Args.Parsed([prog, Args.SizeFlag, a, Args.SeedFlag, b]) == Args.Settings(Numerals.Atoi(a), Numerals.Atoi(b))
  {
    var argv := [prog, Args.SizeFlag, a, Args.SeedFlag, b];
    assert argv[1..] == [Args.SizeFlag, a, Args.SeedFlag, b];
    ScanSizeThenSeed(a, b, Args.Initial(argv));
  }

  /** The seed main2.cpp reads from the seed argument. */
  lemma SeedArgumentValue(useRandom: int, now: string)
    ensures Numerals.Atoi(SeedArgument(useRandom, now)) == if Truthy(useRandom) then Numerals.Atoi(now) else FixedSeed
  {
    Numerals.AtoiOfPyStr(FixedSeed);
  }

  /** mpirun starts the program with the arguments from the program name
      on; main2.cpp then reads the requested size and the seed: the
      clock's digits when use_random is truthy, fixed_seed otherwise. */
  lemma ProgramSeesSettings(threads: int, size: int, useRandom: int, now: string)
    ensures Command(threads, size, useRandom, now)[3] == Program
    ensures Args.Parsed(Command(threads, size, useRandom, now)[3..])
      == Args.Settings(size, if Truthy(useRandom) then Numerals.Atoi(now) else FixedSeed)
  {
    var seed := SeedArgument(useRandom, now);
    assert Command(threads, size, useRandom, now)[3..] == [Program, Args.SizeFlag, Numerals.PyStr(size), Args.SeedFlag, seed];
    ParsedSizeThenSeed(Program, Numerals.PyStr(size), seed);
    Numerals.AtoiOfPyStr(size);
    SeedArgumentValue(useRandom, now);
  }

  /** A call without use_random gets the time-based seed. */
  lemma DefaultSeedIsClock(threads: int, size: int, now: string)
    ensures Truthy(DefaultUseRandom)
    ensures Args.Parsed(Command(threads, size, DefaultUseRandom, now)[3..]) == Args.Settings(size, Numerals.Atoi(now))
  {
    ProgramSeesSettings(threads, size, DefaultUseRandom, now);
  }

  // ---------------------------------------------------------------------
  // execution_times (lines 56-68)

  /** What run_program returns as execution_time for one run, or the
      IndexError its parse loop raises. */
  type RunTime = Result<Option<string>, PyError>

  /** The execution time run_program returns for a run's output. */
  function TimeOfRun(stdout: string): RunTime
  {
    match RunFields(stdout)
    case Failure(e) => Failure(e)
    case Success(f) => Success(f.executionTime)
  }

  /** The run printed a time. */
  predicate Timed(run: RunTime)
  {
    run.Success? && run.value.Some?
  }

  /** The runs of one size, read. */
  function SizeRuns(outputs: seq<string>): (runs: seq<RunTime>)
    ensures |runs| == |outputs|
  {
    seq(|outputs|, j requires 0 <= j < |outputs| => TimeOfRun(outputs[j]))
  }

  /** All runs, read, sizes outermost. */
  function GridTimes(outputs: seq<seq<string>>): (runs: seq<seq<RunTime>>)
    ensures |runs| == |outputs|
  {
    seq(|outputs|, i requires 0 <= i < |outputs| => SizeRuns(outputs[i]))
  }

  /** {size: {} for size in array_sizes} (line 56). */
  function EmptyTimes(sizes: seq<int>): map<int, map<int, string>>
  {
    map s | s in sizes :: map[]
  }

  /** One run per (size, thread count), sizes outermost. */
  predicate Shaped<T>(sizes: seq<int>, threadCounts: seq<int>, runs: seq<seq<T>>)
  {
    |runs| == |sizes| && forall i :: 0 <= i < |runs| ==> |runs[i]| == |threadCounts|
  }

  /** The inner loop (lines 60-68) over the dict of one size. */
  function FillRow(row: map<int, string>, threadCounts: seq<int>, runs: seq<RunTime>): Result<map<int, string>, PyError>
    requires |runs| == |threadCounts|
  {
    if |threadCounts| == 0 then Success(row)
    else
      var n := |threadCounts| - 1;
      match FillRow(row, threadCounts[..n], runs[..n])
      case Failure(e) => Failure(e)
      case Success(m) =>
        match runs[n]
        case Failure(e) => Failure(e)
        case Success(None) => Success(m)
        case Success(Some(t)) => Success(m[threadCounts[n] := t])
  }

  /** One pass of the outer loop: the dict of size is filled in place. */
  function FillSizeOf(times: map<int, map<int, string>>, size: int, threadCounts: seq<int>, runs: seq<RunTime>)
    : (r: Result<map<int, map<int, string>>, PyError>)
    requires |runs| == |threadCounts| && size in times
    ensures r.Success? ==> r.value.Keys == times.Keys
  {
    match FillRow(times[size], threadCounts, runs)
    case Failure(e) => Failure(e)
    case Success(row) => Success(times[size := row])
  }

  /** The outer loop (lines 59-68); it only touches dicts of sizes already
      present. */
  function FillGrid(times: map<int, map<int, string>>, sizes: seq<int>, threadCounts: seq<int>, runs: seq<seq<RunTime>>)
    : (r: Result<map<int, map<int, string>>, PyError>)
    requires Shaped(sizes, threadCounts, runs)
    requires forall i :: 0 <= i < |sizes| ==> sizes[i] in times
    ensures r.Success? ==> r.value.Keys == times.Keys
  {
    if |sizes| == 0 then Success(times)
    else
      var n := |sizes| - 1;
      match FillGrid(times, sizes[..n], threadCounts, runs[..n])
      case Failure(e) => Failure(e)
      case Success(g) => FillSizeOf(g, sizes[n], threadCounts, runs[n])
  }

  /** What the sweep leaves in execution_times, given each run's output. */
  function Sweep(sizes: seq<int>, threadCounts: seq<int>, outputs: seq<seq<string>>): Result<map<int, map<int, string>>, PyError>
    requires Shaped(sizes, threadCounts, outputs)
  {
    FillGrid(EmptyTimes(sizes), sizes, threadCounts, GridTimes(outputs))
  }

  lemma {:induction false} RowFailureStays(row: map<int, string>, threadCounts: seq<int>, runs: seq<RunTime>, k: nat)
    requires |runs| == |threadCounts| && k <= |threadCounts|
    requires FillRow(row, threadCounts[..k], runs[..k]).Failure?
    ensures FillRow(row, threadCounts, runs) == FillRow(row, threadCounts[..k], runs[..k])
    decreases |threadCounts| - k
  {
    if k < |threadCounts| {
      var n := |threadCounts| - 1;
      assert threadCounts[..n][..k] == threadCounts[..k];
      assert runs[..n][..k] == runs[..k];
      RowFailureStays(row, threadCounts[..n], runs[..n], k);
    } else {
      assert threadCounts[..k] == threadCounts;
      assert runs[..k] == runs;
    }
  }

  lemma {:induction false} GridFailureStays(times: map<int, map<int, string>>, sizes: seq<int>, threadCounts: seq<int>, runs: seq<seq<RunTime>>, k: nat)
    requires Shaped(sizes, threadCounts, runs) && k <= |sizes|
    requires forall i :: 0 <= i < |sizes| ==> sizes[i] in times
    requires FillGrid(times, sizes[..k], threadCounts, runs[..k]).Failure?
    ensures FillGrid(times, sizes, threadCounts, runs) == FillGrid(times, sizes[..k], threadCounts, runs[..k])
    decreases |sizes| - k
  {
    if k < |sizes| {
      var n := |sizes| - 1;
      assert sizes[..n][..k] == sizes[..k];
      assert runs[..n][..k] == runs[..k];
      GridFailureStays(times, sizes[..n], threadCounts, runs[..n], k);
    } else {
      assert sizes[..k] == sizes;
      assert runs[..k] == runs;
    }
  }

  /** One more pass of the inner loop, after the first j succeeded with m. */
  lemma RowStep(row: map<int, string>, threadCounts: seq<int>, runs: seq<RunTime>, j: int, m: map<int, string>)
    requires |runs| == |threadCounts| && 0 <= j < |threadCounts|
    requires FillRow(row, threadCounts[..j], runs[..j]) == Success(m)
    ensures FillRow(row, threadCounts[..j + 1], runs[..j + 1])
      == if runs[j].Failure? then Failure(runs[j].error)
         else if runs[j].value.None? then Success(m)
         else Success(m[threadCounts[j] := runs[j].value.value])
  {
    assert threadCounts[..j + 1][..j] == threadCounts[..j];
    assert runs[..j + 1][..j] == runs[..j];
  }

  /** The inner loop of lines 60-68 for one size: execution_times[size] is
      updated in place for every run that printed a time. */
  method FillSize(executionTimes: map<int, map<int, string>>, size: int, threadCounts: seq<int>, outputs: seq<string>)
    returns (r: Result<map<int, map<int, string>>, PyError>)
    requires |outputs| == |threadCounts| && size in executionTimes
    ensures r == FillSizeOf(executionTimes, size, threadCounts, SizeRuns(outputs))
  {
    var runs := SizeRuns(outputs);
    var times := executionTimes;
    var j := 0;
    while j < |threadCounts|
      invariant 0 <= j <= |threadCounts| && size in times
      invariant FillRow(executionTimes[size], threadCounts[..j], runs[..j]) == Success(times[size])
      invariant times == executionTimes[size := times[size]]
    {
      var run := ParseRunOutput(outputs[j]);
      assert runs[j] == TimeOfRun(outputs[j]);
      RowStep(executionTimes[size], threadCounts, runs, j, times[size]);
      if run.Failure? {
        RowFailureStays(executionTimes[size], threadCounts, runs, j + 1);
        return Failure(run.error);
      }
      if run.value.executionTime.Some? {
        times := times[size := times[size][threadCounts[j] := run.value.executionTime.value]];
      }
      j := j + 1;
    }
    assert threadCounts[..j] == threadCounts;
    assert runs[..j] == runs;
    r := Success(times);
  }

  /** One more pass of the outer loop, after the first i succeeded with g. */
  lemma GridStep(times: map<int, map<int, string>>, sizes: seq<int>, threadCounts: seq<int>, runs: seq<seq<RunTime>>,
                 i: int, g: map<int, map<int, string>>)
    requires Shaped(sizes, threadCounts, runs) && 0 <= i < |sizes|
    requires forall k :: 0 <= k < |sizes| ==> sizes[k] in times
    requires FillGrid(times, sizes[..i], threadCounts, runs[..i]) == Success(g)
    ensures sizes[i] in g
    ensures FillGrid(times, sizes[..i + 1], threadCounts, runs[..i + 1]) == FillSizeOf(g, sizes[i], threadCounts, runs[i])
  {
    assert sizes[..i + 1][..i] == sizes[..i];
    assert runs[..i + 1][..i] == runs[..i];
  }

  /** Lines 56-68: execution_times starts with an empty dict per size and
      the nested loops fill it. */
  method SweepSizes(sizes: seq<int>, threadCounts: seq<int>, outputs: seq<seq<string>>)
    returns (r: Result<map<int, map<int, string>>, PyError>)
    requires Shaped(sizes, threadCounts, outputs)
    ensures r == Sweep(sizes, threadCounts, outputs)
  {
    var runs := GridTimes(outputs);
    var executionTimes := EmptyTimes(sizes);
    var i := 0;
    while i < |sizes|
      invariant 0 <= i <= |sizes|
      invariant FillGrid(EmptyTimes(sizes), sizes[..i], threadCounts, runs[..i]) == Success(executionTimes)
    {
      GridStep(EmptyTimes(sizes), sizes, threadCounts, runs, i, executionTimes);
      var next := FillSize(executionTimes, sizes[i], threadCounts, outputs[i]);
      if next.Failure? {
        GridFailureStays(EmptyTimes(sizes), sizes, threadCounts, runs, i + 1);
        return next;
      }
      executionTimes := next.value;
      i := i + 1;
    }
    assert sizes[..i] == sizes;
    assert runs[..i] == runs;
    r := Success(executionTimes);
  }

  /** Thread counts without repeats (and likewise sizes). */
  predicate Distinct(xs: seq<int>)
  {
    forall i, j :: 0 <= i < j < |xs| ==> xs[i] != xs[j]
  }

  /** Some run of one size with thread count t printed a time. */
  predicate RowRanWithTime(threadCounts: seq<int>, runs: seq<RunTime>, t: int)
    requires |runs| == |threadCounts|
  {
    exists j :: 0 <= j < |threadCounts| && threadCounts[j] == t && Timed(runs[j])
  }

  /** Some run with size s and thread count t printed a time. */
  predicate RanWithTime(sizes: seq<int>, threadCounts: seq<int>, runs: seq<seq<RunTime>>, s: int, t: int)
    requires Shaped(sizes, threadCounts, runs)
  {
    exists i :: 0 <= i < |sizes| && sizes[i] == s && RowRanWithTime(threadCounts, runs[i], t)
  }

  /** The inner loop fails exactly when some run's labelled line has no ':'. */
  lemma {:induction false} FillRowSucceeds(row: map<int, string>, threadCounts: seq<int>, runs: seq<RunTime>)
    requires |runs| == |threadCounts|
    ensures FillRow(row, threadCounts, runs).Success? <==> forall j :: 0 <= j < |runs| ==> runs[j].Success?
  {
    if |threadCounts| > 0 {
      var n := |threadCounts| - 1;
      FillRowSucceeds(row, threadCounts[..n], runs[..n]);
      assert forall j :: 0 <= j < n ==> runs[..n][j] == runs[j];
    }
  }

  /** The inner loop adds exactly the thread counts of the timed runs. */
  lemma {:induction false} FillRowEntries(row: map<int, string>, threadCounts: seq<int>, runs: seq<RunTime>)
    requires |runs| == |threadCounts| && FillRow(row, threadCounts, runs).Success?
    ensures forall t :: t in FillRow(row, threadCounts, runs).value <==> t in row || RowRanWithTime(threadCounts, runs, t)
  {
    if |threadCounts| > 0 {
      var n := |threadCounts| - 1;
      var tc, rs := threadCounts[..n], runs[..n];
      FillRowEntries(row, tc, rs);
      forall t
        ensures RowRanWithTime(threadCounts, runs, t) <==> RowRanWithTime(tc, rs, t) || (threadCounts[n] == t && Timed(runs[n]))
      {
        if RowRanWithTime(threadCounts, runs, t) {
          var j :| 0 <= j < |threadCounts| && threadCounts[j] == t && Timed(runs[j]);
          if j < n {
            assert tc[j] == t && rs[j] == runs[j];
          }
        }
        if RowRanWithTime(tc, rs, t) {
          var j :| 0 <= j < |tc| && tc[j] == t && Timed(rs[j]);
          assert threadCounts[j] == t && runs[j] == rs[j];
        }
      }
    }
  }

  /** With no repeated thread count, the entry of a timed run holds its
      time. */
  lemma {:induction false} FillRowValue(row: map<int, string>, threadCounts: seq<int>, runs: seq<RunTime>, j: int)
    requires |runs| == |threadCounts| && FillRow(row, threadCounts, runs).Success?
    requires Distinct(threadCounts) && 0 <= j < |threadCounts| && Timed(runs[j])
    ensures threadCounts[j] in FillRow(row, threadCounts, runs).value
    ensures FillRow(row, threadCounts, runs).value[threadCounts[j]] == runs[j].value.value
  {
    var n := |threadCounts| - 1;
    if j < n {
      var tc, rs := threadCounts[..n], runs[..n];
      assert tc[j] == threadCounts[j] && rs[j] == runs[j];
      FillRowValue(row, tc, rs, j);
    }
  }

  /** The outer loop fails exactly when some run's labelled line has no
      ':'. */
  lemma {:induction false} FillGridSucceeds(times: map<int, map<int, string>>, sizes: seq<int>, threadCounts: seq<int>, runs: seq<seq<RunTime>>)
    requires Shaped(sizes, threadCounts, runs)
    requires forall i :: 0 <= i < |sizes| ==> sizes[i] in times
    ensures FillGrid(times, sizes, threadCounts, runs).Success?
      <==> forall i, j :: 0 <= i < |sizes| && 0 <= j < |threadCounts| ==> runs[i][j].Success?
  {
    if |sizes| > 0 {
      var n := |sizes| - 1;
      FillGridSucceeds(times, sizes[..n], threadCounts, runs[..n]);
      assert forall i :: 0 <= i < n ==> runs[..n][i] == runs[i];
      match FillGrid(times, sizes[..n], threadCounts, runs[..n])
      case Failure(_) =>
      case Success(g) =>
        FillRowSucceeds(g[sizes[n]], threadCounts, runs[n]);
    }
  }

  /** A timed run of (s, t) is one of the sizes before the last, or one of
      the last size. */
  lemma RanWithTimeLast(sizes: seq<int>, threadCounts: seq<int>, runs: seq<seq<RunTime>>, s: int, t: int)
    requires Shaped(sizes, threadCounts, runs) && |sizes| > 0
    ensures var n := |sizes| - 1;
      RanWithTime(sizes, threadCounts, runs, s, t)
      <==> RanWithTime(sizes[..n], threadCounts, runs[..n], s, t) || (sizes[n] == s && RowRanWithTime(threadCounts, runs[n], t))
  {
    var n := |sizes| - 1;
    var sz, rs := sizes[..n], runs[..n];
    if RanWithTime(sizes, threadCounts, runs, s, t) {
      var i :| 0 <= i < |sizes| && sizes[i] == s && RowRanWithTime(threadCounts, runs[i], t);
      if i < n {
        assert sz[i] == s && rs[i] == runs[i];
      }
    }
    if RanWithTime(sz, threadCounts, rs, s, t) {
      var i :| 0 <= i < |sz| && sz[i] == s && RowRanWithTime(threadCounts, rs[i], t);
      assert sizes[i] == s && runs[i] == rs[i];
    }
  }

  /** After the outer loop, the dict of each size holds what it held before
      plus the thread counts of the timed runs of that size. */
  lemma {:induction false} FillGridEntries(times: map<int, map<int, string>>, sizes: seq<int>, threadCounts: seq<int>, runs: seq<seq<RunTime>>)
    requires Shaped(sizes, threadCounts, runs)
    requires forall i :: 0 <= i < |sizes| ==> sizes[i] in times
    requires FillGrid(times, sizes, threadCounts, runs).Success?
    ensures var g := FillGrid(times, sizes, threadCounts, runs).value;
      forall s, t :: s in g ==> (t in g[s] <==> t in times[s] || RanWithTime(sizes, threadCounts, runs, s, t))
  {
    if |sizes| > 0 {
      var n := |sizes| - 1;
      var sz, rs := sizes[..n], runs[..n];
      var g := FillGrid(times, sz, threadCounts, rs).value;
      var gn := FillGrid(times, sizes, threadCounts, runs).value;
      FillGridEntries(times, sz, threadCounts, rs);
      FillRowEntries(g[sizes[n]], threadCounts, runs[n]);
      forall s, t | s in gn
        ensures t in gn[s] <==> t in times[s] || RanWithTime(sizes, threadCounts, runs, s, t)
      {
        RanWithTimeLast(sizes, threadCounts, runs, s, t);
      }
    }
  }

  /** With no repeated size or thread count, the entry of a timed run holds
      its time. */
  lemma {:induction false} FillGridValue(times: map<int, map<int, string>>, sizes: seq<int>, threadCounts: seq<int>, runs: seq<seq<RunTime>>, i: int, j: int)
    requires Shaped(sizes, threadCounts, runs)
    requires forall k :: 0 <= k < |sizes| ==> sizes[k] in times
    requires FillGrid(times, sizes, threadCounts, runs).Success?
    requires Distinct(sizes) && Distinct(threadCounts)
    requires 0 <= i < |sizes| && 0 <= j < |threadCounts| && Timed(runs[i][j])
    ensures var g := FillGrid(times, sizes, threadCounts, runs).value;
      sizes[i] in g && threadCounts[j] in g[sizes[i]] && g[sizes[i]][threadCounts[j]] == runs[i][j].value.value
  {
    var n := |sizes| - 1;
    var sz, rs := sizes[..n], runs[..n];
    var g := FillGrid(times, sz, threadCounts, rs).value;
    if i < n {
      assert sz[i] == sizes[i] && rs[i] == runs[i];
      FillGridValue(times, sz, threadCounts, rs, i, j);
    } else {
      FillRowValue(g[sizes[n]], threadCounts, runs[n], j);
    }
  }

  /** Lines 56-68: execution_times has exactly the sizes as keys, and
      execution_times[size][threads] is defined exactly when a run with that
      size and thread count printed a time. */
  lemma SweepEntries(sizes: seq<int>, threadCounts: seq<int>, outputs: seq<seq<string>>)
    requires Shaped(sizes, threadCounts, outputs) && Sweep(sizes, threadCounts, outputs).Success?
    ensures var et := Sweep(sizes, threadCounts, outputs).value;
      && (forall s :: s in et <==> s in sizes)
      && forall s, t :: s in et ==> (t in et[s] <==> RanWithTime(sizes, threadCounts, GridTimes(outputs), s, t))
  {
    FillGridEntries(EmptyTimes(sizes), sizes, threadCounts, GridTimes(outputs));
  }

  /** The sweep ends the script with IndexError exactly when some run's
      labelled line has no ':'. */
  lemma SweepSucceeds(sizes: seq<int>, threadCounts: seq<int>, outputs: seq<seq<string>>)
    requires Shaped(sizes, threadCounts, outputs)
    ensures Sweep(sizes, threadCounts, outputs).Success?
      <==> forall i, j :: 0 <= i < |sizes| && 0 <= j < |threadCounts| ==> TimeOfRun(outputs[i][j]).Success?
  {
    var runs := GridTimes(outputs);
    FillGridSucceeds(EmptyTimes(sizes), sizes, threadCounts, runs);
    assert forall i, j :: 0 <= i < |sizes| && 0 <= j < |threadCounts| ==> runs[i][j] == TimeOfRun(outputs[i][j]);
  }

  /** With no repeated size or thread count, each entry is the time its own
      run printed. */
  lemma SweepValues(sizes: seq<int>, threadCounts: seq<int>, outputs: seq<seq<string>>, i: int, j: int)
    requires Shaped(sizes, threadCounts, outputs) && Sweep(sizes, threadCounts, outputs).Success?
    requires Distinct(sizes) && Distinct(threadCounts)
    requires 0 <= i < |sizes| && 0 <= j < |threadCounts| && Timed(TimeOfRun(outputs[i][j]))
    ensures var et := Sweep(sizes, threadCounts, outputs).value;
      sizes[i] in et && threadCounts[j] in et[sizes[i]] && et[sizes[i]][threadCounts[j]] == TimeOfRun(outputs[i][j]).value.value
  {
    var runs := GridTimes(outputs);
    assert runs[i][j] == TimeOfRun(outputs[i][j]);
    FillGridValue(EmptyTimes(sizes), sizes, threadCounts, runs, i, j);
  }

  // ---------------------------------------------------------------------
  // speedups (lines 72-76)

  /** Every lookup of lines 74 and 76 finds its key. */
  predicate Computable(executionTimes: map<int, map<int, string>>, sizes: seq<int>, threadCounts: seq<int>)
  {
    forall i :: 0 <= i < |sizes| ==> HasRow(executionTimes, sizes[i], threadCounts)
  }

  /** execution_times[size] exists and holds 1 and every thread count. */
  predicate HasRow(executionTimes: map<int, map<int, string>>, size: int, threadCounts: seq<int>)
  {
    size in executionTimes && 1 in executionTimes[size]
    && forall j :: 0 <= j < |threadCounts| ==> threadCounts[j] in executionTimes[size]
  }

  /** The entries a speedup table may hold: each divides the 1-thread time
      of its size by the time of its thread count. */
  predicate SpeedupsAgainstBaseline(speedups: map<int, map<int, Ratio>>, executionTimes: map<int, map<int, string>>, threadCounts: seq<int>)
  {
    forall s, t :: s in speedups && t in speedups[s] ==>
      && t in threadCounts && s in executionTimes && 1 in executionTimes[s] && t in executionTimes[s]
      && speedups[s][t] == Ratio(executionTimes[s][1], executionTimes[s][t])
  }

  /** Storing one more speedup against the baseline keeps the table
      against the baseline. */
  lemma StoreSpeedup(speedups: map<int, map<int, Ratio>>, executionTimes: map<int, map<int, string>>, threadCounts: seq<int>,
                     size: int, threads: int)
    requires SpeedupsAgainstBaseline(speedups, executionTimes, threadCounts)
    requires size in speedups && threads in threadCounts
    requires size in executionTimes && 1 in executionTimes[size] && threads in executionTimes[size]
    ensures SpeedupsAgainstBaseline(
      speedups[size := speedups[size][threads := Ratio(executionTimes[size][1], executionTimes[size][threads])]],
      executionTimes, threadCounts)
  {
    var row := speedups[size][threads := Ratio(executionTimes[size][1], executionTimes[size][threads])];
    var table := speedups[size := row];
    forall s, t | s in table && t in table[s]
      ensures && t in threadCounts && s in executionTimes && 1 in executionTimes[s] && t in executionTimes[s]
              && table[s][t] == Ratio(executionTimes[s][1], executionTimes[s][t])
    {
      if s != size {
        assert table[s] == speedups[s];
      } else if t != threads {
        assert table[s][t] == speedups[size][t];
      }
    }
    assert SpeedupsAgainstBaseline(table, executionTimes, threadCounts);
  }

  /** The inner loop of lines 75-76 for one size: speedups[size] gets an
      entry per thread count against the 1-thread time, or the lookup of a
      thread count without a time raises KeyError. No other size changes. */
  method FillSpeedupRow(speedups: map<int, map<int, Ratio>>, executionTimes: map<int, map<int, string>>,
                        size: int, threadCounts: seq<int>)
    returns (r: Result<map<int, map<int, Ratio>>, PyError>)
    requires size in speedups && size in executionTimes && 1 in executionTimes[size]
    requires SpeedupsAgainstBaseline(speedups, executionTimes, threadCounts)
    ensures r.Success? <==> forall j :: 0 <= j < |threadCounts| ==> threadCounts[j] in executionTimes[size]
    ensures r.Failure? ==> r.error.KeyError? && r.error.key in threadCounts && r.error.key !in executionTimes[size]
    ensures r.Failure? ==> exists j :: (0 <= j < |threadCounts| && threadCounts[j] == r.error.key
      && forall jj :: 0 <= jj < j ==> threadCounts[jj] in executionTimes[size])
    ensures r.Success? ==> forall s :: s in r.value <==> s in speedups
    ensures r.Success? ==> forall s :: s in speedups && s != size ==> r.value[s] == speedups[s]
    ensures r.Success? ==> forall j :: 0 <= j < |threadCounts| ==> threadCounts[j] in r.value[size]
    ensures r.Success? ==> SpeedupsAgainstBaseline(r.value, executionTimes, threadCounts)
  {
    var sequentialTime := executionTimes[size][1];
    var table := speedups;
    var j := 0;
    while j < |threadCounts|
      invariant 0 <= j <= |threadCounts|
      invariant forall jj :: 0 <= jj < j ==> threadCounts[jj] in executionTimes[size]
      invariant forall s :: s in table <==> s in speedups
      invariant forall s :: s in speedups && s != size ==> table[s] == speedups[s]
      invariant forall jj :: 0 <= jj < j ==> threadCounts[jj] in table[size]
      invariant SpeedupsAgainstBaseline(table, executionTimes, threadCounts)
    {
      var threads := threadCounts[j];
      if threads !in executionTimes[size] {
        return Failure(KeyError(threads));
      }
      StoreSpeedup(table, executionTimes, threadCounts, size, threads);
      table := table[size := table[size][threads := Ratio(sequentialTime, executionTimes[size][threads])]];
      j := j + 1;
    }
    r := Success(table);
  }

  /** Lines 72-76: KeyError unless every size has its 1-thread time and a
      time for every thread count; otherwise a table per size with an entry
      per thread count, each against the 1-thread time. */
  method ComputeSpeedups(executionTimes: map<int, map<int, string>>, sizes: seq<int>, threadCounts: seq<int>)
    returns (r: Result<map<int, map<int, Ratio>>, PyError>)
    ensures r.Success? <==> Computable(executionTimes, sizes, threadCounts)
    ensures r.Failure? ==> r.error.KeyError? && (r.error.key == 1 || r.error.key in sizes || r.error.key in threadCounts)
    ensures r.Failure? ==> exists i :: (0 <= i < |sizes| && Computable(executionTimes, sizes[..i], threadCounts)
      && if sizes[i] !in executionTimes then r.error.key == sizes[i] else r.error.key !in executionTimes[sizes[i]])
    ensures r.Success? ==> forall s :: s in r.value <==> s in sizes
    ensures r.Success? ==> SpeedupsAgainstBaseline(r.value, executionTimes, threadCounts)
    ensures r.Success? ==> forall i, j :: 0 <= i < |sizes| && 0 <= j < |threadCounts| ==> sizes[i] in r.value && threadCounts[j] in r.value[sizes[i]]
  {
    var speedups: map<int, map<int, Ratio>> := map s | s in sizes :: map[];
    var i := 0;
    while i < |sizes|
      invariant 0 <= i <= |sizes|
      invariant Computable(executionTimes, sizes[..i], threadCounts)
      invariant forall s :: s in speedups <==> s in sizes
      invariant SpeedupsAgainstBaseline(speedups, executionTimes, threadCounts)
      invariant forall k, j :: 0 <= k < i && 0 <= j < |threadCounts| ==> sizes[k] in speedups && threadCounts[j] in speedups[sizes[k]]
    {
      var size := sizes[i];
      if size !in executionTimes {
        return Failure(KeyError(size));
      }
      if 1 !in executionTimes[size] {
        return Failure(KeyError(1));
      }
      var next := FillSpeedupRow(speedups, executionTimes, size, threadCounts);
      if next.Failure? {
        return next;
      }
      speedups := next.value;
      assert sizes[..i + 1] == sizes[..i] + [size];
      i := i + 1;
    }
    assert sizes[..i] == sizes;
    r := Success(speedups);
  }

  /** After a sweep that did not fail, the speedups can be computed
      exactly when, for every size, a 1-thread run and a run of every
      thread count printed a time. */
  lemma SpeedupsNeedEveryTime(sizes: seq<int>, threadCounts: seq<int>, outputs: seq<seq<string>>)
    requires Shaped(sizes, threadCounts, outputs) && Sweep(sizes, threadCounts, outputs).Success?
    ensures Computable(Sweep(sizes, threadCounts, outputs).value, sizes, threadCounts)
      <==> forall i :: 0 <= i < |sizes| ==> AllTimed(sizes, threadCounts, GridTimes(outputs), sizes[i])
  {
    SweepEntries(sizes, threadCounts, outputs);
  }

  /** Runs of size s printed a time with 1 thread and with every thread
      count. */
  predicate AllTimed(sizes: seq<int>, threadCounts: seq<int>, runs: seq<seq<RunTime>>, s: int)
    requires Shaped(sizes, threadCounts, runs)
  {
    RanWithTime(sizes, threadCounts, runs, s, 1)
    && forall j :: 0 <= j < |threadCounts| ==> RanWithTime(sizes, threadCounts, runs, s, threadCounts[j])
  }

  /** When thread_counts holds 1 and every run printed a time, every size
      has all its times. */
  lemma EveryRunTimed(sizes: seq<int>, threadCounts: seq<int>, runs: seq<seq<RunTime>>)
    requires Shaped(sizes, threadCounts, runs) && 1 in threadCounts
    requires forall i, j :: 0 <= i < |sizes| && 0 <= j < |threadCounts| ==> Timed(runs[i][j])
    ensures forall i :: 0 <= i < |sizes| ==> AllTimed(sizes, threadCounts, runs, sizes[i])
  {
    var one :| 0 <= one < |threadCounts| && threadCounts[one] == 1;
    forall i | 0 <= i < |sizes|
      ensures AllTimed(sizes, threadCounts, runs, sizes[i])
    {
      assert RowRanWithTime(threadCounts, runs[i], 1) by {
        assert threadCounts[one] == 1 && Timed(runs[i][one]);
      }
      forall j | 0 <= j < |threadCounts|
        ensures RanWithTime(sizes, threadCounts, runs, sizes[i], threadCounts[j])
      {
        assert RowRanWithTime(threadCounts, runs[i], threadCounts[j]) by {
          assert Timed(runs[i][j]);
        }
      }
    }
  }

  /** In particular, when thread_counts holds 1 and every run printed a
      time, neither the sweep nor a lookup fails. */
  lemma FullSweepComputable(sizes: seq<int>, threadCounts: seq<int>, outputs: seq<seq<string>>)
    requires Shaped(sizes, threadCounts, outputs)
    requires 1 in threadCounts
    requires forall i, j :: 0 <= i < |sizes| && 0 <= j < |threadCounts| ==> Timed(TimeOfRun(outputs[i][j]))
    ensures Sweep(sizes, threadCounts, outputs).Success?
    ensures Computable(Sweep(sizes, threadCounts, outputs).value, sizes, threadCounts)
  {
    var runs := GridTimes(outputs);
    assert forall i, j :: 0 <= i < |sizes| && 0 <= j < |threadCounts| ==> Timed(runs[i][j]) by {
      forall i, j | 0 <= i < |sizes| && 0 <= j < |threadCounts|
        ensures Timed(runs[i][j])
      {
        assert runs[i][j] == TimeOfRun(outputs[i][j]);
      }
    }
    assert Sweep(sizes, threadCounts, outputs).Success? by {
      FillGridSucceeds(EmptyTimes(sizes), sizes, threadCounts, runs);
    }
    EveryRunTimed(sizes, threadCounts, runs);
    SpeedupsNeedEveryTime(sizes, threadCounts, outputs);
  }
}
