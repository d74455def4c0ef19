# Amdahl's-law benchmark: distributed scalar products and their drivers

This project models the core of a small benchmark repository in Dafny. The
repository measures how a matrix computation speeds up with more threads or
processes.

- `MPI_solution/main2.cpp` is the MPI program.
  - It reads `--size` and `--seed` from its command line.
  - It splits the n rows of a matrix into contiguous blocks, one per rank.
  - Each rank computes its block of B3·x and B4·x (`matrix_vector_multiply`)
    and dots it with y (`scalar_product_v2`).
  - `MPI_Reduce` with `MPI_SUM` adds up the partial products, and rank 0
    prints the results and the execution time.
  - `matrix_multiply` builds the matrix powers.
- `analyzer.py` is the OpenMP driver. Its `run_program` runs `./main` with
  `OMP_NUM_THREADS` set and reads `Execution Time` and `Result (d)` from the
  output. A sweep over thread counts keeps a `(threads, time)` record for each
  run that printed a time. Speedups are computed against the first record.
- `MPI_solution/analyzer.py` is the MPI driver. Its `run_program` builds an
  `mpirun --np T ./mpi_matrix --size S --seed X` command. The seed is the clock
  text or a fixed seed. The sweep fills `execution_times[size][threads]`, and
  the speedup table divides each size's 1-thread time by the time of each
  thread count.

The modules follow that structure, one file each:

- `Partition`: the block row distribution.
- `Kernels`: the three numeric kernels, one rank's share, and the reduction
  over ranks.
- `Numerals`: C `atoi` and Python `str(int)`.
- `Args`: main2.cpp's argument scan.
- `PyText`: `str.split`, `in` and `str.strip`.
- `OutputParse`: the parse loop both drivers share, and the text main2.cpp
  prints.
- `Analyzer`: `analyzer.py`.
- `MpiAnalyzer`: `MPI_solution/analyzer.py`.
- `Wrappers`: `Option` and `Result`.

Data types:

- A C++ `double` is modelled as an `int`, so every sum is exact.
- A `const` vector argument is a `seq`. The buffers the kernels overwrite are
  an `array` or an `array2`.
- Python's dicts are `map`s. Its lists are `seq`s.
- A Python exception that ends a script (`IndexError`, `KeyError`) is the
  `Failure` case of a `Result`.

The speedups are taken against the first record, which is not always the
1-thread run. `analyzer.py` line 88 names that first time
`sequential_time`, and `MPI_solution/analyzer.py` line 74 says "Time for 1
thread as the baseline" for the other driver, so the intent is the 1-thread
time. The model follows the code of `analyzer.py` line 88.
`Analyzer.BaselineIsFirstTimedRun` and `Analyzer.BaselineIsOneThread` state
exactly when the two agree.

## Model

| member | source | states |
|---|---|---|
| Partition.Rows | MPI_solution/main2.cpp:82-86 | rank r's block lies inside [0, n) and has n / size rows, plus one for the first n % size ranks |
| Partition.BoundariesCut | MPI_solution/main2.cpp:82-86 | the blocks of ranks 0..size-1 are consecutive pieces of one cut of [0, n) |
| Partition.StartMonotone | MPI_solution/main2.cpp:84 | block starts never decrease with the rank |
| Partition.StartInRange | MPI_solution/main2.cpp:84 | every block boundary lies in [0, n] |
| Partition.FirstRankStartsAtZero | MPI_solution/main2.cpp:84 | rank 0 starts at row 0 |
| Partition.LastRankEndsAtN | MPI_solution/main2.cpp:85 | the last rank ends at row n |
| Partition.Contiguous | MPI_solution/main2.cpp:84-85 | each rank's end is the next rank's start |
| Partition.BalancedLoad | MPI_solution/main2.cpp:82-86 | two ranks' row counts differ by at most one, and later ranks never get more |
| Partition.UniqueOwner | MPI_solution/main2.cpp:82-86 | every row 0 <= i < n belongs to exactly one rank |
| Partition.OwnerBelow | MPI_solution/main2.cpp:84-85 | a row below rank k's start belongs to one of the ranks before k |
| Kernels.MatrixMultiply | MPI_solution/main2.cpp:131-145 | result[i][j] is the sum over k < n of A[i][k]·B[k][j] for i, j < n = rows of A; every other entry of the buffer is unchanged |
| Kernels.ProductIsRowTimesColumn | MPI_solution/main2.cpp:139-142 | an entry of the product is row i of A dotted with column j of B |
| Kernels.ScalarProduct | MPI_solution/main2.cpp:147-155 | the result is the sum over start <= i < end of section[i - start]·y[i], and 0 for an empty range |
| Kernels.MatrixVectorMultiply | MPI_solution/main2.cpp:158-168 | result[i - start] is row i of the matrix times vec for start <= i < end; the rest of the buffer is unchanged |
| Kernels.RankPartialProduct | MPI_solution/main2.cpp:88-93 | a rank's partial scalar product is its rows' contribution to <m x, y> |
| Kernels.SectionDotOf | MPI_solution/main2.cpp:89-92 | any section holding rows a..b-1 of m·x, dotted with y, gives those rows' contribution |
| Kernels.SectionDot | MPI_solution/main2.cpp:88-92 | computing rows a..b-1 into a section and dotting it with y gives their contribution |
| Kernels.PartialDotSplit | MPI_solution/main2.cpp:96-98 | the contributions of adjacent row ranges add up |
| Kernels.ReducedSumPrefix | MPI_solution/main2.cpp:96-98 | the reduce over the first k blocks of a cut is the contribution of rows 0..b[k]-1 |
| Kernels.ReductionIsFullProduct | MPI_solution/main2.cpp:88-101 | under exact arithmetic, summing every block's partial product gives <m x, y> over all n rows, whatever the cut |
| Kernels.DistributedScalarProduct | MPI_solution/main2.cpp:82-98 | running every rank's share and summing as MPI_Reduce does gives the scalar product one process would compute |
| Numerals.AtoiOfDigits | MPI_solution/main2.cpp:28 | atoi of a non-empty run of digits is its decimal value |
| Numerals.AtoiOfNegatedDigits | MPI_solution/main2.cpp:28 | atoi of a minus sign followed by digits is the negated value |
| Numerals.AtoiOfPyStr | MPI_solution/analyzer.py:18 | atoi reads back str(k) for every int k: the size a driver passes arrives unchanged |
| Numerals.AtoiWithoutDigits | MPI_solution/main2.cpp:28 | a token starting with neither blank, sign nor digit reads as 0 |
| Numerals.DigitsValueOfDigits | MPI_solution/analyzer.py:18 | the decimal digits str() writes for k >= 0 denote k |
| Numerals.DigitPrefixOfDigits | MPI_solution/main2.cpp:35 | atoi reads a whole run of digits |
| Args.ParseArgs | MPI_solution/main2.cpp:25-41 | the loop with its extra ++i past a consumed value yields the settings of the scan Parsed(argv) |
| Args.LastFlagWins | MPI_solution/main2.cpp:31-41 | the last flag the scan acts on decides the value of its field |
| Args.UnsetFieldKept | MPI_solution/main2.cpp:31-41 | a field that no flag sets keeps its value |
| Args.ParsedWithoutFlag | MPI_solution/main2.cpp:25-41 | without a --size flag that takes effect, n is atoi(argv[1]), or 1000 with no arguments; without --seed the seed stays 42 |
| Args.ConsumedValueNotVisited | MPI_solution/main2.cpp:33-39 | the value after a flag is never itself read as a flag |
| Args.TrailingArgumentIgnored | MPI_solution/main2.cpp:33-39 | a flag in the last position has no value and is passed over |
| Args.VisitedInside | MPI_solution/main2.cpp:31 | the scan only looks at positions inside argv |
| Args.FlagsReadAsZero | MPI_solution/main2.cpp:27-28 | atoi of "--size" and of "--seed" is 0, so when argv[1] is a flag, line 28 first sets n to 0 |
| PyText.JoinSplit | analyzer.py:35 | joining the pieces of s.split(sep) with sep gives s back |
| PyText.SplitJoin | analyzer.py:35 | splitting a join of separator-free pieces gives the pieces back |
| PyText.SplitPiecesFree | analyzer.py:35 | no piece of s.split(sep) contains sep |
| PyText.IndexOfIsFirst | analyzer.py:37 | the split is at the first separator: no earlier character is sep |
| PyText.SplitAtFirst | analyzer.py:37 | a string split at its first separator gives the piece before it, then the split of the rest |
| PyText.FirstPiece | analyzer.py:37 | the first piece ends at the first separator, or at the end |
| PyText.ContainsAt | analyzer.py:36 | `sub in s` holds exactly when sub occurs as a slice of s |
| PyText.NotContainsWithoutChar | analyzer.py:36 | a string lacking some character of sub does not contain sub |
| PyText.StripLeading | analyzer.py:37 | strip removes exactly a prefix of whitespace, and what remains does not start with whitespace |
| PyText.StripTrailing | analyzer.py:37 | strip removes exactly a suffix of whitespace, and what remains does not end with whitespace |
| PyText.StripIsTrimmedSlice | analyzer.py:37 | s.strip() is a trimmed slice of s with only whitespace around it |
| PyText.StripSurrounded | analyzer.py:37 | whitespace around a trimmed string is exactly what strip() removes |
| OutputParse.FieldValue | analyzer.py:37 | line.split(":")[1].strip() raises IndexError exactly when the line has no ':' |
| OutputParse.FieldValueBetweenColons | MPI_solution/analyzer.py:30 | the value read is the stripped text between the first ':' and the next one or the end |
| OutputParse.ParseRunOutput | MPI_solution/analyzer.py:27-34 | the parse loop fails with IndexError if a labelled line has no ':'; otherwise each field holds the value of the last line carrying its label, or None |
| OutputParse.FirstExecutionTime | analyzer.py:72-76 | the sweep's loop reads the first line carrying "Execution Time" and stops there |
| OutputParse.LastMatchingNone | analyzer.py:35-39 | a field stays None exactly when no line carries its label |
| OutputParse.LastMatchingIsLast | analyzer.py:35-39 | otherwise the field comes from the line carrying the label with none after it |
| OutputParse.FirstMatchingNone | analyzer.py:72-76 | the sweep's time stays None exactly when no line carries the label |
| OutputParse.FirstMatchingIsFirst | analyzer.py:72-76 | otherwise it comes from the first line carrying the label |
| OutputParse.ProgramOutputSplits | MPI_solution/main2.cpp:108-113 | splitting the printed output at "\n" gives the five printed lines and an empty tail |
| OutputParse.ProgramOutputMarkers | MPI_solution/main2.cpp:108-113 | only line 2 carries "Execution Time", only line 1 "Result (d)", and no printed line makes the parse raise |
| OutputParse.FixedNumberValue | MPI_solution/main2.cpp:108-110 | the value read from "name: t" for a printed number t is t itself |
| OutputParse.ProgramOutputParses | MPI_solution/main2.cpp:108-113 | run_program reads back exactly the printed time and d from main2.cpp's output, and the sweep's loop reads the same time; this includes a d printed as nan or inf |
| Analyzer.BuildCommand | analyzer.py:27-29 | the command is ./main, followed by --use-files exactly when use_files is set |
| Analyzer.RunProgram | analyzer.py:25-41 | OMP_NUM_THREADS is str(threads), the command is as above, and the result is the parse of the output |
| Analyzer.ThreadSweep | analyzer.py:66-81 | the sweep loop yields the records Sweep specifies, or IndexError |
| Analyzer.SweepFailureStays | analyzer.py:66-81 | once a run has raised, the later runs do not matter |
| Analyzer.SweepSucceeds | analyzer.py:66-81 | the sweep raises exactly when some run's time line has no ':' |
| Analyzer.SweepRecords | analyzer.py:78-81 | the records are those of the timed runs, in thread_counts order, each with its own thread count and time |
| Analyzer.TimedRuns | analyzer.py:78-81 | every listed run index is in range and printed a time |
| Analyzer.TimedRunsIncreasing | analyzer.py:66-81 | the timed runs are listed in run order |
| Analyzer.TimedRunsExactly | analyzer.py:78-81 | a run is listed exactly when it printed a time |
| Analyzer.NoRecords | analyzer.py:83-85 | results is empty, and the script exits, exactly when no run printed a time |
| Analyzer.BaselineIsFirstTimedRun | analyzer.py:87-88 | the baseline time is that of the first run that printed a time, whatever its thread count |
| Analyzer.BaselineIsOneThread | analyzer.py:87-88 | with thread_counts starting at 1 and without repeats, the baseline is the 1-thread run exactly when that run printed a time |
| Analyzer.SpeedupTable | analyzer.py:83-89 | None when there are no records; otherwise the threads and times columns of results and, in order, every speedup against times[0] |
| MpiAnalyzer.RunProgram | MPI_solution/analyzer.py:17-34 | the command is the mpirun line with the clock text or str(fixed_seed) as seed, and the result is the parse of the output |
| MpiAnalyzer.ScanSizeThenSeed | MPI_solution/main2.cpp:31-41 | scanning "--size a --seed b" sets n to atoi(a) and the seed to atoi(b) |
| MpiAnalyzer.ParsedSizeThenSeed | MPI_solution/main2.cpp:25-41 | main2.cpp started as "prog --size a --seed b" reads n from a and the seed from b |
| MpiAnalyzer.SeedArgumentValue | MPI_solution/analyzer.py:19-22 | the seed main2.cpp reads is atoi of the clock text when use_random is truthy, and fixed_seed otherwise |
| MpiAnalyzer.ProgramSeesSettings | MPI_solution/analyzer.py:18-22 | the program mpirun starts sees the requested size and the chosen seed |
| MpiAnalyzer.DefaultSeedIsClock | MPI_solution/analyzer.py:17-20 | the default use_random=42 is truthy, so the seed comes from the clock |
| MpiAnalyzer.FillSize | MPI_solution/analyzer.py:60-68 | the inner loop updates execution_times[size] as FillSizeOf specifies, or raises |
| MpiAnalyzer.SweepSizes | MPI_solution/analyzer.py:56-68 | the nested loops leave execution_times as Sweep specifies, or raise |
| MpiAnalyzer.FillGrid | MPI_solution/analyzer.py:59-68 | the outer loop keeps the set of sizes |
| MpiAnalyzer.RowFailureStays | MPI_solution/analyzer.py:60-68 | once a run has raised, the rest of the row does not matter |
| MpiAnalyzer.GridFailureStays | MPI_solution/analyzer.py:59-68 | once a size has raised, the remaining sizes do not matter |
| MpiAnalyzer.FillRowSucceeds | MPI_solution/analyzer.py:60-68 | a size's runs fail exactly when some run raises |
| MpiAnalyzer.FillRowEntries | MPI_solution/analyzer.py:65-66 | a thread count gets an entry exactly when it had one already or a run of it printed a time |
| MpiAnalyzer.FillRowValue | MPI_solution/analyzer.py:65-66 | without repeated thread counts, an entry holds its own run's time |
| MpiAnalyzer.FillGridSucceeds | MPI_solution/analyzer.py:59-68 | the loops fail exactly when some run raises |
| MpiAnalyzer.RanWithTimeLast | MPI_solution/analyzer.py:59-68 | a timed run of (size, threads) belongs either to an earlier size or to the last one |
| MpiAnalyzer.FillGridEntries | MPI_solution/analyzer.py:59-68 | each size's dict holds what it held before plus the thread counts of that size's timed runs |
| MpiAnalyzer.FillGridValue | MPI_solution/analyzer.py:59-68 | without repeats, each entry holds the time its own run printed |
| MpiAnalyzer.SweepEntries | MPI_solution/analyzer.py:56-68 | execution_times has exactly the sizes as keys, and [size][threads] is defined exactly when such a run printed a time |
| MpiAnalyzer.SweepSucceeds | MPI_solution/analyzer.py:56-68 | the sweep raises IndexError exactly when some run's labelled line has no ':' |
| MpiAnalyzer.SweepValues | MPI_solution/analyzer.py:56-68 | without repeated sizes or thread counts, each entry is its own run's time |
| MpiAnalyzer.StoreSpeedup | MPI_solution/analyzer.py:76 | storing baseline / time keeps every entry of the table against its size's 1-thread time |
| MpiAnalyzer.FillSpeedupRow | MPI_solution/analyzer.py:75-76 | speedups[size] gets an entry for every thread count; otherwise the KeyError names the first thread count, in thread_counts order, that has no time for this size; no other size changes |
| MpiAnalyzer.ComputeSpeedups | MPI_solution/analyzer.py:72-76 | succeeds exactly when every size has a 1-thread time and a time for each thread count; otherwise the KeyError is raised at the first size lacking something, and names that size when it has no dict, or else a key missing from its dict; on success every (size, threads) pair is filled with the 1-thread time over that time |
| MpiAnalyzer.SpeedupsNeedEveryTime | MPI_solution/analyzer.py:56-76 | after a successful sweep, the speedups can be computed exactly when each size has timed runs with 1 thread and with every thread count |
| MpiAnalyzer.EveryRunTimed | MPI_solution/analyzer.py:59-68 | when thread_counts holds 1 and every run printed a time, every size has all its times |
| MpiAnalyzer.FullSweepComputable | MPI_solution/analyzer.py:56-76 | in that case neither the sweep nor a lookup of the speedup loop fails |

## Left out

- The MPI runtime is not modelled: `MPI_Init`, the broadcasts, `MPI_Reduce` and `MPI_Finalize`. The ranks run one after another in `Kernels.DistributedScalarProduct`, and the reduce is their sum.
- Kernels: `double` is modelled as `int`. Rounding is not modelled. Neither is the fact that summing per-rank partials rounds differently from one long sum, so the contracts are exact equalities.
- `generate_matrix`, `rand`/`srand` and the random x and y (main2.cpp lines 44-67, 120-129) are not modelled. The matrices and vectors are parameters.
- The chain B2 = B·B, B3 = B2·B, B4 = B3·B (lines 58-60) is modelled only through `Kernels.MatrixMultiply`, which each product calls.
- `MPI_Wtime`, the execution time and the value of d (main2.cpp lines 80, 102-106) are not modelled. The printed numbers are parameters of `OutputParse.ProgramOutputParses`.
- The `fixed` and `setprecision(2)` format is captured only by the characters a printed number may contain.
- Numerals.Atoi: `int` overflow (undefined behaviour in C) is not modelled; integers are unbounded.
- main.cpp, the OpenMP program that `analyzer.py` runs, is not part of this model. `OutputParse.ProgramOutputParses` is stated for main2.cpp's output.
- The child process (`subprocess.run`), `os.environ` and `time.time()` are parameters. A run's standard output and the clock's text are given as strings, and `OMP_NUM_THREADS` is returned as the value the script exports.
- `float()` is not modelled: a field is kept as its stripped text token, and a speedup is a `Ratio` of two tokens rather than a quotient. So a token `float()` rejects (`ValueError`) and a zero time (`ZeroDivisionError`) are not modelled.
- The data generation with numpy (`analyzer.py` lines 13-23, 44) is not modelled.
- The validation runs and `math.isclose` (`analyzer.py` lines 46-62, `MPI_solution/analyzer.py` lines 37-53) are not modelled.
- The plots (matplotlib), the PrettyTable output and the progress messages are not modelled.
- MpiAnalyzer.FillSize and MpiAnalyzer.SweepSizes take each run's output directly. They do not rebuild the command of each run, which `MpiAnalyzer.RunProgram` and `MpiAnalyzer.ProgramSeesSettings` cover.
- Analyzer.ThreadSweep takes each run's output directly. It does not model the sweep's own `OMP_NUM_THREADS = str(threads)` or its `[program]` command without `--use-files` (`analyzer.py` lines 68-69). These do not go through `run_program`. They are the values `Analyzer.RunProgram` gives with `use_files` false.
- A process that crashes or exits non-zero is not told apart from one that printed nothing, as in the scripts: both are an output without the labelled lines.
