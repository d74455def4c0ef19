/** Command-line handling of MPI_solution/main2.cpp (lines 25-41): n
    defaults to 1000 and seed to 42; when there is any argument, n is first
    set from atoi(argv[1]); then every argument from argv[1] on is scanned,
    and "--size v" / "--seed v" set n / seed from atoi(v), the value being
    skipped by the scan. argv[0] is the program name. */
module Args {
  import Numerals

  datatype Settings = Settings(n: int, seed: int)

  const DefaultSize := 1000
  const DefaultSeed := 42
  const SizeFlag := "--size"
  const SeedFlag := "--seed"

  /** The two settings a flag can set. */
  datatype Field = Size | Seed

  function FlagOf(f: Field): string
  {
    match f
    case Size => SizeFlag
    case Seed => SeedFlag
  }

  function Get(st: Settings, f: Field): int
  {
    match f
    case Size => st.n
    case Seed => st.seed
  }

  /** The settings before the scan (lines 25-28). */
  function Initial(argv: seq<string>): Settings
  {
    Settings(if |argv| > 1 then Numerals.Atoi(argv[1]) else DefaultSize, DefaultSeed)
  }

  /** The scan of lines 31-41 over the arguments not yet looked at. A flag
      with a value after it sets its field and consumes the value; anything
      else, a flag in the last position included, is passed over. */
  function Scan(args: seq<string>, st: Settings): Settings
  {
    if |args| == 0 then st
    else if args[0] == SizeFlag && |args| > 1 then Scan(args[2..], st.(n := Numerals.Atoi(args[1])))
    else if args[0] == SeedFlag && |args| > 1 then Scan(args[2..], st.(seed := Numerals.Atoi(args[1])))
    else Scan(args[1..], st)
  }

  /** What main2.cpp ends up with for argv. */
  function Parsed(argv: seq<string>): Settings
  {
    if |argv| <= 1 then Initial(argv) else Scan(argv[1..], Initial(argv))
  }

  /** Lines 25-41 as written: the index i is advanced once more past a
      consumed value. */
  method ParseArgs(argv: seq<string>) returns (n: int, seed: int)
    ensures Settings(n, seed) == Parsed(argv)
  {
    n := DefaultSize;
    seed := DefaultSeed;
    if |argv| > 1 {
      n := Numerals.Atoi(argv[1]);
    }
    var i := 1;
    while i < |argv|
      invariant 1 <= i <= if |argv| < 1 then 1 else |argv|
      invariant (if i < |argv| then Scan(argv[i..], Settings(n, seed)) else Settings(n, seed)) == Parsed(argv)
    {
      if argv[i] == SizeFlag && i + 1 < |argv| {
        i := i + 1;
        n := Numerals.Atoi(argv[i]);
      } else if argv[i] == SeedFlag && i + 1 < |argv| {
        i := i + 1;
        seed := Numerals.Atoi(argv[i]);
      }
      i := i + 1;
    }
  }

  // ---------------------------------------------------------------------
  // Which arguments the scan reads as flags

  /** How many arguments the scan consumes at the front of args. */
  function Step(args: seq<string>): nat
    requires |args| > 0
  {
    if (args[0] == SizeFlag || args[0] == SeedFlag) && |args| > 1 then 2 else 1
  }

  /** Position p of args is looked at as a possible flag (it is not a value
      consumed by the flag before it). */
  predicate Visited(args: seq<string>, p: int)
    decreases |args|
  {
    |args| > 0 && 0 <= p && (p == 0 || (Step(args) <= p && Visited(args[Step(args)..], p - Step(args))))
  }

  /** Position p holds a flag for f that the scan acts on. */
  predicate Sets(args: seq<string>, p: int, f: Field)
  {
    Visited(args, p) && p + 1 < |args| && args[p] == FlagOf(f)
  }

  /** Visited positions after the first step are those of the remainder,
      shifted. */
  lemma VisitedShift(args: seq<string>, q: int)
    requires |args| > 0 && Visited(args[Step(args)..], q)
    ensures Visited(args, q + Step(args))
  {
  }

  /** Only positions inside args are visited. */
  lemma {:induction false} VisitedInside(args: seq<string>, p: int)
    requires Visited(args, p)
    ensures 0 <= p < |args|
    decreases |args|
  {
    if p != 0 {
      VisitedInside(args[Step(args)..], p - Step(args));
    }
  }

  /** The value after a flag the scan acts on is never itself read as a
      flag. */
  lemma {:induction false} ConsumedValueNotVisited(args: seq<string>, p: int, f: Field)
    requires Sets(args, p, f)
    ensures !Visited(args, p + 1)
    decreases |args|
  {
    if p != 0 {
      var k := Step(args);
      var rest := args[k..];
      assert Sets(rest, p - k, f);
      ConsumedValueNotVisited(rest, p - k, f);
    }
  }

  /** The settings after the scan has looked at the front of args. */
  function Stepped(args: seq<string>, st: Settings): Settings
    requires |args| > 0
  {
    if args[0] == SizeFlag && |args| > 1 then st.(n := Numerals.Atoi(args[1]))
    else if args[0] == SeedFlag && |args| > 1 then st.(seed := Numerals.Atoi(args[1]))
    else st
  }

  /** One step of the scan. */
  lemma ScanStep(args: seq<string>, st: Settings)
    requires |args| > 0
    ensures Scan(args, st) == Scan(args[Step(args)..], Stepped(args, st))
  {
  }

  /** A flag for f the scan acts on at the front sets f from the value after
      it. */
  lemma FrontFlagSets(args: seq<string>, st: Settings, f: Field)
    requires Sets(args, 0, f)
    ensures Step(args) == 2 && Get(Stepped(args, st), f) == Numerals.Atoi(args[1])
  {
  }

  /** A position acting on f after the first step is one of the remainder,
      shifted. */
  lemma SetsShift(args: seq<string>, p: int, f: Field)
    requires Sets(args, p, f) && p != 0
    ensures Sets(args[Step(args)..], p - Step(args), f)
  {
  }

  /** No position past p of args acts on f, so none past p - Step(args) of
      the remainder does. */
  lemma NoneSetLater(args: seq<string>, p: int, f: Field)
    requires |args| > 0
    requires forall q :: p < q < |args| ==> !Sets(args, q, f)
    ensures forall q :: p - Step(args) < q < |args| - Step(args) ==> !Sets(args[Step(args)..], q, f)
  {
    var k := Step(args);
    var rest := args[k..];
    forall q | p - k < q < |rest| ensures !Sets(rest, q, f) {
      if Sets(rest, q, f) {
        VisitedShift(args, q);
        assert Sets(args, q + k, f);
      }
    }
  }

  /** A field that no visited flag sets keeps its value. */
  lemma {:induction false} UnsetFieldKept(args: seq<string>, st: Settings, f: Field)
    requires forall q :: 0 <= q < |args| ==> !Sets(args, q, f)
    ensures Get(Scan(args, st), f) == Get(st, f)
    decreases |args|
  {
    if |args| > 0 {
      NoneSetLater(args, -1, f);
      assert !Sets(args, 0, f);
      ScanStep(args, st);
      UnsetFieldKept(args[Step(args)..], Stepped(args, st), f);
    }
  }

  /** The last visited flag for a field decides its value: a later
      occurrence overrides an earlier one. */
  lemma {:induction false} LastFlagWins(args: seq<string>, st: Settings, f: Field, p: int)
    requires Sets(args, p, f)
    requires forall q :: p < q < |args| ==> !Sets(args, q, f)
    ensures Get(Scan(args, st), f) == Numerals.Atoi(args[p + 1])
    decreases |args|
  {
    var k := Step(args);
    var rest := args[k..];
    ScanStep(args, st);
    NoneSetLater(args, p, f);
    if p == 0 {
      FrontFlagSets(args, st, f);
      UnsetFieldKept(rest, Stepped(args, st), f);
    } else {
      SetsShift(args, p, f);
      LastFlagWins(rest, Stepped(args, st), f, p - k);
    }
  }

  /** Whatever stands in the last position, once the scan reaches it, is
      passed over: a flag there has no value to take. */
  lemma {:induction false} TrailingArgumentIgnored(args: seq<string>, st: Settings)
    requires |args| > 0 && Visited(args, |args| - 1)
    ensures Scan(args, st) == Scan(args[..|args| - 1], st)
    decreases |args|
  {
    if |args| > 1 {
      var k := Step(args);
      var rest := args[k..];
      var prefix := args[..|args| - 1];
      assert prefix[k..] == rest[..|rest| - 1];
      ScanStep(args, st);
      TrailingArgumentIgnored(rest, Stepped(args, st));
    }
  }

  /** Without a --size flag that takes effect, n is atoi(argv[1]) (or 1000
      when there are no arguments at all); without a --seed flag that takes
      effect, seed stays 42. */
  lemma ParsedWithoutFlag(argv: seq<string>, f: Field)
    requires |argv| > 1 ==> forall q :: 0 <= q < |argv| - 1 ==> !Sets(argv[1..], q, f)
    ensures Get(Parsed(argv), f) == Get(Initial(argv), f)
    ensures Parsed(argv).seed == DefaultSeed || f != Seed
    ensures Parsed(argv).n == (if |argv| > 1 then Numerals.Atoi(argv[1]) else DefaultSize) || f != Size
  {
    if |argv| > 1 {
      UnsetFieldKept(argv[1..], Initial(argv), f);
    }
  }

  /** A flag read by atoi, as argv[1] is when it is a flag, gives 0: the
      sign is followed by another '-', so no digits are read. */
  lemma FlagsReadAsZero()
    ensures Numerals.Atoi(SizeFlag) == 0 && Numerals.Atoi(SeedFlag) == 0
  {
    assert Numerals.SkipSpaces(SizeFlag) == SizeFlag && Numerals.Unsigned(SizeFlag) == SizeFlag[1..];
    assert Numerals.SkipSpaces(SeedFlag) == SeedFlag && Numerals.Unsigned(SeedFlag) == SeedFlag[1..];
  }
}
