/** How the drivers read the program's standard output (analyzer.py and
    MPI_solution/analyzer.py hold the same loop in their run_program): the
    text is split on "\n", a line is picked by the substring it contains,
    and the value is line.split(":")[1].strip(). The value is kept as that
    token: the float() applied to it is not modelled. */
module OutputParse {
  import opened Wrappers
  import PyText

  const TimeLabel := "Execution Time"
  const ResultLabel := "Result (d)"

  /** The Python exceptions that end a driver script. */
  datatype PyError = IndexError | KeyError(key: int)

  /** What run_program returns: (execution_time, computed_result), each
      None when no line carried it. */
  datatype Fields = Fields(executionTime: Option<string>, computedResult: Option<string>)

  /** result.stdout.split("\n") */
  function Lines(stdout: string): seq<string>
  {
    PyText.Split(stdout, '\n')
  }

  /** A speedup sequential_time / time, kept as its two time tokens: the
      float division itself is not modelled. */
  datatype Ratio = Ratio(numerator: string, denominator: string)

  /** line.split(":")[1].strip(); IndexError when the line has no ':'. */
  function FieldValue(line: string): (r: Result<string, PyError>)
    ensures r.Failure? <==> ':' !in line
    ensures r.Failure? ==> r.error == IndexError
  {
    var parts := PyText.Split(line, ':');
    if |parts| < 2 then Failure(IndexError) else Success(PyText.Strip(parts[1]))
  }

  /** The value is the text between the first ':' and the next ':' (or the
      end of the line), stripped. */
  lemma FieldValueBetweenColons(a: string, b: string, rest: string)
    requires ':' !in a && ':' !in b && (rest == [] || rest[0] == ':')
    ensures FieldValue(a + ":" + b + rest) == Success(PyText.Strip(b))
  {
    var tail := b + rest;
    assert a + ":" + b + rest == a + [':'] + tail;
    PyText.SplitAtFirst(a, tail, ':');
    PyText.FirstPiece(b, rest, ':');
  }

  /** The last line that contains marker. */
  function LastMatching(lines: seq<string>, marker: string): (r: Option<string>)
    ensures r.Some? ==> r.value in lines && PyText.Contains(r.value, marker)
  {
    if |lines| == 0 then None
    else if PyText.Contains(lines[|lines| - 1], marker) then Some(lines[|lines| - 1])
    else LastMatching(lines[..|lines| - 1], marker)
  }

  /** The first line that contains marker. */
  function FirstMatching(lines: seq<string>, marker: string): (r: Option<string>)
    ensures r.Some? ==> r.value in lines && PyText.Contains(r.value, marker)
  {
    if |lines| == 0 then None
    else if PyText.Contains(lines[0], marker) then Some(lines[0])
    else FirstMatching(lines[1..], marker)
  }

  /** The value the script assigns for the chosen line, if any. */
  function ValueOf(m: Option<string>): Result<Option<string>, PyError>
  {
    match m
    case None => Success(None)
    case Some(line) =>
      match FieldValue(line)
      case Success(v) => Success(Some(v))
      case Failure(e) => Failure(e)
  }

  /** A line that carries a marker but no ':' makes the parse raise. */
  predicate Unparsable(line: string)
  {
    (PyText.Contains(line, TimeLabel) || PyText.Contains(line, ResultLabel)) && ':' !in line
  }

  /** What run_program's parse loop yields for stdout: IndexError as soon
      as any labelled line has no ':', and otherwise, per field, the value
      of the last line carrying its marker. */
  function RunFields(stdout: string): Result<Fields, PyError>
  {
    var lines := Lines(stdout);
    if exists i :: 0 <= i < |lines| && Unparsable(lines[i]) then Failure(IndexError)
    else
      Success(Fields(ValueOf(LastMatching(lines, TimeLabel)).value,
                     ValueOf(LastMatching(lines, ResultLabel)).value))
  }

  /** Extending the lines by one: the new line wins if it carries the
      marker. */
  lemma LastMatchingStep(lines: seq<string>, k: int, marker: string)
    requires 0 <= k < |lines|
    ensures LastMatching(lines[..k + 1], marker)
      == if PyText.Contains(lines[k], marker) then Some(lines[k]) else LastMatching(lines[..k], marker)
  {
    assert lines[..k + 1][..k] == lines[..k];
  }

  /** The parse loop of run_program (analyzer.py lines 31-41,
      MPI_solution/analyzer.py lines 24-34): every line carrying a marker
      reassigns that field, and the two labels are tested independently. */
  method ParseRunOutput(stdout: string) returns (r: Result<Fields, PyError>)
    ensures r == RunFields(stdout)
  {
    var lines := Lines(stdout);
    var executionTime: Option<string> := None;
    var computedResult: Option<string> := None;
    var k := 0;
    while k < |lines|
      invariant 0 <= k <= |lines|
      invariant forall i :: 0 <= i < k ==> !Unparsable(lines[i])
      invariant ValueOf(LastMatching(lines[..k], TimeLabel)) == Success(executionTime)
      invariant ValueOf(LastMatching(lines[..k], ResultLabel)) == Success(computedResult)
    {
      var line := lines[k];
      LastMatchingStep(lines, k, TimeLabel);
      LastMatchingStep(lines, k, ResultLabel);
      if PyText.Contains(line, TimeLabel) {
        var v := FieldValue(line);
        if v.Failure? {
          assert Unparsable(lines[k]);
          return Failure(v.error);
        }
        executionTime := Some(v.value);
      }
      if PyText.Contains(line, ResultLabel) {
        var v := FieldValue(line);
        if v.Failure? {
          assert Unparsable(lines[k]);
          return Failure(v.error);
        }
        computedResult := Some(v.value);
      }
      k := k + 1;
    }
    assert lines[..k] == lines;
    r := Success(Fields(executionTime, computedResult));
  }

  /** The parse loop of the thread sweep (analyzer.py lines 72-76): the
      first line carrying "Execution Time" is parsed and the loop breaks. */
  method FirstExecutionTime(stdout: string) returns (r: Result<Option<string>, PyError>)
    ensures r == ValueOf(FirstMatching(Lines(stdout), TimeLabel))
  {
    var lines := Lines(stdout);
    var executionTime: Option<string> := None;
    var k := 0;
    while k < |lines|
      invariant 0 <= k <= |lines|
      invariant forall i :: 0 <= i < k ==> !PyText.Contains(lines[i], TimeLabel)
      invariant FirstMatching(lines[k..], TimeLabel) == FirstMatching(lines, TimeLabel)
    {
      if PyText.Contains(lines[k], TimeLabel) {
        var v := FieldValue(lines[k]);
        if v.Failure? {
          return Failure(v.error);
        }
        executionTime := Some(v.value);
        break;
      }
      assert lines[k..][1..] == lines[k + 1..];
      k := k + 1;
    }
    r := Success(executionTime);
  }

  /** Line i carries the marker and no later line does. */
  predicate IsLastWith(lines: seq<string>, i: int, marker: string)
  {
    0 <= i < |lines| && PyText.Contains(lines[i], marker) &&
    forall j :: i < j < |lines| ==> !PyText.Contains(lines[j], marker)
  }

  /** Line i carries the marker and no earlier line does. */
  predicate IsFirstWith(lines: seq<string>, i: int, marker: string)
  {
    0 <= i < |lines| && PyText.Contains(lines[i], marker) &&
    forall j :: 0 <= j < i ==> !PyText.Contains(lines[j], marker)
  }

  /** LastMatching is None exactly when no line carries the marker. */
  lemma {:induction false} LastMatchingNone(lines: seq<string>, marker: string)
    ensures LastMatching(lines, marker) == None <==> forall i :: 0 <= i < |lines| ==> !PyText.Contains(lines[i], marker)
  {
    if |lines| > 0 {
      var init := lines[..|lines| - 1];
      LastMatchingNone(init, marker);
      assert forall i :: 0 <= i < |init| ==> init[i] == lines[i];
    }
  }

  /** Otherwise it is the line carrying the marker with none after it. */
  lemma {:induction false} LastMatchingIsLast(lines: seq<string>, i: int, marker: string)
    requires IsLastWith(lines, i, marker)
    ensures LastMatching(lines, marker) == Some(lines[i])
  {
    var n := |lines| - 1;
    if i < n {
      var init := lines[..n];
      assert init[i] == lines[i];
      assert forall j :: i < j < n ==> init[j] == lines[j];
      LastMatchingIsLast(init, i, marker);
    }
  }

  /** FirstMatching is None exactly when no line carries the marker. */
  lemma {:induction false} FirstMatchingNone(lines: seq<string>, marker: string)
    ensures FirstMatching(lines, marker) == None <==> forall i :: 0 <= i < |lines| ==> !PyText.Contains(lines[i], marker)
  {
    if |lines| > 0 {
      var tail := lines[1..];
      FirstMatchingNone(tail, marker);
      assert forall i :: 0 < i < |lines| ==> tail[i - 1] == lines[i];
    }
  }

  /** Otherwise it is the line carrying the marker with none before it. */
  lemma {:induction false} FirstMatchingIsFirst(lines: seq<string>, i: int, marker: string)
    requires IsFirstWith(lines, i, marker)
    ensures FirstMatching(lines, marker) == Some(lines[i])
  {
    if i > 0 {
      var tail := lines[1..];
      assert tail[i - 1] == lines[i];
      assert forall j :: 0 <= j < i - 1 ==> tail[j] == lines[j + 1];
      FirstMatchingIsFirst(tail, i - 1, marker);
    }
  }

  // ---------------------------------------------------------------------
  // The output of MPI_solution/main2.cpp, read back

  /** A character std::fixed with setprecision(2) prints for a double: a
      digit, the point or a minus sign, or a letter of "nan" or "inf" for a
      value that is not finite (d is 0/0 when n is 0). */
  predicate IsNumberChar(c: char)
  {
    ('0' <= c <= '9') || c == '.' || c == '-' || c == 'n' || c == 'a' || c == 'i' || c == 'f'
  }

  predicate IsFixedNumber(t: string)
  {
    forall i :: 0 <= i < |t| ==> IsNumberChar(t[i])
  }

  /** A printed number has no separator, no marker letter and no blank. */
  lemma FixedNumberChars(t: string)
    requires IsFixedNumber(t)
    ensures ':' !in t && '\n' !in t && 'E' !in t && 'R' !in t
    ensures PyText.Trimmed(t)
  {
  }

  const ScalarB3Prefix := "Global scalar <B3x, y>: "
  const ScalarB4Prefix := "Global scalar <B4x, y>: "
  const ScalarXYPrefix := "Global scalar <x, y>: "

  /** The five lines rank 0 prints (main2.cpp lines 108-113), given the
      printed numbers, and the empty piece after the final endl. */
  function ProgramOutputLines(d: string, t: string, g3: string, g4: string, gxy: string): seq<string>
  {
    [ResultLabel + ": " + d, TimeLabel + ": " + t, ScalarB3Prefix + g3,
     ScalarB4Prefix + g4, ScalarXYPrefix + gxy, ""]
  }

  /** A line "name: t" yields strip(" " + t). */
  lemma FieldValueAfterBlank(name: string, t: string)
    requires ':' !in name && IsFixedNumber(t)
    ensures FieldValue(name + ": " + t) == Success(PyText.Strip([' '] + t))
  {
    var b := [' '] + t;
    assert name + ": " + t == name + ":" + b + [];
    FixedNumberChars(t);
    FieldValueBetweenColons(name, b, []);
  }

  /** strip() removes the blank before a printed number. */
  lemma StripBlankNumber(t: string)
    requires IsFixedNumber(t)
    ensures PyText.Strip([' '] + t) == t
  {
    FixedNumberChars(t);
    assert [' '] + t == [' '] + t + [];
    PyText.StripSurrounded([' '], t, []);
  }

  /** A numeric token is unchanged by strip() after the blank that follows
      the ':' of its line. */
  lemma FixedNumberValue(name: string, t: string)
    requires ':' !in name && IsFixedNumber(t)
    ensures FieldValue(name + ": " + t) == Success(t)
  {
    FieldValueAfterBlank(name, t);
    StripBlankNumber(t);
  }

  /** The "Result (d)" line carries only its own marker. */
  lemma ResultLine(d: string)
    requires IsFixedNumber(d)
    ensures PyText.Contains(ResultLabel + ": " + d, ResultLabel) && !PyText.Contains(ResultLabel + ": " + d, TimeLabel)
  {
    FixedNumberChars(d);
    assert ResultLabel + ": " + d == ResultLabel + (": " + d);
    PyText.ContainsPrefix(ResultLabel + (": " + d), ResultLabel);
    PyText.NotContainsWithoutChar(ResultLabel + ": " + d, TimeLabel, 'E');
  }

  /** The "Execution Time" line carries only its own marker. */
  lemma TimeLine(t: string)
    requires IsFixedNumber(t)
    ensures PyText.Contains(TimeLabel + ": " + t, TimeLabel) && !PyText.Contains(TimeLabel + ": " + t, ResultLabel)
  {
    FixedNumberChars(t);
    assert TimeLabel + ": " + t == TimeLabel + (": " + t);
    PyText.ContainsPrefix(TimeLabel + (": " + t), TimeLabel);
    PyText.NotContainsWithoutChar(TimeLabel + ": " + t, ResultLabel, 'R');
  }

  /** A line with neither 'E' nor 'R' carries no marker. */
  lemma UnlabelledLine(line: string)
    requires 'E' !in line && 'R' !in line
    ensures !PyText.Contains(line, TimeLabel) && !PyText.Contains(line, ResultLabel)
  {
    PyText.NotContainsWithoutChar(line, TimeLabel, 'E');
    PyText.NotContainsWithoutChar(line, ResultLabel, 'R');
  }

  /** A "Global scalar" line carries no marker. */
  lemma ScalarLine(prefix: string, g: string)
    requires 'E' !in prefix && 'R' !in prefix && IsFixedNumber(g)
    ensures !PyText.Contains(prefix + g, TimeLabel) && !PyText.Contains(prefix + g, ResultLabel)
  {
    FixedNumberChars(g);
    UnlabelledLine(prefix + g);
  }

  /** The scalar lines' captions hold neither marker's capital letter. */
  lemma ScalarPrefixLetters()
    ensures 'E' !in ScalarB3Prefix && 'R' !in ScalarB3Prefix
    ensures 'E' !in ScalarB4Prefix && 'R' !in ScalarB4Prefix
    ensures 'E' !in ScalarXYPrefix && 'R' !in ScalarXYPrefix
  {
  }

  /** The three scalar lines and the empty tail piece carry no marker. */
  lemma TrailingLinesUnlabelled(g3: string, g4: string, gxy: string)
    requires IsFixedNumber(g3) && IsFixedNumber(g4) && IsFixedNumber(gxy)
    ensures var lines := ProgramOutputLines([], [], g3, g4, gxy);
      forall i :: 2 <= i < |lines| ==> !PyText.Contains(lines[i], TimeLabel) && !PyText.Contains(lines[i], ResultLabel)
  {
    ScalarPrefixLetters();
    ScalarLine(ScalarB3Prefix, g3);
    ScalarLine(ScalarB4Prefix, g4);
    ScalarLine(ScalarXYPrefix, gxy);
    UnlabelledLine("");
  }

  /** Which of the printed lines carry which marker. */
  lemma ProgramOutputMarkers(d: string, t: string, g3: string, g4: string, gxy: string)
    requires IsFixedNumber(d) && IsFixedNumber(t) && IsFixedNumber(g3) && IsFixedNumber(g4) && IsFixedNumber(gxy)
    ensures var lines := ProgramOutputLines(d, t, g3, g4, gxy);
      && IsLastWith(lines, 1, TimeLabel) && IsFirstWith(lines, 1, TimeLabel)
      && IsLastWith(lines, 0, ResultLabel)
      && forall i :: 0 <= i < |lines| ==> !Unparsable(lines[i])
  {
    var lines := ProgramOutputLines(d, t, g3, g4, gxy);
    var tail := ProgramOutputLines([], [], g3, g4, gxy);
    assert lines[2..] == tail[2..];
    ResultLine(d);
    TimeLine(t);
    TrailingLinesUnlabelled(g3, g4, gxy);
    assert forall i :: 2 <= i < |lines| ==> lines[i] == tail[i];
  }

  /** No printed line contains the line separator. */
  lemma ProgramOutputSplits(d: string, t: string, g3: string, g4: string, gxy: string)
    requires IsFixedNumber(d) && IsFixedNumber(t) && IsFixedNumber(g3) && IsFixedNumber(g4) && IsFixedNumber(gxy)
    ensures Lines(ProgramOutput(d, t, g3, g4, gxy)) == ProgramOutputLines(d, t, g3, g4, gxy)
  {
    var lines := ProgramOutputLines(d, t, g3, g4, gxy);
    CaptionsOnOneLine();
    OneLine(ResultLabel + ": ", d);
    OneLine(TimeLabel + ": ", t);
    OneLine(ScalarB3Prefix, g3);
    OneLine(ScalarB4Prefix, g4);
    OneLine(ScalarXYPrefix, gxy);
    PyText.SplitJoin(lines, '\n');
  }

  /** No caption holds a line break. */
  lemma CaptionsOnOneLine()
    ensures '\n' !in ResultLabel + ": " && '\n' !in TimeLabel + ": "
    ensures '\n' !in ScalarB3Prefix && '\n' !in ScalarB4Prefix && '\n' !in ScalarXYPrefix
  {
  }

  /** A caption followed by a printed number holds no line break. */
  lemma OneLine(caption: string, t: string)
    requires '\n' !in caption && IsFixedNumber(t)
    ensures '\n' !in caption + t
  {
    FixedNumberChars(t);
  }

  /** The standard output of main2.cpp's rank 0. */
  function ProgramOutput(d: string, t: string, g3: string, g4: string, gxy: string): string
  {
    PyText.Join(ProgramOutputLines(d, t, g3, g4, gxy), '\n')
  }

  /** When the lines carrying each marker are known and parse, run_program
      returns their values and the sweep's loop the time. */
  lemma ParsedFromMarkedLines(stdout: string, i: int, j: int, t: string, d: string)
    requires IsLastWith(Lines(stdout), i, TimeLabel) && IsFirstWith(Lines(stdout), i, TimeLabel)
    requires IsLastWith(Lines(stdout), j, ResultLabel)
    requires forall k :: 0 <= k < |Lines(stdout)| ==> !Unparsable(Lines(stdout)[k])
    requires FieldValue(Lines(stdout)[i]) == Success(t) && FieldValue(Lines(stdout)[j]) == Success(d)
    ensures RunFields(stdout) == Success(Fields(Some(t), Some(d)))
    ensures ValueOf(FirstMatching(Lines(stdout), TimeLabel)) == Success(Some(t))
  {
    LastMatchingIsLast(Lines(stdout), i, TimeLabel);
    LastMatchingIsLast(Lines(stdout), j, ResultLabel);
    FirstMatchingIsFirst(Lines(stdout), i, TimeLabel);
  }

  /** Reading main2.cpp's output back: run_program gets the printed
      execution time and result tokens, and the sweep's first-match loop
      gets the same execution time. */
  lemma ProgramOutputParses(d: string, t: string, g3: string, g4: string, gxy: string)
    requires IsFixedNumber(d) && IsFixedNumber(t) && IsFixedNumber(g3) && IsFixedNumber(g4) && IsFixedNumber(gxy)
    ensures RunFields(ProgramOutput(d, t, g3, g4, gxy)) == Success(Fields(Some(t), Some(d)))
    ensures ValueOf(FirstMatching(Lines(ProgramOutput(d, t, g3, g4, gxy)), TimeLabel)) == Success(Some(t))
  {
    var lines := ProgramOutputLines(d, t, g3, g4, gxy);
    ProgramOutputSplits(d, t, g3, g4, gxy);
    ProgramOutputMarkers(d, t, g3, g4, gxy);
    FixedNumberValue(TimeLabel, t);
    FixedNumberValue(ResultLabel, d);
    ParsedFromMarkedLines(ProgramOutput(d, t, g3, g4, gxy), 1, 0, t, d);
  }
}
