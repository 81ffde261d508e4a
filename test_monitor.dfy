/**
  `TestMonitor._parse_test_output` from scripts/test_monitor.py: the
  summary read from the lines a GdUnit4 run printed. The lines are taken
  after the ANSI colour codes have been removed.
*/
module TestMonitor {

  import opened Strings

  /** The counters the parser keeps while it reads. */
  datatype Counts = Counts(total: nat, failed: nat, errors: nat, skipped: nat, duration: nat, suites: seq<string>)

  /** The dictionary the parser returns; `passed` is derived and may be negative. */
  datatype TestSummary = TestSummary(total: nat, passed: int, failed: nat, errors: nat, skipped: nat, duration: nat, suites: seq<string>)

  const NoCounts := Counts(0, 0, 0, 0, 0, [])

  /** A line of the statistics table: it names `tests cases` and holds a `|`. */
  predicate IsTableLine(line: string) {
    Contains(line, "tests cases") && Contains(line, "|")
  }

  /** One `|`-separated part of a table line: its first number goes to the first label it names. */
  function PartStep(c: Counts, part: string): (r: Counts)
    ensures r.duration == c.duration && r.suites == c.suites
    ensures Numbers(part) == [] ==> r == c
  {
    var numbers := Numbers(part);
    if Contains(part, "tests cases") && |numbers| > 0 then c.(total := numbers[0])
    else if Contains(part, "errors") && |numbers| > 0 then c.(errors := numbers[0])
    else if Contains(part, "failures") && |numbers| > 0 then c.(failed := numbers[0])
    else if Contains(part, "skipped") && |numbers| > 0 then c.(skipped := numbers[0])
    else c
  }

  function PartsStep(c: Counts, parts: seq<string>): (r: Counts)
    ensures r.duration == c.duration && r.suites == c.suites
    decreases |parts|
  {
    if parts == [] then c else PartStep(PartsStep(c, parts[..|parts| - 1]), parts[|parts| - 1])
  }

  /** The statistics of a table line; other lines leave the counters alone. */
  function TableStep(c: Counts, line: string): (r: Counts)
    ensures r.duration == c.duration && r.suites == c.suites
    ensures !IsTableLine(line) ==> r == c
  {
    if IsTableLine(line) then PartsStep(c, Split(line, "|")) else c
  }

  /** The execution time: the last number of a line with the marker. */
  function TimeStep(c: Counts, line: string): (r: Counts)
    ensures r.(duration := c.duration) == c
    ensures Contains(line, "Total execution time:") && Numbers(line) != [] ==> r.duration == Numbers(line)[|Numbers(line)| - 1]
    ensures !Contains(line, "Total execution time:") ==> r == c
  {
    var numbers := Numbers(line);
    if Contains(line, "Total execution time:") && |numbers| > 0 then c.(duration := numbers[|numbers| - 1]) else c
  }

  /** The suite name of a line with the marker: the stripped text after its last occurrence. */
  function SuiteOf(line: string): string {
    var pieces := Split(line, "Run Test Suite:");
    Strip(pieces[|pieces| - 1])
  }

  function SuiteStep(c: Counts, line: string): (r: Counts)
    ensures r.(suites := c.suites) == c
    ensures r.suites == c.suites + (if Contains(line, "Run Test Suite:") then [SuiteOf(line)] else [])
  {
    if Contains(line, "Run Test Suite:") then c.(suites := c.suites + [SuiteOf(line)]) else c
  }

  /** What one line does to the counters: table statistics, then the execution time, then a suite name. */
  function LineStep(c: Counts, line: string): Counts {
    SuiteStep(TimeStep(TableStep(c, line), line), line)
  }

  function LinesStep(c: Counts, lines: seq<string>): Counts
    decreases |lines|
  {
    if lines == [] then c else LineStep(LinesStep(c, lines[..|lines| - 1]), lines[|lines| - 1])
  }

  function Summary(c: Counts): (s: TestSummary)
    ensures s.passed == s.total - s.failed - s.errors - s.skipped
  {
    TestSummary(c.total, c.total - c.failed - c.errors - c.skipped, c.failed, c.errors, c.skipped, c.duration, c.suites)
  }

  /** The loop over the parts of a table line. */
  method ReadTableLine(c0: Counts, line: string) returns (c: Counts)
    ensures c == TableStep(c0, line)
  {
    c := c0;
    if !IsTableLine(line) {
      return;
    }
    var parts := Split(line, "|");
    for j := 0 to |parts|
      invariant c == PartsStep(c0, parts[..j])
    {
      assert parts[..j + 1][..j] == parts[..j];
      var part := parts[j];
      var numbers := Numbers(part);
      if Contains(part, "tests cases") && |numbers| > 0 {
        c := c.(total := numbers[0]);
      } else if Contains(part, "errors") && |numbers| > 0 {
        c := c.(errors := numbers[0]);
      } else if Contains(part, "failures") && |numbers| > 0 {
        c := c.(failed := numbers[0]);
      } else if Contains(part, "skipped") && |numbers| > 0 {
        c := c.(skipped := numbers[0]);
      }
    }
    assert parts[..|parts|] == parts;
  }

  /** The execution time of a line, if it reports one. */
  method ReadTimeLine(c0: Counts, line: string) returns (c: Counts)
    ensures c == TimeStep(c0, line)
  {
    c := c0;
    if Contains(line, "Total execution time:") {
      var numbers := Numbers(line);
      if |numbers| > 0 {
        c := c.(duration := numbers[|numbers| - 1]);
      }
    }
  }

  /** The suite name of a line, if it names one. */
  method ReadSuiteLine(c0: Counts, line: string) returns (c: Counts)
    ensures c == SuiteStep(c0, line)
  {
    c := c0;
    if Contains(line, "Run Test Suite:") {
      var pieces := Split(line, "Run Test Suite:");
      c := c.(suites := c.suites + [Strip(pieces[|pieces| - 1])]);
    }
  }

  /** `_parse_test_output`. */
  method ParseTestOutput(lines: seq<string>) returns (summary: TestSummary)
    ensures summary == Summary(LinesStep(NoCounts, lines))
    ensures summary.passed == summary.total - summary.failed - summary.errors - summary.skipped
  {
    var c := NoCounts;
    for i := 0 to |lines|
      invariant c == LinesStep(NoCounts, lines[..i])
    {
      assert lines[..i + 1][..i] == lines[..i];
      var line := lines[i];
      c := ReadTableLine(c, line);
      c := ReadTimeLine(c, line);
      c := ReadSuiteLine(c, line);
    }
    assert lines[..|lines|] == lines;
    summary := Summary(c);
  }

  // ---------------------------------------------------------------------
  // Properties of the parse

  /** A part naming `tests cases` sets the total, whatever other labels it names. */
  lemma TotalLabelFirst(c: Counts, part: string)
    requires Contains(part, "tests cases") && Numbers(part) != []
    ensures PartStep(c, part) == c.(total := Numbers(part)[0])
  {
  }

  /** A part naming `errors` but not `tests cases` sets the errors, even when it names `failures` too. */
  lemma ErrorsBeforeFailures(c: Counts, part: string)
    requires !Contains(part, "tests cases") && Contains(part, "errors") && Numbers(part) != []
    ensures PartStep(c, part) == c.(errors := Numbers(part)[0])
  {
  }

  /** Only table lines touch the four counts. */
  lemma LineKeepsCounts(c: Counts, line: string)
    requires !IsTableLine(line)
    ensures var r := LineStep(c, line);
            r.total == c.total && r.failed == c.failed && r.errors == c.errors && r.skipped == c.skipped
  {
  }

  /** The suite names, in line order: one for each line that has the marker. */
  function SuitesOf(lines: seq<string>): seq<string>
    decreases |lines|
  {
    if lines == [] then []
    else
      var line := lines[|lines| - 1];
      SuitesOf(lines[..|lines| - 1]) + (if Contains(line, "Run Test Suite:") then [SuiteOf(line)] else [])
  }

  /** The suites of the summary are the suites of the lines, appended to those already there. */
  lemma {:induction false} SuitesInLineOrder(c: Counts, lines: seq<string>)
    ensures LinesStep(c, lines).suites == c.suites + SuitesOf(lines)
    decreases |lines|
  {
    if lines != [] {
      var init := lines[..|lines| - 1];
      SuitesInLineOrder(c, init);
    }
  }

  /** The duration is the last number of the last line that reports an execution time with a number. */
  lemma DurationOfLastTimeLine(c: Counts, lines: seq<string>, line: string)
    requires Contains(line, "Total execution time:") && Numbers(line) != []
    ensures LinesStep(c, lines + [line]).duration == Numbers(line)[|Numbers(line)| - 1]
  {
    assert (lines + [line])[..|lines|] == lines;
  }

  /** A line without the execution-time marker keeps the duration. */
  lemma LineKeepsDuration(c: Counts, line: string)
    requires !Contains(line, "Total execution time:")
    ensures LineStep(c, line).duration == c.duration
  {
  }

  /** A line with none of the three markers the parser looks for. */
  predicate IsPlainLine(line: string) {
    !IsTableLine(line) && !Contains(line, "Total execution time:") && !Contains(line, "Run Test Suite:")
  }

  /** Every line is plain. */
  predicate AllPlain(lines: seq<string>) {
    forall k :: 0 <= k < |lines| ==> IsPlainLine(lines[k])
  }

  /** Lines with none of the markers leave the counters as they are. */
  lemma {:induction false} PlainLinesKeepCounts(c: Counts, lines: seq<string>)
    requires AllPlain(lines)
    ensures LinesStep(c, lines) == c
    decreases |lines|
  {
    if lines != [] {
      var init, last := lines[..|lines| - 1], lines[|lines| - 1];
      PlainLinesKeepCounts(c, init);
      PlainLineKeepsCounts(c, last);
    }
  }

  /** A line with none of the markers leaves the counters as they are. */
  lemma PlainLineKeepsCounts(c: Counts, line: string)
    requires IsPlainLine(line)
    ensures LineStep(c, line) == c
  {
  }

  /** Output with none of the markers gives the all-zero summary. */
  lemma NothingMatchedIsZero(lines: seq<string>)
    requires AllPlain(lines)
    ensures Summary(LinesStep(NoCounts, lines)) == TestSummary(0, 0, 0, 0, 0, 0, [])
  {
    PlainLinesKeepCounts(NoCounts, lines);
  }
}
