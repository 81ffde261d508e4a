/**
  The parsing half of `TestMetricsCollector` from
  scripts/collect_test_metrics.py: the numbers and the execution time read
  from the text `dotnet test` printed, and the fixed metrics of a dry run.

  Each `re.search` of the source is written out as a scan for the first
  position where its pattern matches. Python's `\s` is read as ASCII
  whitespace, and the float coverage percentage is kept in tenths.
*/
module TestMetrics {

  import opened Wrappers
  import opened Strings

  // ---------------------------------------------------------------------
  // Scanning a string from a position

  /** The end of the run of digits that starts at `i`. */
  function DigitsEnd(s: string, i: nat): (j: nat)
    requires i <= |s|
    ensures i <= j <= |s|
    ensures forall k :: i <= k < j ==> IsDigit(s[k])
    ensures j < |s| ==> !IsDigit(s[j])
    decreases |s| - i
  {
    if i == |s| || !IsDigit(s[i]) then i else DigitsEnd(s, i + 1)
  }

  // ---------------------------------------------------------------------
  // Labelled numbers: `re.search(marker + r'(\d+)', s)`

  /** The marker occurs at `i` and a digit follows it. */
  predicate LabelledAt(s: string, marker: string, i: nat) {
    OccursAt(s, marker, i) && i + |marker| < |s| && IsDigit(s[i + |marker|])
  }

  /** Where the search finds the marker, looking from `i` on: the first position that matches. */
  function FirstLabelled(s: string, marker: string, i: nat): (r: Option<nat>)
    requires i <= |s|
    ensures r.Some? ==> i <= r.value < |s| && LabelledAt(s, marker, r.value)
    ensures r.Some? ==> forall k :: i <= k < r.value ==> !LabelledAt(s, marker, k)
    ensures r.None? ==> forall k :: i <= k ==> !LabelledAt(s, marker, k)
    decreases |s| - i
  {
    if i == |s| then None
    else if LabelledAt(s, marker, i) then Some(i)
    else FirstLabelled(s, marker, i + 1)
  }

  /**
    The value of the digits after the first occurrence of `marker` that a
    digit follows, or `None` when the marker is never followed by a digit.
  */
  function LabelledNumber(s: string, marker: string): (r: Option<nat>)
    ensures r.Some? <==> exists i: nat :: LabelledAt(s, marker, i)
    ensures !Contains(s, marker) ==> r.None?
  {
    match FirstLabelled(s, marker, 0)
    case None => None
    case Some(i) =>
      var j := i + |marker|;
      Some(DigitsValue(s[j..DigitsEnd(s, j)]))
  }

  /** The number written right after the marker is read back, when a non-digit or the end follows it. */
  lemma LabelledNumberRoundTrip(marker: string, n: nat, rest: string)
    requires rest == [] || !IsDigit(rest[0])
    ensures LabelledNumber(marker + NatToString(n) + rest, marker) == Some(n)
  {
    var d := NatToString(n);
    var s := marker + d + rest;
    var j := |marker|;
    assert s[..j] == marker;
    assert s[j..j + |d|] == d;
    assert LabelledAt(s, marker, 0) by {
      assert s[j] == d[0];
    }
    LabelledNumberFirst(s, marker, 0);
    forall k | j <= k < j + |d|
      ensures IsDigit(s[k])
    {
      assert s[k] == d[k - j];
    }
    if j + |d| < |s| {
      assert s[j + |d|] == rest[0];
    }
    DigitsEndOfRun(s, j, |d|);
    NatToStringRoundTrip(n);
  }

  /** A digit run of length `len` at `j`, followed by a non-digit or the end, ends at `j + len`. */
  lemma {:induction false} DigitsEndOfRun(s: string, j: nat, len: nat)
    requires j + len <= |s|
    requires forall k :: j <= k < j + len ==> IsDigit(s[k])
    requires j + len == |s| || !IsDigit(s[j + len])
    ensures DigitsEnd(s, j) == j + len
    decreases len
  {
    if len > 0 {
      DigitsEndOfRun(s, j + 1, len - 1);
    }
  }

  /** A later occurrence does not count once an earlier one is followed by a digit. */
  lemma LabelledNumberFirst(s: string, marker: string, i: nat)
    requires LabelledAt(s, marker, i)
    requires forall k :: 0 <= k < i ==> !LabelledAt(s, marker, k)
    ensures FirstLabelled(s, marker, 0) == Some(i)
    ensures LabelledNumber(s, marker) == Some(DigitsValue(s[i + |marker|..DigitsEnd(s, i + |marker|)]))
  {
  }

  // ---------------------------------------------------------------------
  // The execution time
  //
  // The timing pattern is read left to right; each piece either consumes a
  // prefix and yields what is left, or fails. Every piece has one way to
  // match once the pieces before it matched, so the match at a position is
  // determined without backtracking.

  const Successful := "Test Run Successful."
  const TotalLabel := "Total tests: "
  const PassedLabel := "Passed: "
  const UnknownTime := "Unknown"

  /** What is left after the literal `lit`, if `s` starts with it. */
  function AfterLiteral(s: string, lit: string): (r: Option<string>)
    ensures r.Some? <==> StartsWith(s, lit)
    ensures r.Some? ==> s == lit + r.value
  {
    if StartsWith(s, lit) then Some(s[|lit|..]) else None
  }

  /** `\s*`: what is left after the leading whitespace. */
  function SkipSpaces(s: string): (r: string)
    ensures |r| <= |s|
    ensures r == [] || !IsSpace(r[0])
  {
    if s != [] && IsSpace(s[0]) then SkipSpaces(s[1..]) else s
  }

  /** `\d+`: what is left after a non-empty run of leading digits. */
  function AfterDigits(s: string): (r: Option<string>)
    ensures r.Some? <==> s != [] && IsDigit(s[0])
    ensures r.Some? ==> |r.value| < |s| && (r.value == [] || !IsDigit(r.value[0]))
  {
    if s != [] && IsDigit(s[0]) then Some(s[LeadingDigits(s)..]) else None
  }

  /** `[^c]*c`: what is left after the first `c`. */
  function AfterChar(s: string, c: char): (r: Option<string>)
    ensures r.Some? <==> c in s
    ensures r.Some? ==> |r.value| < |s|
  {
    var k := FirstIndex(s, c);
    if k == |s| then None else Some(s[k + 1..])
  }

  /** `([^\]]+)\]`: the non-empty text before the first `]`. */
  function Bracketed(s: string): (r: Option<string>)
    ensures r.Some? ==> |r.value| > 0 && ']' !in r.value && r.value + "]" <= s
  {
    var k := FirstIndex(s, ']');
    if k == |s| || k == 0 then None
    else
      assert s[..k] + "]" == s[..k + 1];
      Some(s[..k])
  }

  /**
    The group of the timing pattern of `_parse_test_results` matched at the
    start of `s`: `Test Run Successful.`, whitespace, `Total tests: ` and
    digits, whitespace, `Passed: ` and digits, anything up to the first
    `)`, whitespace, then a non-empty text in brackets.
  */
  function TimeMatch(s: string): (r: Option<string>)
    ensures r.Some? ==> StartsWith(s, Successful) && |r.value| > 0 && ']' !in r.value
  {
    match AfterLiteral(s, Successful)
    case None => None
    case Some(s1) => TotalsAndTime(s1)
  }

  /** The pattern after `Test Run Successful.`: whitespace, `Total tests: ` and digits, then the rest. */
  function TotalsAndTime(s1: string): (r: Option<string>)
    ensures r.Some? ==> |r.value| > 0 && ']' !in r.value
  {
    match AfterLiteral(SkipSpaces(s1), TotalLabel)
    case None => None
    case Some(s2) =>
      match AfterDigits(s2)
      case None => None
      case Some(s3) => PassedAndTime(s3)
  }

  /** Whitespace, `Passed: ` and digits, then the rest. */
  function PassedAndTime(s3: string): (r: Option<string>)
    ensures r.Some? ==> |r.value| > 0 && ']' !in r.value
  {
    match AfterLiteral(SkipSpaces(s3), PassedLabel)
    case None => None
    case Some(s4) =>
      match AfterDigits(s4)
      case None => None
      case Some(s5) => BracketedTime(s5)
  }

  /** Anything up to the first `)`, whitespace, then the group in brackets. */
  function BracketedTime(s5: string): (r: Option<string>)
    ensures r.Some? ==> |r.value| > 0 && ']' !in r.value
  {
    match AfterChar(s5, ')')
    case None => None
    case Some(s6) =>
      var s7 := SkipSpaces(s6);
      if s7 == [] || s7[0] != '[' then None else Bracketed(s7[1..])
  }

  /** The search for the timing pattern from `i` on: the group of the first position where it matches. */
  function FirstTimeMatch(s: string, i: nat): (r: Option<string>)
    requires i <= |s|
    ensures r.Some? ==> exists k :: i <= k <= |s| && TimeMatch(s[k..]) == r
    decreases |s| - i
  {
    if TimeMatch(s[i..]).Some? then TimeMatch(s[i..])
    else if i == |s| then None
    else FirstTimeMatch(s, i + 1)
  }

  /** The execution time, or `Unknown` when the timing pattern matches nowhere. */
  function ExecutionTime(s: string): (r: string)
    ensures !Contains(s, Successful) ==> r == UnknownTime
    ensures r == UnknownTime || (Contains(s, Successful) && |r| > 0 && ']' !in r)
  {
    match FirstTimeMatch(s, 0)
    case None => UnknownTime
    case Some(t) =>
      MatchFollowsSuccessful(s, t);
      t
  }

  /** The pattern only matches where `Test Run Successful.` occurs. */
  lemma MatchFollowsSuccessful(s: string, t: string)
    requires FirstTimeMatch(s, 0) == Some(t)
    ensures Contains(s, Successful)
  {
    var k :| 0 <= k <= |s| && TimeMatch(s[k..]) == Some(t);
    assert StartsWith(s[k..], Successful);
    PrefixOfSuffix(s, k, Successful);
  }

  lemma PrefixOfSuffix(s: string, k: nat, t: string)
    requires k <= |s| && StartsWith(s[k..], t)
    ensures Contains(s, t)
  {
    assert s[k..][..|t|] == s[k..k + |t|];
    assert OccursAt(s, t, k);
  }

  lemma SkipOneSpace(r: string)
    requires r == [] || !IsSpace(r[0])
    ensures SkipSpaces(" " + r) == r
  {
    assert (" " + r)[1..] == r;
  }

  lemma AfterNumber(n: nat, r: string)
    requires r == [] || !IsDigit(r[0])
    ensures AfterDigits(NatToString(n) + r) == Some(r)
  {
    var d := NatToString(n);
    if r == [] {
      LeadingDigitsOf(d, ' ', "");
      assert LeadingDigits(d) == |d| by {
        assert (d + [' '] + "")[..|d|] == d;
        LeadingDigitsOfPrefix(d);
      }
      assert d + r == d;
    } else {
      LeadingDigitsOf(d, r[0], r[1..]);
      assert d + [r[0]] + r[1..] == d + r;
    }
    assert (d + r)[|d|..] == r;
  }

  lemma {:induction false} LeadingDigitsOfPrefix(d: string)
    requires AllDigits(d)
    ensures LeadingDigits(d) == |d|
    decreases |d|
  {
    if d != [] {
      LeadingDigitsOfPrefix(d[1..]);
    }
  }

  /**
    A run summary in the shape the pattern expects has its bracketed text
    read as the execution time, whatever follows it.
  */
  lemma ExecutionTimeOfSummary(total: nat, passed: nat, mid: string, time: string, rest: string)
    requires (mid == [] || !IsDigit(mid[0])) && ')' !in mid
    requires |time| > 0 && ']' !in time
    ensures ExecutionTime(Successful + (" " + (TotalLabel + (NatToString(total) + (" " + (PassedLabel
              + (NatToString(passed) + (mid + (") [" + (time + ("]" + rest))))))))))) == time
  {
    var s5 := mid + (") [" + (time + ("]" + rest)));
    var s3 := " " + (PassedLabel + (NatToString(passed) + s5));
    var s1 := " " + (TotalLabel + (NatToString(total) + s3));
    var s := Successful + s1;
    BracketedTimeOf(mid, time, rest);
    assert s5 == [] || !IsDigit(s5[0]);
    PassedAndTimeOf(passed, s5);
    TotalsAndTimeOf(total, s3);
    assert AfterLiteral(s, Successful) == Some(s1);
    assert TimeMatch(s) == Some(time);
    assert s[0..] == s;
  }

  lemma TotalsAndTimeOf(total: nat, s3: string)
    requires s3 == [] || !IsDigit(s3[0])
    ensures TotalsAndTime(" " + (TotalLabel + (NatToString(total) + s3))) == PassedAndTime(s3)
  {
    LabelThenNumber(TotalLabel, total, s3);
  }

  lemma PassedAndTimeOf(passed: nat, s5: string)
    requires s5 == [] || !IsDigit(s5[0])
    ensures PassedAndTime(" " + (PassedLabel + (NatToString(passed) + s5))) == BracketedTime(s5)
  {
    LabelThenNumber(PassedLabel, passed, s5);
  }

  /** A space, a label that starts with a non-space, and a number: the pieces of the pattern read them in turn. */
  lemma LabelThenNumber(lbl: string, n: nat, x: string)
    requires lbl != [] && !IsSpace(lbl[0])
    requires x == [] || !IsDigit(x[0])
    ensures AfterLiteral(SkipSpaces(" " + (lbl + (NatToString(n) + x))), lbl) == Some(NatToString(n) + x)
    ensures AfterDigits(NatToString(n) + x) == Some(x)
  {
    var y := NatToString(n) + x;
    assert (lbl + y)[0] == lbl[0];
    SkipOneSpace(lbl + y);
    assert (lbl + y)[..|lbl|] == lbl && (lbl + y)[|lbl|..] == y;
    AfterNumber(n, x);
  }

  lemma BracketedTimeOf(mid: string, time: string, rest: string)
    requires ')' !in mid && |time| > 0 && ']' !in time
    ensures BracketedTime(mid + (") [" + (time + ("]" + rest)))) == Some(time)
  {
    var tail := "]" + rest;
    var s7 := "[" + (time + tail);
    var s6 := " " + s7;
    assert ") [" + (time + tail) == ")" + s6;
    AfterFirstParen(mid, s6);
    SkipOneSpace(s7);
    assert s7[1..] == time + tail;
    BracketedOf(time, rest);
  }

  lemma AfterFirstParen(mid: string, s6: string)
    requires ')' !in mid
    ensures AfterChar(mid + (")" + s6), ')') == Some(s6)
  {
    FirstIndexAfter(mid, ')', ")" + s6);
    assert (mid + (")" + s6))[|mid| + 1..] == s6;
  }

  lemma BracketedOf(time: string, rest: string)
    requires |time| > 0 && ']' !in time
    ensures Bracketed(time + ("]" + rest)) == Some(time)
  {
    var tail := "]" + rest;
    assert tail[0] == ']';
    FirstIndexAfter(time, ']', tail);
    assert (time + tail)[..|time|] == time;
  }

  // ---------------------------------------------------------------------
  // The metrics

  /** The `TestMetrics` record, without its timestamp; the coverage is in tenths of a percent. */
  datatype TestMetrics = TestMetrics(
    totalTests: nat, passedTests: nat, failedTests: nat, skippedTests: nat,
    architectureTests: nat, unitTests: nat, propertyTests: nat,
    coverageTenths: nat, executionTime: string)

  /** `_count_tests_in_output`: the first `Total tests: N` of the output, or 0; the category is not used. */
  function CountTestsInOutput(output: string, category: string): (r: nat)
    ensures !Contains(output, TotalLabel) ==> r == 0
    ensures r > 0 ==> exists i: nat :: LabelledAt(output, TotalLabel, i)
  {
    LabelledNumber(output, TotalLabel).GetOr(0)
  }

  /** The category never changes the count, and a written total is read back. */
  lemma CountTestsIgnoresCategory(output: string, category: string, other: string, n: nat, rest: string)
    requires rest == [] || !IsDigit(rest[0])
    ensures CountTestsInOutput(output, category) == CountTestsInOutput(output, other)
    ensures CountTestsInOutput(TotalLabel + NatToString(n) + rest, category) == n
  {
    LabelledNumberRoundTrip(TotalLabel, n, rest);
  }

  /** `_parse_test_results`: the totals from the full run, one count per category run, and the execution time. */
  function ParseTestResults(archOutput: string, unitOutput: string, propertyOutput: string, allOutput: string): (m: TestMetrics)
    ensures m.totalTests == CountTestsInOutput(allOutput, "")
    ensures !Contains(allOutput, PassedLabel) ==> m.passedTests == 0
    ensures !Contains(allOutput, "Failed: ") ==> m.failedTests == 0
    ensures !Contains(allOutput, "Skipped: ") ==> m.skippedTests == 0
    ensures m.architectureTests == CountTestsInOutput(archOutput, "Architecture")
    ensures m.unitTests == CountTestsInOutput(unitOutput, "Unit")
    ensures m.propertyTests == CountTestsInOutput(propertyOutput, "Property")
    ensures m.coverageTenths == 0
    ensures !Contains(allOutput, Successful) ==> m.executionTime == UnknownTime
  {
    TestMetrics(
      LabelledNumber(allOutput, TotalLabel).GetOr(0),
      LabelledNumber(allOutput, PassedLabel).GetOr(0),
      LabelledNumber(allOutput, "Failed: ").GetOr(0),
      LabelledNumber(allOutput, "Skipped: ").GetOr(0),
      CountTestsInOutput(archOutput, "Architecture"),
      CountTestsInOutput(unitOutput, "Unit"),
      CountTestsInOutput(propertyOutput, "Property"),
      0,
      ExecutionTime(allOutput))
  }

  /** `_create_mock_metrics`: every one of 75 tests passes, and the three categories add up to the total. */
  function MockMetrics(): (m: TestMetrics)
    ensures m.totalTests == m.passedTests == 75 && m.failedTests == 0 && m.skippedTests == 0
    ensures m.architectureTests + m.unitTests + m.propertyTests == m.totalTests
    ensures m.passedTests + m.failedTests + m.skippedTests == m.totalTests
  {
    TestMetrics(75, 75, 0, 0, 16, 50, 9, 925, "2.34 sec")
  }
}
