/**
  `AgentVerifier` from scripts/verify_agent_output.py: checks that an
  agent's reported archive or move really happened.

  The backlog tree is an input listing of paths relative to `Docs/Backlog`,
  the existence checks read an abstract filesystem, and the wall-clock time
  of each log line is a parameter.
*/
module AgentOutput {

  import opened Wrappers
  import opened Strings
  import opened FileSystem
  import AutoArchive

  // ---------------------------------------------------------------------
  // Archive checks

  /** The two globs of `verify_archive`: items of `items` named `{id}_*.md`, and such items one folder deep under `archive/completed`. */
  datatype AgentGlob = ItemsGlob(id: string) | ArchiveGlob(id: string)

  predicate GlobMatches(g: AgentGlob, p: Path) {
    match g
    case ItemsGlob(id) =>
      StartsWith(p, "items/") && '/' !in p[6..] && MatchesIdUnderscoreMd(p[6..], id)
    case ArchiveGlob(id) =>
      StartsWith(p, "archive/completed/") && InQuarterFolder(p[18..], id)
  }

  /** `{folder}/{name}` with a non-empty folder and a name matching `{id}_*.md`. */
  predicate InQuarterFolder(rest: string, id: string) {
    var k := FirstIndex(rest, '/');
    0 < k < |rest| && '/' !in rest[k + 1..] && MatchesIdUnderscoreMd(rest[k + 1..], id)
  }

  /** The paths of the listing that the glob matches, in listing order. */
  function Matching(listing: seq<Path>, g: AgentGlob): (r: seq<Path>)
    ensures forall p :: p in r <==> p in listing && GlobMatches(g, p)
    ensures |r| <= |listing|
  {
    if listing == [] then []
    else (if GlobMatches(g, listing[0]) then [listing[0]] else []) + Matching(listing[1..], g)
  }

  function FirstOf(ps: seq<Path>): Option<Path> {
    if ps == [] then None else Some(ps[0])
  }

  datatype ItemCheck = ItemCheck(archived: bool, inItems: nat, inArchive: nat, archivePath: Option<Path>, itemsPath: Option<Path>)

  /** One entry of `verify_archive`'s results. */
  function CheckItem(id: string, listing: seq<Path>): ItemCheck {
    var inItems, inArchive := Matching(listing, ItemsGlob(id)), Matching(listing, ArchiveGlob(id));
    ItemCheck(|inArchive| > 0 && |inItems| == 0, |inItems|, |inArchive|, FirstOf(inArchive), FirstOf(inItems))
  }

  /** Properly archived: some file of the item is in a quarter folder of the archive, and none is in `items/`. */
  lemma ArchivedIff(id: string, listing: seq<Path>)
    ensures CheckItem(id, listing).archived <==>
            (exists p :: p in listing && GlobMatches(ArchiveGlob(id), p)) && !(exists p :: p in listing && GlobMatches(ItemsGlob(id), p))
    ensures CheckItem(id, listing).archived ==> CheckItem(id, listing).archivePath.Some? && CheckItem(id, listing).itemsPath.None?
  {
    var inItems, inArchive := Matching(listing, ItemsGlob(id)), Matching(listing, ArchiveGlob(id));
    if |inArchive| > 0 {
      assert inArchive[0] in inArchive;
    }
    if |inItems| > 0 {
      assert inItems[0] in inItems;
    }
  }

  /** `_get_current_quarter`: `YYYY-Qn` for the given year and month. */
  function CurrentQuarter(year: nat, month: int): string {
    NatToString(year) + "-Q" + IntToString(AutoArchive.Quarter(month))
  }

  /** For a calendar month the quarter is one digit 1 to 4 after the year and `-Q`. */
  lemma CurrentQuarterShape(year: nat, month: int)
    requires 1 <= month <= 12
    ensures exists q :: 1 <= q <= 4 && CurrentQuarter(year, month) == NatToString(year) + "-Q" + [DigitChar(q)]
    ensures 1000 <= year <= 9999 ==> |CurrentQuarter(year, month)| == 7
  {
    AutoArchive.QuarterOfMonth(month);
    var q := AutoArchive.Quarter(month);
    assert NatToString(q) == [DigitChar(q)];
    if 1000 <= year <= 9999 {
      NatToStringLength4(year);
    }
  }

  // ---------------------------------------------------------------------
  // Item ids in a report

  predicate IsReportPrefixAt(s: string, i: nat) {
    i + 4 <= |s| && IsTypeCode(s[i..i + 2]) && s[i + 2] == '_' && IsDigit(s[i + 3])
  }

  predicate IsTypeCode(t: string) { t == "TD" || t == "VS" || t == "BF" || t == "HF" }

  /** An id as the report regex finds it: a type code, `_`, and digits. */
  predicate IsReportId(id: string) {
    |id| >= 4 && IsTypeCode(id[..2]) && id[2] == '_' && AllDigits(id[3..])
  }

  /** `re.findall(r'(TD_\d+|VS_\d+|BF_\d+|HF_\d+)', report)`: the non-overlapping matches, left to right, digits taken greedily. */
  function ReportIds(s: string): (r: seq<string>)
    ensures forall k :: 0 <= k < |r| ==> IsReportId(r[k])
    decreases |s|
  {
    if |s| < 4 then []
    else if IsReportPrefixAt(s, 0) then
      var n := 3 + LeadingDigits(s[3..]);
      assert s[..n][3..] == s[3..][..n - 3];
      [s[..n]] + ReportIds(s[n..])
    else ReportIds(s[1..])
  }

  /** An id standing alone in the report is found. */
  lemma SingleIdFound(t: string, digits: string)
    requires IsTypeCode(t) && |digits| > 0 && AllDigits(digits)
    ensures ReportIds(t + "_" + digits) == [t + "_" + digits]
  {
    var s := t + "_" + digits;
    assert s[..2] == t && s[3..] == digits;
    LeadingDigitsOf(digits, ' ', "");
    assert LeadingDigits(digits) == |digits| by {
      LeadingDigitsAll(digits);
    }
    assert s[..|s|] == s && s[|s|..] == [];
  }

  lemma {:induction false} LeadingDigitsAll(d: string)
    requires AllDigits(d)
    ensures LeadingDigits(d) == |d|
    decreases |d|
  {
    if d != [] {
      LeadingDigitsAll(d[1..]);
    }
  }

  // ---------------------------------------------------------------------
  // The generic report

  /** A value of a results dictionary: a per-item dict (with its `archived` entry, if any) or any other value's truthiness. */
  datatype ReportValue = DictValue(archived: Option<bool>) | Other(truthy: bool)

  predicate Passes(v: ReportValue) {
    match v
    case DictValue(archived) => archived == Some(true)
    case Other(truthy) => truthy
  }

  class AgentVerifier {
    var verificationLog: seq<string>

    constructor ()
      ensures verificationLog == []
    {
      verificationLog := [];
    }

    /** `_log`, with the `%H:%M:%S` time of the call. */
    method Log(clock: string, message: string)
      modifies this
      ensures verificationLog == old(verificationLog) + [LogLine(clock, message)]
    {
      verificationLog := verificationLog + ["[" + clock + "] " + message];
    }

    /** `verify_archive`: one result per distinct id, each the check of that id. */
    method VerifyArchive(itemIds: seq<string>, listing: seq<Path>) returns (results: map<string, ItemCheck>)
      ensures forall id :: id in results <==> id in itemIds
      ensures forall id :: id in results ==> results[id] == CheckItem(id, listing)
    {
      results := map[];
      for i := 0 to |itemIds|
        invariant forall id :: id in results <==> id in itemIds[..i]
        invariant forall id :: id in results ==> results[id] == CheckItem(id, listing)
      {
        assert itemIds[..i + 1] == itemIds[..i] + [itemIds[i]];
        results := results[itemIds[i] := CheckItem(itemIds[i], listing)];
      }
      assert itemIds[..|itemIds|] == itemIds;
    }

    /** `verify_file_move`: moved exactly when the source is gone and the destination exists. */
    method VerifyFileMove(fs: Fs, source: Path, dest: Path, clock: string) returns (moved: bool)
      modifies this
      ensures moved <==> source !in fs && dest in fs
      ensures moved ==> verificationLog == old(verificationLog) + [LogLine(clock, "File move verification: ✅")]
      ensures !moved ==> verificationLog == old(verificationLog) + [LogLine(clock, "File move verification: ❌"),
                LogLine(clock, "  Source exists: " + PyBool(source in fs) + ", Dest exists: " + PyBool(dest in fs))]
    {
      moved := source !in fs && dest in fs;
      if moved {
        Log(clock, "File move verification: ✅");
      } else {
        Log(clock, "File move verification: ❌");
        Log(clock, "  Source exists: " + PyBool(source in fs) + ", Dest exists: " + PyBool(dest in fs));
      }
    }

    /**
      `batch_verify_archive`: (False, {}) when the report names no item,
      otherwise whether every named item is archived, with the results.
    */
    method BatchVerifyArchive(report: string, listing: seq<Path>, clock: string) returns (allSuccessful: bool, results: map<string, ItemCheck>)
      modifies this
      ensures ReportIds(report) == [] ==>
                && allSuccessful == false && results == map[]
                && verificationLog == old(verificationLog) + [LogLine(clock, "WARNING: No item IDs found in operation report")]
      ensures ReportIds(report) != [] ==>
                && (allSuccessful <==> forall id :: id in ReportIds(report) ==> CheckItem(id, listing).archived)
                && (forall id :: id in results <==> id in ReportIds(report))
                && (forall id :: id in results ==> results[id] == CheckItem(id, listing))
                && verificationLog == old(verificationLog)
    {
      var itemIds := ReportIds(report);
      if itemIds == [] {
        Log(clock, "WARNING: No item IDs found in operation report");
        return false, map[];
      }
      results := VerifyArchive(itemIds, listing);
      allSuccessful := forall id :: id in results ==> results[id].archived;
    }

    /** `generate_report`'s verdict: every entry passes; an empty result passes. */
    method GenerateReport(entries: seq<(string, ReportValue)>) returns (allPassed: bool)
      ensures allPassed <==> forall k :: 0 <= k < |entries| ==> Passes(entries[k].1)
    {
      allPassed := true;
      for i := 0 to |entries|
        invariant allPassed <==> forall k :: 0 <= k < i ==> Passes(entries[k].1)
      {
        allPassed := allPassed && Passes(entries[i].1);
      }
    }
  }

  /** A line of the verification log: the time in brackets, then the message. */
  function LogLine(clock: string, message: string): string {
    "[" + clock + "] " + message
  }

  /** `str()` of a Python bool. */
  function PyBool(b: bool): string {
    if b then "True" else "False"
  }
}
