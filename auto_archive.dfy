/**
  `AutoArchiver` from scripts/auto_archive_completed.py: moves backlog items
  that are 100% complete into `archive/completed/YYYY-Qn/` under the name
  `{date}-{TYPE}_{NUM}-{description}-{tags}.md`.

  The completed rows of Backlog.md are an input (already parsed, with their
  priority and completion date); the item files are text. The outcome of each
  `shutil.move` and of the Backlog.md rewrite is a parameter.
*/
module AutoArchive {

  import opened Wrappers
  import opened Strings
  import opened FileSystem

  type TextFs = map<Path, string>

  // ---------------------------------------------------------------------
  // Tags

  const AreaTags: seq<string> := ["[fileops]", "[ui]", "[core]", "[workflow]", "[agent]"]

  /** The number of entries of `tags` that are in `pool`. */
  function CountIn(tags: seq<string>, pool: seq<string>): nat
    decreases |tags|
  {
    if tags == [] then 0 else (if tags[0] in pool then 1 else 0) + CountIn(tags[1..], pool)
  }

  lemma {:induction false} CountInConcat(a: seq<string>, b: seq<string>, pool: seq<string>)
    ensures CountIn(a + b, pool) == CountIn(a, pool) + CountIn(b, pool)
    decreases |a|
  {
    if a == [] {
      assert a + b == b;
    } else {
      assert (a + b)[0] == a[0];
      assert (a + b)[1..] == a[1..] + b;
      CountInConcat(a[1..], b, pool);
    }
  }

  /** Entries outside the pool are not counted. */
  lemma {:induction false} CountInNone(tags: seq<string>, pool: seq<string>)
    requires forall k :: 0 <= k < |tags| ==> tags[k] !in pool
    ensures CountIn(tags, pool) == 0
    decreases |tags|
  {
    if tags != [] {
      CountInNone(tags[1..], pool);
    }
  }

  lemma {:induction false} CountInAtMostLength(tags: seq<string>, pool: seq<string>)
    ensures CountIn(tags, pool) <= |tags|
    decreases |tags|
  {
    if tags != [] {
      CountInAtMostLength(tags[1..], pool);
    }
  }

  /** Two prefixes that differ in their first character cannot both start a name. */
  lemma PrefixesExclude(s: string, p: string, q: string)
    requires |p| > 0 && |q| > 0 && p[0] != q[0]
    ensures !(StartsWith(s, p) && StartsWith(s, q))
  {
  }

  /** The type tags: from the item prefix, and for TD_ items from the content. */
  function TypeTags(filename: string, content: Option<string>): (r: seq<string>)
    ensures forall k :: 0 <= k < |r| ==> r[k] in ["[bug]", "[feature]", "[test]", "[refactor]", "[critical]"]
    ensures StartsWith(filename, "BF_") ==> r == ["[bug]"]
    ensures StartsWith(filename, "VS_") ==> r == ["[feature]"]
    ensures StartsWith(filename, "TD_") ==>
              r == if content.Some? && ContainsAny(Lower(content.value), ["test", "testing", "verification"]) then ["[test]"] else ["[refactor]"]
    ensures StartsWith(filename, "HF_") ==> r == ["[bug]", "[critical]"]
  {
    PrefixesExclude(filename, "BF_", "VS_");
    PrefixesExclude(filename, "BF_", "TD_");
    PrefixesExclude(filename, "BF_", "HF_");
    PrefixesExclude(filename, "VS_", "TD_");
    PrefixesExclude(filename, "VS_", "HF_");
    PrefixesExclude(filename, "TD_", "HF_");
    if StartsWith(filename, "BF_") then ["[bug]"]
    else if StartsWith(filename, "VS_") then ["[feature]"]
    else if StartsWith(filename, "TD_") then
      if content.Some? && ContainsAny(Lower(content.value), ["test", "testing", "verification"]) then ["[test]"] else ["[refactor]"]
    else if StartsWith(filename, "HF_") then ["[bug]", "[critical]"]
    else []
  }

  /** The impact tags: P0 priority, then words in the lower-cased content. */
  function ImpactTags(priority: string, content: Option<string>): (r: seq<string>)
    ensures forall k :: 0 <= k < |r| ==> r[k] in ["[critical]", "[dataloss]", "[security]", "[breaking]"]
    ensures priority == "P0" ==> |r| > 0 && r[0] == "[critical]"
  {
    (if priority == "P0" then ["[critical]"] else []) +
    if content.None? then []
    else
      var text := Lower(content.value);
      (if Contains(text, "data loss") || Contains(text, "dataloss") then ["[dataloss]"] else []) +
      (if Contains(text, "security") then ["[security]"] else []) +
      (if Contains(text, "breaking") then ["[breaking]"] else [])
  }

  /** The area tag: the first group whose words occur in the lower-cased file name. */
  function AreaTag(title: string): (r: seq<string>)
    ensures |r| <= 1
  {
    if ContainsAny(title, ["archive", "file", "move"]) then ["[fileops]"]
    else if ContainsAny(title, ["ui", "interface", "view"]) then ["[ui]"]
    else if ContainsAny(title, ["core", "engine", "system"]) then ["[core]"]
    else if ContainsAny(title, ["workflow", "process"]) then ["[workflow]"]
    else if ContainsAny(title, ["agent", "ai"]) then ["[agent]"]
    else []
  }

  function DetailTags(title: string): (r: seq<string>)
    ensures forall k :: 0 <= k < |r| ==> r[k] in ["[automation]", "[pattern]"]
  {
    (if ContainsAny(title, ["automation", "auto"]) then ["[automation]"] else []) +
    (if ContainsAny(title, ["pattern", "framework"]) then ["[pattern]"] else [])
  }

  predicate IsFix(filename: string) { StartsWith(filename, "BF_") || StartsWith(filename, "HF_") }

  /**
    `determine_tags`: type, impact, area, detail and status tags in that
    order. `content` is None when the item file does not exist.
  */
  function DetermineTags(filename: string, priority: string, content: Option<string>): (tags: seq<string>)
    ensures |tags| >= 1 && tags[|tags| - 1] == if IsFix(filename) then "[resolved]" else "[completed]"
    ensures StartsWith(filename, "BF_") ==> tags[0] == "[bug]"
    ensures StartsWith(filename, "VS_") ==> tags[0] == "[feature]"
    ensures StartsWith(filename, "TD_") ==>
              tags[0] == if content.Some? && ContainsAny(Lower(content.value), ["test", "testing", "verification"]) then "[test]" else "[refactor]"
    ensures StartsWith(filename, "HF_") ==> |tags| >= 2 && tags[..2] == ["[bug]", "[critical]"]
  {
    var title := Lower(filename);
    var t := TypeTags(filename, content);
    var tags := t + ImpactTags(priority, content) + AreaTag(title) + DetailTags(title) +
                [if IsFix(filename) then "[resolved]" else "[completed]"];
    assert |t| > 0 ==> tags[0] == t[0];
    assert |t| >= 2 ==> tags[..2] == t[..2];
    tags
  }

  lemma ImpactTagIsNoArea(tag: string)
    requires tag in ["[critical]", "[dataloss]", "[security]", "[breaking]"]
    ensures tag !in AreaTags
  {
  }

  lemma ImpactTagsHaveNoArea(priority: string, content: Option<string>)
    ensures CountIn(ImpactTags(priority, content), AreaTags) == 0
  {
    var i := ImpactTags(priority, content);
    forall k | 0 <= k < |i| ensures i[k] !in AreaTags {
      ImpactTagIsNoArea(i[k]);
    }
    CountInNone(i, AreaTags);
  }

  /** Five tag groups of which only the third can hold a pool entry, and at most one. */
  lemma {:induction false} CountInFiveGroups(t: seq<string>, i: seq<string>, a: seq<string>, d: seq<string>, s: seq<string>, pool: seq<string>)
    requires CountIn(t, pool) == 0 && CountIn(i, pool) == 0 && |a| <= 1 && CountIn(d, pool) == 0 && CountIn(s, pool) == 0
    ensures CountIn(t + i + a + d + s, pool) <= 1
  {
    CountInConcat(t, i, pool);
    CountInConcat(t + i, a, pool);
    CountInConcat(t + i + a, d, pool);
    CountInConcat(t + i + a + d, s, pool);
    CountInAtMostLength(a, pool);
  }

  /** The elif chain emits at most one area tag. */
  lemma AtMostOneAreaTag(filename: string, priority: string, content: Option<string>)
    ensures CountIn(DetermineTags(filename, priority, content), AreaTags) <= 1
  {
    var title := Lower(filename);
    var t, i, a, d, s := TypeTags(filename, content), ImpactTags(priority, content), AreaTag(title), DetailTags(title),
                         [if IsFix(filename) then "[resolved]" else "[completed]"];
    CountInNone(t, AreaTags);
    ImpactTagsHaveNoArea(priority, content);
    CountInNone(d, AreaTags);
    CountInNone(s, AreaTags);
    CountInFiveGroups(t, i, a, d, s, AreaTags);
  }

  /** Tags are not de-duplicated: a hot fix at P0 carries `[critical]` twice. */
  lemma HotfixAtP0IsCriticalTwice(filename: string, content: Option<string>)
    requires StartsWith(filename, "HF_")
    ensures CountIn(DetermineTags(filename, "P0", content), ["[critical]"]) >= 2
  {
    var title := Lower(filename);
    var t, i := TypeTags(filename, content), ImpactTags("P0", content);
    var rest := AreaTag(title) + DetailTags(title) + ["[resolved]"];
    assert DetermineTags(filename, "P0", content) == t + i + rest;
    CountInConcat(t, i, ["[critical]"]);
    CountInConcat(t + i, rest, ["[critical]"]);
    assert CountIn(t, ["[critical]"]) == 1 by {
      assert t[1..] == ["[critical]"] && t[1..][1..] == [];
    }
    assert i[0] == "[critical]";
  }

  // ---------------------------------------------------------------------
  // Names and places

  /** The title words of the description: at most four, and `item` added when there are fewer than two. */
  function TitleWords(title: seq<string>): (w: seq<string>)
    ensures |title| > 4 ==> w == title[..4]
    ensures 2 <= |title| <= 4 ==> w == title
    ensures |title| < 2 ==> w == title + ["item"]
    ensures 1 <= |w| <= 4
  {
    if |title| > 4 then title[..4] else if |title| < 2 then title + ["item"] else title
  }

  function LowerAll(words: seq<string>): (r: seq<string>)
    ensures |r| == |words| && forall k :: 0 <= k < |words| ==> r[k] == Lower(words[k])
  {
    seq(|words|, k requires 0 <= k < |words| => Lower(words[k]))
  }

  /** `'-'.join(word.lower() for word in title_parts)`. */
  function Description(title: seq<string>): string {
    Join(LowerAll(TitleWords(title)), "-")
  }

  function Concat(tags: seq<string>): string
    decreases |tags|
  {
    if tags == [] then "" else tags[0] + Concat(tags[1..])
  }

  /**
    `generate_archive_filename`; Err is the IndexError a stem with fewer than
    two `_`-separated parts raises.
  */
  function GenerateArchiveFilename(stem: string, completionDate: string, tags: seq<string>): (r: Result<string, string>)
    ensures r.Ok? <==> |Split(stem, "_")| >= 2
  {
    var parts := Split(stem, "_");
    if |parts| < 2 then Err("IndexError: list index out of range")
    else Ok(completionDate + "-" + parts[0] + "_" + parts[1] + "-" + Description(parts[2..]) + "-" + Concat(tags) + ".md")
  }

  /** The part of a generated name between the item id and the tags is lower case and free of `_`. */
  lemma {:induction false} DescriptionIsCleanKebab(stem: string)
    requires |Split(stem, "_")| >= 2
    ensures var d := Description(Split(stem, "_")[2..]); '_' !in d && NoUpper(d)
  {
    var parts := Split(stem, "_");
    SplitPiecesAvoidSeparator(stem, "_");
    var words := LowerAll(TitleWords(parts[2..]));
    forall k | 0 <= k < |words| ensures '_' !in words[k] && NoUpper(words[k]) {
      var w := TitleWords(parts[2..])[k];
      if w != "item" {
        assert w in parts[2..];
        var j :| 0 <= j < |parts| && parts[j] == w;
        if '_' in w {
          var i :| 0 <= i < |w| && w[i] == '_';
          assert OccursAt(w, "_", i);
        }
      }
      LowerAvoids(w, '_');
    }
    JoinAvoids(words, "-", '_');
    JoinNoUpper(words, "-");
  }

  /** `(month - 1) // 3 + 1` (Python floors; Dafny's division agrees for a positive divisor). */
  function Quarter(month: int): int {
    (month - 1) / 3 + 1
  }

  /** A calendar month lies in its quarter, and the quarter is 1 to 4. */
  lemma QuarterOfMonth(month: int)
    requires 1 <= month <= 12
    ensures 1 <= Quarter(month) <= 4
    ensures 3 * (Quarter(month) - 1) < month <= 3 * Quarter(month)
  {
  }

  /**
    `get_archive_directory`: the `YYYY-Qn` folder under `archiveRoot`. Err
    is the ValueError a date without exactly three `_` parts, or with a
    month that is not a number, raises.
  */
  function GetArchiveDirectory(archiveRoot: Path, completionDate: string): (r: Result<Path, string>)
    ensures r.Ok? <==> |Split(completionDate, "_")| == 3 && ParseNat(Split(completionDate, "_")[1]).Some?
  {
    var parts := Split(completionDate, "_");
    if |parts| != 3 then Err("ValueError: not enough or too many values to unpack")
    else match ParseNat(parts[1])
      case None => Err("ValueError: invalid literal for int()")
      case Some(month) => Ok(Child(archiveRoot, parts[0] + "-Q" + NatToString(Quarter(month))))
  }

  /** For a `%Y_%m_%d` date the folder is the date's year and quarter. */
  lemma {:induction false} ArchiveDirectoryOfDate(archiveRoot: Path, year: string, month: nat, day: string)
    requires '_' !in year && '_' !in day && 1 <= month <= 12
    ensures GetArchiveDirectory(archiveRoot, year + "_" + ZeroPad(NatToString(month), 2) + "_" + day) ==
            Ok(Child(archiveRoot, year + "-Q" + [DigitChar(Quarter(month))]))
  {
    var mm := ZeroPad(NatToString(month), 2);
    assert '_' !in mm by {
      assert AllDigits(mm);
    }
    var date := year + "_" + mm + "_" + day;
    assert date == year + ['_'] + (mm + ['_'] + day);
    SplitAtFirst(year, '_', mm + ['_'] + day);
    SplitAtFirst(mm, '_', day);
    SplitWithoutSeparator(day, '_');
    assert Split(date, "_") == [year, mm, day];
    ParseNatZeroPad(month, 2);
    QuarterOfMonth(month);
  }

  /** `save_operation_log`: the run is appended and only the last 50 runs are kept. */
  function KeepLastRuns<T>(runs: seq<T>, run: T): (r: seq<T>)
    ensures |r| == if |runs| + 1 <= 50 then |runs| + 1 else 50
    ensures r[|r| - 1] == run
    ensures r == (runs + [run])[|runs| + 1 - |r|..]
  {
    var all := runs + [run];
    if |all| <= 50 then all else all[|all| - 50..]
  }

  // ---------------------------------------------------------------------
  // Moving items

  /** A completed row of Backlog.md: its id, the item file, its priority (or the default P3), and its completion date. */
  datatype PendingItem = PendingItem(id: string, path: Path, priority: string, completionDate: string)

  datatype ArchiveError =
    | SourceNotFound(path: Path)
    | DestinationExists(path: Path)
    | DestinationNotFoundAfterMove(path: Path)
    | SourceStillExists(path: Path)
    | DestinationEmpty(path: Path)
    | BacklogUpdateFailed(id: string)
    | ArchiveFailed(id: string)

  datatype ArchiveRecord = ArchiveRecord(id: string, source: Path, destination: Path, archivePath: string)

  /** What the distrusted calls of one `archive_item` did. */
  datatype ArchiveEffects = ArchiveEffects(move: MoveEffect<string>, moveBack: MoveEffect<string>, backlogUpdated: bool)

  /** The filesystem after one `archive_item`, its result (Err: an exception escaped), and what it appended. */
  datatype ArchiveOutcome = ArchiveOutcome(fs: TextFs, result: Result<bool, string>, errors: seq<ArchiveError>, record: Option<ArchiveRecord>)

  datatype RunResults = RunResults(processed: nat, archived: nat, failed: nat, errors: seq<ArchiveError>, operations: seq<ArchiveRecord>)

  /**
    What a real run has done so far: the files, what it appended to both
    logs, its counters, and the exception that stopped it, if one did.
  */
  datatype ArchiveRun = ArchiveRun(fs: TextFs, errors: seq<ArchiveError>, records: seq<ArchiveRecord>,
                                   archived: nat, failed: nat, raised: Option<string>)

  /** The run after one more `archive_item` call with outcome `w`: an exception stops it, a result bumps one counter. */
  function ApplyOutcome(prev: ArchiveRun, w: ArchiveOutcome): (run: ArchiveRun)
    requires prev.raised.None?
    ensures w.result.Err? ==> run == prev.(raised := Some(w.result.error))
    ensures w.result.Ok? ==> run.raised.None? && run.fs == w.fs && run.errors == prev.errors + w.errors
    ensures w.result.Ok? ==> run.archived + run.failed == prev.archived + prev.failed + 1
    ensures w.result == Ok(true) <==> run.archived == prev.archived + 1
  {
    match w.result
    case Err(e) => prev.(raised := Some(e))
    case Ok(b) =>
      ArchiveRun(w.fs, prev.errors + w.errors, prev.records + OptionSeq(w.record),
                 prev.archived + (if b then 1 else 0), prev.failed + (if b then 0 else 1), None)
  }

  /** The check of `verify_file_operation("MOVE", …)` that fails first, if any. */
  function MoveCheck(f: TextFs, source: Path, destination: Path): (e: Option<ArchiveError>)
    ensures e.None? <==> destination in f && source !in f && |f[destination]| > 0
  {
    if destination !in f then Some(DestinationNotFoundAfterMove(destination))
    else if source in f then Some(SourceStillExists(source))
    else if |f[destination]| == 0 then Some(DestinationEmpty(destination))
    else None
  }

  class AutoArchiver {
    var fs: TextFs
    var errors: seq<ArchiveError>
    var operationLog: seq<ArchiveRecord>
    /** `Docs/Backlog/archive/completed` under the base path. */
    const archiveRoot: Path

    constructor (initial: TextFs, archiveRoot: Path)
      ensures fs == initial && errors == [] && operationLog == [] && this.archiveRoot == archiveRoot
    {
      fs := initial;
      errors := [];
      operationLog := [];
      this.archiveRoot := archiveRoot;
    }

    /** Where `archive_item` would put an existing item file, and under which relative archive path. */
    function PlannedDestination(f: TextFs, item: PendingItem): (r: Result<(Path, string), string>)
      requires item.path in f
      ensures r.Ok? <==> |Split(StemMd(BaseName(item.path)), "_")| >= 2 && GetArchiveDirectory(archiveRoot, item.completionDate).Ok?
    {
      var name := BaseName(item.path);
      var tags := DetermineTags(name, item.priority, Some(f[item.path]));
      match GenerateArchiveFilename(StemMd(name), item.completionDate, tags)
      case Err(e) => Err(e)
      case Ok(filename) =>
        match GetArchiveDirectory(archiveRoot, item.completionDate)
        case Err(e) => Err(e)
        case Ok(dir) => Ok((Child(dir, filename), "archive/completed/" + BaseName(dir) + "/" + filename))
    }

    /** `archive_item`. */
    function ArchiveSpec(f: TextFs, item: PendingItem, eff: ArchiveEffects): (r: ArchiveOutcome)
      ensures r.record.Some? <==> r.result == Ok(true)
      ensures r.result.Err? ==> r.fs == f && r.errors == []
    {
      if item.path !in f then ArchiveOutcome(f, Ok(false), [SourceNotFound(item.path)], None)
      else ArchiveToPlanned(f, item, PlannedDestination(f, item), eff)
    }

    /** `archive_item` for an existing item once its destination has been worked out (or has failed to be). */
    function ArchiveToPlanned(f: TextFs, item: PendingItem, planned: Result<(Path, string), string>, eff: ArchiveEffects): (r: ArchiveOutcome)
      requires item.path in f
      ensures r.record.Some? <==> r.result == Ok(true)
      ensures r.result.Err? ==> r.fs == f && r.errors == []
    {
      match planned
      case Err(e) => ArchiveOutcome(f, Err(e), [], None)
      case Ok((dest, rel)) =>
        if dest in f then ArchiveOutcome(f, Ok(false), [DestinationExists(dest)], None)
        else AfterArchiveMove(AfterMove(f, item.path, dest, eff.move), item, dest, rel, eff)
    }

    /**
      The rest of `archive_item` once `shutil.move` has returned or raised:
      verification, the Backlog.md update, and moving the file back when
      either fails.
    */
    function AfterArchiveMove(f1: TextFs, item: PendingItem, dest: Path, rel: string, eff: ArchiveEffects): (r: ArchiveOutcome)
      requires item.path != dest
      ensures r.record.Some? <==> r.result == Ok(true)
      ensures r.result.Ok?
      ensures r.result == Ok(true) ==> r.fs == f1 && r.errors == [] && MoveCheck(f1, item.path, dest).None?
      ensures r.result == Ok(true) ==> r.record == Some(ArchiveRecord(item.id, item.path, dest, rel))
    {
      var source := item.path;
      if eff.move.raised then ArchiveOutcome(f1, Ok(false), [ArchiveFailed(item.id)], None)
      else match MoveCheck(f1, source, dest)
        case Some(failure) =>
          if dest in f1 && source !in f1 then
            var f2 := AfterMove(f1, dest, source, eff.moveBack);
            ArchiveOutcome(f2, Ok(false), [failure] + (if eff.moveBack.raised then [ArchiveFailed(item.id)] else []), None)
          else ArchiveOutcome(f1, Ok(false), [failure], None)
        case None =>
          if eff.backlogUpdated then ArchiveOutcome(f1, Ok(true), [], Some(ArchiveRecord(item.id, source, dest, rel)))
          else
            var f2 := AfterMove(f1, dest, source, eff.moveBack);
            ArchiveOutcome(f2, Ok(false), [BacklogUpdateFailed(item.id)] + (if eff.moveBack.raised then [ArchiveFailed(item.id)] else []), None)
    }

    /** `archive_item` never overwrites: an occupied destination refuses the item and changes nothing. */
    lemma ArchiveNeverOverwrites(f: TextFs, item: PendingItem, eff: ArchiveEffects)
      requires item.path in f && PlannedDestination(f, item).Ok? && PlannedDestination(f, item).value.0 in f
      ensures var r := ArchiveSpec(f, item, eff);
              r.fs == f && r.result == Ok(false) && r.errors == [DestinationExists(PlannedDestination(f, item).value.0)]
    {
    }

    /** A success leaves the item only at its archive destination, non-empty, and records where it went. */
    lemma ArchiveSuccessMoved(f: TextFs, item: PendingItem, eff: ArchiveEffects)
      requires ArchiveSpec(f, item, eff).result == Ok(true)
      ensures item.path in f && PlannedDestination(f, item).Ok?
      ensures var r, dest := ArchiveSpec(f, item, eff), PlannedDestination(f, item).value.0;
              dest !in f && item.path !in r.fs && dest in r.fs && |r.fs[dest]| > 0 &&
              r.record == Some(ArchiveRecord(item.id, item.path, dest, PlannedDestination(f, item).value.1)) && r.errors == []
    {
      var planned := PlannedDestination(f, item);
      PlannedSuccessMoved(f, item, planned, eff);
    }

    /** `ArchiveSuccessMoved` once the destination has been worked out. */
    lemma PlannedSuccessMoved(f: TextFs, item: PendingItem, planned: Result<(Path, string), string>, eff: ArchiveEffects)
      requires item.path in f && ArchiveToPlanned(f, item, planned, eff).result == Ok(true)
      ensures planned.Ok? && planned.value.0 !in f
      ensures var r, dest := ArchiveToPlanned(f, item, planned, eff), planned.value.0;
              item.path !in r.fs && dest in r.fs && |r.fs[dest]| > 0 &&
              r.record == Some(ArchiveRecord(item.id, item.path, dest, planned.value.1)) && r.errors == []
    {
      var (dest, rel) := planned.value;
      var r := AfterArchiveMove(AfterMove(f, item.path, dest, eff.move), item, dest, rel, eff);
      assert ArchiveToPlanned(f, item, planned, eff) == r;
      assert MoveCheck(r.fs, item.path, dest).None?;
    }

    /** When verification finds the file at the destination but empty, an honest move back restores the source. */
    lemma FailedVerificationMovesBack(f: TextFs, item: PendingItem, eff: ArchiveEffects)
      requires item.path in f && PlannedDestination(f, item).Ok?
      requires var dest := PlannedDestination(f, item).value.0;
               dest !in f && eff.move == HonestMove("") && eff.moveBack == HonestMove("")
      ensures var r := ArchiveSpec(f, item, eff);
              r.result == Ok(false) && item.path in r.fs && r.fs[item.path] == "" &&
              PlannedDestination(f, item).value.0 !in r.fs &&
              r.errors == [DestinationEmpty(PlannedDestination(f, item).value.0)]
    {
      PlannedFailedMovesBack(f, item, PlannedDestination(f, item), eff);
    }

    /** `FailedVerificationMovesBack` once the destination has been worked out. */
    lemma PlannedFailedMovesBack(f: TextFs, item: PendingItem, planned: Result<(Path, string), string>, eff: ArchiveEffects)
      requires item.path in f && planned.Ok? && planned.value.0 !in f
      requires eff.move == HonestMove("") && eff.moveBack == HonestMove("")
      ensures var r := ArchiveToPlanned(f, item, planned, eff);
              r.result == Ok(false) && item.path in r.fs && r.fs[item.path] == "" &&
              planned.value.0 !in r.fs && r.errors == [DestinationEmpty(planned.value.0)]
    {
      var (dest, rel) := planned.value;
      var f1 := AfterMove(f, item.path, dest, eff.move);
      assert ArchiveToPlanned(f, item, planned, eff) == AfterArchiveMove(f1, item, dest, rel, eff);
    }

    /** An honest move of a non-empty item to a free destination, with Backlog.md updated, succeeds. */
    lemma HonestArchiveSucceeds(f: TextFs, item: PendingItem, eff: ArchiveEffects)
      requires item.path in f && |f[item.path]| > 0 && PlannedDestination(f, item).Ok?
      requires PlannedDestination(f, item).value.0 !in f
      requires eff.move == HonestMove(f[item.path]) && eff.backlogUpdated
      ensures ArchiveSpec(f, item, eff).result == Ok(true)
    {
      var (dest, rel) := PlannedDestination(f, item).value;
      var f1 := AfterMove(f, item.path, dest, eff.move);
      assert ArchiveSpec(f, item, eff) == AfterArchiveMove(f1, item, dest, rel, eff);
    }

    /** `archive_item`: the new state is the one `ArchiveSpec` describes. */
    method ArchiveItem(item: PendingItem, eff: ArchiveEffects) returns (r: Result<bool, string>)
      modifies this
      ensures var want := ArchiveSpec(old(fs), item, eff);
              && fs == want.fs && r == want.result
              && errors == old(errors) + want.errors
              && operationLog == old(operationLog) + OptionSeq(want.record)
    {
      if item.path !in fs {
        errors := errors + [SourceNotFound(item.path)];
        return Ok(false);
      }
      var planned := PlannedDestination(fs, item);
      r := ArchiveToPlannedDestination(item, planned, eff);
    }

    /** `archive_item` from the point where the destination is known, as `ArchiveToPlanned` describes it. */
    method ArchiveToPlannedDestination(item: PendingItem, planned: Result<(Path, string), string>, eff: ArchiveEffects)
      returns (r: Result<bool, string>)
      requires item.path in fs
      modifies this
      ensures var want := ArchiveToPlanned(old(fs), item, planned, eff);
              && fs == want.fs && r == want.result
              && errors == old(errors) + want.errors
              && operationLog == old(operationLog) + OptionSeq(want.record)
    {
      if planned.Err? {
        return Err(planned.error);
      }
      var (dest, rel) := planned.value;
      if dest in fs {
        errors := errors + [DestinationExists(dest)];
        return Ok(false);
      }
      fs := AfterMove(fs, item.path, dest, eff.move);
      r := FinishArchive(item, dest, rel, eff);
    }

    /** The part of `archive_item` after the move, as `AfterArchiveMove` describes it. */
    method FinishArchive(item: PendingItem, dest: Path, rel: string, eff: ArchiveEffects) returns (r: Result<bool, string>)
      requires item.path != dest
      modifies this
      ensures var want := AfterArchiveMove(old(fs), item, dest, rel, eff);
              && fs == want.fs && r == want.result
              && errors == old(errors) + want.errors
              && operationLog == old(operationLog) + OptionSeq(want.record)
    {
      var source := item.path;
      if eff.move.raised {
        errors := errors + [ArchiveFailed(item.id)];
        return Ok(false);
      }
      var failure := MoveCheck(fs, source, dest);
      if failure.Some? {
        errors := errors + [failure.value];
        if dest in fs && source !in fs {
          fs := AfterMove(fs, dest, source, eff.moveBack);
          if eff.moveBack.raised {
            errors := errors + [ArchiveFailed(item.id)];
          }
        }
        return Ok(false);
      }
      if eff.backlogUpdated {
        operationLog := operationLog + [ArchiveRecord(item.id, source, dest, rel)];
        return Ok(true);
      }
      errors := errors + [BacklogUpdateFailed(item.id)];
      fs := AfterMove(fs, dest, source, eff.moveBack);
      if eff.moveBack.raised {
        errors := errors + [ArchiveFailed(item.id)];
      }
      return Ok(false);
    }

    /** A real run of `run_auto_archive`: `archive_item` on each row in turn, until one raises. */
    function ArchiveAll(f: TextFs, items: seq<PendingItem>, effects: seq<ArchiveEffects>): (run: ArchiveRun)
      requires |effects| == |items|
      ensures run.raised.None? ==> run.archived + run.failed == |items|
      ensures run.raised.Some? ==> run.archived + run.failed < |items|
      decreases |items|
    {
      if items == [] then ArchiveRun(f, [], [], 0, 0, None)
      else
        var n := |items| - 1;
        var prev := ArchiveAll(f, items[..n], effects[..n]);
        if prev.raised.Some? then prev
        else ApplyOutcome(prev, ArchiveSpec(prev.fs, items[n], effects[n]))
    }

    /** One more row runs its `archive_item` unless an earlier one raised. */
    lemma ArchiveAllStep(f: TextFs, items: seq<PendingItem>, effects: seq<ArchiveEffects>, i: nat)
      requires |effects| == |items| && i < |items|
      ensures var prev := ArchiveAll(f, items[..i], effects[..i]);
              ArchiveAll(f, items[..i + 1], effects[..i + 1])
                == if prev.raised.Some? then prev else ApplyOutcome(prev, ArchiveSpec(prev.fs, items[i], effects[i]))
    {
      assert items[..i + 1][..i] == items[..i] && effects[..i + 1][..i] == effects[..i];
    }

    /** Once a row has raised, the rest of the rows change nothing. */
    lemma {:induction false} RaisedStops(f: TextFs, items: seq<PendingItem>, effects: seq<ArchiveEffects>, i: nat)
      requires |effects| == |items| && i <= |items|
      requires ArchiveAll(f, items[..i], effects[..i]).raised.Some?
      ensures ArchiveAll(f, items, effects) == ArchiveAll(f, items[..i], effects[..i])
      decreases |items| - i
    {
      if i < |items| {
        ArchiveAllStep(f, items, effects, i);
        RaisedStops(f, items, effects, i + 1);
      } else {
        assert items[..i] == items && effects[..i] == effects;
      }
    }

    /** Row `k` raises: every earlier row returned, and its own `archive_item` raises. */
    predicate RaisesAt(f: TextFs, items: seq<PendingItem>, effects: seq<ArchiveEffects>, k: nat)
      requires |effects| == |items| && k < |items|
    {
      var prev := ArchiveAll(f, items[..k], effects[..k]);
      prev.raised.None? && ArchiveSpec(prev.fs, items[k], effects[k]).result.Err?
    }

    /** A real run raises exactly when some row raises after every earlier row has returned. */
    lemma {:induction false} RaisedIffSomeItemRaises(f: TextFs, items: seq<PendingItem>, effects: seq<ArchiveEffects>)
      requires |effects| == |items|
      ensures ArchiveAll(f, items, effects).raised.Some? <==> exists k :: 0 <= k < |items| && RaisesAt(f, items, effects, k)
      decreases |items|
    {
      if items != [] {
        var n := |items| - 1;
        RaisedIffSomeItemRaises(f, items[..n], effects[..n]);
        var prev := ArchiveAll(f, items[..n], effects[..n]);
        if prev.raised.Some? {
          var k :| 0 <= k < n && RaisesAt(f, items[..n], effects[..n], k);
          RaisesAtPrefix(f, items, effects, n, k);
          RaisedStops(f, items, effects, n);
        } else {
          forall k | 0 <= k < n ensures !RaisesAt(f, items, effects, k) {
            RaisesAtPrefix(f, items, effects, n, k);
          }
          LastRowDecides(f, items, effects);
        }
      }
    }

    /** Whether row `k` raises does not depend on the rows after it. */
    lemma RaisesAtPrefix(f: TextFs, items: seq<PendingItem>, effects: seq<ArchiveEffects>, n: nat, k: nat)
      requires |effects| == |items| && k < n <= |items|
      ensures RaisesAt(f, items[..n], effects[..n], k) == RaisesAt(f, items, effects, k)
    {
      assert items[..n][..k] == items[..k] && effects[..n][..k] == effects[..k];
    }

    /** When no earlier row raised, the run raises exactly when the last row does. */
    lemma LastRowDecides(f: TextFs, items: seq<PendingItem>, effects: seq<ArchiveEffects>)
      requires |effects| == |items| && items != []
      requires ArchiveAll(f, items[..|items| - 1], effects[..|items| - 1]).raised.None?
      requires forall k :: 0 <= k < |items| - 1 ==> !RaisesAt(f, items, effects, k)
      ensures ArchiveAll(f, items, effects).raised.Some? <==> exists k :: 0 <= k < |items| && RaisesAt(f, items, effects, k)
    {
      var n := |items| - 1;
      var prev := ArchiveAll(f, items[..n], effects[..n]);
      var w := ArchiveSpec(prev.fs, items[n], effects[n]);
      ArchiveAllStep(f, items, effects, n);
      assert items[..n + 1] == items && effects[..n + 1] == effects;
      assert ArchiveAll(f, items, effects) == ApplyOutcome(prev, w);
      assert RaisesAt(f, items, effects, n) <==> w.result.Err?;
      if !w.result.Err? {
        forall k | 0 <= k < |items| ensures !RaisesAt(f, items, effects, k) {
          if k == n {
            assert !RaisesAt(f, items, effects, n);
          }
        }
      }
    }

    /** Every row that returned adds one operation record exactly when it was archived. */
    lemma {:induction false} RecordsAreArchived(f: TextFs, items: seq<PendingItem>, effects: seq<ArchiveEffects>)
      requires |effects| == |items|
      ensures |ArchiveAll(f, items, effects).records| == ArchiveAll(f, items, effects).archived
      decreases |items|
    {
      if items != [] {
        var n := |items| - 1;
        RecordsAreArchived(f, items[..n], effects[..n]);
      }
    }

    /**
      `run_auto_archive` over the completed rows. A dry run counts every
      item as archived and touches nothing; a real run is `ArchiveAll`: it
      archives each item in turn and stops with Err if one raises outside
      the item's own handler.
    */
    method RunAutoArchive(items: seq<PendingItem>, dryRun: bool, effects: seq<ArchiveEffects>) returns (res: Result<RunResults, string>)
      requires |effects| == |items|
      modifies this
      ensures res.Ok? ==> res.value.processed == |items|
      ensures |items| == 0 ==> res == Ok(RunResults(0, 0, 0, [], [])) && fs == old(fs) && errors == old(errors) && operationLog == old(operationLog)
      ensures dryRun ==> fs == old(fs) && errors == old(errors) && operationLog == old(operationLog)
      ensures dryRun && |items| > 0 ==> res == Ok(RunResults(|items|, |items|, 0, errors, operationLog))
      ensures !dryRun && |items| > 0 ==>
                var run := ArchiveAll(old(fs), items, effects);
                && fs == run.fs && errors == old(errors) + run.errors && operationLog == old(operationLog) + run.records
                && res == match run.raised
                          case Some(e) => Err(e)
                          case None => Ok(RunResults(|items|, run.archived, run.failed, errors, operationLog))
      ensures !dryRun && |items| > 0 && res.Ok? ==> res.value.archived + res.value.failed == res.value.processed
    {
      if |items| == 0 {
        return Ok(RunResults(0, 0, 0, [], []));
      }
      if dryRun {
        return Ok(RunResults(|items|, |items|, 0, errors, operationLog));
      }
      var archived, failed := 0, 0;
      for i := 0 to |items|
        invariant var run := ArchiveAll(old(fs), items[..i], effects[..i]);
                  && run.raised.None? && archived == run.archived && failed == run.failed
                  && fs == run.fs && errors == old(errors) + run.errors && operationLog == old(operationLog) + run.records
      {
        var r := ArchiveNext(old(fs), old(errors), old(operationLog), items, effects, i);
        if r.Err? {
          RaisedStops(old(fs), items, effects, i + 1);
          return Err(r.error);
        }
        if r.value {
          archived := archived + 1;
        } else {
          failed := failed + 1;
        }
      }
      assert items[..|items|] == items && effects[..|effects|] == effects;
      return Ok(RunResults(|items|, archived, failed, errors, operationLog));
    }

    /** One turn of the loop of a real `run_auto_archive`: `archive_item` on `items[i]`. */
    method ArchiveNext(ghost fs0: TextFs, ghost errors0: seq<ArchiveError>, ghost log0: seq<ArchiveRecord>,
                       items: seq<PendingItem>, effects: seq<ArchiveEffects>, i: nat) returns (r: Result<bool, string>)
      requires |effects| == |items| && i < |items|
      requires var run := ArchiveAll(fs0, items[..i], effects[..i]);
               run.raised.None? && fs == run.fs && errors == errors0 + run.errors && operationLog == log0 + run.records
      modifies this
      ensures var prev, run := ArchiveAll(fs0, items[..i], effects[..i]), ArchiveAll(fs0, items[..i + 1], effects[..i + 1]);
              && fs == run.fs && errors == errors0 + run.errors && operationLog == log0 + run.records
              && (r.Err? ==> run.raised == Some(r.error))
              && (r.Ok? ==> run.raised.None? && run.archived == prev.archived + (if r.value then 1 else 0)
                                             && run.failed == prev.failed + (if r.value then 0 else 1))
    {
      ghost var prev := ArchiveAll(fs0, items[..i], effects[..i]);
      ghost var w := ArchiveSpec(fs, items[i], effects[i]);
      ArchiveAllStep(fs0, items, effects, i);
      AppendAfterLog(errors0, prev.errors, w.errors);
      AppendAfterLog(log0, prev.records, OptionSeq(w.record));
      r := ArchiveItem(items[i], effects[i]);
    }
  }
}
