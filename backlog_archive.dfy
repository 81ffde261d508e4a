/**
  `BacklogArchiveVerifier` from scripts/verify_backlog_archive.py: whether an
  item's file sits in the folder its Backlog.md row says it should.

  The folder listings are inputs (the names in `items/`, and the paths under
  `archive/` found recursively), and so is the Backlog.md row of each item
  (its link and status cell) that the table regex would find. The scan for
  `[XX_NNN]` references is modelled directly.
*/
module BacklogArchive {

  import opened Wrappers
  import opened Strings
  import opened FileSystem

  /** The link target and the status cell of an item's Backlog.md row. */
  datatype BacklogRow = BacklogRow(linkedPath: string, statusText: string)

  datatype BacklogStatus = Archived | Active

  datatype ItemStatus =
    | Unknown | CorrectlyArchived | FalseArchiveStatus | DuplicateFiles | MissingFile
    | CorrectlyActive | FalseActiveStatus

  datatype ArchiveVerification = ArchiveVerification(
    itemId: string, status: ItemStatus, inItemsFolder: bool, inArchiveFolder: bool,
    itemsFile: Option<Path>, archivePath: Option<Path>, backlogStatus: Option<BacklogStatus>,
    passed: bool, errors: seq<string>, warnings: seq<string>)

  /** Backlog.md as far as the verifier reads it: its text, and the parsed row of each item the row regex finds. */
  datatype BacklogFile = BacklogFile(content: string, rows: map<string, BacklogRow>)

  /** The two glob patterns the verifier lists with: `{id}_*.md` in `items/`, `*{id}*.md` under `archive/`. */
  datatype Glob = IdUnderscoreMd(id: string) | ContainsIdMd(id: string)

  predicate GlobMatches(g: Glob, name: string) {
    match g
    case IdUnderscoreMd(id) => MatchesIdUnderscoreMd(name, id)
    case ContainsIdMd(id) => MatchesContainsIdMd(name, id)
  }

  /** The first path of the listing whose name matches `g`. */
  function FirstMatch(listing: seq<Path>, g: Glob): (r: Option<Path>)
    ensures r.Some? <==> exists i :: 0 <= i < |listing| && GlobMatches(g, BaseName(listing[i]))
    ensures r.Some? ==> r.value in listing && GlobMatches(g, BaseName(r.value))
  {
    if listing == [] then None
    else if GlobMatches(g, BaseName(listing[0])) then Some(listing[0])
    else
      var r := FirstMatch(listing[1..], g);
      assert forall i :: 1 <= i < |listing| ==> listing[i] == listing[1..][i - 1];
      r
  }

  /** A row marks its item archived when the status holds `ARCHIVED` or the link, lower-cased, holds `archive`. */
  function StatusOfRow(row: BacklogRow): BacklogStatus {
    if Contains(row.statusText, "ARCHIVED") || Contains(Lower(row.linkedPath), "archive") then Archived else Active
  }

  /** The decision table of `verify_archive_operation`: status, whether it passed, errors and warnings. */
  function Classify(itemId: string, markedArchived: bool, inItems: bool, inArchive: bool)
    : (r: (ItemStatus, bool, seq<string>, seq<string>))
    ensures r.1 <==> r.0 == CorrectlyArchived || r.0 == CorrectlyActive
    ensures |r.2| + |r.3| <= 1
    ensures |r.3| == 1 <==> r.0 == FalseActiveStatus
    ensures |r.2| == 1 <==> r.0 == FalseArchiveStatus || r.0 == DuplicateFiles || r.0 == MissingFile
  {
    if markedArchived then
      if inArchive && !inItems then (CorrectlyArchived, true, [], [])
      else if inItems && !inArchive then (FalseArchiveStatus, false, [itemId + " marked as archived but still in items folder"], [])
      else if inItems && inArchive then (DuplicateFiles, false, [itemId + " exists in both items and archive folders"], [])
      else (MissingFile, false, [itemId + " marked as archived but file not found anywhere"], [])
    else
      if inItems && !inArchive then (CorrectlyActive, true, [], [])
      else if inArchive && !inItems then (FalseActiveStatus, false, [], [itemId + " in archive but marked as active"])
      else if inItems && inArchive then (DuplicateFiles, false, [itemId + " exists in both items and archive folders"], [])
      else (Unknown, false, [], [])
  }

  /**
    `verify_archive_operation` for `itemId`, given the names in `items/`, the
    paths under `archive/`, and Backlog.md when it exists.
  */
  function VerifyArchiveOperation(itemId: string, itemsListing: seq<Path>, archiveListing: seq<Path>, backlog: Option<BacklogFile>)
    : ArchiveVerification
  {
    var itemsFile := FirstMatch(itemsListing, IdUnderscoreMd(itemId));
    var archivePath := FirstMatch(archiveListing, ContainsIdMd(itemId));
    var backlogStatus :=
      if backlog.Some? && itemId in backlog.value.rows then Some(StatusOfRow(backlog.value.rows[itemId])) else None;
    var (status, passed, errors, warnings) :=
      Classify(itemId, backlogStatus == Some(Archived), itemsFile.Some?, archivePath.Some?);
    ArchiveVerification(itemId, status, itemsFile.Some?, archivePath.Some?, itemsFile, archivePath, backlogStatus,
                        passed, errors, warnings)
  }

  /**
    The item is in `items/` when some name there matches `{id}_*.md`, in the
    archive when some name there matches `*{id}*.md`, and has a backlog status
    when Backlog.md exists and has a row for it; the outcome is the table's.
  */
  lemma VerificationFacts(itemId: string, itemsListing: seq<Path>, archiveListing: seq<Path>, backlog: Option<BacklogFile>)
    ensures var r := VerifyArchiveOperation(itemId, itemsListing, archiveListing, backlog);
            && r.itemId == itemId
            && (r.inItemsFolder <==> exists i :: 0 <= i < |itemsListing| && MatchesIdUnderscoreMd(BaseName(itemsListing[i]), itemId))
            && (r.inArchiveFolder <==> exists i :: 0 <= i < |archiveListing| && MatchesContainsIdMd(BaseName(archiveListing[i]), itemId))
            && (r.backlogStatus.Some? <==> backlog.Some? && itemId in backlog.value.rows)
            && (r.status, r.passed, r.errors, r.warnings)
               == Classify(itemId, r.backlogStatus == Some(Archived), r.inItemsFolder, r.inArchiveFolder)
  {
  }

  /**
    A reference definition of passing: the file is in exactly one of the two
    folders, and it is the archive exactly when the backlog marks the item
    archived.
  */
  lemma PassedIffInExpectedFolder(itemId: string, markedArchived: bool, inItems: bool, inArchive: bool)
    ensures Classify(itemId, markedArchived, inItems, inArchive).1 <==> inItems != inArchive && (inArchive <==> markedArchived)
  {
  }

  /**
    The table itself. For an item marked archived: only in the archive passes,
    only in items is a false archive status, in both a duplicate, in neither a
    missing file. Otherwise, with or without a row: only in items passes, only
    in the archive is a false active status with a warning only, in both a
    duplicate, and in neither the status stays unknown with no message.
  */
  lemma ClassificationTable(itemId: string, markedArchived: bool, inItems: bool, inArchive: bool)
    ensures var (s, _, e, w) := Classify(itemId, markedArchived, inItems, inArchive);
            && (markedArchived && !inItems && inArchive ==> s == CorrectlyArchived)
            && (markedArchived && inItems && !inArchive ==> s == FalseArchiveStatus && |e| == 1)
            && (inItems && inArchive ==> s == DuplicateFiles && |e| == 1)
            && (markedArchived && !inItems && !inArchive ==> s == MissingFile && |e| == 1)
            && (!markedArchived && inItems && !inArchive ==> s == CorrectlyActive)
            && (!markedArchived && !inItems && inArchive ==> s == FalseActiveStatus && e == [] && |w| == 1)
            && (!markedArchived && !inItems && !inArchive ==> s == Unknown && e == [] && w == [])
  {
  }

  /** An item without a Backlog.md row is judged as an active one. */
  lemma NoRowMeansActive(itemId: string, itemsListing: seq<Path>, archiveListing: seq<Path>, backlog: Option<BacklogFile>)
    requires backlog.None? || itemId !in backlog.value.rows
    ensures var r := VerifyArchiveOperation(itemId, itemsListing, archiveListing, backlog);
            r.backlogStatus.None? &&
            (r.status, r.passed, r.errors, r.warnings) == Classify(itemId, false, r.inItemsFolder, r.inArchiveFolder)
  {
  }

  // ---------------------------------------------------------------------
  // References in Backlog.md

  predicate IsItemIdAt(s: string, i: int) {
    && 0 <= i && i + 8 <= |s| && s[i] == '[' && IsAsciiUpper(s[i + 1]) && IsAsciiUpper(s[i + 2]) && s[i + 3] == '_'
    && IsDigit(s[i + 4]) && IsDigit(s[i + 5]) && IsDigit(s[i + 6]) && s[i + 7] == ']'
  }

  /** `[A-Z]{2}_\d{3}`. */
  predicate IsItemId(id: string) {
    |id| == 6 && IsAsciiUpper(id[0]) && IsAsciiUpper(id[1]) && id[2] == '_' && AllDigits(id[3..])
  }

  /** `re.findall(r"\[([A-Z]{2}_\d{3})\]", s)`: the ids of the non-overlapping matches, left to right. */
  function ItemReferences(s: string): (r: seq<string>)
    ensures forall k :: 0 <= k < |r| ==> IsItemId(r[k]) && Contains(s, "[" + r[k] + "]")
    decreases |s|
  {
    if |s| < 8 then []
    else if IsItemIdAt(s, 0) then
      var rest := ItemReferences(s[8..]);
      assert s[..8] == "[" + s[1..7] + "]";
      ContainsPrefix(s, s[..8]);
      forall k | 0 <= k < |rest| ensures Contains(s, "[" + rest[k] + "]") {
        assert s[8..|s|] == s[8..];
        ContainsInSlice(s, 8, |s|, "[" + rest[k] + "]");
      }
      [s[1..7]] + rest
    else
      var rest := ItemReferences(s[1..]);
      forall k | 0 <= k < |rest| ensures Contains(s, "[" + rest[k] + "]") {
        assert s[1..|s|] == s[1..];
        ContainsInSlice(s, 1, |s|, "[" + rest[k] + "]");
      }
      rest
  }

  /** A bracketed id at the very start is the first reference found. */
  lemma LeadingReferenceFound(id: string, rest: string)
    requires IsItemId(id)
    ensures ItemReferences("[" + id + "]" + rest) == [id] + ItemReferences(rest)
  {
    var s := "[" + id + "]" + rest;
    assert s[1..7] == id && s[8..] == rest;
    assert IsDigit(s[4]) && IsDigit(s[5]) && IsDigit(s[6]) by {
      assert s[4] == id[3..][0] && s[5] == id[3..][1] && s[6] == id[3..][2];
    }
  }

  // ---------------------------------------------------------------------
  // All items

  datatype AllResults = AllResults(
    totalItemsChecked: nat, verificationPassed: nat, verificationFailed: nat,
    errors: seq<string>, warnings: seq<string>, items: map<string, ArchiveVerification>)

  /** The per-item verifications, in iteration order. */
  function Verifications(ids: seq<string>, itemsListing: seq<Path>, archiveListing: seq<Path>, backlog: Option<BacklogFile>)
    : (vs: seq<ArchiveVerification>)
    ensures |vs| == |ids| && forall k :: 0 <= k < |ids| ==> vs[k] == VerifyArchiveOperation(ids[k], itemsListing, archiveListing, backlog)
  {
    seq(|ids|, k requires 0 <= k < |ids| => VerifyArchiveOperation(ids[k], itemsListing, archiveListing, backlog))
  }

  function CountPassed(vs: seq<ArchiveVerification>): (n: nat)
    ensures n <= |vs|
  {
    if vs == [] then 0 else (if vs[0].passed then 1 else 0) + CountPassed(vs[1..])
  }

  function AllErrors(vs: seq<ArchiveVerification>): seq<string> {
    if vs == [] then [] else vs[0].errors + AllErrors(vs[1..])
  }

  function AllWarnings(vs: seq<ArchiveVerification>): seq<string> {
    if vs == [] then [] else vs[0].warnings + AllWarnings(vs[1..])
  }

  lemma {:induction false} TotalsSnoc(vs: seq<ArchiveVerification>, v: ArchiveVerification)
    ensures CountPassed(vs + [v]) == CountPassed(vs) + (if v.passed then 1 else 0)
    ensures AllErrors(vs + [v]) == AllErrors(vs) + v.errors
    ensures AllWarnings(vs + [v]) == AllWarnings(vs) + v.warnings
    decreases |vs|
  {
    if vs != [] {
      assert (vs + [v])[1..] == vs[1..] + [v];
      TotalsSnoc(vs[1..], v);
    }
  }

  /**
    `verify_all_archives`. `order` is the order in which Python iterates
    `set(matches)`: the distinct references of Backlog.md, each once.
  */
  method VerifyAllArchives(backlog: Option<BacklogFile>, order: seq<string>, itemsListing: seq<Path>, archiveListing: seq<Path>)
    returns (res: AllResults)
    requires backlog.Some? ==> (forall i, j :: 0 <= i < j < |order| ==> order[i] != order[j])
    requires backlog.Some? ==> forall id :: id in order <==> id in ItemReferences(backlog.value.content)
    ensures backlog.None? ==> res == AllResults(0, 0, 0, ["Backlog.md not found"], [], map[])
    ensures backlog.Some? ==>
              && res.totalItemsChecked == |order| == |set id | id in ItemReferences(backlog.value.content)|
              && res.verificationPassed + res.verificationFailed == res.totalItemsChecked
              && res.verificationPassed == CountPassed(Verifications(order, itemsListing, archiveListing, backlog))
              && res.errors == AllErrors(Verifications(order, itemsListing, archiveListing, backlog))
              && res.warnings == AllWarnings(Verifications(order, itemsListing, archiveListing, backlog))
              && res.items.Keys == set id | id in ItemReferences(backlog.value.content)
              && forall id :: id in res.items ==> res.items[id] == VerifyArchiveOperation(id, itemsListing, archiveListing, backlog)
  {
    if backlog.None? {
      return AllResults(0, 0, 0, ["Backlog.md not found"], [], map[]);
    }
    res := VerifyItems(backlog, order, itemsListing, archiveListing);
    OrderCoversReferences(order, ItemReferences(backlog.value.content), res.items);
  }

  /** An iteration order of the distinct references has one entry per reference, and a map keyed by it has the references as keys. */
  lemma OrderCoversReferences(order: seq<string>, refs: seq<string>, items: map<string, ArchiveVerification>)
    requires forall i, j :: 0 <= i < j < |order| ==> order[i] != order[j]
    requires forall id :: id in order <==> id in refs
    requires forall id :: id in items <==> id in order
    ensures |order| == |set id | id in refs|
    ensures items.Keys == set id | id in refs
  {
    DistinctCardinality(order);
    assert (set k | 0 <= k < |order| :: order[k]) == set id | id in refs;
  }

  /** The loop of `verify_all_archives` over the ids in `order`. */
  method VerifyItems(backlog: Option<BacklogFile>, order: seq<string>, itemsListing: seq<Path>, archiveListing: seq<Path>)
    returns (res: AllResults)
    ensures var all := Verifications(order, itemsListing, archiveListing, backlog);
            && res.totalItemsChecked == |order|
            && res.verificationPassed + res.verificationFailed == res.totalItemsChecked
            && res.verificationPassed == CountPassed(all)
            && res.errors == AllErrors(all) && res.warnings == AllWarnings(all)
            && (forall id :: id in res.items <==> id in order)
            && forall id :: id in res.items ==> res.items[id] == VerifyArchiveOperation(id, itemsListing, archiveListing, backlog)
  {
    ghost var all := Verifications(order, itemsListing, archiveListing, backlog);
    res := AllResults(0, 0, 0, [], [], map[]);
    var i := 0;
    while i < |order|
      invariant 0 <= i <= |order|
      invariant res.totalItemsChecked == i && res.verificationPassed + res.verificationFailed == i
      invariant res.verificationPassed == CountPassed(all[..i])
      invariant res.errors == AllErrors(all[..i])
      invariant res.warnings == AllWarnings(all[..i])
      invariant ItemsFor(res.items, order[..i], itemsListing, archiveListing, backlog)
    {
      var v := VerifyArchiveOperation(order[i], itemsListing, archiveListing, backlog);
      assert v == all[i];
      SliceSnoc(all, i);
      SliceSnoc(order, i);
      TotalsSnoc(all[..i], v);
      ItemsForSnoc(res.items, order[..i], order[i], itemsListing, archiveListing, backlog);
      res := AllResults(
        res.totalItemsChecked + 1,
        res.verificationPassed + (if v.passed then 1 else 0),
        res.verificationFailed + (if v.passed then 0 else 1),
        res.errors + v.errors, res.warnings + v.warnings, res.items[order[i] := v]);
      i := i + 1;
    }
    assert all[..|order|] == all && order[..|order|] == order;
  }

  /** The map holds the verification of exactly the ids given. */
  ghost predicate ItemsFor(items: map<string, ArchiveVerification>, ids: seq<string>, itemsListing: seq<Path>, archiveListing: seq<Path>, backlog: Option<BacklogFile>) {
    && (forall id :: id in items <==> id in ids)
    && forall id :: id in items ==> items[id] == VerifyArchiveOperation(id, itemsListing, archiveListing, backlog)
  }

  lemma ItemsForSnoc(items: map<string, ArchiveVerification>, ids: seq<string>, id: string, itemsListing: seq<Path>, archiveListing: seq<Path>, backlog: Option<BacklogFile>)
    requires ItemsFor(items, ids, itemsListing, archiveListing, backlog)
    ensures ItemsFor(items[id := VerifyArchiveOperation(id, itemsListing, archiveListing, backlog)], ids + [id], itemsListing, archiveListing, backlog)
  {
  }

  lemma SliceSnoc<T>(s: seq<T>, i: nat)
    requires i < |s|
    ensures s[..i + 1] == s[..i] + [s[i]]
  {
  }

  /** The elements of a sequence without repeats are as many as its length. */
  lemma {:induction false} DistinctCardinality(s: seq<string>)
    requires forall i, j :: 0 <= i < j < |s| ==> s[i] != s[j]
    ensures |set k | 0 <= k < |s| :: s[k]| == |s|
    decreases |s|
  {
    if s != [] {
      var init := s[..|s| - 1];
      DistinctCardinality(init);
      var a, b := set k | 0 <= k < |init| :: init[k], set k | 0 <= k < |s| :: s[k];
      assert b == a + {s[|s| - 1]};
      assert s[|s| - 1] !in a;
    }
  }
}
