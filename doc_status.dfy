/**
  `DocumentationSyncManager` from scripts/sync_documentation_status.py:
  the status of implementation plans read from vertical-slice items, the
  summary counts, and the filter over internal documentation links.

  File contents and the `[text](path)` links found in each markdown file are
  inputs; whether a link target exists is a parameter. Timestamps and
  logging are left out.
*/
module DocStatus {

  import opened Wrappers
  import opened Strings
  import opened FileSystem

  const Completed: string := "COMPLETED"
  const InProgress: string := "IN_PROGRESS"
  const NotStarted: string := "NOT_STARTED"

  /** An implementation plan as the parser records it (the file path, next action and date are left out). */
  datatype ImplementationPlan = ImplementationPlan(name: string, status: string, progress: nat)

  /** The status and progress read from a plan's text: completed markers win over in-progress ones. */
  function ClassifyPlan(content: string): (r: (string, nat))
    ensures r.0 == Completed || r.0 == InProgress || r.0 == NotStarted
    ensures r.1 == 100 <==> r.0 == Completed
    ensures r.1 == 50 <==> r.0 == InProgress
    ensures r.1 == 0 <==> r.0 == NotStarted
  {
    if Contains(content, "✅ COMPLETED") || Contains(content, "Phase 1 COMPLETED") then (Completed, 100)
    else if Contains(content, "🚧 IN PROGRESS") || Contains(content, "ACTIVE") then (InProgress, 50)
    else (NotStarted, 0)
  }

  /** The precedence of the markers: a completed marker decides, an in-progress marker decides only without one. */
  lemma ClassifyPrecedence(content: string)
    ensures Contains(content, "Phase 1 COMPLETED") ==> ClassifyPlan(content).0 == Completed
    ensures ClassifyPlan(content).0 == Completed <==> Contains(content, "✅ COMPLETED") || Contains(content, "Phase 1 COMPLETED")
    ensures ClassifyPlan(content).0 == InProgress <==>
              && !Contains(content, "✅ COMPLETED") && !Contains(content, "Phase 1 COMPLETED")
              && (Contains(content, "🚧 IN PROGRESS") || Contains(content, "ACTIVE"))
  {
  }

  /** A text that says `ACTIVE` and `✅ COMPLETED` is completed. */
  lemma CompletedBeatsActive(content: string)
    requires Contains(content, "ACTIVE") && Contains(content, "✅ COMPLETED")
    ensures ClassifyPlan(content) == (Completed, 100)
  {
  }

  /** `stem.replace('VS_', '').replace('_', ' ')`. */
  function PlanName(stem: string): (r: string)
    ensures '_' !in r
  {
    ReplaceRemovesChar(Replace(stem, "VS_", ""), '_', " ");
    Replace(Replace(stem, "VS_", ""), "_", " ")
  }

  /** A `VS_*.md` file of the items folder: its stem and its text, or `None` when reading it failed. */
  datatype PlanFile = PlanFile(stem: string, content: Option<string>)

  /** The plans parsed from the files, in file order; unreadable files are skipped. */
  function PlansOf(files: seq<PlanFile>): (r: seq<ImplementationPlan>)
    ensures |r| <= |files|
    ensures forall k :: 0 <= k < |r| ==> r[k].status in {Completed, InProgress, NotStarted}
    decreases |files|
  {
    if files == [] then []
    else
      var f := files[|files| - 1];
      PlansOf(files[..|files| - 1]) +
      (match f.content
       case None => []
       case Some(c) => [ImplementationPlan(PlanName(f.stem), ClassifyPlan(c).0, ClassifyPlan(c).1)])
  }

  /** `_parse_implementation_plans`: no plans without the items folder. */
  method ParseImplementationPlans(itemsDirExists: bool, files: seq<PlanFile>) returns (plans: seq<ImplementationPlan>)
    ensures !itemsDirExists ==> plans == []
    ensures itemsDirExists ==> plans == PlansOf(files)
  {
    if !itemsDirExists {
      return [];
    }
    plans := [];
    for i := 0 to |files|
      invariant plans == PlansOf(files[..i])
    {
      assert files[..i + 1][..i] == files[..i];
      var f := files[i];
      match f.content {
        case None =>
        case Some(content) =>
          var (status, progress) := ClassifyPlan(content);
          plans := plans + [ImplementationPlan(PlanName(f.stem), status, progress)];
      }
    }
    assert files[..|files|] == files;
  }

  /** Every parsed plan is complete exactly when its progress is 100. */
  lemma {:induction false} ParsedProgress(files: seq<PlanFile>)
    ensures forall k :: 0 <= k < |PlansOf(files)| ==>
              (PlansOf(files)[k].progress == 100 <==> PlansOf(files)[k].status == Completed)
    decreases |files|
  {
    if files != [] {
      ParsedProgress(files[..|files| - 1]);
    }
  }

  // ---------------------------------------------------------------------
  // The summary

  /** How many of the statuses equal `s`. */
  function CountStatus(statuses: seq<string>, s: string): (n: nat)
    ensures n <= |statuses|
  {
    if statuses == [] then 0 else (if statuses[0] == s then 1 else 0) + CountStatus(statuses[1..], s)
  }

  function StatusesOf(plans: seq<ImplementationPlan>): (r: seq<string>)
    ensures |r| == |plans|
    ensures forall k :: 0 <= k < |r| ==> r[k] == plans[k].status
  {
    if plans == [] then [] else [plans[0].status] + StatusesOf(plans[1..])
  }

  /** Plans counted as completed: `COMPLETED` or `REFERENCE IMPLEMENTATION`. */
  function CompletedPlans(plans: seq<ImplementationPlan>): nat {
    CountStatus(StatusesOf(plans), Completed) + CountStatus(StatusesOf(plans), "REFERENCE IMPLEMENTATION")
  }

  /** Plans counted as in progress by the summary as written: the status `IN PROGRESS`, with a space. */
  function InProgressPlansAsWritten(plans: seq<ImplementationPlan>): nat {
    CountStatus(StatusesOf(plans), "IN PROGRESS")
  }

  /** Plans in progress in either spelling, including the parser's `IN_PROGRESS`. */
  function InProgressPlans(plans: seq<ImplementationPlan>): nat {
    CountStatus(StatusesOf(plans), InProgress) + CountStatus(StatusesOf(plans), "IN PROGRESS")
  }

  /** The summary of `_create_status_summary` (without its timestamp). */
  datatype DocumentationStatus = DocumentationStatus(
    totalActionItems: nat, completedActionItems: nat,
    totalImplementationPlans: nat, completedImplementationPlans: nat, inProgressImplementationPlans: nat,
    brokenLinks: seq<string>)

  /** `_create_status_summary` as written: in progress means the status `IN PROGRESS`, with a space. */
  function CreateStatusSummary(actionStatuses: seq<string>, plans: seq<ImplementationPlan>, brokenLinks: seq<string>): (r: DocumentationStatus)
    ensures r.completedActionItems <= r.totalActionItems == |actionStatuses|
    ensures r.totalImplementationPlans == |plans|
    ensures r.completedImplementationPlans + r.inProgressImplementationPlans <= r.totalImplementationPlans
    ensures r.brokenLinks == brokenLinks
  {
    StatusesDisjointBound(StatusesOf(plans), [Completed, "REFERENCE IMPLEMENTATION", "IN PROGRESS", InProgress]);
    DocumentationStatus(|actionStatuses|, CountStatus(actionStatuses, Completed),
                        |plans|, CompletedPlans(plans), InProgressPlansAsWritten(plans), brokenLinks)
  }

  /** The summary with the corrected count, which also sees the parser's `IN_PROGRESS` plans. */
  function CorrectedStatusSummary(actionStatuses: seq<string>, plans: seq<ImplementationPlan>, brokenLinks: seq<string>): (r: DocumentationStatus)
    ensures r.completedActionItems <= r.totalActionItems == |actionStatuses|
    ensures r.totalImplementationPlans == |plans|
    ensures r.completedImplementationPlans + r.inProgressImplementationPlans <= r.totalImplementationPlans
    ensures r.brokenLinks == brokenLinks
  {
    StatusesDisjointBound(StatusesOf(plans), [Completed, "REFERENCE IMPLEMENTATION", InProgress, "IN PROGRESS"]);
    DocumentationStatus(|actionStatuses|, CountStatus(actionStatuses, Completed),
                        |plans|, CompletedPlans(plans), InProgressPlans(plans), brokenLinks)
  }

  /** The sum of the counts of distinct statuses. */
  function CountAll(statuses: seq<string>, ss: seq<string>): nat {
    if ss == [] then 0 else CountStatus(statuses, ss[0]) + CountAll(statuses, ss[1..])
  }

  /** Counting distinct statuses counts each item at most once. */
  lemma {:induction false} StatusesDisjointBound(statuses: seq<string>, ss: seq<string>)
    requires forall i, j :: 0 <= i < j < |ss| ==> ss[i] != ss[j]
    ensures CountAll(statuses, ss) <= |statuses|
    ensures |ss| == 4 ==> CountAll(statuses, ss) == CountStatus(statuses, ss[0]) + CountStatus(statuses, ss[1]) + CountStatus(statuses, ss[2]) + CountStatus(statuses, ss[3])
    decreases |statuses|
  {
    if |ss| == 4 {
      assert ss[1..][0] == ss[1] && ss[1..][1..][0] == ss[2] && ss[1..][1..][1..][0] == ss[3] && ss[1..][1..][1..][1..] == [];
    }
    if statuses == [] {
      CountAllOfNothing(ss);
    } else {
      StatusesDisjointBound(statuses[1..], ss);
      CountAllHead(statuses, ss);
    }
  }

  lemma {:induction false} CountAllOfNothing(ss: seq<string>)
    ensures CountAll([], ss) == 0
    decreases |ss|
  {
    if ss != [] {
      CountAllOfNothing(ss[1..]);
    }
  }

  /** The first status counts in at most one of the distinct buckets. */
  lemma {:induction false} CountAllHead(statuses: seq<string>, ss: seq<string>)
    requires statuses != []
    requires forall i, j :: 0 <= i < j < |ss| ==> ss[i] != ss[j]
    ensures CountAll(statuses, ss) == CountAll(statuses[1..], ss) + (if statuses[0] in ss then 1 else 0)
    decreases |ss|
  {
    if ss != [] {
      CountAllHead(statuses, ss[1..]);
      assert statuses[0] in ss[1..] ==> statuses[0] != ss[0] by {
        if statuses[0] in ss[1..] {
          var j :| 0 <= j < |ss[1..]| && ss[1..][j] == statuses[0];
          assert ss[j + 1] == statuses[0];
        }
      }
      assert statuses[0] in ss <==> statuses[0] == ss[0] || statuses[0] in ss[1..] by {
        assert ss == [ss[0]] + ss[1..];
      }
    }
  }

  /** `planned_features` of `_update_implementation_status_tracker`. */
  function PlannedFeatures(s: DocumentationStatus): int {
    s.totalImplementationPlans - s.completedImplementationPlans - s.inProgressImplementationPlans
  }

  /** No parsed plan has the status `IN PROGRESS`, so the summary as written never counts a plan in progress. */
  lemma {:induction false} ParsedPlansNeverInProgressAsWritten(actionStatuses: seq<string>, files: seq<PlanFile>, brokenLinks: seq<string>)
    ensures InProgressPlansAsWritten(PlansOf(files)) == 0
    ensures CreateStatusSummary(actionStatuses, PlansOf(files), brokenLinks).inProgressImplementationPlans == 0
  {
    var st := StatusesOf(PlansOf(files));
    NoneCounted(st, "IN PROGRESS");
  }

  /**
    As written, the planned features of parsed plans are the plans not
    started together with the plans in progress.
  */
  lemma {:induction false} PlannedAsWrittenIncludesInProgress(actionStatuses: seq<string>, files: seq<PlanFile>, brokenLinks: seq<string>)
    ensures var plans := PlansOf(files);
            PlannedFeatures(CreateStatusSummary(actionStatuses, plans, brokenLinks))
              == CountStatus(StatusesOf(plans), NotStarted) + CountStatus(StatusesOf(plans), InProgress)
  {
    var plans := PlansOf(files);
    var st := StatusesOf(plans);
    NoneCounted(st, "REFERENCE IMPLEMENTATION");
    NoneCounted(st, "IN PROGRESS");
    ThreeStatuses(st);
  }

  lemma {:induction false} NoneCounted(statuses: seq<string>, s: string)
    requires forall k :: 0 <= k < |statuses| ==> statuses[k] != s
    ensures CountStatus(statuses, s) == 0
    decreases |statuses|
  {
    if statuses != [] {
      NoneCounted(statuses[1..], s);
    }
  }

  /** An `ACTIVE` vertical slice is in progress, yet the count as written does not see it. */
  lemma ActiveSliceMissedAsWritten()
    ensures var plans := PlansOf([PlanFile("VS_001_Board", Some("ACTIVE"))]);
            && CreateStatusSummary([], plans, []).inProgressImplementationPlans == 0
            && PlannedFeatures(CreateStatusSummary([], plans, [])) == 1
            && CorrectedStatusSummary([], plans, []).inProgressImplementationPlans == 1
            && PlannedFeatures(CorrectedStatusSummary([], plans, [])) == 0
  {
    var plans := PlansOf([PlanFile("VS_001_Board", Some("ACTIVE"))]);
    ActiveSliceParsed();
    SingleStatusCounts(StatusesOf(plans));
  }

  /** The `ACTIVE` slice parses to one plan in progress. */
  lemma ActiveSliceParsed()
    ensures var plans := PlansOf([PlanFile("VS_001_Board", Some("ACTIVE"))]);
            |plans| == 1 && StatusesOf(plans) == [InProgress]
  {
    var files := [PlanFile("VS_001_Board", Some("ACTIVE"))];
    assert OccursAt("ACTIVE", "ACTIVE", 0);
    assert files[..0] == [];
    var plans := PlansOf(files);
    assert |plans| == 1 && plans[0].status == InProgress;
  }

  /** The counts of a single in-progress status. */
  lemma SingleStatusCounts(st: seq<string>)
    requires st == [InProgress]
    ensures CountStatus(st, InProgress) == 1
    ensures CountStatus(st, "IN PROGRESS") == 0 && CountStatus(st, Completed) == 0
    ensures CountStatus(st, "REFERENCE IMPLEMENTATION") == 0
  {
    assert st[1..] == [];
  }

  /**
    With the corrected count, the planned features of parsed plans are
    exactly the plans not started.
  */
  lemma {:induction false} PlannedAreNotStarted(actionStatuses: seq<string>, files: seq<PlanFile>, brokenLinks: seq<string>)
    ensures var plans := PlansOf(files);
            PlannedFeatures(CorrectedStatusSummary(actionStatuses, plans, brokenLinks)) == CountStatus(StatusesOf(plans), NotStarted)
  {
    var plans := PlansOf(files);
    var st := StatusesOf(plans);
    NoneCounted(st, "REFERENCE IMPLEMENTATION");
    NoneCounted(st, "IN PROGRESS");
    ThreeStatuses(st);
  }

  /** Statuses drawn from the parser's three add up to their number. */
  lemma {:induction false} ThreeStatuses(st: seq<string>)
    requires forall k :: 0 <= k < |st| ==> st[k] in {Completed, InProgress, NotStarted}
    ensures CountStatus(st, Completed) + CountStatus(st, InProgress) + CountStatus(st, NotStarted) == |st|
    decreases |st|
  {
    if st != [] {
      ThreeStatuses(st[1..]);
    }
  }

  // ---------------------------------------------------------------------
  // Documentation links

  /** A link the checker looks at: not external (`http`, `https`, `mailto`) and not an anchor. */
  predicate IsCheckedLink(link: string) {
    !(StartsWith(link, "http") || StartsWith(link, "https") || StartsWith(link, "mailto")) && !StartsWith(link, "#")
  }

  /** A markdown file under the docs folder: its path relative to it, and the link targets in it (`None` when unreadable). */
  datatype MarkdownFile = MarkdownFile(relPath: Path, links: Option<seq<string>>)

  /** Whether `md_file.parent / link` exists, for a file and one of its links. */
  type TargetExists = (Path, string) -> bool

  function BrokenMessage(file: Path, link: string): string {
    file + ": " + link
  }

  /** The broken links of one file, in link order. */
  function BrokenIn(file: Path, links: seq<string>, exists_: TargetExists): (r: seq<string>)
    ensures |r| <= |links|
    decreases |links|
  {
    if links == [] then []
    else
      var l := links[|links| - 1];
      BrokenIn(file, links[..|links| - 1], exists_) +
      (if IsCheckedLink(l) && !exists_(file, l) then [BrokenMessage(file, l)] else [])
  }

  /** The broken links of all files, file by file. */
  function BrokenLinksOf(files: seq<MarkdownFile>, exists_: TargetExists): seq<string>
    decreases |files|
  {
    if files == [] then []
    else
      var f := files[|files| - 1];
      BrokenLinksOf(files[..|files| - 1], exists_) +
      (match f.links case None => [] case Some(ls) => BrokenIn(f.relPath, ls, exists_))
  }

  /** A message is reported exactly for a checked link of the file whose target does not exist. */
  lemma {:induction false} BrokenInIff(file: Path, links: seq<string>, exists_: TargetExists, m: string)
    ensures m in BrokenIn(file, links, exists_) <==>
            exists l :: l in links && IsCheckedLink(l) && !exists_(file, l) && m == BrokenMessage(file, l)
    decreases |links|
  {
    if links != [] {
      var init, l := links[..|links| - 1], links[|links| - 1];
      BrokenInIff(file, init, exists_, m);
      assert links == init + [l];
    }
  }

  /** External and anchor links are never reported. */
  lemma ExternalNeverBroken(file: Path, links: seq<string>, exists_: TargetExists, l: string)
    requires !IsCheckedLink(l)
    ensures BrokenMessage(file, l) !in BrokenIn(file, links, exists_)
  {
    BrokenInIff(file, links, exists_, BrokenMessage(file, l));
    forall l' | BrokenMessage(file, l') == BrokenMessage(file, l) ensures l' == l {
      assert BrokenMessage(file, l')[|file| + 2..] == l';
      assert BrokenMessage(file, l)[|file| + 2..] == l;
    }
  }

  /** `_check_documentation_links`. */
  method CheckDocumentationLinks(files: seq<MarkdownFile>, exists_: TargetExists) returns (broken: seq<string>)
    ensures broken == BrokenLinksOf(files, exists_)
  {
    broken := [];
    for i := 0 to |files|
      invariant broken == BrokenLinksOf(files[..i], exists_)
    {
      assert files[..i + 1][..i] == files[..i];
      var f := files[i];
      if f.links.Some? {
        var links := f.links.value;
        ghost var before := broken;
        for j := 0 to |links|
          invariant broken == before + BrokenIn(f.relPath, links[..j], exists_)
        {
          assert links[..j + 1][..j] == links[..j];
          var l := links[j];
          if IsCheckedLink(l) && !exists_(f.relPath, l) {
            broken := broken + [BrokenMessage(f.relPath, l)];
          }
        }
        assert links[..|links|] == links;
      }
    }
    assert files[..|files|] == files;
  }
}
