/**
  `DocumentReferenceUpdater` from scripts/update_doc_references.py: rewrites
  references to renamed documents inside markdown files.

  The markdown files are a map from path (relative to the project root) to
  text; the list of files `os.walk` finds is an input. The regular-expression
  substitution over markdown links is a parameter of the updater (`LinkPass`):
  given a text, an old name and a new name, it returns the text after
  `re.sub` and the number of links it matched.
*/
module DocReferences {

  import opened Strings
  import opened FileSystem

  /** A mapping table in the order of its dictionary literal. */
  type Mapping = seq<(string, string)>

  const FileMappings: Mapping := [
    (VerticalPlan, PaddedVerticalPlan),
    ("1_F1_Block_Placement_Implementation_Plan.md", "01_F1_Block_Placement_Implementation_Plan.md"),
    ("2_Move_Block_Feature_Implementation_Plan.md", "02_Move_Block_Feature_Implementation_Plan.md"),
    ("3_F3_Basic_Rule_Engine_Implementation_Plan.md", "03_F3_Basic_Rule_Engine_Implementation_Plan.md"),
    ("4_Animation_System_Implementation_Plan.md", "04_Animation_System_Implementation_Plan.md"),
    ("5_Dotnet_New_Templates_Implementation_Plan.md", "05_Dotnet_New_Templates_Implementation_Plan.md"),
    ("6_Advanced_Logger_And_GameStrapper_Implementation_Plan.md", "06_Advanced_Logger_And_GameStrapper_Implementation_Plan.md"),
    ("7_Dynamic_Logging_UI_Implementation_Plan.md", "07_Dynamic_Logging_UI_Implementation_Plan.md"),
    ("8_Automated_Debug_Console_Implementation_Plan.md", "08_Automated_Debug_Console_Implementation_Plan.md"),
    ("ADR-006_Fin_Task_Consistency.md", "ADR_006_Fin_Task_Consistency.md"),
    ("ADR-007_Enhanced_Functional_Validation_Pattern.md", "ADR_007_Enhanced_Functional_Validation_Pattern.md"),
    ("ADR-008_Anchor_Based_Rule_Engine_Architecture.md", "ADR_008_Anchor_Based_Rule_Engine_Architecture.md"),
    ("Rule_Engine_001_Grid_Scanning_Approach_SUPERSEDED.md", "ADR_001_Grid_Scanning_Approach_SUPERSEDED.md"),
    ("Rule_Engine_002_Anchor_Based_Implementation_Guide.md", "ADR_002_Anchor_Based_Implementation_Guide.md"),
    ("01_Life_Stages.md", "Life_Stages_Design.md"),
    ("02_Personality_System.md", "Personality_System_Design.md"),
    ("03_Luck_System.md", "Luck_System_Design.md"),
    ("04_Block_Narratives.md", "Block_Narratives_Design.md"),
    ("000_Bug_Post_Mortem_Template.md", "TEMPLATE_Bug_Post_Mortem.md"),
    ("000_Bug_Post_Mortem_Examples.md", "EXAMPLE_Bug_Post_Mortem.md"),
    ("003_DI_Container_Presenter_Registration.md", "DI_Container_Presenter_Registration_Bug_Report.md"),
    ("004_SceneRoot_Autoload_Configuration.md", "SceneRoot_Autoload_Configuration_Bug_Report.md"),
    ("005_Block_Placement_Display_Bug.md", "Block_Placement_Display_Bug_Report.md"),
    ("006_F1_Block_Placement_Implementation_Issues.md", "F1_Block_Placement_Implementation_Issues_Report.md"),
    ("Developer_Tooling_Guide.md", "Developer_Tooling_Guide.md")
  ]

  const VerticalPlan: string := "0_Vertical_Slice_Architecture_Plan.md"

  /** `00_Vertical_Slice_Architecture_Plan.md`. */
  const PaddedVerticalPlan: string := "0" + VerticalPlan

  const PathMappings: Mapping := [
    ("4_Bug_PostMortems/", "4_Post_Mortems/"),
    ("3_Implementation_Plan/", "3_Implementation_Plans/"),
    ("5_Architecture_Decision_Records/Developer_Tooling_Guide.md", "6_Guides/Developer_Tooling_Guide.md")
  ]

  /** Neither side of any entry is empty (`str.replace` and `str.count` on an empty pattern are not used). */
  predicate WellFormed(ms: Mapping) {
    forall k :: 0 <= k < |ms| ==> |ms[k].0| > 0 && |ms[k].1| > 0
  }

  lemma TablesWellFormed()
    ensures WellFormed(FileMappings) && WellFormed(PathMappings)
  {
  }

  /** `re.sub` over the links to the old name: the text afterwards and how many links matched. */
  type LinkPass = (string, string, string) -> (string, nat)

  /** The link pattern ends in the old name, so it matches nothing in a text without it. */
  ghost predicate LinksNeedName(linkPass: LinkPass) {
    forall c, oldName, newName :: !Contains(c, oldName) ==> linkPass(c, oldName, newName) == (c, 0)
  }

  // ---------------------------------------------------------------------
  // The rewriting of one text

  /**
    The direct-reference step: every non-overlapping occurrence of the old name is
    replaced, and the change count grows by the number of occurrences.
  */
  function DirectStep(c: string, oldName: string, newName: string): (r: (string, nat))
    requires |oldName| > 0
    ensures r.0 == Replace(c, oldName, newName) && r.1 == Count(c, oldName)
    ensures |r.0| == |c| + r.1 * (|newName| - |oldName|)
    ensures r.1 == 0 <==> !Contains(c, oldName)
    ensures r.1 == 0 ==> r.0 == c
  {
    CountPositiveIffContains(c, oldName);
    ReplaceLength(c, oldName, newName);
    if Contains(c, oldName) then (Replace(c, oldName, newName), Count(c, oldName))
    else
      ReplaceAbsent(c, oldName, newName);
      (c, 0)
  }

  /** One entry of the file-name table: the link pass, then the direct references. */
  function FileStep(linkPass: LinkPass, c: string, oldName: string, newName: string): (r: (string, nat))
    requires |oldName| > 0
    ensures LinksNeedName(linkPass) && !Contains(c, oldName) ==> r == (c, 0)
  {
    var (linked, matches) := linkPass(c, oldName, newName);
    var c1 := if matches > 0 then linked else c;
    var (c2, k) := DirectStep(c1, oldName, newName);
    (c2, matches + k)
  }

  /** The file-name table applied entry by entry: the text and the changes counted so far. */
  function ApplyFileMappings(linkPass: LinkPass, c: string, ms: Mapping): (string, nat)
    requires WellFormed(ms)
    decreases |ms|
  {
    if ms == [] then (c, 0)
    else
      var (c1, k1) := ApplyFileMappings(linkPass, c, ms[..|ms| - 1]);
      var (c2, k2) := FileStep(linkPass, c1, ms[|ms| - 1].0, ms[|ms| - 1].1);
      (c2, k1 + k2)
  }

  /**
    One entry of the folder table: every occurrence of the old folder path is
    replaced; the count grows by how many more times the new path occurs than
    it did in the original text (which may be negative).
  */
  function PathStep(original: string, c: string, oldName: string, newName: string): (r: (string, int))
    requires |oldName| > 0 && |newName| > 0
    ensures r.0 == Replace(c, oldName, newName)
    ensures !Contains(c, oldName) ==> r == (c, 0)
  {
    if Contains(c, oldName) then
      var c2 := Replace(c, oldName, newName);
      (c2, Count(c2, newName) - Count(original, newName))
    else
      ReplaceAbsent(c, oldName, newName);
      (c, 0)
  }

  function ApplyPathMappings(original: string, c: string, ms: Mapping): (string, int)
    requires WellFormed(ms)
    decreases |ms|
  {
    if ms == [] then (c, 0)
    else
      var (c1, k1) := ApplyPathMappings(original, c, ms[..|ms| - 1]);
      var (c2, k2) := PathStep(original, c1, ms[|ms| - 1].0, ms[|ms| - 1].1);
      (c2, k1 + k2)
  }

  /** The text of a file after both tables, and the changes `update_file_references` counted. */
  function Updated(linkPass: LinkPass, original: string, fileMs: Mapping, pathMs: Mapping): (string, int)
    requires WellFormed(fileMs) && WellFormed(pathMs)
  {
    var (c1, k1) := ApplyFileMappings(linkPass, original, fileMs);
    var (c2, k2) := ApplyPathMappings(original, c1, pathMs);
    (c2, k1 + k2)
  }

  /** No key of the table occurs in the text. */
  predicate Untouched(c: string, ms: Mapping) {
    forall k :: 0 <= k < |ms| ==> !Contains(c, ms[k].0)
  }

  /** A text that names none of the old files leaves the file-name table with nothing to do. */
  lemma {:induction false} FileMappingsKeepUntouched(linkPass: LinkPass, c: string, ms: Mapping)
    requires WellFormed(ms) && LinksNeedName(linkPass) && Untouched(c, ms)
    ensures ApplyFileMappings(linkPass, c, ms) == (c, 0)
    decreases |ms|
  {
    if ms != [] {
      var init := ms[..|ms| - 1];
      assert forall k :: 0 <= k < |init| ==> init[k] == ms[k];
      FileMappingsKeepUntouched(linkPass, c, init);
      assert !Contains(c, ms[|ms| - 1].0);
    }
  }

  lemma {:induction false} PathMappingsKeepUntouched(original: string, c: string, ms: Mapping)
    requires WellFormed(ms) && Untouched(c, ms)
    ensures ApplyPathMappings(original, c, ms) == (c, 0)
    decreases |ms|
  {
    if ms != [] {
      var init := ms[..|ms| - 1];
      assert forall k :: 0 <= k < |init| ==> init[k] == ms[k];
      PathMappingsKeepUntouched(original, c, init);
      assert !Contains(c, ms[|ms| - 1].0);
    }
  }

  /** A file naming no old file and no old folder comes out unchanged with no changes counted. */
  lemma UntouchedUnchanged(linkPass: LinkPass, c: string, fileMs: Mapping, pathMs: Mapping)
    requires WellFormed(fileMs) && WellFormed(pathMs) && LinksNeedName(linkPass)
    requires Untouched(c, fileMs) && Untouched(c, pathMs)
    ensures Updated(linkPass, c, fileMs, pathMs) == (c, 0)
  {
    FileMappingsKeepUntouched(linkPass, c, fileMs);
    PathMappingsKeepUntouched(c, c, pathMs);
  }

  // ---------------------------------------------------------------------
  // The rewrite is not idempotent

  /** When the new name contains the old one, a rewritten text still names the old one, so a second run counts again. */
  lemma DirectStepReintroduces(c: string, oldName: string, newName: string)
    requires |oldName| > 0 && Contains(c, oldName) && Contains(newName, oldName)
    ensures Contains(DirectStep(c, oldName, newName).0, oldName)
    ensures DirectStep(DirectStep(c, oldName, newName).0, oldName, newName).1 > 0
  {
    ReplaceKeepsRep(c, oldName, newName);
    ContainsTrans(Replace(c, oldName, newName), newName, oldName);
    CountPositiveIffContains(Replace(c, oldName, newName), oldName);
  }

  /** The first entry of the file-name table holds its key inside its value. */
  lemma FirstMappingContainsKey()
    ensures FileMappings[0] == (VerticalPlan, PaddedVerticalPlan)
    ensures Contains(PaddedVerticalPlan, VerticalPlan)
  {
    assert PaddedVerticalPlan[1..] == VerticalPlan;
    assert OccursAt(PaddedVerticalPlan, VerticalPlan, 1);
  }

  /**
    A bare reference to the vertical-slice plan is padded to `00_` by one
    pass of that entry and to `000_` by a second.
  */
  lemma VerticalPlanPaddedTwice()
    ensures DirectStep(VerticalPlan, VerticalPlan, PaddedVerticalPlan) == (PaddedVerticalPlan, 1)
    ensures DirectStep(PaddedVerticalPlan, VerticalPlan, PaddedVerticalPlan) == ("0" + PaddedVerticalPlan, 1)
  {
    var o, n := VerticalPlan, PaddedVerticalPlan;
    assert o[..|o|] == o && o[|o|..] == [];
    assert Replace(o, o, n) == n;
    assert Count(o, o) == 1;
    assert n[..|o|][1] == '0' && o[1] == '_';
    assert n[..|o|] != o;
    assert n[1..] == o;
    assert Replace(n, o, n) == "0" + n;
    assert Count(n, o) == 1;
  }

  // ---------------------------------------------------------------------
  // Runs over several files

  /** An entry of `changes_made`. */
  datatype ChangeRecord = ChangeRecord(file: Path, changes: int)

  /** The link pass and the two tables an updater works with. */
  datatype Tables = Tables(linkPass: LinkPass, fileMs: Mapping, pathMs: Mapping) {
    predicate Valid() { WellFormed(fileMs) && WellFormed(pathMs) }
  }

  /** The updater's own tables. */
  function DefaultTables(linkPass: LinkPass): (t: Tables)
    ensures t.Valid()
  {
    TablesWellFormed();
    Tables(linkPass, FileMappings, PathMappings)
  }

  /** The text of a file after both tables, and the changes counted. */
  function NewText(t: Tables, original: string): (string, int)
    requires t.Valid()
  {
    Updated(t.linkPass, original, t.fileMs, t.pathMs)
  }

  /** What `update_file_references` returns for a text: 0 when it comes out unchanged. */
  function ChangeOf(t: Tables, original: string): int
    requires t.Valid()
  {
    if NewText(t, original).0 == original then 0 else NewText(t, original).1
  }

  /** A text that names none of the old files or folders reports no change. */
  lemma UntouchedReportsNothing(t: Tables, original: string)
    requires t.Valid() && LinksNeedName(t.linkPass)
    requires Untouched(original, t.fileMs) && Untouched(original, t.pathMs)
    ensures NewText(t, original).0 == original && ChangeOf(t, original) == 0
  {
    UntouchedUnchanged(t.linkPass, original, t.fileMs, t.pathMs);
  }

  /** What `update_file_references` returns for a file of the original tree; 0 for one it cannot read. */
  function FileChange(t: Tables, fs0: map<Path, string>, p: Path): int
    requires t.Valid()
  {
    if p !in fs0 then 0 else ChangeOf(t, fs0[p])
  }

  predicate Changes(t: Tables, fs0: map<Path, string>, p: Path)
    requires t.Valid()
  {
    p in fs0 && NewText(t, fs0[p]).0 != fs0[p]
  }

  /** The tree once each file of `files` whose text changed holds its new text. */
  function Rewritten(t: Tables, fs0: map<Path, string>, files: seq<Path>): (r: map<Path, string>)
    requires t.Valid()
    ensures forall p :: p !in files ==> (p in r <==> p in fs0) && (p in r ==> r[p] == fs0[p])
    ensures forall p :: p in r <==> p in fs0
    decreases |files|
  {
    if files == [] then fs0
    else
      var fs1 := Rewritten(t, fs0, files[..|files| - 1]);
      var p := files[|files| - 1];
      if Changes(t, fs0, p) then fs1[p := NewText(t, fs0[p]).0] else fs1
  }

  /** The `changes_made` entries of a run, in file order: one per file whose text changed. */
  function Records(t: Tables, fs0: map<Path, string>, files: seq<Path>): (r: seq<ChangeRecord>)
    requires t.Valid()
    ensures |r| <= |files|
    decreases |files|
  {
    if files == [] then []
    else
      var p := files[|files| - 1];
      Records(t, fs0, files[..|files| - 1]) +
      (if Changes(t, fs0, p) then [ChangeRecord(p, FileChange(t, fs0, p))] else [])
  }

  /** `files_modified`: the files whose reported changes are positive. */
  function FilesModified(t: Tables, fs0: map<Path, string>, files: seq<Path>): (n: nat)
    requires t.Valid()
    ensures n <= |files|
    decreases |files|
  {
    if files == [] then 0
    else FilesModified(t, fs0, files[..|files| - 1]) + (if FileChange(t, fs0, files[|files| - 1]) > 0 then 1 else 0)
  }

  /** `total_changes`: the sum of the positive reported changes, at least one for each modified file. */
  function TotalChanges(t: Tables, fs0: map<Path, string>, files: seq<Path>): (n: nat)
    requires t.Valid()
    ensures n >= FilesModified(t, fs0, files)
    ensures n == 0 <==> FilesModified(t, fs0, files) == 0
    decreases |files|
  {
    if files == [] then 0
    else
      var k := FileChange(t, fs0, files[|files| - 1]);
      TotalChanges(t, fs0, files[..|files| - 1]) + (if k > 0 then k else 0)
  }

  /** The run totals after one more file: it counts as modified, with its changes, exactly when its changes are positive. */
  lemma CountsStep(t: Tables, fs0: map<Path, string>, files: seq<Path>, i: nat)
    requires t.Valid() && i < |files|
    ensures var pre, post, p := files[..i], files[..i + 1], files[i];
            && FilesModified(t, fs0, post) == FilesModified(t, fs0, pre) + (if FileChange(t, fs0, p) > 0 then 1 else 0)
            && TotalChanges(t, fs0, post) == TotalChanges(t, fs0, pre) + (if FileChange(t, fs0, p) > 0 then FileChange(t, fs0, p) else 0)
  {
    assert files[..i + 1][..i] == files[..i] && files[..i + 1][i] == files[i];
  }

  /** The run's records and files after one more file: it is recorded, and its new text written, exactly when its text changed. */
  lemma RecordsStep(t: Tables, fs0: map<Path, string>, files: seq<Path>, i: nat)
    requires t.Valid() && i < |files|
    ensures var pre, post, p := files[..i], files[..i + 1], files[i];
            && Records(t, fs0, post) == Records(t, fs0, pre) + (if Changes(t, fs0, p) then [ChangeRecord(p, FileChange(t, fs0, p))] else [])
            && Rewritten(t, fs0, post) == if Changes(t, fs0, p) then Rewritten(t, fs0, pre)[p := NewText(t, fs0[p]).0] else Rewritten(t, fs0, pre)
  {
    assert files[..i + 1][..i] == files[..i] && files[..i + 1][i] == files[i];
  }

  /** In a list without repeats, an entry is not among those before it. */
  lemma DistinctNotBefore(files: seq<Path>, i: nat)
    requires i < |files| && forall a, b :: 0 <= a < b < |files| ==> files[a] != files[b]
    ensures files[i] !in files[..i]
  {
    forall j | 0 <= j < i ensures files[..i][j] != files[i] {
      assert files[..i][j] == files[j];
    }
  }

  /** The link pass, then the direct references, for each entry of a file-name table. */
  method RewriteFileNames(linkPass: LinkPass, original: string, ms: Mapping) returns (content: string, changes: nat)
    requires WellFormed(ms)
    ensures (content, changes) == ApplyFileMappings(linkPass, original, ms)
  {
    content, changes := original, 0;
    for i := 0 to |ms|
      invariant (content, changes) == ApplyFileMappings(linkPass, original, ms[..i])
    {
      assert ms[..i + 1][..i] == ms[..i];
      var (oldName, newName) := ms[i];
      var (linked, matches) := linkPass(content, oldName, newName);
      if matches > 0 {
        content := linked;
        changes := changes + matches;
      }
      if Contains(content, oldName) {
        var count := Count(content, oldName);
        content := Replace(content, oldName, newName);
        changes := changes + count;
      }
    }
    assert ms[..|ms|] == ms;
  }

  /** The folder replacements of a path table, counted against the original text. */
  method RewritePaths(original: string, c: string, ms: Mapping) returns (content: string, changes: int)
    requires WellFormed(ms)
    ensures (content, changes) == ApplyPathMappings(original, c, ms)
  {
    content, changes := c, 0;
    for i := 0 to |ms|
      invariant (content, changes) == ApplyPathMappings(original, c, ms[..i])
    {
      assert ms[..i + 1][..i] == ms[..i];
      var (oldPath, newPath) := ms[i];
      if Contains(content, oldPath) {
        content := Replace(content, oldPath, newPath);
        changes := changes + Count(content, newPath) - Count(original, newPath);
      }
    }
    assert ms[..|ms|] == ms;
  }

  class DocumentReferenceUpdater {
    var fs: map<Path, string>
    var changesMade: seq<ChangeRecord>
    const dryRun: bool
    const tables: Tables

    constructor (initial: map<Path, string>, dryRun: bool, linkPass: LinkPass)
      ensures fs == initial && changesMade == [] && this.dryRun == dryRun
      ensures tables == DefaultTables(linkPass) && tables.Valid()
    {
      this.fs := initial;
      this.changesMade := [];
      this.dryRun := dryRun;
      this.tables := DefaultTables(linkPass);
    }

    /**
      `update_file_references`. A file that cannot be read returns 0. A file
      whose text changed is written back unless this is a dry run, and gets a
      `changes_made` entry; an unchanged file returns 0 and records nothing.
    */
    method UpdateFileReferences(path: Path) returns (changes: int)
      requires tables.Valid()
      modifies this
      ensures changes == FileChange(tables, old(fs), path)
      ensures changesMade == old(changesMade) + (if Changes(tables, old(fs), path) then [ChangeRecord(path, changes)] else [])
      ensures fs == if Changes(tables, old(fs), path) && !dryRun then old(fs)[path := NewText(tables, old(fs)[path]).0] else old(fs)
    {
      if path !in fs {
        return 0;
      }
      var original := fs[path];
      var content, fileChanges := RewriteFileNames(tables.linkPass, original, tables.fileMs);
      var pathChanges;
      content, pathChanges := RewritePaths(original, content, tables.pathMs);
      var changesInFile := fileChanges + pathChanges;
      assert (content, changesInFile) == NewText(tables, original);
      if content != original {
        if !dryRun {
          fs := fs[path := content];
        }
        changesMade := changesMade + [ChangeRecord(path, changesInFile)];
        return changesInFile;
      }
      return 0;
    }

    /** One turn of `run`'s loop: the next file is updated, and the run's record grows by that file. */
    method ProcessNext(files: seq<Path>, i: nat, ghost fs0: map<Path, string>, ghost log0: seq<ChangeRecord>) returns (changes: int)
      requires tables.Valid() && i < |files|
      requires files[i] !in files[..i]
      requires changesMade == log0 + Records(tables, fs0, files[..i])
      requires fs == if dryRun then fs0 else Rewritten(tables, fs0, files[..i])
      modifies this
      ensures changes == FileChange(tables, fs0, files[i])
      ensures changesMade == log0 + Records(tables, fs0, files[..i + 1])
      ensures fs == if dryRun then fs0 else Rewritten(tables, fs0, files[..i + 1])
    {
      var p := files[i];
      assert (p in fs <==> p in fs0) && (p in fs ==> fs[p] == fs0[p]);
      ghost var changed, k := Changes(tables, fs0, p), FileChange(tables, fs0, p);
      assert Changes(tables, fs, p) == changed && FileChange(tables, fs, p) == k;
      RecordsStep(tables, fs0, files, i);
      ghost var entry := if changed then [ChangeRecord(p, k)] else [];
      ghost var before := Records(tables, fs0, files[..i]);
      changes := UpdateFileReferences(p);
      assert changesMade == log0 + before + entry;
      assert log0 + before + entry == log0 + (before + entry);
    }

    /**
      `run` over the markdown files found (each listed once): the number of
      files with positive changes and the sum of those changes.
    */
    method Run(files: seq<Path>) returns (filesModified: nat, totalChanges: nat)
      requires tables.Valid()
      requires forall i, j :: 0 <= i < j < |files| ==> files[i] != files[j]
      modifies this
      ensures filesModified == FilesModified(tables, old(fs), files)
      ensures totalChanges == TotalChanges(tables, old(fs), files)
      ensures changesMade == old(changesMade) + Records(tables, old(fs), files)
      ensures fs == if dryRun then old(fs) else Rewritten(tables, old(fs), files)
    {
      ghost var fs0, log0 := fs, changesMade;
      filesModified, totalChanges := 0, 0;
      for i := 0 to |files|
        invariant filesModified == FilesModified(tables, fs0, files[..i])
        invariant totalChanges == TotalChanges(tables, fs0, files[..i])
        invariant changesMade == log0 + Records(tables, fs0, files[..i])
        invariant fs == if dryRun then fs0 else Rewritten(tables, fs0, files[..i])
      {
        DistinctNotBefore(files, i);
        CountsStep(tables, fs0, files, i);
        var changes := ProcessNext(files, i, fs0, log0);
        if changes > 0 {
          filesModified := filesModified + 1;
          totalChanges := totalChanges + changes;
        }
      }
      assert files[..|files|] == files;
    }
  }
}
