/**
  `GitWorkflowEnforcer` from scripts/enforce_git_workflow.py: branch-name
  validation and the pre-commit aggregation. The three git queries (current
  branch, staged changes, commits behind main) are inputs. The long help texts
  of the two error messages are kept to their headline.
*/
module GitWorkflow {

  import opened Wrappers
  import opened Strings

  const ValidBranchPrefixes: seq<string> := ["feat/", "fix/", "docs/", "refactor/", "test/", "chore/", "hotfix/"]

  const ForbiddenBranches: seq<string> := ["main", "master"]

  // The markers: U+274C (a cross), U+1F6A8 (a siren), and U+26A0 U+FE0F (a warning sign).

  /** The headline of the message for work on `main` or `master`, after its leading newline. */
  const MainBranchError: string := "\n\U{1F6A8} CRITICAL ERROR: Working on main branch is FORBIDDEN!"

  function NamingConventionError(name: string): string {
    "\n\U{274C} Invalid branch name: '" + name + "'"
  }

  const UnknownBranchError: string := "\U{274C} Could not determine current branch"

  const NoStagedChangesError: string := "\U{274C} No staged changes detected. Use 'git add <files>' to stage your changes."

  function BehindMainWarning(behindMain: int): string {
    "\U{26A0}\U{FE0F}  Warning: Your branch is " + IntToString(behindMain) + " commits behind main. Consider rebasing: git rebase main"
  }

  function DescriptiveNameError(name: string): string {
    "\U{274C} Branch name '" + name + "' needs a more descriptive name after the prefix.\n"
    + "Example: 'feat/user-authentication' or 'fix/grid-rendering-bug'"
  }

  predicate HasValidPrefix(name: string) {
    exists k :: 0 <= k < |ValidBranchPrefixes| && StartsWith(name, ValidBranchPrefixes[k])
  }

  /** `s.split('/', 1)`. */
  function SplitOnceSlash(s: string): (parts: seq<string>)
    ensures 1 <= |parts| <= 2
    ensures |parts| == 2 <==> '/' in s
    ensures |parts| == 1 ==> parts[0] == s
    ensures |parts| == 2 ==> parts[0] + "/" + parts[1] == s && '/' !in parts[0]
  {
    var k := FirstIndex(s, '/');
    if k == |s| then [s]
    else
      assert forall i :: 0 <= i < |s[..k]| ==> s[..k][i] != '/';
      [s[..k], s[k + 1..]]
  }

  /** `validate_branch_name`: whether the name is valid, and the error message when it is not. */
  function ValidateBranchName(name: string): (r: (bool, string))
    ensures r.0 <==> r.1 == ""
    ensures name == "" ==> r == (false, "Branch name is empty")
    ensures name in ForbiddenBranches ==> r == (false, MainBranchError)
    ensures r.0 ==> HasValidPrefix(name)
  {
    if name == "" then (false, "Branch name is empty")
    else if name in ForbiddenBranches then (false, MainBranchError)
    else if !HasValidPrefix(name) then (false, NamingConventionError(name))
    else
      var parts := SplitOnceSlash(name);
      if |parts| < 2 || |parts[1]| < 3 then (false, DescriptiveNameError(name))
      else (true, "")
  }

  /** Each valid prefix ends at its only `/`. */
  lemma PrefixSlash(k: nat)
    requires k < |ValidBranchPrefixes|
    ensures var p := ValidBranchPrefixes[k];
            |p| > 0 && p[|p| - 1] == '/' && '/' !in p[..|p| - 1]
  {
  }

  /** For a name after a valid prefix, the part after the first `/` is the rest of the name. */
  lemma AfterPrefix(name: string, k: nat)
    requires k < |ValidBranchPrefixes| && StartsWith(name, ValidBranchPrefixes[k])
    ensures var p := ValidBranchPrefixes[k];
            SplitOnceSlash(name) == [p[..|p| - 1], name[|p|..]]
  {
    var p := ValidBranchPrefixes[k];
    PrefixSlash(k);
    var head := p[..|p| - 1];
    assert name == head + name[|p| - 1..];
    FirstIndexAfter(head, '/', name[|p| - 1..]);
    assert name[|p| - 1] == '/';
  }

  /**
    A reference definition: a name is valid exactly when it starts with one of
    the prefixes and at least three characters follow it.
  */
  lemma ValidIffPrefixAndDescription(name: string)
    ensures ValidateBranchName(name).0 <==>
            exists k :: 0 <= k < |ValidBranchPrefixes| && StartsWith(name, ValidBranchPrefixes[k])
                                                  && |name| >= |ValidBranchPrefixes[k]| + 3
  {
    if k :| 0 <= k < |ValidBranchPrefixes| && StartsWith(name, ValidBranchPrefixes[k]) {
      ValidAfterPrefix(name, k);
      forall j | 0 <= j < |ValidBranchPrefixes| && StartsWith(name, ValidBranchPrefixes[j])
        ensures |ValidBranchPrefixes[j]| == |ValidBranchPrefixes[k]|
      {
        SamePrefixLength(name, j, k);
      }
    }
  }

  /** After a valid prefix, the name is valid exactly when at least three characters follow it. */
  lemma ValidAfterPrefix(name: string, k: nat)
    requires k < |ValidBranchPrefixes| && StartsWith(name, ValidBranchPrefixes[k])
    ensures ValidateBranchName(name).0 <==> |name| >= |ValidBranchPrefixes[k]| + 3
  {
    AfterPrefix(name, k);
    PrefixedNotForbidden(name, k);
    assert HasValidPrefix(name);
  }

  /** A name after a valid prefix is neither empty nor `main` nor `master`. */
  lemma PrefixedNotForbidden(name: string, k: nat)
    requires k < |ValidBranchPrefixes| && StartsWith(name, ValidBranchPrefixes[k])
    ensures name != "" && name !in ForbiddenBranches
  {
    var p := ValidBranchPrefixes[k];
    PrefixSlash(k);
    assert name[..|p|] == p;
    assert name[|p| - 1] == '/';
  }

  /** Two valid prefixes of one name have the same length. */
  lemma SamePrefixLength(name: string, j: nat, k: nat)
    requires j < |ValidBranchPrefixes| && StartsWith(name, ValidBranchPrefixes[j])
    requires k < |ValidBranchPrefixes| && StartsWith(name, ValidBranchPrefixes[k])
    ensures |ValidBranchPrefixes[j]| == |ValidBranchPrefixes[k]|
  {
    AfterPrefix(name, j);
    AfterPrefix(name, k);
  }

  /** The empty name, `main` and `master` are invalid, and every invalid result carries a message. */
  lemma ForbiddenAndEmptyInvalid(name: string)
    ensures name == "" || name == "main" || name == "master" ==> !ValidateBranchName(name).0
    ensures !ValidateBranchName(name).0 ==> |ValidateBranchName(name).1| > 0
  {
  }

  /**
    `check_pre_commit_requirements`. `currentBranch` is what
    `get_current_branch` returned (`None` when git failed; an empty name
    counts as missing too), `hasStagedChanges` and `behindMain` what the other
    two queries returned.
  */
  function CheckPreCommitRequirements(currentBranch: Option<string>, hasStagedChanges: bool, behindMain: int): (r: (bool, seq<string>))
    ensures r.0 <==> r.1 == []
    ensures |r.1| <= 3
  {
    var known := currentBranch.Some? && currentBranch.value != "";
    var branchErrors :=
      if known then
        var (valid, message) := ValidateBranchName(currentBranch.value);
        if valid then [] else [message]
      else [UnknownBranchError];
    var stagedErrors :=
      if hasStagedChanges then [] else [NoStagedChangesError];
    var behindErrors :=
      if known && currentBranch.value !in ForbiddenBranches && behindMain > 0 then
        [BehindMainWarning(behindMain)]
      else [];
    var errors := branchErrors + stagedErrors + behindErrors;
    (errors == [], errors)
  }

  /**
    The check passes exactly when the branch is known and valid, something is
    staged, and the branch is not behind main: the warning about being behind
    still fails the check.
  */
  lemma PreCommitPassesIff(currentBranch: Option<string>, hasStagedChanges: bool, behindMain: int)
    ensures CheckPreCommitRequirements(currentBranch, hasStagedChanges, behindMain).0 <==>
            && currentBranch.Some? && ValidateBranchName(currentBranch.value).0
            && hasStagedChanges && behindMain <= 0
  {
    if currentBranch.Some? && ValidateBranchName(currentBranch.value).0 {
      assert currentBranch.value !in ForbiddenBranches;
    }
  }
}
