/**
  `ArchiveMigrator` from scripts/migrate_archive_naming.py: renames archived
  items from the old `TD_012_Some_Title.md` naming to the new
  `YYYY_MM_DD-TD_012-some-title-[tag1][tag2].md` naming.

  The two name regexes are written out as character-class checks. A file's
  content is read from the text filesystem; the outcome of `Path.rename` is a
  parameter.
*/
module MigrateNaming {

  import opened Wrappers
  import opened Strings
  import opened FileSystem

  type TextFs = map<Path, string>

  // ---------------------------------------------------------------------
  // The two name formats

  predicate IsTypeCode(s: string) { s == "TD" || s == "BF" || s == "VS" || s == "HF" }

  predicate IsTitleChar(c: char) { IsAsciiLetter(c) || c == '_' }

  predicate IsKebabChar(c: char) { IsAsciiLower(c) || c == '-' }

  /** `[A-Za-z_]+\.md`, to the end. */
  predicate IsTitleMd(u: string) {
    |u| >= 4 && EndsWith(u, ".md") && AllChars(u[..|u| - 3], IsTitleChar)
  }

  /** `(TD|BF|VS|HF)_\d+_[A-Za-z_]+\.md`, matched from the start to the very end. */
  predicate OldCore(name: string) {
    && |name| >= 3 && IsTypeCode(name[..2]) && name[2] == '_'
    && var t := name[3..];
       var k := LeadingDigits(t);
       0 < k < |t| && t[k] == '_' && IsTitleMd(t[k + 1..])
  }

  /** `\d{4}_\d{2}_\d{2}`. */
  predicate IsDateStamp(s: string) {
    |s| == 10 && AllDigits(s[..4]) && s[4] == '_' && AllDigits(s[5..7]) && s[7] == '_' && AllDigits(s[8..])
  }

  /** `(\[[a-z]+\])+`, to the end: each group closes at the first `]`. */
  predicate IsTagGroups(w: string)
    decreases |w|
  {
    && |w| >= 3 && w[0] == '['
    && var e := FirstIndex(w, ']');
       2 <= e < |w| && AllChars(w[1..e], IsAsciiLower) && (e + 1 == |w| || IsTagGroups(w[e + 1..]))
  }

  /**
    `[a-z-]+-(\[[a-z]+\])+\.md`, to the end. The description cannot hold a
    `[`, so it ends just before the `-` that precedes the first `[`.
  */
  predicate IsDescAndTags(u: string) {
    var j := FirstIndex(u, '[');
    && 2 <= j && j + 3 <= |u| && u[j - 1] == '-' && AllChars(u[..j - 1], IsKebabChar)
    && EndsWith(u, ".md") && IsTagGroups(u[j..|u| - 3])
  }

  /** `\d{4}_\d{2}_\d{2}-(TD|BF|VS|HF)_\d+-[a-z-]+-(\[[a-z]+\])+\.md`, from the start to the very end. */
  predicate NewCore(name: string) {
    && |name| >= 14 && IsDateStamp(name[..10]) && name[10] == '-' && IsTypeCode(name[11..13]) && name[13] == '_'
    && var t := name[14..];
       var k := LeadingDigits(t);
       0 < k < |t| && t[k] == '-' && IsDescAndTags(t[k + 1..])
  }

  /** `re.match` with a final `$`, which also matches just before a final newline. */
  predicate IsOldFormat(name: string) {
    OldCore(name) || (|name| > 0 && name[|name| - 1] == '\n' && OldCore(name[..|name| - 1]))
  }

  predicate IsNewFormat(name: string) {
    NewCore(name) || (|name| > 0 && name[|name| - 1] == '\n' && NewCore(name[..|name| - 1]))
  }

  /** No name is in both formats: the old one has `_` where the new one has a digit of the year. */
  lemma FormatsExclusive(name: string)
    ensures !(IsOldFormat(name) && IsNewFormat(name))
  {
    if IsOldFormat(name) && IsNewFormat(name) {
      var o := if OldCore(name) then name else name[..|name| - 1];
      var n := if NewCore(name) then name else name[..|name| - 1];
      OldCoreThird(o);
      NewCoreThird(n);
    }
  }

  lemma OldCoreThird(name: string)
    requires OldCore(name)
    ensures name[2] == '_'
  {
  }

  lemma NewCoreThird(name: string)
    requires NewCore(name)
    ensures |name| >= 14 && IsDigit(name[2])
  {
    assert name[..10][..4][2] == name[2];
  }

  // ---------------------------------------------------------------------
  // Components of an old name

  datatype Components = Components(workType: string, id: string, fullId: string, description: string)

  /** `extract_old_components`; Err is the ValueError for a name with fewer than three `_` parts. */
  function ExtractOldComponents(filename: string): (r: Result<Components, string>)
    ensures r.Ok? <==> |Split(Replace(filename, ".md", ""), "_")| >= 3
  {
    var parts := Split(Replace(filename, ".md", ""), "_");
    if |parts| < 3 then Err("Invalid old format: " + filename)
    else Ok(Components(parts[0], parts[1], parts[0] + "_" + parts[1], Join(parts[2..], "_")))
  }

  /** The digits of an old name. */
  function OldDigits(name: string): string
    requires OldCore(name)
  {
    name[3..3 + LeadingDigits(name[3..])]
  }

  /** The title of an old name, between the digits and `.md`. */
  function OldTitle(name: string): string
    requires OldCore(name)
  {
    name[3 + LeadingDigits(name[3..]) + 1..|name| - 3]
  }

  /**
    An old name splits into its type, digits and title: the full id is
    `TYPE_NUM`, and the description is the title rejoined with `_`, so the
    components give the name back.
  */
  lemma OldComponents(name: string)
    requires OldCore(name)
    ensures var c := Components(name[..2], OldDigits(name), name[..2] + "_" + OldDigits(name), OldTitle(name));
            ExtractOldComponents(name) == Ok(c) && c.fullId + "_" + c.description + ".md" == name
    ensures AllDigits(OldDigits(name)) && |OldDigits(name)| > 0
    ensures |OldTitle(name)| > 0 && AllChars(OldTitle(name), IsTitleChar)
  {
    var t, d, title := name[..2], OldDigits(name), OldTitle(name);
    var k := LeadingDigits(name[3..]);
    var u := name[3..][k + 1..];
    assert title == u[..|u| - 3];
    assert forall i :: 0 <= i < |d| ==> d[i] == name[3..][i];
    assert name == t + "_" + d + "_" + title + ".md";
    ExtractFromParts(t, d, title);
  }

  /** Extracting from `TYPE_NUM_Title.md` gives the three parts back. */
  lemma ExtractFromParts(t: string, d: string, title: string)
    requires IsTypeCode(t) && AllDigits(d) && AllChars(title, IsTitleChar)
    ensures ExtractOldComponents(t + "_" + d + "_" + title + ".md") == Ok(Components(t, d, t + "_" + d, title))
  {
    var base := t + "_" + d + "_" + title;
    assert '.' !in t && '.' !in d && '.' !in title && '_' !in t && '_' !in d;
    ReplaceFinal(base, ".md", "");
    assert base + "" == base;
    assert base == t + ['_'] + (d + ['_'] + title);
    SplitAtFirst(t, '_', d + ['_'] + title);
    SplitAtFirst(d, '_', title);
    var parts := Split(base, "_");
    assert parts == [t, d] + Split(title, "_");
    assert parts[2..] == Split(title, "_");
    JoinSplit(title, "_");
  }

  // ---------------------------------------------------------------------
  // Description

  /** The shortenings `create_description` applies, in dictionary order. */
  const Shortenings: seq<(string, string)> := [
    ("implementation", "impl"), ("development", "dev"), ("application", "app"), ("documentation", "docs"),
    ("verification", "verify"), ("optimization", "opt"), ("configuration", "config")]

  predicate ValidShortenings(rs: seq<(string, string)>) {
    forall k :: 0 <= k < |rs| ==> |rs[k].0| > 0
  }

  /** Every shortening is a non-empty lower-case word. */
  lemma ShorteningsAreWords()
    ensures forall k :: 0 <= k < |Shortenings| ==> |Shortenings[k].1| > 0 && AllChars(Shortenings[k].1, IsAsciiLower)
  {
    assert AllChars("impl", IsAsciiLower) && AllChars("dev", IsAsciiLower) && AllChars("app", IsAsciiLower);
    assert AllChars("docs", IsAsciiLower) && AllChars("verify", IsAsciiLower) && AllChars("opt", IsAsciiLower);
    assert AllChars("config", IsAsciiLower);
  }

  /** Each `description.replace(old, new)` of the loop, in order. */
  function ApplyShortenings(s: string, rs: seq<(string, string)>): string
    requires ValidShortenings(rs)
    decreases |rs|
  {
    if rs == [] then s else ApplyShortenings(Replace(s, rs[0].0, rs[0].1), rs[1..])
  }

  /** At most four `-`-separated words. */
  function LimitWords(d: string): string {
    var parts := Split(d, "-");
    if |parts| > 4 then Join(parts[..4], "-") else d
  }

  /** What `create_description` returns. */
  function DescriptionOf(original: string): string {
    LimitWords(ApplyShortenings(Lower(Replace(original, "_", "-")), Shortenings))
  }

  /** `create_description`: the loop applies the shortenings one after another. */
  method CreateDescription(original: string) returns (description: string)
    ensures description == DescriptionOf(original)
  {
    var start := Lower(Replace(original, "_", "-"));
    description := start;
    var i := 0;
    while i < |Shortenings|
      invariant 0 <= i <= |Shortenings|
      invariant ApplyShortenings(description, Shortenings[i..]) == ApplyShortenings(start, Shortenings)
    {
      assert Shortenings[i..][1..] == Shortenings[i + 1..];
      description := Replace(description, Shortenings[i].0, Shortenings[i].1);
      i := i + 1;
    }
    var parts := Split(description, "-");
    if |parts| > 4 {
      description := Join(parts[..4], "-");
    }
  }

  /** Shortening keeps a string within any character class the replacements belong to. */
  lemma {:induction false} ShorteningsKeepChars(s: string, rs: seq<(string, string)>, P: char -> bool)
    requires ValidShortenings(rs) && AllChars(s, P)
    requires forall k :: 0 <= k < |rs| ==> AllChars(rs[k].1, P)
    ensures AllChars(ApplyShortenings(s, rs), P)
    decreases |rs|
  {
    if rs != [] {
      ReplaceKeepsChars(s, rs[0].0, rs[0].1, P);
      ShorteningsKeepChars(Replace(s, rs[0].0, rs[0].1), rs[1..], P);
    }
  }

  lemma {:induction false} ShorteningsKeepNonEmpty(s: string, rs: seq<(string, string)>)
    requires ValidShortenings(rs) && |s| > 0
    requires forall k :: 0 <= k < |rs| ==> |rs[k].1| > 0
    ensures |ApplyShortenings(s, rs)| > 0
    decreases |rs|
  {
    if rs != [] {
      ReplaceNonEmpty(s, rs[0].0, rs[0].1);
      ShorteningsKeepNonEmpty(Replace(s, rs[0].0, rs[0].1), rs[1..]);
    }
  }

  /** Limiting the words keeps a prefix of the text, and leaves at most four words. */
  lemma LimitWordsShape(d: string)
    ensures LimitWords(d) <= d
    ensures |Split(LimitWords(d), "-")| <= 4
    ensures |d| > 0 ==> |LimitWords(d)| > 0
  {
    var parts := Split(d, "-");
    if |parts| > 4 {
      JoinPrefix(parts, 4, "-");
      JoinSplit(d, "-");
      JoinLength(parts[..4], "-");
      SplitPiecesAvoidChar(d, '-');
      SplitJoin(parts[..4], '-');
    }
  }

  predicate IsCleanChar(c: char) { c != '_' && !IsAsciiUpper(c) }

  /** For any input the description is lower case, free of `_`, and has at most four `-`-separated words. */
  lemma DescriptionIsClean(original: string)
    ensures var d := DescriptionOf(original);
            NoUpper(d) && '_' !in d && |Split(d, "-")| <= 4
  {
    var r := Replace(original, "_", "-");
    ReplaceRemovesChar(original, '_', "-");
    var l := Lower(r);
    LowerAvoids(r, '_');
    assert AllChars(l, IsCleanChar);
    var a := ApplyShortenings(l, Shortenings);
    ShorteningsAreWords();
    ShorteningsKeepChars(l, Shortenings, IsCleanChar);
    LimitWordsShape(a);
    var d := LimitWords(a);
    assert forall i :: 0 <= i < |d| ==> d[i] == a[i];
  }

  /** An old-format title becomes a non-empty lower-case kebab description. */
  lemma DescriptionOfTitle(title: string)
    requires |title| > 0 && AllChars(title, IsTitleChar)
    ensures |DescriptionOf(title)| > 0 && AllChars(DescriptionOf(title), IsKebabChar)
  {
    var r := Replace(title, "_", "-");
    ReplaceRemovesChar(title, '_', "-");
    ReplaceKeepsChars(title, "_", "-", IsTitleOrHyphen);
    ReplaceNonEmpty(title, "_", "-");
    var l := Lower(r);
    assert AllChars(l, IsKebabChar) by {
      forall i | 0 <= i < |l| ensures IsKebabChar(l[i]) {
        assert IsTitleOrHyphen(r[i]) && r[i] != '_';
      }
    }
    var a := ApplyShortenings(l, Shortenings);
    ShorteningsAreWords();
    ShorteningsKeepChars(l, Shortenings, IsKebabChar);
    ShorteningsKeepNonEmpty(l, Shortenings);
    LimitWordsShape(a);
    var d := LimitWords(a);
    assert forall i :: 0 <= i < |d| ==> d[i] == a[i];
  }

  predicate IsTitleOrHyphen(c: char) { IsTitleChar(c) || c == '-' }

  // ---------------------------------------------------------------------
  // Tags

  const TypeMapping: map<string, string> := map["TD" := "refactor", "BF" := "bug", "VS" := "feature", "HF" := "bug"]

  const CriticalIndicators: seq<string> := [
    "critical", "urgent", "blocking", "crash", "failure", "memory leak", "deadlock", "race condition", "thread safety"]
  const DatalossIndicators: seq<string> := [
    "data loss", "corruption", "overwrite", "delete", "lost data", "file overwrite", "data corruption"]
  const SecurityIndicators: seq<string> := ["security", "vulnerability", "exploit", "auth"]

  /** Every tag `determine_tags` can emit besides the status tag. */
  const NonStatusTags: seq<string> := [
    "refactor", "bug", "feature", "critical", "dataloss", "security", "fileops", "ui", "core", "workflow", "agent",
    "automation", "pattern", "framework", "migration"]

  /** A tag word as the new format accepts it: `[a-z]+`. */
  predicate IsTagWord(t: string) { |t| > 0 && AllChars(t, IsAsciiLower) }

  /** A tag other than the two status tags. */
  predicate IsNotStatus(t: string) { t != "resolved" && t != "completed" }

  /** Every tag `determine_tags` can emit is a `[a-z]+` word. */
  lemma TagVocabularyIsWords(t: string)
    requires t in NonStatusTags || t == "resolved" || t == "completed"
    ensures IsTagWord(t)
    ensures t in NonStatusTags ==> IsNotStatus(t)
  {
    if t in NonStatusTags[..5] {
      TypeAndImpactTagsAreWords(t);
    } else if t in NonStatusTags[5..10] {
      AreaTagsAreWords(t);
    } else if t in NonStatusTags[10..] {
      LateAreaTagsAreWords(t);
    } else {
      assert t !in NonStatusTags by {
        assert NonStatusTags == NonStatusTags[..5] + NonStatusTags[5..10] + NonStatusTags[10..];
      }
      StatusTagsAreWords(t);
    }
  }

  /** The tags of `NonStatusTags` five at a time, then the two status tags. */
  lemma TypeAndImpactTagsAreWords(t: string)
    requires t in NonStatusTags[..5]
    ensures IsTagWord(t) && IsNotStatus(t)
  {
  }

  lemma AreaTagsAreWords(t: string)
    requires t in NonStatusTags[5..10]
    ensures IsTagWord(t) && IsNotStatus(t)
  {
  }

  lemma LateAreaTagsAreWords(t: string)
    requires t in NonStatusTags[10..]
    ensures IsTagWord(t) && IsNotStatus(t)
  {
  }

  lemma StatusTagsAreWords(t: string)
    requires t == "resolved" || t == "completed"
    ensures IsTagWord(t)
  {
  }

  function TypeTag(workType: string): (t: string)
    ensures t in NonStatusTags
  {
    if workType in TypeMapping then TypeMapping[workType] else "refactor"
  }

  /** The impact tags from the lower-cased content, when the file exists. */
  function ImpactTags(content: Option<string>): (r: seq<string>)
    ensures forall t :: t in r ==> t in NonStatusTags
  {
    if content.None? then []
    else
      var text := Lower(content.value);
      (if ContainsAny(text, CriticalIndicators) then ["critical"] else []) +
      (if ContainsAny(text, DatalossIndicators) then ["dataloss"] else []) +
      (if ContainsAny(text, SecurityIndicators) then ["security"] else [])
  }

  /** The area tag: the first group with a word in the lower-cased description. */
  function AreaTag(description: string): (r: seq<string>)
    ensures |r| <= 1 && forall t :: t in r ==> t in NonStatusTags
  {
    if ContainsAny(description, ["file", "archive", "path", "folder", "directory"]) then ["fileops"]
    else if ContainsAny(description, ["ui", "interface", "display", "view"]) then ["ui"]
    else if ContainsAny(description, ["core", "engine", "system", "grid", "state"]) then ["core"]
    else if ContainsAny(description, ["workflow", "process", "pattern", "orchestration"]) then ["workflow"]
    else if ContainsAny(description, ["agent", "po", "maintainer", "trigger"]) then ["agent"]
    else []
  }

  function DetailTags(description: string): (r: seq<string>)
    ensures forall t :: t in r ==> t in NonStatusTags
  {
    (if ContainsAny(description, ["automation", "script", "pipeline"]) then ["automation"] else []) +
    (if ContainsAny(description, ["pattern", "architecture", "design"]) then ["pattern"] else []) +
    (if ContainsAny(description, ["framework", "infrastructure"]) then ["framework"] else []) +
    (if ContainsAny(description, ["migration", "move", "reorganization"]) then ["migration"] else [])
  }

  function StatusTag(workType: string): string {
    if workType in ["BF", "HF"] then "resolved" else "completed"
  }

  /** The tags `determine_tags` appends, before duplicates are removed. */
  function RawTags(c: Components, content: Option<string>): (r: seq<string>)
    ensures |r| >= 2 && r[0] == TypeTag(c.workType) && r[|r| - 1] == StatusTag(c.workType)
    ensures forall t :: t in r[..|r| - 1] ==> t in NonStatusTags
  {
    var description := Lower(c.description);
    var init := [TypeTag(c.workType)] + ImpactTags(content) + AreaTag(description) + DetailTags(description);
    var r := init + [StatusTag(c.workType)];
    assert r[..|r| - 1] == init;
    r
  }

  /** Removing duplicates and keeping the first occurrence of each tag. */
  function Dedup(xs: seq<string>): seq<string>
    decreases |xs|
  {
    if xs == [] then []
    else
      var r := Dedup(xs[..|xs| - 1]);
      if xs[|xs| - 1] in r then r else r + [xs[|xs| - 1]]
  }

  /** Deduplication keeps exactly the tags that occur. */
  lemma {:induction false} DedupSameTags(xs: seq<string>)
    ensures forall x :: x in Dedup(xs) <==> x in xs
    decreases |xs|
  {
    if xs != [] {
      var init := xs[..|xs| - 1];
      DedupSameTags(init);
      assert xs == init + [xs[|xs| - 1]];
    }
  }

  /** Deduplication leaves no tag twice. */
  lemma {:induction false} DedupUnique(xs: seq<string>)
    ensures forall i, j :: 0 <= i < j < |Dedup(xs)| ==> Dedup(xs)[i] != Dedup(xs)[j]
    decreases |xs|
  {
    if xs != [] {
      DedupUnique(xs[..|xs| - 1]);
    }
  }

  /** First-occurrence order: deduplicating a prefix gives a prefix of the deduplicated whole. */
  lemma {:induction false} DedupPrefix(xs: seq<string>, n: nat)
    requires n <= |xs|
    ensures Dedup(xs[..n]) <= Dedup(xs)
    decreases |xs| - n
  {
    if n < |xs| {
      var init := xs[..|xs| - 1];
      assert init[..n] == xs[..n];
      DedupPrefix(init, n);
      assert Dedup(init) <= Dedup(xs);
      var a, b, c := Dedup(xs[..n]), Dedup(init), Dedup(xs);
      assert c[..|a|] == b[..|a|] == a;
    } else {
      assert xs[..n] == xs;
    }
  }

  /** The first tag is always kept first. */
  lemma DedupFirst(xs: seq<string>)
    requires |xs| > 0
    ensures |Dedup(xs)| > 0 && Dedup(xs)[0] == xs[0]
  {
    DedupPrefix(xs, 1);
    assert xs[..1][..0] == [];
  }

  /** A tag that has not occurred before is kept, last. */
  lemma DedupNewLast(ys: seq<string>, x: string)
    requires x !in ys
    ensures Dedup(ys + [x]) == Dedup(ys) + [x]
  {
    DedupSameTags(ys);
    assert (ys + [x])[..|ys|] == ys;
  }

  /** `determine_tags`: the removal loop with its `seen` set computes `Dedup`. */
  method DedupTags(tags: seq<string>) returns (unique: seq<string>)
    ensures unique == Dedup(tags)
  {
    var seen: set<string> := {};
    unique := [];
    var i := 0;
    while i < |tags|
      invariant 0 <= i <= |tags|
      invariant unique == Dedup(tags[..i])
      invariant forall x :: x in seen <==> x in unique
    {
      assert tags[..i + 1][..i] == tags[..i];
      if tags[i] !in seen {
        seen := seen + {tags[i]};
        unique := unique + [tags[i]];
      }
      i := i + 1;
    }
    assert tags[..i] == tags;
  }

  /** `determine_tags`, with the file's content when it exists. */
  method DetermineTags(c: Components, content: Option<string>) returns (tags: seq<string>)
    ensures tags == Dedup(RawTags(c, content))
  {
    tags := DedupTags(RawTags(c, content));
  }

  /** The tags have no duplicates, start with the type tag, end with the status tag, and are `[a-z]+` words. */
  lemma DeterminedTagsShape(c: Components, content: Option<string>)
    ensures var tags := Dedup(RawTags(c, content));
            && |tags| >= 2 && tags[0] == TypeTag(c.workType) && tags[|tags| - 1] == StatusTag(c.workType)
            && (forall i, j :: 0 <= i < j < |tags| ==> tags[i] != tags[j])
            && (forall k :: 0 <= k < |tags| ==> IsTagWord(tags[k]))
  {
    var raw := RawTags(c, content);
    var init := raw[..|raw| - 1];
    var status := StatusTag(c.workType);
    assert raw == init + [status];
    RawTagsAreWords(init, status);
    DedupNewLast(init, status);
    DedupFirst(init);
    DedupFirst(raw);
    DedupUnique(raw);
    WordsSurviveDedup(raw);
  }

  /** Non-status tags followed by a status tag are all words, and the status tag is not among the others. */
  lemma RawTagsAreWords(init: seq<string>, status: string)
    requires forall t :: t in init ==> t in NonStatusTags
    requires status == "resolved" || status == "completed"
    ensures forall t :: t in init + [status] ==> IsTagWord(t)
    ensures status !in init
  {
    forall t | t in init + [status] ensures IsTagWord(t) && (t in init ==> IsNotStatus(t)) {
      TagVocabularyIsWords(t);
    }
  }

  /** Removing duplicates keeps a list of words a list of words. */
  lemma WordsSurviveDedup(xs: seq<string>)
    requires forall t :: t in xs ==> IsTagWord(t)
    ensures forall k :: 0 <= k < |Dedup(xs)| ==> IsTagWord(Dedup(xs)[k])
  {
    DedupSameTags(xs);
    forall k | 0 <= k < |Dedup(xs)| ensures IsTagWord(Dedup(xs)[k]) {
      assert Dedup(xs)[k] in xs;
    }
  }

  // ---------------------------------------------------------------------
  // Tag order

  const TagPriority: map<string, int> := map[
    "bug" := 1, "feature" := 1, "refactor" := 1, "docs" := 1, "test" := 1,
    "critical" := 2, "dataloss" := 2, "security" := 2, "breaking" := 2,
    "fileops" := 3, "ui" := 3, "core" := 3, "workflow" := 3, "agent" := 3,
    "automation" := 4, "pattern" := 4, "framework" := 4, "migration" := 4,
    "resolved" := 99, "completed" := 99, "partial" := 99, "deprecated" := 99]

  /** `tag_priority.get(t, 50)`. */
  function Priority(t: string): int {
    if t in TagPriority then TagPriority[t] else 50
  }

  /** Python's `<=` on strings: lexicographic by code point. */
  predicate StrLe(a: string, b: string)
    decreases |a|
  {
    a == [] || (b != [] && (a[0] < b[0] || (a[0] == b[0] && StrLe(a[1..], b[1..]))))
  }

  lemma {:induction false} StrLeTotal(a: string, b: string)
    ensures StrLe(a, b) || StrLe(b, a)
    decreases |a|
  {
    if a != [] && b != [] && a[0] == b[0] {
      StrLeTotal(a[1..], b[1..]);
    }
  }

  lemma {:induction false} StrLeTransitive(a: string, b: string, c: string)
    requires StrLe(a, b) && StrLe(b, c)
    ensures StrLe(a, c)
    decreases |a|
  {
    if a != [] && a[0] == b[0] && b[0] == c[0] {
      StrLeTransitive(a[1..], b[1..], c[1..]);
    }
  }

  /** The sort key `(tag_priority.get(t, 50), t)`. */
  predicate KeyLe(a: string, b: string) {
    Priority(a) < Priority(b) || (Priority(a) == Priority(b) && StrLe(a, b))
  }

  predicate SortedByKey(s: seq<string>) {
    forall i, j :: 0 <= i < j < |s| ==> KeyLe(s[i], s[j])
  }

  function InsertByKey(x: string, s: seq<string>): (r: seq<string>)
    requires SortedByKey(s)
    ensures SortedByKey(r) && multiset(r) == multiset(s) + multiset{x}
    decreases |s|
  {
    if s == [] then [x]
    else if KeyLe(x, s[0]) then
      KeyChain(x, s);
      [x] + s
    else
      var rest := InsertByKey(x, s[1..]);
      KeyAfter(x, s, rest);
      assert s == [s[0]] + s[1..];
      [s[0]] + rest
  }

  lemma KeyLeTransitive(a: string, b: string, c: string)
    requires KeyLe(a, b) && KeyLe(b, c)
    ensures KeyLe(a, c)
  {
    if Priority(a) == Priority(b) == Priority(c) {
      StrLeTransitive(a, b, c);
    }
  }

  lemma KeyChain(x: string, s: seq<string>)
    requires SortedByKey(s) && s != [] && KeyLe(x, s[0])
    ensures SortedByKey([x] + s)
  {
    forall j | 0 <= j < |s| ensures KeyLe(x, s[j]) {
      if j > 0 {
        KeyLeTransitive(x, s[0], s[j]);
      }
    }
    var r := [x] + s;
    forall i, j | 0 <= i < j < |r| ensures KeyLe(r[i], r[j]) {
      assert r[j] == s[j - 1];
      if i > 0 {
        assert r[i] == s[i - 1];
      }
    }
  }

  lemma KeyAfter(x: string, s: seq<string>, rest: seq<string>)
    requires SortedByKey(s) && s != [] && !KeyLe(x, s[0])
    requires SortedByKey(rest) && multiset(rest) == multiset(s[1..]) + multiset{x}
    ensures SortedByKey([s[0]] + rest)
  {
    StrLeTotal(x, s[0]);
    forall j | 0 <= j < |rest| ensures KeyLe(s[0], rest[j]) {
      assert rest[j] in multiset(rest);
      if rest[j] != x {
        assert rest[j] in multiset(s[1..]);
        var i :| 0 <= i < |s[1..]| && s[1..][i] == rest[j];
        assert s[i + 1] == rest[j];
      }
    }
  }

  /** `sorted(tags, key=lambda t: (tag_priority.get(t, 50), t))`. */
  function SortTags(tags: seq<string>): (r: seq<string>)
    ensures SortedByKey(r) && multiset(r) == multiset(tags)
    decreases |tags|
  {
    if tags == [] then []
    else
      assert tags == [tags[0]] + tags[1..];
      InsertByKey(tags[0], SortTags(tags[1..]))
  }

  /** The ordered tags are the given tags, with priorities never decreasing. */
  lemma SortedTagPriorities(tags: seq<string>)
    ensures var r := SortTags(tags);
            |r| == |tags| && (forall t :: t in r <==> t in tags) &&
            forall i, j :: 0 <= i < j < |r| ==> Priority(r[i]) <= Priority(r[j])
  {
    var r := SortTags(tags);
    assert |r| == |multiset(r)| == |multiset(tags)| == |tags|;
    forall t ensures t in r <==> t in tags {
      assert t in r <==> t in multiset(r);
      assert t in tags <==> t in multiset(tags);
    }
  }

  /** `''.join(f'[{tag}]' for tag in tags)`. */
  function TagString(tags: seq<string>): string
    decreases |tags|
  {
    if tags == [] then "" else "[" + tags[0] + "]" + TagString(tags[1..])
  }

  // ---------------------------------------------------------------------
  // The new name

  datatype Date = Date(year: nat, month: nat, day: nat)

  predicate ValidDate(d: Date) { 1 <= d.year <= 9999 && 1 <= d.month <= 12 && 1 <= d.day <= 31 }

  /** `date.strftime('%Y_%m_%d')`, with the year unpadded as glibc writes it. */
  function DateStamp(d: Date): string {
    NatToString(d.year) + "_" + ZeroPad(NatToString(d.month), 2) + "_" + ZeroPad(NatToString(d.day), 2)
  }

  /** `build_new_filename`. */
  function BuildNewFilename(c: Components, d: Date, tags: seq<string>): string {
    DateStamp(d) + "-" + c.fullId + "-" + DescriptionOf(c.description) + "-" + TagString(SortTags(tags)) + ".md"
  }

  lemma {:induction false} TagStringIsGroups(tags: seq<string>)
    requires |tags| > 0 && forall k :: 0 <= k < |tags| ==> IsTagWord(tags[k])
    ensures IsTagGroups(TagString(tags)) && TagString(tags)[0] == '['
    ensures '/' !in TagString(tags)
    decreases |tags|
  {
    var w := TagString(tags);
    var head := "[" + tags[0];
    assert ']' !in head && '/' !in head by {
      assert AllChars(tags[0], IsAsciiLower);
    }
    assert w == head + ("]" + TagString(tags[1..]));
    FirstIndexAfter(head, ']', "]" + TagString(tags[1..]));
    var e := FirstIndex(w, ']');
    assert e == |head|;
    assert w[1..e] == tags[0];
    assert w[e + 1..] == TagString(tags[1..]);
    if |tags| > 1 {
      TagStringIsGroups(tags[1..]);
    }
  }

  lemma DateStampShape(d: Date)
    requires ValidDate(d) && 1000 <= d.year
    ensures IsDateStamp(DateStamp(d)) && '/' !in DateStamp(d)
  {
    var y, m, dd := NatToString(d.year), ZeroPad(NatToString(d.month), 2), ZeroPad(NatToString(d.day), 2);
    NatToStringLength4(d.year);
    NatToStringBelow100(d.month);
    NatToStringBelow100(d.day);
    var s := DateStamp(d);
    assert s[..4] == y && s[5..7] == m && s[8..] == dd;
    assert '/' !in y && '/' !in m && '/' !in dd;
  }

  /** A kebab string holds no `[`. */
  lemma KebabHasNoBracket(desc: string)
    requires AllChars(desc, IsKebabChar)
    ensures '[' !in desc + "-"
  {
    forall i | 0 <= i < |desc + "-"| ensures (desc + "-")[i] != '[' {
      if i < |desc| { assert IsKebabChar(desc[i]); }
    }
  }

  /** A kebab description, `-` and tag groups form the tail of a new name. */
  lemma DescAndTagsShape(desc: string, ts: string)
    requires |desc| > 0 && AllChars(desc, IsKebabChar) && IsTagGroups(ts)
    ensures IsDescAndTags(desc + "-" + ts + ".md")
  {
    var head, tail := desc + "-", ts + ".md";
    KebabHasNoBracket(desc);
    FirstIndexAfter(head, '[', tail);
    DescAndTagsSlices(desc, ts, head + tail);
  }

  lemma DescAndTagsSlices(desc: string, ts: string, u: string)
    requires |ts| > 0 && ts[0] == '[' && u == desc + "-" + ts + ".md"
    ensures u[..|desc|] == desc && u[|desc|] == '-' && u[|desc| + 1..|u| - 3] == ts && EndsWith(u, ".md")
    ensures FirstIndex(ts + ".md", '[') == 0
  {
  }

  /** A date stamp, a type code and digits in front of a valid tail form a new name. */
  lemma AssembledNameIsNewCore(stamp: string, t: string, digits: string, rest: string)
    requires IsDateStamp(stamp) && IsTypeCode(t) && |digits| > 0 && AllDigits(digits) && IsDescAndTags(rest)
    ensures NewCore(stamp + "-" + t + "_" + digits + "-" + rest)
  {
    var n := stamp + "-" + t + "_" + digits + "-" + rest;
    AssembledSlices(stamp, t, digits, rest, n);
    LeadingDigitsOf(digits, '-', rest);
  }

  lemma AssembledSlices(stamp: string, t: string, digits: string, rest: string, n: string)
    requires |stamp| == 10 && |t| == 2 && n == stamp + "-" + t + "_" + digits + "-" + rest
    ensures n[..10] == stamp && n[10] == '-' && n[11..13] == t && n[13] == '_'
    ensures n[14..] == digits + ['-'] + rest && n[14..][|digits| + 1..] == rest
  {
  }

  /**
    The name built from an old-format name, for a year of four digits, is in
    the new format, so a second run skips it.
  */
  lemma NewNameIsNewFormat(name: string, d: Date, content: Option<string>)
    requires OldCore(name) && ValidDate(d) && 1000 <= d.year
    ensures && ExtractOldComponents(name).Ok?
            && var c := ExtractOldComponents(name).value;
               var n := BuildNewFilename(c, d, Dedup(RawTags(c, content)));
               NewCore(n) && IsNewFormat(n) && '/' !in n
  {
    OldComponents(name);
    var c := ExtractOldComponents(name).value;
    var tags := Dedup(RawTags(c, content));
    DeterminedTagsShape(c, content);
    var sorted := SortTags(tags);
    SortedTagPriorities(tags);
    forall k | 0 <= k < |sorted| ensures IsTagWord(sorted[k]) {
      assert sorted[k] in tags;
    }
    TagStringIsGroups(sorted);
    DateStampShape(d);
    DescriptionOfTitle(c.description);
    var stamp, desc, ts := DateStamp(d), DescriptionOf(c.description), TagString(sorted);
    var digits := OldDigits(name);
    DescAndTagsShape(desc, ts);
    AssembledNameIsNewCore(stamp, name[..2], digits, desc + "-" + ts + ".md");
    BuildNewFilenameParts(c, d, tags, stamp, desc, ts);
    ConcatParts(stamp, name[..2], digits, c.fullId, desc + "-" + ts + ".md");
    NoSlashInName(stamp, name[..2], digits, desc, ts);
  }

  lemma BuildNewFilenameParts(c: Components, d: Date, tags: seq<string>, stamp: string, desc: string, ts: string)
    requires stamp == DateStamp(d) && desc == DescriptionOf(c.description) && ts == TagString(SortTags(tags))
    ensures BuildNewFilename(c, d, tags) == stamp + "-" + c.fullId + "-" + (desc + "-" + ts + ".md")
  {
    RegroupTail(stamp + "-" + c.fullId + "-", desc, ts);
  }

  lemma RegroupTail(front: string, desc: string, ts: string)
    ensures front + desc + "-" + ts + ".md" == front + (desc + "-" + ts + ".md")
  {
  }

  lemma ConcatParts(stamp: string, t: string, digits: string, fullId: string, rest: string)
    requires fullId == t + "_" + digits
    ensures stamp + "-" + fullId + "-" + rest == stamp + "-" + t + "_" + digits + "-" + rest
  {
  }

  lemma NoSlashInName(stamp: string, t: string, digits: string, desc: string, ts: string)
    requires '/' !in stamp && IsTypeCode(t) && AllDigits(digits) && AllChars(desc, IsKebabChar) && '/' !in ts
    ensures '/' !in stamp + "-" + t + "_" + digits + "-" + (desc + "-" + ts + ".md")
  {
    assert '/' !in desc by {
      forall i | 0 <= i < |desc| ensures desc[i] != '/' { assert IsKebabChar(desc[i]); }
    }
    assert '/' !in digits by {
      forall i | 0 <= i < |digits| ensures digits[i] != '/' { assert IsDigit(digits[i]); }
    }
  }

  // ---------------------------------------------------------------------
  // Migrating files

  /** One entry of `migration_log`; `dir` is the directory part of the path, with its final `/`. */
  datatype MigrationRecord = MigrationRecord(
    oldName: string, newName: string, dir: Path, components: Components, tags: seq<string>, date: Date)

  /** Everything `migrate_file` leaves behind: the files, its return pair, and what it appended to the two logs. */
  datatype MigrateOutcome = MigrateOutcome(
    fs: TextFs, success: bool, message: string, record: Option<MigrationRecord>, error: Option<string>)

  function FailureMessage(name: string, e: string): string {
    "Failed to migrate " + name + ": " + e
  }

  function MigratedMessage(name: string, newName: string): string {
    "Migrated: " + name + " -> " + newName
  }

  /** The text of the `FileNotFoundError` that `rename` raises for a missing source. */
  function MissingSourceError(src: Path, dst: Path): string {
    "[Errno 2] No such file or directory: '" + src + "' -> '" + dst + "'"
  }

  /**
    `migrate_file`. `renameError` is the text of the `OSError` that
    `Path.rename` raises for an existing source, if it raises; for a missing
    source it raises `FileNotFoundError`. The content is the file's text when
    it exists.
  */
  function MigrateFileSpec(f: TextFs, dryRun: bool, path: Path, d: Date, renameError: Option<string>): (r: MigrateOutcome)
    ensures r.success <==> r.error.None?
    ensures r.error.Some? ==> r.message == r.error.value && r.fs == f
    ensures dryRun || r.record.None? ==> r.fs == f
    ensures r.record.Some? ==> IsOldFormat(BaseName(path)) && r.record.value.oldName == BaseName(path)
    ensures r.success && r.record.Some? ==> r.message == MigratedMessage(r.record.value.oldName, r.record.value.newName)
    ensures r.success && r.record.None? ==>
              r.message == "Already migrated: " + BaseName(path) || r.message == "Not old format, skipping: " + BaseName(path)
  {
    var name := BaseName(path);
    if IsNewFormat(name) then MigrateOutcome(f, true, "Already migrated: " + name, None, None)
    else if !IsOldFormat(name) then MigrateOutcome(f, true, "Not old format, skipping: " + name, None, None)
    else
      match ExtractOldComponents(name)
      case Err(e) => MigrateOutcome(f, false, FailureMessage(name, e), None, Some(FailureMessage(name, e)))
      case Ok(c) => RecordedStage(f, dryRun, path, PlannedRecord(f, path, c, d), renameError)
  }

  /** The end of `migrate_file` once its record is logged: the dry-run message, or the rename. */
  function RecordedStage(f: TextFs, dryRun: bool, path: Path, rec: MigrationRecord, renameError: Option<string>): (r: MigrateOutcome)
    ensures r.record == Some(rec)
    ensures r.success <==> r.error.None?
    ensures r.error.Some? ==> r.message == r.error.value && r.fs == f
    ensures r.success ==> r.message == MigratedMessage(rec.oldName, rec.newName)
    ensures dryRun ==> r.fs == f && r.success
  {
    if dryRun then MigrateOutcome(f, true, MigratedMessage(rec.oldName, rec.newName), Some(rec), None)
    else RenameStage(f, path, Sibling(path, rec.newName), rec, renameError)
  }

  /** The rename of `path` to `newPath` at the end of a live `migrate_file`, whose record is already logged. */
  function RenameStage(f: TextFs, path: Path, newPath: Path, rec: MigrationRecord, renameError: Option<string>): (r: MigrateOutcome)
    ensures r.record == Some(rec)
    ensures r.success <==> r.error.None?
    ensures r.error.Some? ==> r.message == r.error.value && r.fs == f
    ensures r.success ==> path in f && r.message == MigratedMessage(rec.oldName, rec.newName)
    ensures r.success <==> path in f && renameError.None?
    ensures r.success ==> r.fs == Renamed(f, path, newPath)
  {
    if path !in f then
      var msg := FailureMessage(rec.oldName, MissingSourceError(path, newPath));
      MigrateOutcome(f, false, msg, Some(rec), Some(msg))
    else if renameError.Some? then
      var msg := FailureMessage(rec.oldName, renameError.value);
      MigrateOutcome(f, false, msg, Some(rec), Some(msg))
    else MigrateOutcome(Renamed(f, path, newPath), true, MigratedMessage(rec.oldName, rec.newName), Some(rec), None)
  }

  /** The record `migrate_file` logs for an old-format name, before any rename. */
  function PlannedRecord(f: TextFs, path: Path, c: Components, d: Date): MigrationRecord {
    var tags := Dedup(RawTags(c, if path in f then Some(f[path]) else None));
    MigrationRecord(BaseName(path), BuildNewFilename(c, d, tags), DirPrefix(path), c, tags, d)
  }

  /** An old-format name whose components parse is logged, and in a live run renamed. */
  lemma MigrateOldName(f: TextFs, dryRun: bool, path: Path, d: Date, renameError: Option<string>, c: Components)
    requires IsOldFormat(BaseName(path)) && !IsNewFormat(BaseName(path)) && ExtractOldComponents(BaseName(path)) == Ok(c)
    ensures MigrateFileSpec(f, dryRun, path, d, renameError) == RecordedStage(f, dryRun, path, PlannedRecord(f, path, c, d), renameError)
  {
  }

  /** An old-format name whose components do not parse is a failure that changes no file. */
  lemma MigrateBadComponents(f: TextFs, dryRun: bool, path: Path, d: Date, renameError: Option<string>, e: string)
    requires IsOldFormat(BaseName(path)) && !IsNewFormat(BaseName(path)) && ExtractOldComponents(BaseName(path)) == Err(e)
    ensures var msg := FailureMessage(BaseName(path), e);
            MigrateFileSpec(f, dryRun, path, d, renameError) == MigrateOutcome(f, false, msg, None, Some(msg))
  {
  }

  /**
    A live migration of an existing old-format file, with a four-digit year,
    renames it intact to a new-format name beside it, and migrating that file
    again is a skip that changes nothing.
  */
  lemma MigrateTwiceSkips(f: TextFs, path: Path, d: Date, dryRun2: bool, renameError2: Option<string>)
    requires OldCore(BaseName(path)) && ValidDate(d) && 1000 <= d.year && path in f
    ensures var r := MigrateFileSpec(f, false, path, d, None);
            && r.success && r.record.Some?
            && var q := Sibling(path, r.record.value.newName);
               && q != path && path !in r.fs && q in r.fs && r.fs[q] == f[path]
               && MigrateFileSpec(r.fs, dryRun2, q, d, renameError2)
                    == MigrateOutcome(r.fs, true, "Already migrated: " + r.record.value.newName, None, None)
  {
    FirstRunRenames(f, path, d);
    var r := MigrateFileSpec(f, false, path, d, None);
    SecondRunSkips(r.fs, path, r.record.value.newName, d, dryRun2, renameError2);
  }

  /** The first, live run succeeds, logs a new-format name without `/`, and renames the file to the sibling of that name. */
  lemma FirstRunRenames(f: TextFs, path: Path, d: Date)
    requires OldCore(BaseName(path)) && ValidDate(d) && 1000 <= d.year && path in f
    ensures !IsNewFormat(BaseName(path))
    ensures var r := MigrateFileSpec(f, false, path, d, None);
            && r.success && r.record.Some? && '/' !in r.record.value.newName && IsNewFormat(r.record.value.newName)
            && r.fs == Renamed(f, path, Sibling(path, r.record.value.newName))
  {
    var name := BaseName(path);
    FormatsExclusive(name);
    NewNameIsNewFormat(name, d, Some(f[path]));
    var c := ExtractOldComponents(name).value;
    MigrateOldName(f, false, path, d, None, c);
    var rec := PlannedRecord(f, path, c, d);
    assert rec.newName == BuildNewFilename(c, d, Dedup(RawTags(c, Some(f[path]))));
  }

  /** The second run, on the sibling with a new-format name, is a skip; that sibling is another path. */
  lemma SecondRunSkips(g: TextFs, path: Path, newName: string, d: Date, dryRun: bool, renameError: Option<string>)
    requires '/' !in newName && IsNewFormat(newName) && !IsNewFormat(BaseName(path))
    ensures Sibling(path, newName) != path
    ensures MigrateFileSpec(g, dryRun, Sibling(path, newName), d, renameError)
              == MigrateOutcome(g, true, "Already migrated: " + newName, None, None)
  {
    SiblingName(path, newName);
    MigrateSkips(g, dryRun, Sibling(path, newName), d, renameError);
  }

  /** As written, `migrate_directory` counts a successful call as migrated when its message holds `Migrated:`. */
  predicate CountsAsMigratedAsWritten(success: bool, message: string) {
    success && Contains(message, "Migrated:")
  }

  /** The evident intent: a successful call whose message is the migration message. */
  predicate CountsAsMigrated(success: bool, message: string) {
    success && StartsWith(message, "Migrated: ")
  }

  /** A skip message, whose fixed prefix holds no `M`, holds the marker exactly when the name does. */
  lemma SkipMessageMarker(prefix: string, name: string)
    requires |prefix| > 0 && prefix[0] != 'M' && 'M' !in prefix
    ensures Contains(prefix + name, "Migrated:") <==> Contains(name, "Migrated:")
    ensures !StartsWith(prefix + name, "Migrated: ")
  {
    var s := prefix + name;
    if Contains(s, "Migrated:") {
      ContainsAfterPrefix(prefix, name, "Migrated:");
    }
    if Contains(name, "Migrated:") {
      assert s[|prefix|..|s|] == name;
      ContainsInSlice(s, |prefix|, |s|, "Migrated:");
    }
    assert s[0] == prefix[0];
  }

  /** A call counts as migrated exactly when it logged a record and succeeded. */
  lemma CountsAsMigratedIffLogged(f: TextFs, dryRun: bool, path: Path, d: Date, renameError: Option<string>)
    ensures var r := MigrateFileSpec(f, dryRun, path, d, renameError);
            CountsAsMigrated(r.success, r.message) <==> r.success && r.record.Some?
  {
    OutcomeCounts(MigrateFileSpec(f, dryRun, path, d, renameError), BaseName(path));
  }

  /** Both counts, for any outcome whose message has the shape `migrate_file` gives it. */
  lemma OutcomeCounts(r: MigrateOutcome, name: string)
    requires r.record.Some? && r.success ==> r.message == MigratedMessage(r.record.value.oldName, r.record.value.newName)
    requires r.record.None? && r.success ==>
               r.message == "Already migrated: " + name || r.message == "Not old format, skipping: " + name
    ensures CountsAsMigrated(r.success, r.message) <==> r.success && r.record.Some?
    ensures !Contains(name, "Migrated:") ==>
              (CountsAsMigratedAsWritten(r.success, r.message) <==> CountsAsMigrated(r.success, r.message))
  {
    if r.success && r.record.None? {
      SkipMessageMarker("Already migrated: ", name);
      SkipMessageMarker("Not old format, skipping: ", name);
    } else if r.success {
      ContainsPrefix(r.message, "Migrated:");
    }
  }

  /** Names in the new format, and names in neither format, are skipped: nothing is renamed or logged. */
  lemma MigrateSkips(f: TextFs, dryRun: bool, path: Path, d: Date, renameError: Option<string>)
    ensures var name := BaseName(path);
            IsNewFormat(name) ==>
              MigrateFileSpec(f, dryRun, path, d, renameError) == MigrateOutcome(f, true, "Already migrated: " + name, None, None)
    ensures var name := BaseName(path);
            !IsNewFormat(name) && !IsOldFormat(name) ==>
              MigrateFileSpec(f, dryRun, path, d, renameError) == MigrateOutcome(f, true, "Not old format, skipping: " + name, None, None)
  {
  }

  lemma MarkerNameIsInNeitherFormat()
    ensures BaseName("Migrated:.md") == "Migrated:.md"
    ensures !IsOldFormat("Migrated:.md") && !IsNewFormat("Migrated:.md")
    ensures Contains("Migrated:.md", "Migrated:")
  {
    var name := "Migrated:.md";
    BaseNameAfterDirectory([], name);
    NotOldCore(name);
    NotNewCore(name);
    NotOldCore(name[..|name| - 1]);
    NotNewCore(name[..|name| - 1]);
    ContainsPrefix(name, "Migrated:");
  }

  /** A name that does not start with a type code or a digit is in neither format. */
  lemma NotOldCore(name: string)
    requires |name| >= 2 && name[0] == 'M'
    ensures !OldCore(name)
  {
    assert name[..2][0] == 'M';
  }

  lemma NotNewCore(name: string)
    requires |name| >= 1 && name[0] == 'M'
    ensures !NewCore(name)
  {
    if |name| >= 14 {
      assert name[..10][..4][0] == 'M';
    }
  }

  /** The name `Migrated:.md` is skipped, yet the count as written calls it migrated. */
  lemma MarkerInNameMiscounted(f: TextFs, dryRun: bool, d: Date, renameError: Option<string>)
    ensures var r := MigrateFileSpec(f, dryRun, "Migrated:.md", d, renameError);
            && r.success && r.record.None? && r.fs == f
            && CountsAsMigratedAsWritten(r.success, r.message) && !CountsAsMigrated(r.success, r.message)
  {
    MarkerNameIsInNeitherFormat();
    SkippedMarkerMiscounted(f, dryRun, "Migrated:.md", d, renameError);
  }

  /** Any name in neither format that holds the marker is skipped and still counted as migrated as written. */
  lemma SkippedMarkerMiscounted(f: TextFs, dryRun: bool, path: Path, d: Date, renameError: Option<string>)
    requires !IsOldFormat(BaseName(path)) && !IsNewFormat(BaseName(path)) && Contains(BaseName(path), "Migrated:")
    ensures var r := MigrateFileSpec(f, dryRun, path, d, renameError);
            && r.success && r.record.None? && r.fs == f
            && CountsAsMigratedAsWritten(r.success, r.message) && !CountsAsMigrated(r.success, r.message)
  {
    MigrateSkips(f, dryRun, path, d, renameError);
    SkipPrefixHasNoMarker();
    SkipMessageMarker(NotOldFormatPrefix, BaseName(path));
  }

  const NotOldFormatPrefix: string := "Not old format, skipping: "

  /** The fixed prefix of the skip message holds no `M`, so it cannot start or hold the marker. */
  lemma SkipPrefixHasNoMarker()
    ensures |NotOldFormatPrefix| > 0 && NotOldFormatPrefix[0] != 'M' && 'M' !in NotOldFormatPrefix
  {
  }

  /** The two counts agree on every file whose name does not hold `Migrated:`. */
  lemma AsWrittenAgreesUnlessMarker(f: TextFs, dryRun: bool, path: Path, d: Date, renameError: Option<string>)
    requires !Contains(BaseName(path), "Migrated:")
    ensures var r := MigrateFileSpec(f, dryRun, path, d, renameError);
            CountsAsMigratedAsWritten(r.success, r.message) <==> CountsAsMigrated(r.success, r.message)
  {
    OutcomeCounts(MigrateFileSpec(f, dryRun, path, d, renameError), BaseName(path));
  }

  // ---------------------------------------------------------------------
  // The migrator

  /** The counters `migrate_directory` returns. */
  datatype DirectoryResults = DirectoryResults(totalFiles: nat, migrated: nat, skipped: nat, errors: nat)

  /** What migrating a listing leaves behind: the files, both logs' new entries, and each call's outcome in order. */
  datatype DirectoryRun = DirectoryRun(fs: TextFs, records: seq<MigrationRecord>, errors: seq<string>, outcomes: seq<MigrateOutcome>)

  /** `migrate_file` applied to each file of the listing in turn, each call seeing the files the previous ones left. */
  function MigrateAll(f: TextFs, dryRun: bool, files: seq<Path>, d: Date, renameErrors: seq<Option<string>>): (run: DirectoryRun)
    requires |renameErrors| == |files|
    ensures |run.outcomes| == |files|
    ensures dryRun ==> run.fs == f
    decreases |files|
  {
    if files == [] then DirectoryRun(f, [], [], [])
    else
      var n := |files| - 1;
      var prev := MigrateAll(f, dryRun, files[..n], d, renameErrors[..n]);
      var r := MigrateFileSpec(prev.fs, dryRun, files[n], d, renameErrors[n]);
      DirectoryRun(r.fs, prev.records + OptionSeq(r.record), prev.errors + OptionSeq(r.error), prev.outcomes + [r])
  }

  /** The counters after one more call: a failure is an error, a success is migrated when `counts` says so, skipped otherwise. */
  function Bump(t: DirectoryResults, success: bool, message: string, counts: (bool, string) -> bool): (u: DirectoryResults)
    ensures u.totalFiles == t.totalFiles + 1
    ensures u.migrated + u.skipped + u.errors == t.migrated + t.skipped + t.errors + 1
    ensures u.errors == t.errors + (if success then 0 else 1)
  {
    if !success then t.(totalFiles := t.totalFiles + 1, errors := t.errors + 1)
    else if counts(success, message) then t.(totalFiles := t.totalFiles + 1, migrated := t.migrated + 1)
    else t.(totalFiles := t.totalFiles + 1, skipped := t.skipped + 1)
  }

  /** The counters of a run, call by call. */
  function Tally(outs: seq<MigrateOutcome>, counts: (bool, string) -> bool): (t: DirectoryResults)
    ensures t.totalFiles == |outs| && t.migrated + t.skipped + t.errors == |outs|
    decreases |outs|
  {
    if outs == [] then DirectoryResults(0, 0, 0, 0)
    else
      var r := outs[|outs| - 1];
      Bump(Tally(outs[..|outs| - 1], counts), r.success, r.message, counts)
  }

  /** One more file of the listing adds that file's `migrate_file` call to the run. */
  lemma MigrateAllStep(f: TextFs, dryRun: bool, files: seq<Path>, d: Date, renameErrors: seq<Option<string>>, i: nat)
    requires |renameErrors| == |files| && i < |files|
    ensures var prev := MigrateAll(f, dryRun, files[..i], d, renameErrors[..i]);
            var r := MigrateFileSpec(prev.fs, dryRun, files[i], d, renameErrors[i]);
            MigrateAll(f, dryRun, files[..i + 1], d, renameErrors[..i + 1])
              == DirectoryRun(r.fs, prev.records + OptionSeq(r.record), prev.errors + OptionSeq(r.error), prev.outcomes + [r])
  {
    assert files[..i + 1][..i] == files[..i] && renameErrors[..i + 1][..i] == renameErrors[..i];
  }

  /** One more outcome bumps exactly the counter its success and message select. */
  lemma TallyStep(outs: seq<MigrateOutcome>, r: MigrateOutcome, counts: (bool, string) -> bool)
    ensures Tally(outs + [r], counts) == Bump(Tally(outs, counts), r.success, r.message, counts)
  {
    assert (outs + [r])[..|outs|] == outs;
  }

  /** The state after one more call of the loop of `migrate_directory` is the run over one more file. */
  lemma CloseStep(fs0: TextFs, dryRun: bool, files: seq<Path>, d: Date, renameErrors: seq<Option<string>>, i: nat,
                  log0: seq<MigrationRecord>, errors0: seq<string>, r: MigrateOutcome)
    requires |renameErrors| == |files| && i < |files|
    requires r == MigrateFileSpec(MigrateAll(fs0, dryRun, files[..i], d, renameErrors[..i]).fs, dryRun, files[i], d, renameErrors[i])
    ensures var prev := MigrateAll(fs0, dryRun, files[..i], d, renameErrors[..i]);
            var run := MigrateAll(fs0, dryRun, files[..i + 1], d, renameErrors[..i + 1]);
            && Tally(run.outcomes, CountsAsMigratedAsWritten)
                 == Bump(Tally(prev.outcomes, CountsAsMigratedAsWritten), r.success, r.message, CountsAsMigratedAsWritten)
            && r.fs == run.fs
            && (log0 + prev.records) + OptionSeq(r.record) == log0 + run.records
            && (errors0 + prev.errors) + OptionSeq(r.error) == errors0 + run.errors
  {
    var prev := MigrateAll(fs0, dryRun, files[..i], d, renameErrors[..i]);
    MigrateAllStep(fs0, dryRun, files, d, renameErrors, i);
    TallyStep(prev.outcomes, r, CountsAsMigratedAsWritten);
    AppendAfterLog(log0, prev.records, OptionSeq(r.record));
    AppendAfterLog(errors0, prev.errors, OptionSeq(r.error));
  }

  /** How many calls succeeded after logging a record. */
  function LoggedSuccesses(outs: seq<MigrateOutcome>): nat
    decreases |outs|
  {
    if outs == [] then 0
    else LoggedSuccesses(outs[..|outs| - 1]) + (if outs[|outs| - 1].success && outs[|outs| - 1].record.Some? then 1 else 0)
  }

  /** One error is logged per failed call, whatever the counting test. */
  lemma {:induction false} RunErrorsAreFailures(f: TextFs, dryRun: bool, files: seq<Path>, d: Date, renameErrors: seq<Option<string>>, counts: (bool, string) -> bool)
    requires |renameErrors| == |files|
    ensures var run := MigrateAll(f, dryRun, files, d, renameErrors);
            |run.errors| == Tally(run.outcomes, counts).errors
    decreases |files|
  {
    if files != [] {
      var n := |files| - 1;
      RunErrorsAreFailures(f, dryRun, files[..n], d, renameErrors[..n], counts);
      var run := MigrateAll(f, dryRun, files, d, renameErrors);
      assert run.outcomes[..n] == MigrateAll(f, dryRun, files[..n], d, renameErrors[..n]).outcomes;
    }
  }

  /**
    With the corrected test, the migrated count is the number of calls that
    succeeded after logging a record; the records number at least that many.
  */
  lemma {:induction false} CorrectedMigratedAreLogged(f: TextFs, dryRun: bool, files: seq<Path>, d: Date, renameErrors: seq<Option<string>>)
    requires |renameErrors| == |files|
    ensures var run := MigrateAll(f, dryRun, files, d, renameErrors);
            && Tally(run.outcomes, CountsAsMigrated).migrated == LoggedSuccesses(run.outcomes)
            && LoggedSuccesses(run.outcomes) <= |run.records|
    decreases |files|
  {
    if files != [] {
      var n := |files| - 1;
      CorrectedMigratedAreLogged(f, dryRun, files[..n], d, renameErrors[..n]);
      var prev := MigrateAll(f, dryRun, files[..n], d, renameErrors[..n]);
      var run := MigrateAll(f, dryRun, files, d, renameErrors);
      var r := MigrateFileSpec(prev.fs, dryRun, files[n], d, renameErrors[n]);
      OutcomeCounts(r, BaseName(files[n]));
      assert run.outcomes[..n] == prev.outcomes && run.outcomes[n] == r;
    }
  }

  /** The count as written and the corrected count agree on a listing where no name holds `Migrated:`. */
  lemma {:induction false} TallyAgreesUnlessMarker(f: TextFs, dryRun: bool, files: seq<Path>, d: Date, renameErrors: seq<Option<string>>)
    requires |renameErrors| == |files|
    requires forall k :: 0 <= k < |files| ==> !Contains(BaseName(files[k]), "Migrated:")
    ensures var run := MigrateAll(f, dryRun, files, d, renameErrors);
            Tally(run.outcomes, CountsAsMigratedAsWritten) == Tally(run.outcomes, CountsAsMigrated)
    decreases |files|
  {
    if files != [] {
      var n := |files| - 1;
      TallyAgreesUnlessMarker(f, dryRun, files[..n], d, renameErrors[..n]);
      var prev := MigrateAll(f, dryRun, files[..n], d, renameErrors[..n]);
      var run := MigrateAll(f, dryRun, files, d, renameErrors);
      var r := MigrateFileSpec(prev.fs, dryRun, files[n], d, renameErrors[n]);
      OutcomeCounts(r, BaseName(files[n]));
      assert run.outcomes[..n] == prev.outcomes && run.outcomes[n] == r;
    }
  }

  /** A directory holding only `Migrated:.md` is reported, as written, as one file migrated, though nothing was logged or renamed. */
  lemma MarkerDirectoryMiscounted(f: TextFs, dryRun: bool, d: Date, renameError: Option<string>)
    ensures var run := MigrateAll(f, dryRun, ["Migrated:.md"], d, [renameError]);
            && run.fs == f && run.records == [] && run.errors == []
            && Tally(run.outcomes, CountsAsMigratedAsWritten) == DirectoryResults(1, 1, 0, 0)
            && Tally(run.outcomes, CountsAsMigrated) == DirectoryResults(1, 0, 1, 0)
  {
    MarkerInNameMiscounted(f, dryRun, d, renameError);
    var files: seq<Path> := ["Migrated:.md"];
    assert files[..0] == [] && [renameError][..0] == [];
  }

  class ArchiveMigrator {
    var fs: TextFs
    var migrationLog: seq<MigrationRecord>
    var errors: seq<string>
    const dryRun: bool

    constructor (initial: TextFs, dryRun: bool)
      ensures fs == initial && migrationLog == [] && errors == [] && this.dryRun == dryRun
    {
      fs := initial;
      migrationLog := [];
      errors := [];
      this.dryRun := dryRun;
    }

    /** `migrate_file`: the returned pair, the files and both logs follow `MigrateFileSpec`. */
    method MigrateFile(path: Path, d: Date, renameError: Option<string>) returns (success: bool, message: string)
      modifies this
      ensures var r := MigrateFileSpec(old(fs), dryRun, path, d, renameError);
              && success == r.success && message == r.message && fs == r.fs
              && migrationLog == old(migrationLog) + OptionSeq(r.record)
              && errors == old(errors) + OptionSeq(r.error)
    {
      var name := BaseName(path);
      if IsNewFormat(name) || !IsOldFormat(name) {
        success, message := SkipFile(path, d, renameError);
      } else {
        success, message := MigrateOldFormatFile(path, d, renameError);
      }
    }

    /** `migrate_file` for a name in the new format or in neither: a skip that changes nothing. */
    method SkipFile(path: Path, d: Date, renameError: Option<string>) returns (success: bool, message: string)
      requires IsNewFormat(BaseName(path)) || !IsOldFormat(BaseName(path))
      ensures var r := MigrateFileSpec(fs, dryRun, path, d, renameError);
              && success == r.success && message == r.message && r.fs == fs && r.record.None? && r.error.None?
    {
      var name := BaseName(path);
      MigrateSkips(fs, dryRun, path, d, renameError);
      if IsNewFormat(name) {
        return true, "Already migrated: " + name;
      }
      return true, "Not old format, skipping: " + name;
    }

    /** `migrate_file` for an old-format name: a failure to read its components, or its record and rename. */
    method MigrateOldFormatFile(path: Path, d: Date, renameError: Option<string>) returns (success: bool, message: string)
      requires IsOldFormat(BaseName(path)) && !IsNewFormat(BaseName(path))
      modifies this
      ensures var r := MigrateFileSpec(old(fs), dryRun, path, d, renameError);
              && success == r.success && message == r.message && fs == r.fs
              && migrationLog == old(migrationLog) + OptionSeq(r.record)
              && errors == old(errors) + OptionSeq(r.error)
    {
      var components := ExtractOldComponents(BaseName(path));
      if components.Err? {
        success, message := FailComponents(path, d, renameError, components.error);
      } else {
        success, message := MigrateParsedFile(path, d, renameError, components.value);
      }
    }

    /** `migrate_file` for an old-format name whose components cannot be read: one error, no change. */
    method FailComponents(path: Path, d: Date, renameError: Option<string>, e: string) returns (success: bool, message: string)
      requires IsOldFormat(BaseName(path)) && !IsNewFormat(BaseName(path)) && ExtractOldComponents(BaseName(path)) == Err(e)
      modifies this`errors
      ensures var r := MigrateFileSpec(old(fs), dryRun, path, d, renameError);
              && success == r.success && message == r.message && fs == r.fs
              && migrationLog == old(migrationLog) + OptionSeq(r.record)
              && errors == old(errors) + OptionSeq(r.error)
    {
      MigrateBadComponents(fs, dryRun, path, d, renameError, e);
      message := FailureMessage(BaseName(path), e);
      errors := errors + [message];
      success := false;
    }

    /** `migrate_file` for an old-format name with its components: its record, then the rename. */
    method MigrateParsedFile(path: Path, d: Date, renameError: Option<string>, c: Components) returns (success: bool, message: string)
      requires IsOldFormat(BaseName(path)) && !IsNewFormat(BaseName(path)) && ExtractOldComponents(BaseName(path)) == Ok(c)
      modifies this
      ensures var r := MigrateFileSpec(old(fs), dryRun, path, d, renameError);
              && success == r.success && message == r.message && fs == r.fs
              && migrationLog == old(migrationLog) + OptionSeq(r.record)
              && errors == old(errors) + OptionSeq(r.error)
    {
      MigrateOldName(fs, dryRun, path, d, renameError, c);
      success, message := MigrateOldFile(path, d, renameError, c);
    }

    /** `migrate_file` once the components of an old name are known. */
    method MigrateOldFile(path: Path, d: Date, renameError: Option<string>, c: Components) returns (success: bool, message: string)
      modifies this
      ensures var rec := PlannedRecord(old(fs), path, c, d);
              var r := RecordedStage(old(fs), dryRun, path, rec, renameError);
              && success == r.success && message == r.message && fs == r.fs
              && migrationLog == old(migrationLog) + [rec]
              && errors == old(errors) + OptionSeq(r.error)
    {
      var tags := DetermineTags(c, if path in fs then Some(fs[path]) else None);
      var rec := MigrationRecord(BaseName(path), BuildNewFilename(c, d, tags), DirPrefix(path), c, tags, d);
      assert rec == PlannedRecord(fs, path, c, d);
      success, message := LogAndRename(path, rec, renameError);
    }

    /** Log the record, then rename unless this is a dry run. */
    method LogAndRename(path: Path, rec: MigrationRecord, renameError: Option<string>) returns (success: bool, message: string)
      modifies this
      ensures var r := RecordedStage(old(fs), dryRun, path, rec, renameError);
              && success == r.success && message == r.message && fs == r.fs
              && migrationLog == old(migrationLog) + [rec]
              && errors == old(errors) + OptionSeq(r.error)
    {
      migrationLog := migrationLog + [rec];
      if dryRun {
        return true, MigratedMessage(rec.oldName, rec.newName);
      }
      success, message := Rename(path, Sibling(path, rec.newName), rec, renameError);
    }

    /** The rename that ends a live `migrate_file`. */
    method Rename(path: Path, newPath: Path, rec: MigrationRecord, renameError: Option<string>) returns (success: bool, message: string)
      modifies this`fs, this`errors
      ensures var r := RenameStage(old(fs), path, newPath, rec, renameError);
              && success == r.success && message == r.message && fs == r.fs
              && errors == old(errors) + OptionSeq(r.error)
    {
      if path !in fs {
        message := FailureMessage(rec.oldName, MissingSourceError(path, newPath));
        assert RenameStage(fs, path, newPath, rec, renameError) == MigrateOutcome(fs, false, message, Some(rec), Some(message));
        errors := errors + [message];
        return false, message;
      }
      if renameError.Some? {
        message := FailureMessage(rec.oldName, renameError.value);
        assert RenameStage(fs, path, newPath, rec, renameError) == MigrateOutcome(fs, false, message, Some(rec), Some(message));
        errors := errors + [message];
        return false, message;
      }
      message := MigratedMessage(rec.oldName, rec.newName);
      assert RenameStage(fs, path, newPath, rec, renameError) == MigrateOutcome(Renamed(fs, path, newPath), true, message, Some(rec), None);
      fs := Renamed(fs, path, newPath);
      success := true;
    }

    /**
      `migrate_directory` over the `*.md` listing `files` of `directory`, in
      the order the listing gives; `renameErrors[i]` is what renaming
      `files[i]` raises, if anything. As written, a successful call counts
      as migrated when its message holds `Migrated:`.
    */
    method MigrateDirectory(directory: Path, directoryExists: bool, files: seq<Path>, d: Date, renameErrors: seq<Option<string>>)
      returns (res: Result<DirectoryResults, string>)
      requires |renameErrors| == |files|
      modifies this
      ensures !directoryExists ==>
                && res == Err("Directory does not exist: " + directory)
                && fs == old(fs) && migrationLog == old(migrationLog) && errors == old(errors)
      ensures directoryExists ==>
                var run := MigrateAll(old(fs), dryRun, files, d, renameErrors);
                && res == Ok(Tally(run.outcomes, CountsAsMigratedAsWritten))
                && fs == run.fs && migrationLog == old(migrationLog) + run.records && errors == old(errors) + run.errors
    {
      if !directoryExists {
        return Err("Directory does not exist: " + directory);
      }
      var counters := DirectoryResults(0, 0, 0, 0);
      for i := 0 to |files|
        invariant var run := MigrateAll(old(fs), dryRun, files[..i], d, renameErrors[..i]);
                  && counters == Tally(run.outcomes, CountsAsMigratedAsWritten)
                  && fs == run.fs && migrationLog == old(migrationLog) + run.records && errors == old(errors) + run.errors
      {
        counters := MigrateNext(old(fs), old(migrationLog), old(errors), files, d, renameErrors, i, counters);
      }
      assert files[..|files|] == files && renameErrors[..|renameErrors|] == renameErrors;
      return Ok(counters);
    }

    /** One turn of the loop of `migrate_directory`: migrate `files[i]` and bump the counter its outcome selects. */
    method MigrateNext(ghost fs0: TextFs, ghost log0: seq<MigrationRecord>, ghost errors0: seq<string>,
                       files: seq<Path>, d: Date, renameErrors: seq<Option<string>>, i: nat, counters: DirectoryResults)
      returns (next: DirectoryResults)
      requires |renameErrors| == |files| && i < |files|
      requires var run := MigrateAll(fs0, dryRun, files[..i], d, renameErrors[..i]);
               && counters == Tally(run.outcomes, CountsAsMigratedAsWritten)
               && fs == run.fs && migrationLog == log0 + run.records && errors == errors0 + run.errors
      modifies this
      ensures var run := MigrateAll(fs0, dryRun, files[..i + 1], d, renameErrors[..i + 1]);
              && next == Tally(run.outcomes, CountsAsMigratedAsWritten)
              && fs == run.fs && migrationLog == log0 + run.records && errors == errors0 + run.errors
    {
      ghost var r := MigrateFileSpec(fs, dryRun, files[i], d, renameErrors[i]);
      CloseStep(fs0, dryRun, files, d, renameErrors, i, log0, errors0, r);
      var success, message := MigrateFile(files[i], d, renameErrors[i]);
      next := Bump(counters, success, message, CountsAsMigratedAsWritten);
    }
  }
}
