# BlockLife maintenance scripts, modelled in Dafny

The BlockLife repository keeps its backlog, archive and documentation in order
with a set of Python maintenance scripts. This project models their logic
and proves what that logic promises. Each script is one Dafny module:

- `VerifiedMove` (scripts/backlog_maintainer_verification.py): `FileOperationVerifier`'s
  move with pre-flight checks, an optional backup, a mandatory check after the move,
  and a rollback, over an abstract filesystem and the three audit logs.
- `AutoArchive` (scripts/auto_archive_completed.py): `AutoArchiver`'s tags, archive
  file names and quarter folders; its checked move of each completed item; its run counters;
  and the truncation of its operation log.
- `MigrateNaming` (scripts/migrate_archive_naming.py): `ArchiveMigrator`. It moves archived
  items from the old `TD_012_Title.md` naming to the new
  `YYYY_MM_DD-TD_012-title-[tags].md` naming.
- `GitWorkflow` (scripts/enforce_git_workflow.py): branch-name validation and the
  pre-commit aggregation.
- `BacklogArchive` (scripts/verify_backlog_archive.py): whether each item's file is in
  the folder its Backlog.md row implies, and the totals over all items.
- `AgentOutput` (scripts/verify_agent_output.py): the checks of an agent's reported
  archive or move, and its report verdict.
- `DocReferences` (scripts/update_doc_references.py): rewriting references to renamed
  documents, and the run totals.
- `DocStatus` (scripts/sync_documentation_status.py): the implementation-plan status,
  the summary counts, and the broken-link filter.
- `TestMonitor` (scripts/test_monitor.py): the summary parsed from GdUnit4 output.
- `TestMetrics` (scripts/collect_test_metrics.py): the numbers and the execution time
  parsed from `dotnet test` output, and the dry-run metrics.

Three support modules hold shared definitions, with no row of their own below:

- `Wrappers`: `Option` and `Result`.
- `Strings`: the Python `str` operations the scripts use. They scan left to right
  without overlapping matches, and their letters and white space are ASCII.
- `FileSystem`: paths, globs, and the map from path to content.

Operating-system calls whose outcome the scripts exist to distrust are
parameters, each to a different extent:

- `shutil.move` and the Backlog.md rewrite: the caller supplies whether the call
  raised and what the source and the destination hold afterwards, so the proofs
  cover every outcome, honest or not.
- `shutil.copy2`: the caller supplies either a raise before anything is written
  or the whole content written to the destination.
- `Path.rename`: the caller supplies only whether it raised. When it does not
  raise, the filesystem afterwards is the POSIX rename, `FileSystem.Renamed`.

Directory listings, file contents, parsed markdown rows, dates and clock
readings are inputs.

The rollback of scripts/backlog_maintainer_verification.py:562-570 checks only
that the source exists again and the destination does not. Its documentation
calls this restoring the original, but the model follows the code:
`VerifiedMove.RollbackAcceptsCorruptContent` shows that a move back delivering
other content is still a successful rollback.

## Model

| member | source | states |
|---|---|---|
| VerifiedMove.CountSuccessful | scripts/backlog_maintainer_verification.py:648 | the count of successful log entries is at most the log length, equals it exactly when every entry succeeded, and is 0 exactly when none did |
| VerifiedMove.CountSuccessfulAppend | scripts/backlog_maintainer_verification.py:648 | appending one entry raises the success count by one exactly when that entry succeeded |
| VerifiedMove.Rollback | scripts/backlog_maintainer_verification.py:544-599 | a successful rollback did not raise and leaves the source present and the destination absent; with neither destination nor backup it fails and changes nothing; an honest move back succeeds and puts the destination's content at the source; a backup restore succeeds with the copied content; no other path is touched |
| VerifiedMove.RollbackAcceptsCorruptContent | scripts/backlog_maintainer_verification.py:562-570 | the move-back branch checks existence only, so a move back that delivers different content is still reported as a successful rollback |
| VerifiedMove.FileOperationVerifier.constructor | scripts/backlog_maintainer_verification.py:71-84 | the three audit logs start empty; the filesystem, backup directory, rollback switch and checksum are the given ones |
| VerifiedMove.FileOperationVerifier.BackupPath | scripts/backlog_maintainer_verification.py:182-184 | the backup name is a path under the backup directory |
| VerifiedMove.FileOperationVerifier.FirstFailedCheck | scripts/backlog_maintainer_verification.py:246-273 | no check fails exactly when all four MOVE checks pass; an empty-destination failure means the destination exists with zero bytes; a checksum failure means an expected digest was given and the destination's digest differs from it |
| VerifiedMove.FileOperationVerifier.VerificationReport | scripts/backlog_maintainer_verification.py:640-664 | total operations is the log length and equals successful plus failed; failed is 0 exactly when every logged operation succeeded; the error and verification-failure counts are the lengths of those logs |
| VerifiedMove.FileOperationVerifier.CreateBackup | scripts/backlog_maintainer_verification.py:167-199 | a missing source yields no backup and no change; otherwise the copy is written as the copy outcome says, and a backup is returned exactly when the copy wrote content of the source's size, at the backup path |
| VerifiedMove.FileOperationVerifier.VerifyMove | scripts/backlog_maintainer_verification.py:243-273 | the result is true exactly when the four MOVE checks pass; on failure exactly one failure entry, for the first failing check, is appended |
| VerifiedMove.FileOperationVerifier.LogOperation | scripts/backlog_maintainer_verification.py:365-383 | exactly one entry with the given flag, paths and details is appended to the operation log |
| VerifiedMove.FileOperationVerifier.PerformRollback | scripts/backlog_maintainer_verification.py:544-599 | the new filesystem and the result are those of `Rollback`; one rollback error is logged exactly when a call raised |
| VerifiedMove.FileOperationVerifier.MoveSpec | scripts/backlog_maintainer_verification.py:420-542 | the one operation-log entry a call appends names the source and destination and its success flag equals the returned value |
| VerifiedMove.FileOperationVerifier.BackupStage | scripts/backlog_maintainer_verification.py:464-467 | a backup is kept only when one was attempted, at the backup path, with the source's size; without an attempt nothing changes |
| VerifiedMove.FileOperationVerifier.AfterMoveSpec | scripts/backlog_maintainer_verification.py:476-542 | after the move, the appended entry names the source and destination and its success flag equals the result |
| VerifiedMove.FileOperationVerifier.PreflightRefusals | scripts/backlog_maintainer_verification.py:448-460 | a missing source or an existing destination returns false, leaves the filesystem untouched, records no verification failure and logs exactly one error of the matching kind |
| VerifiedMove.FileOperationVerifier.SuccessGuarantees | scripts/backlog_maintainer_verification.py:484-526 | a true result means the source existed and the destination did not, and afterwards the source is gone, the destination is non-empty with the source's checksum, no error or failure was logged, and a backup taken was deleted |
| VerifiedMove.FileOperationVerifier.SuccessPreservesContent | scripts/backlog_maintainer_verification.py:470-489 | with a collision-free checksum, a true result means the destination holds exactly the source's original content |
| VerifiedMove.FileOperationVerifier.EmptySourceNeverMoves | scripts/backlog_maintainer_verification.py:257-261 | a zero-byte source is never reported as moved |
| VerifiedMove.FileOperationVerifier.HonestMoveSucceeds | scripts/backlog_maintainer_verification.py:476-526 | a move that behaves as documented succeeds for any non-empty source and free destination, whatever happened to the backup copy |
| VerifiedMove.FileOperationVerifier.NoRollbackWhenDisabled | scripts/backlog_maintainer_verification.py:535 | with rollback disabled a failed verification leaves the filesystem as the move left it and logs no error |
| VerifiedMove.FileOperationVerifier.BackupOnlyWhenRequested | scripts/backlog_maintainer_verification.py:464-467 | unless both `create_backup` and `enable_rollback` hold, the backup path is neither created nor changed |
| VerifiedMove.FileOperationVerifier.MoveFrame | scripts/backlog_maintainer_verification.py:420-542 | no path other than the source, the destination and the backup is created, removed or changed |
| VerifiedMove.FileOperationVerifier.MoveWithVerification | scripts/backlog_maintainer_verification.py:420-542 | the new filesystem, the result and the three appended log parts are those of `MoveSpec`, and the success count grows by one exactly when the call returns true |
| VerifiedMove.FileOperationVerifier.FinishMove | scripts/backlog_maintainer_verification.py:476-542 | the state after the move step is the one `AfterMoveSpec` describes |
| VerifiedMove.FileOperationVerifier.MoveExistingSource | scripts/backlog_maintainer_verification.py:462-542 | for an existing source and a free destination, the new state and the result are those of `MoveSpec` |
| VerifiedMove.FileOperationVerifier.ArchivePath | scripts/backlog_maintainer_verification.py:625-627 | the archive file's name is the date, a dash and the source's name |
| VerifiedMove.FileOperationVerifier.ArchiveWithVerification | scripts/backlog_maintainer_verification.py:601-638 | the result is a verified move with backup to the dated archive path, which is returned exactly when the move succeeded |
| AutoArchive.TypeTags | scripts/auto_archive_completed.py:113-130 | BF_ gives `[bug]`, VS_ `[feature]`, HF_ `[bug][critical]`, TD_ `[test]` when the lower-cased content names test, testing or verification and `[refactor]` otherwise (also when the file is missing) |
| AutoArchive.ImpactTags | scripts/auto_archive_completed.py:132-143 | every tag is one of the four impact tags, and P0 puts `[critical]` first |
| AutoArchive.AreaTag | scripts/auto_archive_completed.py:145-156 | the elif chain yields at most one area tag |
| AutoArchive.DetailTags | scripts/auto_archive_completed.py:158-162 | only `[automation]` and `[pattern]` can appear |
| AutoArchive.DetermineTags | scripts/auto_archive_completed.py:107-170 | the type tag comes first as the prefix says, and the last tag is `[resolved]` for BF_/HF_ items and `[completed]` otherwise |
| AutoArchive.AtMostOneAreaTag | scripts/auto_archive_completed.py:145-156 | the whole tag list carries at most one area tag |
| AutoArchive.HotfixAtP0IsCriticalTwice | scripts/auto_archive_completed.py:128-134 | tags are not de-duplicated: a HF_ item at P0 carries `[critical]` at least twice |
| AutoArchive.TitleWords | scripts/auto_archive_completed.py:181-186 | more than four title words are cut to four, two to four are kept, fewer than two get `item` appended; the result has one to four words |
| AutoArchive.GenerateArchiveFilename | scripts/auto_archive_completed.py:172-194 | the name is produced exactly when the stem has at least two `_`-separated parts (otherwise the source raises IndexError) |
| AutoArchive.DescriptionIsCleanKebab | scripts/auto_archive_completed.py:181-188 | the description contains no `_` and no upper-case letter |
| AutoArchive.QuarterOfMonth | scripts/auto_archive_completed.py:202 | a month 1 to 12 falls in quarter 1 to 4, and the quarter's three months enclose it |
| AutoArchive.GetArchiveDirectory | scripts/auto_archive_completed.py:196-207 | a folder is returned exactly when the date splits into three `_` parts with a numeric month (otherwise the source raises ValueError) |
| AutoArchive.ArchiveDirectoryOfDate | scripts/auto_archive_completed.py:196-207 | a `%Y_%m_%d` date maps to the child `YYYY-Qn` of the archive root, n being the month's quarter |
| AutoArchive.KeepLastRuns | scripts/auto_archive_completed.py:411-415 | the new run is last, at most 50 runs are kept, and they are the latest ones in order |
| AutoArchive.MoveCheck | scripts/auto_archive_completed.py:215-227 | the MOVE verification passes exactly when the destination exists and is non-empty and the source is gone |
| AutoArchive.AutoArchiver.constructor | scripts/auto_archive_completed.py:30-37 | the error and operation logs start empty over the given filesystem and archive root |
| AutoArchive.AutoArchiver.ArchiveSpec | scripts/auto_archive_completed.py:237-313 | an operation record is appended exactly when the item is archived, and an escaping exception leaves the filesystem and error log unchanged |
| AutoArchive.AutoArchiver.ArchiveToPlanned | scripts/auto_archive_completed.py:255-313 | the same for an existing item once its destination has been computed |
| AutoArchive.AutoArchiver.AfterArchiveMove | scripts/auto_archive_completed.py:281-307 | after the move nothing raises; success means the MOVE check passed, the filesystem is as the move left it and no error was logged |
| AutoArchive.AutoArchiver.ArchiveNeverOverwrites | scripts/auto_archive_completed.py:269-274 | an occupied destination refuses the item with one error and changes nothing |
| AutoArchive.AutoArchiver.ArchiveSuccessMoved | scripts/auto_archive_completed.py:276-302 | a success leaves the item only at its previously free destination, non-empty, and records its id, source, destination and relative archive path |
| AutoArchive.AutoArchiver.FailedVerificationMovesBack | scripts/auto_archive_completed.py:282-287 | an empty file fails verification with one error and an honest move back restores it at the source |
| AutoArchive.AutoArchiver.PlannedFailedMovesBack | scripts/auto_archive_completed.py:282-287 | the same once the destination has been worked out: the empty file is back at the source, the destination is free, and one error names it |
| AutoArchive.AutoArchiver.HonestArchiveSucceeds | scripts/auto_archive_completed.py:276-302 | an honest move of a non-empty item to a free destination, with Backlog.md updated, succeeds |
| AutoArchive.AutoArchiver.ArchiveItem | scripts/auto_archive_completed.py:237-313 | the new filesystem, result, errors and operation log are those of `ArchiveSpec` |
| AutoArchive.AutoArchiver.ArchiveToPlannedDestination | scripts/auto_archive_completed.py:255-313 | the new state is the one `ArchiveToPlanned` describes |
| AutoArchive.AutoArchiver.FinishArchive | scripts/auto_archive_completed.py:281-307 | the new state is the one `AfterArchiveMove` describes |
| AutoArchive.AutoArchiver.RunAutoArchive | scripts/auto_archive_completed.py:348-397 | every row is processed; no rows gives zero counts and no change; a dry run counts all rows archived and changes nothing; a real run leaves the filesystem, the error log and the operation log that `ArchiveAll` gives, returns the exception of the first row that raised, and otherwise returns archived and failed with archived + failed = processed and the logs it holds |
| AutoArchive.ApplyOutcome | scripts/auto_archive_completed.py:377-382 | an exception from `archive_item` becomes the run's exception and changes nothing else; otherwise the row's filesystem and errors are taken, and archived or failed grows by one, archived exactly when the row returned true |
| AutoArchive.AutoArchiver.ArchiveAll | scripts/auto_archive_completed.py:374-382 | `archive_item` on each row in turn until one raises: without an exception archived + failed is the number of rows, after one fewer rows were counted |
| AutoArchive.AutoArchiver.RaisedStops | scripts/auto_archive_completed.py:374-382 | once a row has raised, the later rows change nothing |
| AutoArchive.AutoArchiver.RaisedIffSomeItemRaises | scripts/auto_archive_completed.py:374-382 | the run ends in an exception exactly when some row raises after all rows before it returned |
| AutoArchive.AutoArchiver.RecordsAreArchived | scripts/auto_archive_completed.py:374-386 | the run appends one operation record per archived row |
| AutoArchive.AutoArchiver.ArchiveNext | scripts/auto_archive_completed.py:377-382 | one turn of the loop: the state follows `ArchiveAll` one row further, an exception is the run's exception, and otherwise archived or failed grows by one as the row's result says |
| AutoArchive.AutoArchiver.PlannedDestination | scripts/auto_archive_completed.py:253-266 | a destination is computed exactly when the stem has at least two `_` parts and the completion date gives an archive folder; otherwise the source raises |
| MigrateNaming.FormatsExclusive | scripts/migrate_archive_naming.py:83-93 | no file name is in both the old and the new format |
| MigrateNaming.ExtractOldComponents | scripts/migrate_archive_naming.py:95-113 | components are returned exactly when the name without `.md` has at least three `_` parts; otherwise the ValueError |
| MigrateNaming.OldComponents | scripts/migrate_archive_naming.py:95-113 | an old-format name yields its type, its digit run, `TYPE_NUM` and its title, and `full_id + "_" + description + ".md"` gives the name back |
| MigrateNaming.ExtractFromParts | scripts/migrate_archive_naming.py:95-113 | extracting from `TYPE_NUM_Title.md` returns exactly those three parts |
| MigrateNaming.ShorteningsAreWords | scripts/migrate_archive_naming.py:208-216 | every shortening is a non-empty lower-case word |
| MigrateNaming.CreateDescription | scripts/migrate_archive_naming.py:202-226 | the loop of replacements computes `DescriptionOf`: `_` to `-`, lower-cased, each shortening in dictionary order, at most four words |
| MigrateNaming.LimitWordsShape | scripts/migrate_archive_naming.py:221-224 | the limited description is a prefix of the text, has at most four `-` words, and is non-empty when the text is |
| MigrateNaming.DescriptionIsClean | scripts/migrate_archive_naming.py:202-226 | for every input the description has no upper-case letter, no `_`, and at most four `-`-separated words |
| MigrateNaming.DescriptionOfTitle | scripts/migrate_archive_naming.py:202-226 | an old-format title becomes a non-empty description of lower-case letters and `-` |
| MigrateNaming.TagVocabularyIsWords | scripts/migrate_archive_naming.py:119-190 | every tag the method can emit is a `[a-z]+` word, and only the status tags are status tags |
| MigrateNaming.TypeTag | scripts/migrate_archive_naming.py:119-125 | the type tag is from the mapping, `refactor` for an unknown type |
| MigrateNaming.ImpactTags | scripts/migrate_archive_naming.py:127-151 | the impact tags are drawn from the known vocabulary |
| MigrateNaming.AreaTag | scripts/migrate_archive_naming.py:156-173 | the elif chain gives at most one area tag |
| MigrateNaming.DetailTags | scripts/migrate_archive_naming.py:175-183 | the detail tags are drawn from the known vocabulary |
| MigrateNaming.RawTags | scripts/migrate_archive_naming.py:115-190 | before de-duplication the type tag comes first, the status tag last, and every other tag is a non-status tag |
| MigrateNaming.DedupSameTags | scripts/migrate_archive_naming.py:192-198 | de-duplication keeps exactly the tags that occur |
| MigrateNaming.DedupUnique | scripts/migrate_archive_naming.py:192-198 | no tag occurs twice after de-duplication |
| MigrateNaming.DedupPrefix | scripts/migrate_archive_naming.py:192-198 | first-occurrence order: de-duplicating a prefix gives a prefix of the de-duplicated whole |
| MigrateNaming.DedupFirst | scripts/migrate_archive_naming.py:192-198 | the first tag stays first |
| MigrateNaming.DedupNewLast | scripts/migrate_archive_naming.py:192-198 | a tag not seen before is appended last |
| MigrateNaming.DedupTags | scripts/migrate_archive_naming.py:192-198 | the loop with its `seen` set computes `Dedup` |
| MigrateNaming.DetermineTags | scripts/migrate_archive_naming.py:115-200 | the tags are the de-duplicated raw tags |
| MigrateNaming.DeterminedTagsShape | scripts/migrate_archive_naming.py:115-200 | the tags have no duplicates, start with the type tag, end with the status tag, and are all `[a-z]+` words |
| MigrateNaming.StrLeTotal | scripts/migrate_archive_naming.py:233 | Python's string order is total |
| MigrateNaming.StrLeTransitive | scripts/migrate_archive_naming.py:233 | Python's string order is transitive |
| MigrateNaming.InsertByKey | scripts/migrate_archive_naming.py:233 | inserting into a list sorted by `(priority, tag)` keeps it sorted and adds exactly that tag |
| MigrateNaming.SortTags | scripts/migrate_archive_naming.py:233 | the result is sorted by `(tag_priority.get(t, 50), t)` and is a permutation of the tags |
| MigrateNaming.SortedTagPriorities | scripts/migrate_archive_naming.py:233 | the sorted tags are the same tags with priorities never decreasing |
| MigrateNaming.TagStringIsGroups | scripts/migrate_archive_naming.py:239 | the tag string of `[a-z]+` tags is a run of bracket groups starting with `[` and holding no `/` |
| MigrateNaming.DateStampShape | scripts/migrate_archive_naming.py:236 | a date with a four-digit year is written as `dddd_dd_dd` |
| MigrateNaming.DescAndTagsShape | scripts/migrate_archive_naming.py:241 | a kebab description, `-`, tag groups and `.md` form the tail the new-format pattern accepts |
| MigrateNaming.AssembledNameIsNewCore | scripts/migrate_archive_naming.py:241 | a date stamp, `-`, `TYPE_digits`, `-` and a valid tail form a new-format name |
| MigrateNaming.NewNameIsNewFormat | scripts/migrate_archive_naming.py:228-241 | the name built from an old-format name, for a four-digit year, is in the new format and holds no `/` |
| MigrateNaming.MigrateFileSpec | scripts/migrate_archive_naming.py:243-291 | success exactly when no error was logged; an error leaves every file unchanged and is the message; dry runs and skips change no file; a record is logged only for an old-format name; the message is the migration message for a record and a skip message otherwise |
| MigrateNaming.RecordedStage | scripts/migrate_archive_naming.py:276-291 | after the record is logged, a dry run succeeds without touching files, and a success returns the migration message |
| MigrateNaming.RenameStage | scripts/migrate_archive_naming.py:279-291 | the rename succeeds exactly when the file exists and renaming does not raise, and then the file is renamed beside itself to the new name |
| MigrateNaming.MigrateOldName | scripts/migrate_archive_naming.py:257-285 | an old-format name whose components parse logs the planned record and goes on to the dry-run message or rename |
| MigrateNaming.MigrateBadComponents | scripts/migrate_archive_naming.py:287-291 | components that do not parse give the failure message, one error and no file change |
| MigrateNaming.MigrateTwiceSkips | scripts/migrate_archive_naming.py:243-291 | a live migration of an existing old-format file renames it intact to a new-format sibling, and migrating that file again is an "Already migrated" skip that changes nothing |
| MigrateNaming.SkipMessageMarker | scripts/migrate_archive_naming.py:316 | a skip message holds `Migrated:` exactly when the file name does, and never starts with the migration prefix |
| MigrateNaming.CountsAsMigratedIffLogged | scripts/migrate_archive_naming.py:315-317 | with the corrected test a call counts as migrated exactly when it succeeded and logged a record |
| MigrateNaming.OutcomeCounts | scripts/migrate_archive_naming.py:315-321 | for any outcome of the shape `migrate_file` returns, the corrected count means "logged and succeeded", and both counts agree when the name holds no `Migrated:` |
| MigrateNaming.MigrateSkips | scripts/migrate_archive_naming.py:249-255 | new-format names and names in neither format are skipped with their message and nothing is renamed or logged |
| MigrateNaming.MarkerNameIsInNeitherFormat | scripts/migrate_archive_naming.py:83-93 | `Migrated:.md` is in neither format yet holds the marker |
| MigrateNaming.MarkerInNameMiscounted | scripts/migrate_archive_naming.py:316 | the file `Migrated:.md` is skipped without change, yet the test as written counts it as migrated |
| MigrateNaming.AsWrittenAgreesUnlessMarker | scripts/migrate_archive_naming.py:316 | the as-written and the corrected count agree on every file whose name does not hold `Migrated:` |
| MigrateNaming.MigrateAll | scripts/migrate_archive_naming.py:311-313 | one outcome per listed file, each call seeing the files the previous ones left; a dry run leaves the files as they were |
| MigrateNaming.Tally | scripts/migrate_archive_naming.py:303-321 | the total is the number of files, and migrated, skipped and errors add up to it |
| MigrateNaming.RunErrorsAreFailures | scripts/migrate_archive_naming.py:311-321 | the error log grows by one entry per call counted as an error, whatever the migrated test |
| MigrateNaming.CorrectedMigratedAreLogged | scripts/migrate_archive_naming.py:315-317 | with the corrected test the migrated count is the number of calls that succeeded after logging a record, and the records are at least that many |
| MigrateNaming.TallyAgreesUnlessMarker | scripts/migrate_archive_naming.py:316 | on a listing where no name holds `Migrated:` both tests give the same counters |
| MigrateNaming.MarkerDirectoryMiscounted | scripts/migrate_archive_naming.py:293-323 | a directory holding only `Migrated:.md` logs nothing and changes no file, yet the counters as written report it migrated; the corrected test reports it skipped |
| MigrateNaming.ArchiveMigrator.constructor | scripts/migrate_archive_naming.py:56-59 | both logs start empty over the given files and dry-run flag |
| MigrateNaming.ArchiveMigrator.MigrateFile | scripts/migrate_archive_naming.py:243-291 | the returned pair, the files and both logs are those of `MigrateFileSpec` |
| MigrateNaming.ArchiveMigrator.MigrateOldFile | scripts/migrate_archive_naming.py:257-291 | once the components are known, the record is the planned one and the state follows `RecordedStage` |
| MigrateNaming.ArchiveMigrator.LogAndRename | scripts/migrate_archive_naming.py:276-285 | the record is appended, then the state is that of `RecordedStage` |
| MigrateNaming.ArchiveMigrator.Rename | scripts/migrate_archive_naming.py:279-291 | the files and error log are those of `RenameStage` |
| MigrateNaming.ArchiveMigrator.MigrateDirectory | scripts/migrate_archive_naming.py:293-323 | a missing directory is the ValueError and changes nothing; otherwise the files and both logs are those of `migrate_file` on each listed file in turn (`MigrateAll`), and the counters are their tally with the `"Migrated:" in message` test as written |
| MigrateNaming.ArchiveMigrator.MigrateNext | scripts/migrate_archive_naming.py:311-321 | one turn of the loop extends the files, both logs and the counters by the next file's call |
| GitWorkflow.SplitOnceSlash | scripts/enforce_git_workflow.py:117 | `split('/', 1)` gives two parts exactly when the name holds a `/`; the first part holds none and the parts joined by `/` give the name back |
| GitWorkflow.ValidateBranchName | scripts/enforce_git_workflow.py:95-124 | valid exactly when the message is empty; the empty name and `main`/`master` get their messages; a valid name has one of the prefixes |
| GitWorkflow.PrefixSlash | scripts/enforce_git_workflow.py:64-72 | each valid prefix ends in its only `/` |
| GitWorkflow.AfterPrefix | scripts/enforce_git_workflow.py:117-118 | after a valid prefix, the text after the first `/` is the rest of the name |
| GitWorkflow.ValidIffPrefixAndDescription | scripts/enforce_git_workflow.py:95-124 | a name is valid exactly when it starts with one of the seven prefixes and at least three characters follow, in both directions |
| GitWorkflow.ForbiddenAndEmptyInvalid | scripts/enforce_git_workflow.py:74-124 | the empty name, `main` and `master` are invalid, and every invalid result carries a non-empty message |
| GitWorkflow.CheckPreCommitRequirements | scripts/enforce_git_workflow.py:179-210 | passes exactly when the error list is empty, and the list has at most three entries |
| GitWorkflow.PreCommitPassesIff | scripts/enforce_git_workflow.py:179-210 | the check passes exactly when the branch is known and valid, something is staged and the branch is not behind main: the warning about being behind still fails it |
| BacklogArchive.FirstMatch | scripts/verify_backlog_archive.py:49-58 | a file is found exactly when some name of the listing matches the glob, and the found path is such a name |
| BacklogArchive.Classify | scripts/verify_backlog_archive.py:75-100 | passed exactly in the two correct states; errors for the false-archive, duplicate and missing states, a warning only for the false-active state, never more than one message |
| BacklogArchive.VerificationFacts | scripts/verify_backlog_archive.py:31-102 | the item is in `items/` when a name there matches `{id}_*.md`, in the archive when a path there matches `*{id}*.md`, has a backlog status when Backlog.md has its row, and the outcome is the table's |
| BacklogArchive.PassedIffInExpectedFolder | scripts/verify_backlog_archive.py:75-100 | an item passes exactly when its file is in one of the two folders and that folder is the archive exactly when the backlog marks it archived |
| BacklogArchive.ClassificationTable | scripts/verify_backlog_archive.py:75-100 | each of the seven cells of the table: its state and its errors or warnings |
| BacklogArchive.NoRowMeansActive | scripts/verify_backlog_archive.py:60-100 | an item with no Backlog.md row has no backlog status and is judged as an active one |
| BacklogArchive.ItemReferences | scripts/verify_backlog_archive.py:123-125 | every reference found is an `[A-Z]{2}_\d{3}` id that occurs bracketed in the text |
| BacklogArchive.LeadingReferenceFound | scripts/verify_backlog_archive.py:123-125 | a bracketed id at the start is the first reference, followed by those of the rest |
| BacklogArchive.Verifications | scripts/verify_backlog_archive.py:127-128 | one verification per id, in order, each that of `verify_archive_operation` |
| BacklogArchive.CountPassed | scripts/verify_backlog_archive.py:132-135 | no more items pass than were checked |
| BacklogArchive.TotalsSnoc | scripts/verify_backlog_archive.py:130-138 | one more verification adds one pass exactly when it passed, and appends its errors and warnings |
| BacklogArchive.DistinctCardinality | scripts/verify_backlog_archive.py:127 | a list without repeats has as many distinct elements as its length |
| BacklogArchive.VerifyAllArchives | scripts/verify_backlog_archive.py:104-140 | without Backlog.md: zero counts and the one error; otherwise each distinct reference is checked once, passed + failed equals the total, the errors and warnings are the per-item ones concatenated, and each entry is that item's verification |
| BacklogArchive.VerifyItems | scripts/verify_backlog_archive.py:127-138 | the loop's counters, concatenated messages and per-item entries are those of the verifications of the ids in order |
| AgentOutput.Matching | scripts/verify_agent_output.py:38-41 | the glob's result holds exactly the listed paths that match it, no more of them than the listing has |
| AgentOutput.ArchivedIff | scripts/verify_agent_output.py:44-52 | properly archived exactly when some file of the item is in an archive quarter folder and none is in `items/`; then the archive path is set and the items path is not |
| AgentOutput.CurrentQuarterShape | scripts/verify_agent_output.py:216-220 | for a calendar month the quarter is one digit 1 to 4 after the year and `-Q`, seven characters for a four-digit year |
| AgentOutput.ReportIds | scripts/verify_agent_output.py:162 | every id found is a type code, `_` and digits |
| AgentOutput.SingleIdFound | scripts/verify_agent_output.py:162 | an id standing alone in the report is found, whole |
| AgentOutput.LeadingDigitsAll | scripts/verify_agent_output.py:162 | the greedy `\d+` takes every digit of an all-digit text |
| AgentOutput.AgentVerifier.constructor | scripts/verify_agent_output.py:18-21 | the verification log starts empty |
| AgentOutput.AgentVerifier.Log | scripts/verify_agent_output.py:222-225 | appends one line, the time in brackets and then the message |
| AgentOutput.AgentVerifier.VerifyArchive | scripts/verify_agent_output.py:23-54 | one result per id given, each the check of that id |
| AgentOutput.AgentVerifier.VerifyFileMove | scripts/verify_agent_output.py:105-125 | moved exactly when the source is gone and the destination exists; logs the verdict, and on failure a second line with both existence flags |
| AgentOutput.AgentVerifier.BatchVerifyArchive | scripts/verify_agent_output.py:150-171 | a report naming no item gives `(False, {})` and the warning; otherwise all successful exactly when every named item is properly archived, with one result per named id and no log line |
| AgentOutput.AgentVerifier.GenerateReport | scripts/verify_agent_output.py:189-205 | all passed exactly when every dictionary entry has `archived` true and every other entry is truthy; an empty result passes |
| DocReferences.TablesWellFormed | scripts/update_doc_references.py:32-75 | no key or value of either mapping table is empty |
| DocReferences.DirectStep | scripts/update_doc_references.py:119-122 | every non-overlapping occurrence of the old name is replaced and counted; the length changes by the count times the difference of the names; nothing is counted or changed exactly when the name does not occur |
| DocReferences.FileStep | scripts/update_doc_references.py:103-124 | a text without the old name comes out of the link pass and the direct step unchanged with no changes |
| DocReferences.PathStep | scripts/update_doc_references.py:127-130 | the old folder path is replaced everywhere; a text without it is unchanged with no count |
| DocReferences.FileMappingsKeepUntouched | scripts/update_doc_references.py:103-124 | a text naming none of the old files leaves the file-name table with nothing to do |
| DocReferences.PathMappingsKeepUntouched | scripts/update_doc_references.py:127-130 | a text naming none of the old folders leaves the folder table with nothing to do |
| DocReferences.UntouchedUnchanged | scripts/update_doc_references.py:99-148 | a file naming no old file and no old folder comes out unchanged with no changes counted |
| DocReferences.DirectStepReintroduces | scripts/update_doc_references.py:119-122 | when the new name contains the old one, the rewritten text still names the old one and a second run counts again |
| DocReferences.FirstMappingContainsKey | scripts/update_doc_references.py:34 | the first file-name entry maps the vertical-slice plan to a name that contains it |
| DocReferences.VerticalPlanPaddedTwice | scripts/update_doc_references.py:34 | one pass pads the bare plan name to `00_`, a second pass to `000_` |
| DocReferences.DefaultTables | scripts/update_doc_references.py:32-75 | the updater's own tables are well formed |
| DocReferences.UntouchedReportsNothing | scripts/update_doc_references.py:136-148 | a text naming no old file or folder reports 0 and keeps its text |
| DocReferences.Rewritten | scripts/update_doc_references.py:136-139 | the rewritten tree has the same files, and files outside the run keep their text |
| DocReferences.Records | scripts/update_doc_references.py:141-144 | at most one `changes_made` entry per file |
| DocReferences.FilesModified | scripts/update_doc_references.py:176-178 | no more files are modified than were processed |
| DocReferences.TotalChanges | scripts/update_doc_references.py:176-179 | the total is at least the number of modified files, and zero exactly when no file was modified |
| DocReferences.CountsStep | scripts/update_doc_references.py:172-179 | one more file adds one modified file exactly when its change count is positive, and adds that count to the total |
| DocReferences.RecordsStep | scripts/update_doc_references.py:141-144 | one more file is recorded with its change count, and its new text written, exactly when its text changed |
| DocReferences.DistinctNotBefore | scripts/update_doc_references.py:165-172 | in a listing that holds each file once, a file is not among those before it |
| DocReferences.RewriteFileNames | scripts/update_doc_references.py:103-124 | the loop over the file-name table computes `ApplyFileMappings` |
| DocReferences.RewritePaths | scripts/update_doc_references.py:127-133 | the loop over the folder table computes `ApplyPathMappings` |
| DocReferences.DocumentReferenceUpdater.constructor | scripts/update_doc_references.py:25-75 | the files as given, no changes recorded, and the default tables |
| DocReferences.DocumentReferenceUpdater.UpdateFileReferences | scripts/update_doc_references.py:93-152 | returns the file's change count (0 when unreadable or unchanged), records a changed file, and writes its new text unless this is a dry run |
| DocReferences.DocumentReferenceUpdater.ProcessNext | scripts/update_doc_references.py:172-179 | one turn of the loop extends the record and the tree by the next file |
| DocReferences.DocumentReferenceUpdater.Run | scripts/update_doc_references.py:154-179 | the modified-file count and the total are those of the files processed, the record is one entry per changed file in order, and the tree is rewritten unless this is a dry run |
| DocStatus.ClassifyPlan | scripts/sync_documentation_status.py:185-193 | one of the three statuses, with progress 100, 50 or 0 exactly for completed, in progress and not started |
| DocStatus.ClassifyPrecedence | scripts/sync_documentation_status.py:185-193 | completed exactly when a completed marker occurs; in progress exactly when none does and an in-progress or `ACTIVE` marker does |
| DocStatus.CompletedBeatsActive | scripts/sync_documentation_status.py:185-190 | a text with both `ACTIVE` and `✅ COMPLETED` is completed |
| DocStatus.PlanName | scripts/sync_documentation_status.py:182 | the plan name holds no `_` |
| DocStatus.PlansOf | scripts/sync_documentation_status.py:179-206 | at most one plan per file, each with one of the parser's three statuses |
| DocStatus.ParseImplementationPlans | scripts/sync_documentation_status.py:165-206 | no plans without the items folder, otherwise the plans of the readable files in order |
| DocStatus.ParsedProgress | scripts/sync_documentation_status.py:185-193 | each parsed plan has progress 100 exactly when it is completed |
| DocStatus.CountStatus | scripts/sync_documentation_status.py:248-250 | a count never exceeds the number of items |
| DocStatus.StatusesOf | scripts/sync_documentation_status.py:249-250 | the statuses of the plans, in order |
| DocStatus.CreateStatusSummary | scripts/sync_documentation_status.py:243-260 | the summary as written, its in-progress count looking for `IN PROGRESS`: the totals are the numbers of items and plans, completed items do not exceed the total, completed and in-progress plans together do not exceed the plans, and the broken links are kept |
| DocStatus.CorrectedStatusSummary | scripts/sync_documentation_status.py:243-260 | the same bounds for the summary whose in-progress count is the parser's `IN_PROGRESS` |
| DocStatus.StatusesDisjointBound | scripts/sync_documentation_status.py:248-250 | counts of distinct statuses add up to at most the number of items |
| DocStatus.CountAllOfNothing | scripts/sync_documentation_status.py:248-250 | nothing to count gives zero in every bucket |
| DocStatus.CountAllHead | scripts/sync_documentation_status.py:248-250 | the first status counts in at most one of the distinct buckets |
| DocStatus.ParsedPlansNeverInProgressAsWritten | scripts/sync_documentation_status.py:250 | the count as written, for `IN PROGRESS` with a space, is 0 for every list of parsed plans, and so is the summary's in-progress field |
| DocStatus.PlannedAsWrittenIncludesInProgress | scripts/sync_documentation_status.py:243-279 | as written, the planned features of the parsed plans are the plans not started plus the plans in progress |
| DocStatus.NoneCounted | scripts/sync_documentation_status.py:250 | a status that no item has is counted 0 times |
| DocStatus.ActiveSliceMissedAsWritten | scripts/sync_documentation_status.py:250-279 | for one `ACTIVE` slice the summary as written has 0 plans in progress and 1 planned feature; the corrected summary has 1 in progress and 0 planned |
| DocStatus.ActiveSliceParsed | scripts/sync_documentation_status.py:179-193 | the file `VS_001_Board.md` whose text is `ACTIVE` parses to exactly one plan, in progress |
| DocStatus.SingleStatusCounts | scripts/sync_documentation_status.py:248-250 | a lone `IN_PROGRESS` status is counted once as `IN_PROGRESS` and never as completed, reference or `IN PROGRESS` |
| DocStatus.PlannedAreNotStarted | scripts/sync_documentation_status.py:279 | in the corrected summary, the planned features of the parsed plans are exactly the plans not started |
| DocStatus.ThreeStatuses | scripts/sync_documentation_status.py:185-193 | the three statuses of the parser add up to the number of plans |
| DocStatus.BrokenIn | scripts/sync_documentation_status.py:222-236 | at most one message per link |
| DocStatus.BrokenInIff | scripts/sync_documentation_status.py:222-236 | a message is reported exactly for a link that is not external, not an anchor and whose target does not exist |
| DocStatus.ExternalNeverBroken | scripts/sync_documentation_status.py:226-231 | external and anchor links are never reported |
| DocStatus.CheckDocumentationLinks | scripts/sync_documentation_status.py:208-241 | the loops compute the broken links of all files, file by file and link by link |
| TestMonitor.PartStep | scripts/test_monitor.py:95-105 | a part changes at most the four counts, and a part without a number changes nothing |
| TestMonitor.PartsStep | scripts/test_monitor.py:94-105 | the parts of a table line never change the duration or the suites |
| TestMonitor.TableStep | scripts/test_monitor.py:93-105 | only a line naming `tests cases` and holding a `|` changes the counters, and never the duration or the suites |
| TestMonitor.TimeStep | scripts/test_monitor.py:108-111 | only the duration changes; with the marker and some number it becomes the line's last number; without the marker nothing changes |
| TestMonitor.SuiteStep | scripts/test_monitor.py:114-116 | only the suites change: the stripped text after the last marker is appended exactly when the line has the marker |
| TestMonitor.Summary | scripts/test_monitor.py:118 | `passed` is the total less the failures, errors and skipped tests |
| TestMonitor.ReadTableLine | scripts/test_monitor.py:93-105 | the loop over the parts computes `TableStep` |
| TestMonitor.ReadTimeLine | scripts/test_monitor.py:108-111 | computes `TimeStep` |
| TestMonitor.ReadSuiteLine | scripts/test_monitor.py:114-116 | computes `SuiteStep` |
| TestMonitor.ParseTestOutput | scripts/test_monitor.py:71-119 | the loop over the lines gives the summary of the counters after all lines, with the derived `passed` |
| TestMonitor.TotalLabelFirst | scripts/test_monitor.py:98-99 | a part naming `tests cases` sets the total from its first number, whatever else it names |
| TestMonitor.ErrorsBeforeFailures | scripts/test_monitor.py:100-103 | a part naming `errors` (and not `tests cases`) sets the errors even when it names `failures` too |
| TestMonitor.LineKeepsCounts | scripts/test_monitor.py:93 | a line that is not a table line keeps the four counts |
| TestMonitor.SuitesInLineOrder | scripts/test_monitor.py:114-116 | the suites are those of the lines with the marker, in line order, after those already there |
| TestMonitor.DurationOfLastTimeLine | scripts/test_monitor.py:108-111 | after a last line with the marker and a number, the duration is that line's last number, whatever came before |
| TestMonitor.LineKeepsDuration | scripts/test_monitor.py:108 | a line without the marker keeps the duration |
| TestMonitor.PlainLineKeepsCounts | scripts/test_monitor.py:93-116 | a line with none of the three markers changes nothing |
| TestMonitor.PlainLinesKeepCounts | scripts/test_monitor.py:88-116 | lines with none of the markers change nothing |
| TestMonitor.NothingMatchedIsZero | scripts/test_monitor.py:75-119 | output with none of the markers gives the all-zero summary with no suites |
| TestMetrics.DigitsEnd | scripts/collect_test_metrics.py:168 | the run of digits from a position is maximal: digits up to the end, a non-digit or the end after it |
| TestMetrics.FirstLabelled | scripts/collect_test_metrics.py:168-171 | the search finds the first position where the label is followed by a digit, or reports that there is none |
| TestMetrics.LabelledNumber | scripts/collect_test_metrics.py:168-171 | a number is found exactly when the label is followed by a digit somewhere, and never when the label does not occur |
| TestMetrics.LabelledNumberRoundTrip | scripts/collect_test_metrics.py:168-171 | a number written after the label is read back when a non-digit or the end follows it |
| TestMetrics.LabelledNumberFirst | scripts/collect_test_metrics.py:168-171 | the first labelled occurrence decides: its digits are the number |
| TestMetrics.DigitsEndOfRun | scripts/collect_test_metrics.py:168-171 | the `\d+` group ends exactly where the run of digits after the label ends |
| TestMetrics.AfterLiteral | scripts/collect_test_metrics.py:174 | a literal of the pattern matches exactly when the text starts with it, and what is left follows it |
| TestMetrics.SkipSpaces | scripts/collect_test_metrics.py:174 | `\s*` consumes all the leading whitespace |
| TestMetrics.AfterDigits | scripts/collect_test_metrics.py:174 | `\d+` matches exactly when a digit comes first, and consumes every leading digit |
| TestMetrics.AfterChar | scripts/collect_test_metrics.py:174 | `[^)]*\)` matches exactly when the text holds a `)`, and consumes at least it |
| TestMetrics.Bracketed | scripts/collect_test_metrics.py:174 | the group is non-empty, holds no `]`, and is followed by `]` in the text |
| TestMetrics.TimeMatch | scripts/collect_test_metrics.py:174 | a match starts with `Test Run Successful.` and its group is non-empty without `]` |
| TestMetrics.TotalsAndTime | scripts/collect_test_metrics.py:174 | the group of a match of the rest of the pattern is non-empty without `]` |
| TestMetrics.PassedAndTime | scripts/collect_test_metrics.py:174 | the group of a match of the rest of the pattern is non-empty without `]` |
| TestMetrics.BracketedTime | scripts/collect_test_metrics.py:174 | the group of a match of the rest of the pattern is non-empty without `]` |
| TestMetrics.FirstTimeMatch | scripts/collect_test_metrics.py:174 | a group found by the search is the group of a match at some position |
| TestMetrics.ExecutionTime | scripts/collect_test_metrics.py:174-188 | `Unknown` when `Test Run Successful.` does not occur; otherwise `Unknown` or a non-empty text without `]` |
| TestMetrics.MatchFollowsSuccessful | scripts/collect_test_metrics.py:174 | the pattern matches only where `Test Run Successful.` occurs |
| TestMetrics.SkipOneSpace | scripts/collect_test_metrics.py:174 | `\s*` consumes a single leading space before a non-space |
| TestMetrics.AfterNumber | scripts/collect_test_metrics.py:174 | `\d+` consumes a written number exactly |
| TestMetrics.ExecutionTimeOfSummary | scripts/collect_test_metrics.py:174-188 | the summary line of a successful run has its bracketed text read back as the execution time, whatever follows |
| TestMetrics.TotalsAndTimeOf | scripts/collect_test_metrics.py:174 | the total part of a summary line is consumed and the match goes on with the passed part |
| TestMetrics.PassedAndTimeOf | scripts/collect_test_metrics.py:174 | the passed part of a summary line is consumed and the match goes on with the bracket |
| TestMetrics.LabelThenNumber | scripts/collect_test_metrics.py:174 | a space, a label and a number are consumed in turn |
| TestMetrics.BracketedTimeOf | scripts/collect_test_metrics.py:174 | text up to `)`, a space and a bracketed time give that time |
| TestMetrics.BracketedOf | scripts/collect_test_metrics.py:174 | a text before `]` is the group |
| TestMetrics.CountTestsInOutput | scripts/collect_test_metrics.py:194-197 | 0 when the output has no `Total tests: `, and a positive count only where the label is followed by a digit |
| TestMetrics.CountTestsIgnoresCategory | scripts/collect_test_metrics.py:194-197 | the category never changes the count, and a written total is read back |
| TestMetrics.ParseTestResults | scripts/collect_test_metrics.py:163-192 | the total from the full run, each category count from its own run, 0 for a label that does not occur, coverage 0, and `Unknown` time without a successful run |
| TestMetrics.MockMetrics | scripts/collect_test_metrics.py:199-212 | 75 tests, all passed, none failed or skipped, and the three categories add up to the total |

## Left out

- Clocks: `datetime.now()` timestamps and dates are inputs, and so is the `%H:%M:%S` time of each log line. The `time.sleep` settling delays are left out; they change no state.
- SHA-256 is an arbitrary function from content to a non-empty digest. Statements about content, as opposed to digests, assume it has no collisions.
- Health checks, which probe writability and timing (scripts/backlog_maintainer_verification.py:98-165), are not modelled.
- JSON persistence is not modelled: `_save_logs`, the file I/O of `save_operation_log` (only its truncation to 50 runs is), `generate_migration_report`, and `_save_log` of the agent verifier.
- Float percentages are not modelled: `success_rate`, `completion_rate` and the rich console output that prints them. The coverage percentage is kept in tenths: 92.5 is 925.
- Subprocess and git work are not modelled. The model receives what they returned as inputs: the current branch, staged changes, commits behind main, and the dotnet and Godot runs. `cleanup_after_merge`, `setup_pre_commit_hooks` and the hook script are not modelled.
- `continuous_mode` of scripts/test_monitor.py is not modelled: it is an endless polling loop with sleeps and modification-time scans.
- ANSI escape removal (scripts/test_monitor.py:86) is not modelled. Lines are taken already clean.
- Regex matching over markdown is not modelled. Inputs stand in for it:
  - the Backlog.md table rows of scripts/auto_archive_completed.py and scripts/verify_backlog_archive.py arrive as parsed rows;
  - the `[text](path)` links of scripts/sync_documentation_status.py arrive as parsed link lists.
- The markdown-link `re.sub` of scripts/update_doc_references.py:105-117 is the function parameter `LinkPass`. Its only assumption is that it matches nothing in a text without the old name.
- Other regexes are written out as scans or character-class checks. These are:
  - the name formats of scripts/migrate_archive_naming.py;
  - the item-id `findall` scans;
  - `re.findall(r'\d+')`;
  - the metrics searches.
- `os.walk`, `glob` and `rglob` listings are inputs. A listing holds each file once, in Python's order. The iteration order of `set(matches)` is an input ordering of the distinct references.
- Filesystem failures are not modelled:
  - `mkdir(parents=True, exist_ok=True)` always succeeds;
  - `unlink` of the backup succeeds;
  - in scripts/update_doc_references.py, a write never fails. An unreadable file is one missing from the map.
- Unicode is not modelled. `lower()`, `strip()`, `\s` and `\d` are their ASCII versions. The non-ASCII markers (the status marks of the documentation plans, and the cross, siren and warning signs that open the git workflow messages) are kept as characters.
- `Strings.IsSpace` is the six ASCII white-space characters. Python's `str.strip()` and `split()` also treat `\x1c` to `\x1f` as white space; those four are not.
- `Strings.ParseNat` accepts only a non-empty run of ASCII digits. Python's `int()` also accepts a sign and surrounding white space. Its one caller reads the month of a completion date (scripts/auto_archive_completed.py:196-201). There the model rejects `+5` and ` 5`, which Python reads as month 5, and `-1`, which Python reads as an int.
- `FileSystem.StemMd` strips a trailing `.md` only. `Path.stem` strips any last suffix (scripts/auto_archive_completed.py:176). The two differ only for an item path that does not end in `.md`.
- `copy2` is modelled as either raising before it writes or writing the whole content. A copy that writes part of the file and then raises is not modelled: such a partial backup or partial restore would stay on disk.
- `Path.rename` in scripts/migrate_archive_naming.py is the POSIX rename whenever it does not raise. A rename that reports success but leaves other content is not modelled.
- `VerifiedMove`: the move, backup and rollback members require that neither the source nor the destination lies under the backup directory. The scripts have no such check. No call site violates it: `.backlog_backups` is never a source or a destination of a move (scripts/backlog_maintainer_verification.py:84, 631, 763-782). The requirement keeps the backup file apart from the two paths the proofs talk about.
- `%Y` is written without padding, so the new-format round trip needs a four-digit year.
- `update_backlog_reference` of scripts/auto_archive_completed.py is not modelled. Its rewrite of Backlog.md is an outcome parameter: whether it succeeded.
- Console, `rich`, `click` and `logging` output is not modelled. This covers the verbose prints of the reference updater and the printed lines of `generate_report`; the boolean result of `generate_report` is modelled.
- Not modelled, because they are outside the modelled core:
  - `verify_status_update`, `verify_file_creation` and `verify_backlog_link` of scripts/verify_agent_output.py;
  - `check_false_positive_bf005` and `generate_report` of scripts/verify_backlog_archive.py.
- scripts/backlog_integration.py only launches other scripts, and scripts/setup_git_hooks.py only writes shell scripts. Neither is part of this model.
- The long multi-line help texts of the two branch-name errors are not modelled in full. Each is kept to its headline.
- `AgentOutput.AgentVerifier.GenerateReport`: an `archived` entry is modelled as a boolean or absent. A truthy value that is not a boolean is not distinguished.
- `TestMetrics.ParseTestResults`: its own contract states the passed, failed and skipped fields only for an output without the label. Their values are those of `LabelledNumber`, whose contract and lemmas give the first-match rule and the round trip.
- `TestMetrics.FirstTimeMatch`: states that its result is the group of a match at some position, not that it is the first such position.
- `TestMetrics.SkipSpaces`, `TestMetrics.AfterDigits` and `TestMetrics.AfterChar`: do not state that what they return is a suffix of their input. The round-trip lemmas pin down the concrete cases.

## Findings

| source | as written | input that shows it | evidently intended | confidence | as-written member | corrected member |
|---|---|---|---|---|---|---|
| scripts/migrate_archive_naming.py:316 | a file counts as migrated when its message contains `Migrated:`, and the skip messages embed the file name | a non-old-format file named `Migrated:.md` is skipped without change, yet counted as migrated | count a file as migrated when its message is the migration message, that is when a record was logged | not executed | MigrateNaming.MarkerDirectoryMiscounted | MigrateNaming.CorrectedMigratedAreLogged |
| scripts/sync_documentation_status.py:250 | the in-progress count looks for the status `IN PROGRESS` with a space, but the parser only emits `IN_PROGRESS` | a plan file `VS_001_Board.md` whose text is `ACTIVE` is in progress, yet the count is 0, so it is reported as planned | count the parser's `IN_PROGRESS` plans, so that planned features are the plans not started | not executed | DocStatus.ActiveSliceMissedAsWritten | DocStatus.PlannedAreNotStarted |
