/**
  `FileOperationVerifier` from scripts/backlog_maintainer_verification.py: a
  move that is checked after the fact and rolled back when the check fails.

  The filesystem, the three audit logs and the outcome of every distrusted
  operating-system call are explicit. SHA-256 is an arbitrary function `hash`
  from content to a non-empty hex digest; statements about content (rather
  than about digests) take as hypothesis that `hash` has no collisions (`Injective`).
*/
module VerifiedMove {

  import opened Wrappers
  import opened Strings
  import opened FileSystem

  /** A hexdigest: never the empty string, so `if expected_checksum:` is a presence test. */
  type Digest = s: string | s != [] witness "0"

  ghost predicate Injective(hash: Content -> Digest) {
    forall a, b :: hash(a) == hash(b) ==> a == b
  }

  /** The operation types the modelled methods use. */
  datatype OperationType = Move

  /** The MOVE checks of `_verify_file_operation`, in the order they run. */
  datatype MoveCheck =
    | DestinationMissing
    | SourceStillExists
    | DestinationEmpty
    | ChecksumMismatch(expected: Digest, actual: Digest)

  datatype VerificationFailure = VerificationFailure(op: OperationType, check: MoveCheck, source: Path, destination: Path)

  datatype ErrorKind = SourceNotFound | DestinationExists | MoveException | RollbackFailed

  datatype ErrorEntry = ErrorEntry(kind: ErrorKind, path: Path)

  /** The `details` dictionary of an operation-log entry. */
  datatype Details =
    | Refused(message: string)
    | Moved(size: nat, checksum: Digest, backup: Option<Path>)
    | VerificationFailed(lastFailure: Option<VerificationFailure>)

  datatype OperationEntry = OperationEntry(op: OperationType, success: bool, source: Path, destination: Path, details: Details)

  /** The outcome of each distrusted call one `move_with_verification` can make. */
  datatype Os = Os(backupCopy: CopyOutcome<Content>, move: MoveEffect<Content>, moveBack: MoveEffect<Content>, restoreCopy: CopyOutcome<Content>)

  datatype Report = Report(totalOperations: nat, successful: nat, failed: nat, totalErrors: nat, verificationFailures: nat)

  datatype RollbackResult = RollbackResult(fs: Fs, ok: bool, raised: bool)

  /** The filesystem after one `move_with_verification`, its result, and what it appended to each log. */
  datatype MoveResult = MoveResult(fs: Fs, ok: bool, entry: OperationEntry, errors: seq<ErrorEntry>, failures: seq<VerificationFailure>)

  /** `sum(1 for op in log if op["success"])`. */
  function CountSuccessful(log: seq<OperationEntry>): (n: nat)
    ensures n <= |log|
    ensures n == |log| <==> forall i :: 0 <= i < |log| ==> log[i].success
    ensures n == 0 <==> forall i :: 0 <= i < |log| ==> !log[i].success
  {
    if log == [] then 0
    else
      assert forall i :: 1 <= i < |log| ==> log[i] == log[1..][i - 1];
      (if log[0].success then 1 else 0) + CountSuccessful(log[1..])
  }

  /** Appending one entry adds one to the count exactly when the entry succeeded. */
  lemma {:induction false} CountSuccessfulAppend(log: seq<OperationEntry>, e: OperationEntry)
    ensures CountSuccessful(log + [e]) == CountSuccessful(log) + (if e.success then 1 else 0)
    decreases |log|
  {
    if log != [] {
      assert (log + [e])[1..] == log[1..] + [e];
      CountSuccessfulAppend(log[1..], e);
    }
  }

  /**
    `_perform_rollback` on the filesystem left by a failed move: the
    destination is moved back if it exists (success iff the source then
    exists and the destination does not); otherwise, or if that did not
    work, the source is restored from an existing backup and the partial
    destination removed; otherwise the rollback fails. A raising call ends
    the rollback with `raised` set.
  */
  function Rollback(fs: Fs, source: Path, destination: Path, backup: Option<Path>, moveBack: MoveEffect<Content>, restore: CopyOutcome<Content>): (r: RollbackResult)
    requires source != destination
    ensures r.ok ==> !r.raised && source in r.fs && destination !in r.fs
    ensures destination !in fs && (backup.None? || backup.value !in fs) ==> r == RollbackResult(fs, false, false)
    ensures destination in fs && moveBack == HonestMove(fs[destination]) ==>
              r.ok && r.fs[source] == fs[destination] && r.fs == AfterMove(fs, destination, source, moveBack)
    ensures destination !in fs && backup.Some? && backup.value in fs && restore.CopyWrote? ==>
              r.ok && r.fs[source] == restore.content
    ensures forall p :: p != source && p != destination ==> (p in r.fs <==> p in fs)
    ensures forall p :: p != source && p != destination && p in r.fs ==> r.fs[p] == fs[p]
  {
    var f1 := if destination in fs then AfterMove(fs, destination, source, moveBack) else fs;
    if destination in fs && moveBack.raised then RollbackResult(f1, false, true)
    else if destination in fs && source in f1 && destination !in f1 then RollbackResult(f1, true, false)
    else if backup.Some? && backup.value in f1 then
      if restore.CopyRaised? then RollbackResult(f1, false, true)
      else RollbackResult(f1[source := restore.content] - {destination}, true, false)
    else RollbackResult(f1, false, false)
  }

  /** Rollback as written checks existence only: a destination the move corrupted is moved back and reported as a success. */
  lemma RollbackAcceptsCorruptContent(fs: Fs, source: Path, destination: Path, corrupt: Content)
    requires source != destination && destination in fs && source !in fs
    ensures var r := Rollback(fs, source, destination, None, MoveEffect(false, None, Some(corrupt)), CopyRaised);
            r.ok && r.fs[source] == corrupt
  {
  }

  class FileOperationVerifier {
    var fs: Fs
    var operationLog: seq<OperationEntry>
    var errorLog: seq<ErrorEntry>
    var verificationFailures: seq<VerificationFailure>
    const enableRollback: bool
    const backupDir: Path
    const hash: Content -> Digest

    constructor (initial: Fs, backupDir: Path, enableRollback: bool, hash: Content -> Digest)
      ensures fs == initial && operationLog == [] && errorLog == [] && verificationFailures == []
      ensures this.backupDir == backupDir && this.enableRollback == enableRollback && this.hash == hash
    {
      fs := initial;
      operationLog := [];
      errorLog := [];
      verificationFailures := [];
      this.backupDir := backupDir;
      this.enableRollback := enableRollback;
      this.hash := hash;
    }

    /** `backup_dir / f"{source.name}.{timestamp}.backup"`. */
    function BackupPath(source: Path, stamp: string): (p: Path)
      ensures Under(p, backupDir)
    {
      var p := Child(backupDir, BaseName(source) + "." + stamp + ".backup");
      assert p == (backupDir + "/") + (BaseName(source) + "." + stamp + ".backup");
      p
    }

    /** The four MOVE checks pass on `f`. */
    predicate MoveVerified(f: Fs, source: Path, destination: Path, expected: Option<Digest>) {
      && destination in f
      && source !in f
      && |f[destination]| > 0
      && (expected.Some? ==> hash(f[destination]) == expected.value)
    }

    /** The first MOVE check that fails on `f`, if any. */
    function FirstFailedCheck(f: Fs, source: Path, destination: Path, expected: Option<Digest>): (r: Option<MoveCheck>)
      ensures r.None? <==> MoveVerified(f, source, destination, expected)
      ensures r == Some(DestinationEmpty) ==> destination in f && |f[destination]| == 0
      ensures r.Some? && r.value.ChecksumMismatch? ==>
                destination in f && expected == Some(r.value.expected) && r.value.actual == hash(f[destination]) != r.value.expected
    {
      if destination !in f then Some(DestinationMissing)
      else if source in f then Some(SourceStillExists)
      else if |f[destination]| == 0 then Some(DestinationEmpty)
      else if expected.Some? && hash(f[destination]) != expected.value then Some(ChecksumMismatch(expected.value, hash(f[destination])))
      else None
    }

    /** `get_verification_report()["summary"]` without the success rate. */
    function VerificationReport(): (r: Report)
      reads this
      ensures r.totalOperations == |operationLog| && r.successful + r.failed == r.totalOperations
      ensures r.failed == 0 <==> forall i :: 0 <= i < |operationLog| ==> operationLog[i].success
      ensures r.totalErrors == |errorLog| && r.verificationFailures == |verificationFailures|
    {
      var ok := CountSuccessful(operationLog);
      Report(|operationLog|, ok, |operationLog| - ok, |errorLog|, |verificationFailures|)
    }

    /** `_create_backup`: copy the source into the backup directory; keep it only if its size matches. */
    method CreateBackup(source: Path, stamp: string, outcome: CopyOutcome<Content>) returns (backup: Option<Path>)
      requires !Under(source, backupDir)
      modifies this`fs
      ensures source !in old(fs) ==> backup.None? && fs == old(fs)
      ensures source in old(fs) ==>
                fs == if outcome.CopyWrote? then old(fs)[BackupPath(source, stamp) := outcome.content] else old(fs)
      ensures backup.Some? <==> source in old(fs) && outcome.CopyWrote? && |outcome.content| == |old(fs)[source]|
      ensures backup.Some? ==> backup.value == BackupPath(source, stamp) && backup.value in fs && |fs[backup.value]| == |fs[source]|
    {
      if source !in fs {
        return None;
      }
      var target := BackupPath(source, stamp);
      match outcome
      case CopyRaised =>
        backup := None;
      case CopyWrote(c) =>
        fs := fs[target := c];
        backup := if target in fs && |fs[target]| == |fs[source]| then Some(target) else None;
    }

    /** `_verify_file_operation(MOVE, …)`: each failed check is recorded once and ends the verification. */
    method VerifyMove(source: Path, destination: Path, expected: Option<Digest>) returns (ok: bool)
      modifies this`verificationFailures
      ensures ok == MoveVerified(fs, source, destination, expected)
      ensures verificationFailures == old(verificationFailures) +
                if ok then [] else [VerificationFailure(Move, FirstFailedCheck(fs, source, destination, expected).value, source, destination)]
    {
      var check: Option<MoveCheck> := None;
      if destination !in fs {
        check := Some(DestinationMissing);
      } else if source in fs {
        check := Some(SourceStillExists);
      } else if |fs[destination]| == 0 {
        check := Some(DestinationEmpty);
      } else if expected.Some? {
        var actual := hash(fs[destination]);
        if actual != expected.value {
          check := Some(ChecksumMismatch(expected.value, actual));
        }
      }
      if check.Some? {
        verificationFailures := verificationFailures + [VerificationFailure(Move, check.value, source, destination)];
      }
      ok := check.None?;
    }

    /** `_log_operation`. */
    method LogOperation(success: bool, source: Path, destination: Path, details: Details)
      modifies this`operationLog
      ensures operationLog == old(operationLog) + [OperationEntry(Move, success, source, destination, details)]
    {
      operationLog := operationLog + [OperationEntry(Move, success, source, destination, details)];
    }

    /** `_perform_rollback`. */
    method PerformRollback(source: Path, destination: Path, backup: Option<Path>, moveBack: MoveEffect<Content>, restore: CopyOutcome<Content>)
      returns (ok: bool)
      requires source != destination
      modifies this`fs, this`errorLog
      ensures var want := Rollback(old(fs), source, destination, backup, moveBack, restore);
              fs == want.fs && ok == want.ok &&
              errorLog == old(errorLog) + if want.raised then [ErrorEntry(RollbackFailed, source)] else []
    {
      if destination in fs {
        fs := AfterMove(fs, destination, source, moveBack);
        if moveBack.raised {
          errorLog := errorLog + [ErrorEntry(RollbackFailed, source)];
          return false;
        }
        if source in fs && destination !in fs {
          return true;
        }
      }
      if backup.Some? && backup.value in fs {
        match restore
        case CopyRaised =>
          errorLog := errorLog + [ErrorEntry(RollbackFailed, source)];
          return false;
        case CopyWrote(c) =>
          fs := fs[source := c];
          if source in fs {
            if destination in fs {
              fs := fs - {destination};
            }
            return true;
          }
      }
      return false;
    }

    /**
      What `move_with_verification` leaves behind: pre-flight checks, an
      optional backup, the move, the mandatory verification against the
      source's checksum, then either cleanup of the backup or (when enabled)
      a rollback. `entry` is the one operation-log entry the call appends;
      `errors` and `failures` are what it appends to the other two logs.
    */
    function MoveSpec(f: Fs, source: Path, destination: Path, createBackup: bool, stamp: string, os: Os): (r: MoveResult)
      requires !Under(source, backupDir) && !Under(destination, backupDir)
      ensures r.entry.success == r.ok && r.entry.source == source && r.entry.destination == destination
    {
      if source !in f then
        MoveResult(f, false, OperationEntry(Move, false, source, destination, Refused("Source file does not exist: " + source)),
                   [ErrorEntry(SourceNotFound, source)], [])
      else if destination in f then
        MoveResult(f, false, OperationEntry(Move, false, source, destination, Refused("Destination already exists: " + destination)),
                   [ErrorEntry(DestinationExists, destination)], [])
      else
        var (f0, backup) := BackupStage(f, source, stamp, createBackup && enableRollback, os.backupCopy);
        AfterMoveSpec(AfterMove(f0, source, destination, os.move), source, destination, f[source], backup, os)
    }

    /** The filesystem after the optional backup of `source`, and the backup kept (only one of the source's size). */
    function BackupStage(f: Fs, source: Path, stamp: string, attempt: bool, outcome: CopyOutcome<Content>): (r: (Fs, Option<Path>))
      requires source in f
      ensures r.1.Some? ==> attempt && r.1.value == BackupPath(source, stamp) && r.1.value in r.0 && |r.0[r.1.value]| == |f[source]|
      ensures !attempt ==> r == (f, None)
    {
      if attempt && outcome.CopyWrote? then
        var bp := BackupPath(source, stamp);
        (f[bp := outcome.content], if |outcome.content| == |f[source]| then Some(bp) else None)
      else (f, None)
    }

    /**
      The part of `move_with_verification` after the move: `f1` is the
      filesystem the move left, `c` the source's content before it, `backup`
      the backup taken.
    */
    function AfterMoveSpec(f1: Fs, source: Path, destination: Path, c: Content, backup: Option<Path>, os: Os): (r: MoveResult)
      requires source != destination
      ensures r.entry.success == r.ok && r.entry.source == source && r.entry.destination == destination
    {
      if os.move.raised then
        var restored := if backup.Some? && backup.value in f1 && os.restoreCopy.CopyWrote? then f1[source := os.restoreCopy.content] else f1;
        MoveResult(restored, false, OperationEntry(Move, false, source, destination, Refused("Move operation failed")),
                   [ErrorEntry(MoveException, source)], [])
      else if MoveVerified(f1, source, destination, Some(hash(c))) then
        MoveResult(if backup.Some? && backup.value in f1 then f1 - {backup.value} else f1, true,
                   OperationEntry(Move, true, source, destination, Moved(|c|, hash(c), backup)), [], [])
      else
        var failure := VerificationFailure(Move, FirstFailedCheck(f1, source, destination, Some(hash(c))).value, source, destination);
        var rb := Rollback(f1, source, destination, backup, os.moveBack, os.restoreCopy);
        MoveResult(if enableRollback then rb.fs else f1, false,
                   OperationEntry(Move, false, source, destination, VerificationFailed(Some(failure))),
                   if enableRollback && rb.raised then [ErrorEntry(RollbackFailed, source)] else [], [failure])
    }

    /** A missing source or an existing destination refuses the move before anything touches the filesystem. */
    lemma PreflightRefusals(f: Fs, source: Path, destination: Path, createBackup: bool, stamp: string, os: Os)
      requires !Under(source, backupDir) && !Under(destination, backupDir)
      requires source !in f || destination in f
      ensures var r := MoveSpec(f, source, destination, createBackup, stamp, os);
              !r.ok && r.fs == f && r.failures == [] &&
              r.errors == [if source !in f then ErrorEntry(SourceNotFound, source) else ErrorEntry(DestinationExists, destination)]
    {
    }

    /**
      A reported success means the source is gone, the destination is
      non-empty and has the source's checksum, and any backup taken has been
      deleted.
    */
    lemma SuccessGuarantees(f: Fs, source: Path, destination: Path, createBackup: bool, stamp: string, os: Os)
      requires !Under(source, backupDir) && !Under(destination, backupDir)
      requires MoveSpec(f, source, destination, createBackup, stamp, os).ok
      ensures var r := MoveSpec(f, source, destination, createBackup, stamp, os);
              && source in f && destination !in f
              && source !in r.fs && destination in r.fs && |r.fs[destination]| > 0
              && hash(r.fs[destination]) == hash(f[source])
              && r.errors == [] && r.failures == []
      ensures createBackup && enableRollback && os.backupCopy.CopyWrote? && |os.backupCopy.content| == |f[source]| ==>
                BackupPath(source, stamp) !in MoveSpec(f, source, destination, createBackup, stamp, os).fs
    {
      var bp := BackupPath(source, stamp);
      assert bp != source && bp != destination by {
        assert Under(bp, backupDir);
      }
      var c := f[source];
      var (f0, backup) := BackupStage(f, source, stamp, createBackup && enableRollback, os.backupCopy);
      var f1 := AfterMove(f0, source, destination, os.move);
      assert MoveSpec(f, source, destination, createBackup, stamp, os) == AfterMoveSpec(f1, source, destination, c, backup, os);
      assert !os.move.raised && MoveVerified(f1, source, destination, Some(hash(c)));
    }

    /** With a collision-free checksum, a reported success means the destination holds exactly the source's content. */
    lemma SuccessPreservesContent(f: Fs, source: Path, destination: Path, createBackup: bool, stamp: string, os: Os)
      requires !Under(source, backupDir) && !Under(destination, backupDir)
      requires Injective(hash)
      requires MoveSpec(f, source, destination, createBackup, stamp, os).ok
      ensures source in f && MoveSpec(f, source, destination, createBackup, stamp, os).fs[destination] == f[source]
    {
      SuccessGuarantees(f, source, destination, createBackup, stamp, os);
    }

    /** The empty-destination check is unconditional: an empty file is never reported as moved. */
    lemma EmptySourceNeverMoves(f: Fs, source: Path, destination: Path, createBackup: bool, stamp: string, os: Os)
      requires !Under(source, backupDir) && !Under(destination, backupDir)
      requires Injective(hash)
      requires source in f && |f[source]| == 0
      ensures !MoveSpec(f, source, destination, createBackup, stamp, os).ok
    {
      if MoveSpec(f, source, destination, createBackup, stamp, os).ok {
        SuccessPreservesContent(f, source, destination, createBackup, stamp, os);
        SuccessGuarantees(f, source, destination, createBackup, stamp, os);
      }
    }

    /** A move that behaves as documented always succeeds for a non-empty file, whatever happened to the backup. */
    lemma HonestMoveSucceeds(f: Fs, source: Path, destination: Path, createBackup: bool, stamp: string, os: Os)
      requires !Under(source, backupDir) && !Under(destination, backupDir)
      requires source in f && destination !in f && |f[source]| > 0
      requires os.move == HonestMove(f[source])
      ensures MoveSpec(f, source, destination, createBackup, stamp, os).ok
    {
      var bp := BackupPath(source, stamp);
      assert bp != source && bp != destination by {
        assert Under(bp, backupDir);
      }
    }

    /** Rollback runs only when it is enabled, and no backup is written then either. */
    lemma NoRollbackWhenDisabled(f: Fs, source: Path, destination: Path, createBackup: bool, stamp: string, os: Os)
      requires !Under(source, backupDir) && !Under(destination, backupDir)
      requires !enableRollback && source in f && destination !in f && !os.move.raised
      ensures var r := MoveSpec(f, source, destination, createBackup, stamp, os);
              !r.ok ==> r.fs == AfterMove(f, source, destination, os.move) && r.errors == []
    {
    }

    /** A backup is written only when both `create_backup` and `enable_rollback` hold. */
    lemma BackupOnlyWhenRequested(f: Fs, source: Path, destination: Path, createBackup: bool, stamp: string, os: Os)
      requires !Under(source, backupDir) && !Under(destination, backupDir)
      requires !(createBackup && enableRollback)
      ensures var bp, r := BackupPath(source, stamp), MoveSpec(f, source, destination, createBackup, stamp, os);
              (bp in r.fs <==> bp in f) && (bp in f ==> r.fs[bp] == f[bp])
    {
      var bp := BackupPath(source, stamp);
      assert bp != source && bp != destination by {
        assert Under(bp, backupDir);
      }
    }

    /** Nothing but the source, the destination and the backup is touched. */
    lemma MoveFrame(f: Fs, source: Path, destination: Path, createBackup: bool, stamp: string, os: Os, p: Path)
      requires !Under(source, backupDir) && !Under(destination, backupDir)
      requires p != source && p != destination && p != BackupPath(source, stamp)
      ensures var r := MoveSpec(f, source, destination, createBackup, stamp, os);
              (p in r.fs <==> p in f) && (p in f ==> r.fs[p] == f[p])
    {
      if source in f && destination !in f {
        var (f0, backup) := BackupStage(f, source, stamp, createBackup && enableRollback, os.backupCopy);
        BackupStageFrame(f, source, stamp, createBackup && enableRollback, os.backupCopy, p);
        var f1 := AfterMove(f0, source, destination, os.move);
        AfterMoveSpecFrame(f1, source, destination, f[source], backup, os, p);
        assert MoveSpec(f, source, destination, createBackup, stamp, os) == AfterMoveSpec(f1, source, destination, f[source], backup, os);
      }
    }

    /** The backup stage touches only the backup path. */
    lemma BackupStageFrame(f: Fs, source: Path, stamp: string, attempt: bool, outcome: CopyOutcome<Content>, p: Path)
      requires source in f && p != BackupPath(source, stamp)
      ensures var f0 := BackupStage(f, source, stamp, attempt, outcome).0;
              (p in f0 <==> p in f) && (p in f ==> f0[p] == f[p])
    {
    }

    /** After the move, only the source, the destination and the backup are touched. */
    lemma AfterMoveSpecFrame(f1: Fs, source: Path, destination: Path, c: Content, backup: Option<Path>, os: Os, p: Path)
      requires source != destination && p != source && p != destination && (backup.Some? ==> p != backup.value)
      ensures var r := AfterMoveSpec(f1, source, destination, c, backup, os);
              (p in r.fs <==> p in f1) && (p in f1 ==> r.fs[p] == f1[p])
    {
    }

    /** `move_with_verification`. */
    method MoveWithVerification(source: Path, destination: Path, createBackup: bool, stamp: string, os: Os) returns (r: bool)
      requires !Under(source, backupDir) && !Under(destination, backupDir)
      modifies this
      ensures var want := MoveSpec(old(fs), source, destination, createBackup, stamp, os);
              && fs == want.fs && r == want.ok
              && operationLog == old(operationLog) + [want.entry]
              && errorLog == old(errorLog) + want.errors
              && verificationFailures == old(verificationFailures) + want.failures
      ensures CountSuccessful(operationLog) == CountSuccessful(old(operationLog)) + if r then 1 else 0
    {
      ghost var want := MoveSpec(fs, source, destination, createBackup, stamp, os);
      ghost var log0 := operationLog;
      r := false;
      if source !in fs {
        errorLog := errorLog + [ErrorEntry(SourceNotFound, source)];
        LogOperation(false, source, destination, Refused("Source file does not exist: " + source));
      } else if destination in fs {
        errorLog := errorLog + [ErrorEntry(DestinationExists, destination)];
        LogOperation(false, source, destination, Refused("Destination already exists: " + destination));
      } else {
        r := MoveExistingSource(source, destination, createBackup, stamp, os);
      }
      CountSuccessfulAppend(log0, want.entry);
    }

    /** `move_with_verification` once the pre-flight checks have passed: backup, move, and what follows. */
    method MoveExistingSource(source: Path, destination: Path, createBackup: bool, stamp: string, os: Os) returns (r: bool)
      requires !Under(source, backupDir) && !Under(destination, backupDir)
      requires source in fs && destination !in fs
      modifies this
      ensures var want := MoveSpec(old(fs), source, destination, createBackup, stamp, os);
              && fs == want.fs && r == want.ok
              && operationLog == old(operationLog) + [want.entry]
              && errorLog == old(errorLog) + want.errors
              && verificationFailures == old(verificationFailures) + want.failures
    {
      var bp := BackupPath(source, stamp);
      assert bp != source && bp != destination by {
        assert Under(bp, backupDir);
      }
      ghost var f := fs;
      var backup: Option<Path> := None;
      if createBackup && enableRollback {
        backup := CreateBackup(source, stamp, os.backupCopy);
      }
      assert (fs, backup) == BackupStage(f, source, stamp, createBackup && enableRollback, os.backupCopy);
      var c := fs[source];
      assert c == f[source];
      fs := AfterMove(fs, source, destination, os.move);
      r := FinishMove(source, destination, c, backup, os);
    }

    /** The steps of `move_with_verification` after `shutil.move` has returned or raised. */
    method FinishMove(source: Path, destination: Path, c: Content, backup: Option<Path>, os: Os) returns (r: bool)
      requires source != destination
      modifies this
      ensures var want := AfterMoveSpec(old(fs), source, destination, c, backup, os);
              && fs == want.fs && r == want.ok
              && operationLog == old(operationLog) + [want.entry]
              && errorLog == old(errorLog) + want.errors
              && verificationFailures == old(verificationFailures) + want.failures
    {
      var checksum := hash(c);
      if os.move.raised {
        errorLog := errorLog + [ErrorEntry(MoveException, source)];
        LogOperation(false, source, destination, Refused("Move operation failed"));
        if backup.Some? && backup.value in fs {
          match os.restoreCopy
          case CopyRaised =>
          case CopyWrote(copied) =>
            fs := fs[source := copied];
        }
        return false;
      }
      var verified := VerifyMove(source, destination, Some(checksum));
      if verified {
        LogOperation(true, source, destination, Moved(|c|, checksum, backup));
        if backup.Some? && backup.value in fs {
          fs := fs - {backup.value};
        }
        return true;
      }
      var last := if |verificationFailures| > 0 then Some(verificationFailures[|verificationFailures| - 1]) else None;
      LogOperation(false, source, destination, VerificationFailed(last));
      if enableRollback {
        var _ := PerformRollback(source, destination, backup, os.moveBack, os.restoreCopy);
      }
      return false;
    }

    /** `archive_dir / f"{today}-{source.name}"`, `today` being the `%Y_%m_%d` date of the call. */
    function ArchivePath(archiveDir: Path, today: string, source: Path): (p: Path)
      ensures '/' !in today ==> BaseName(p) == today + "-" + BaseName(source)
    {
      var name := today + "-" + BaseName(source);
      if '/' !in today then
        assert '/' !in name by {
          assert forall i :: 0 <= i < |name| ==> name[i] in today || name[i] == '-' || name[i] in BaseName(source);
        }
        BaseNameOfChild(archiveDir, name);
        Child(archiveDir, name)
      else Child(archiveDir, name)
    }

    /** `archive_with_verification`: a verified move to the dated archive name; never overwrites an archived copy. */
    method ArchiveWithVerification(itemId: string, source: Path, archiveDir: Path, today: string, stamp: string, os: Os)
      returns (ok: bool, archived: Option<Path>)
      requires !Under(source, backupDir) && !Under(ArchivePath(archiveDir, today, source), backupDir)
      modifies this
      ensures archived == if ok then Some(ArchivePath(archiveDir, today, source)) else None
      ensures var want := MoveSpec(old(fs), source, ArchivePath(archiveDir, today, source), true, stamp, os);
              && fs == want.fs && ok == want.ok
              && operationLog == old(operationLog) + [want.entry]
              && errorLog == old(errorLog) + want.errors
              && verificationFailures == old(verificationFailures) + want.failures
    {
      var destination := ArchivePath(archiveDir, today, source);
      ok := MoveWithVerification(source, destination, true, stamp, os);
      archived := if ok then Some(destination) else None;
    }
  }
}
