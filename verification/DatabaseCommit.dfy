// The two-database commit of scripts/t66_merge.py: compare-and-swap on both files,
// back up both, stage both, replace both, verify both, and roll back on failure.
// File contents are byte sequences. A fingerprint is a digest and a size; the digest
// is taken as collision-free and so stands for the content itself.
module DatabaseCommit {
  import opened Wrappers

  newtype byte = x: int | 0 <= x < 256
  type Bytes = seq<byte>

  datatype Db = J1939 | Dtc
  datatype File = Live(db: Db) | Backup(db: Db) | Staged(db: Db)
  type Files = map<File, Bytes>

  /** Commit order: J1939 first. */
  const ORDER: seq<Db> := [J1939, Dtc]
  const ATTEMPTS := 6

  datatype Both<T> = Both(j1939: T, dtc: T) {
    function Of(db: Db): T { if db.J1939? then j1939 else dtc }
  }

  datatype Fingerprint = Fingerprint(digest: Bytes, size: nat)

  function FingerprintOf(raw: Bytes): Fingerprint { Fingerprint(raw, |raw|) }

  // ------------------------------------------------------------------- faults

  datatype Phase = Cas | Verify | BeforeRestore | AfterRestore | Report

  // A file operation that ends normally moves or copies the file's own bytes, unless
  // something tampers with them: then other bytes are found afterwards.

  /** One try to move the staged file over the live one. */
  datatype Attempt = Refused | Lands(tampered: Option<Bytes>)

  /** Copying a backup over the live file: it raises and leaves some bytes, or ends. */
  datatype Copy = Raises(left: Bytes) | Copies(tampered: Option<Bytes>)

  datatype Staging = StageRaises | Writes(tampered: Option<Bytes>)

  /** The file's own bytes, or what tampering put in their place. */
  function Instead(tampered: Option<Bytes>, own: Bytes): Bytes {
    if tampered.Some? then tampered.value else own
  }

  /**
   * Everything the operating system may do to one commit. A backup copy is exact or
   * raises, leaving some bytes; the `k`-th try to replace a file is `replace.Of(db)(k)`.
   */
  datatype Faults = Faults(
    unreadable: set<(Phase, Db)>,
    backup: Both<Option<Bytes>>,
    stage: Both<Staging>,
    replace: Both<nat -> Attempt>,
    restore: Both<Copy>)

  datatype Reason = ReplaceFailed(db: Db) | VerifyFailed(db: Db)

  datatype Outcome =
    | Committed
    | Changed(db: Db)
    | Unreadable(db: Db)
    | BackupRaised(db: Db)
    | StageFailed(db: Db)
    | RolledBack(reason: Reason)
    | RollbackRaised(db: Db)
    | RollbackWrong(db: Db)
    | ReadRaised(phase: Phase, db: Db)

  // ------------------------------------------------------------ specification

  /** A commit under way or ended, with every earlier state of the files. */
  datatype Progress =
    | Running(files: Files, past: seq<Files>)
    | Ended(outcome: Outcome, files: Files, past: seq<Files>)
  {
    function Write(f: File, b: Bytes): Progress { Running(files[f := b], past + [files]) }

    function End(outcome: Outcome): Progress { Ended(outcome, files, past) }

    /** The file is there and can be read in this phase. */
    predicate Reads(phase: Phase, db: Db, faults: Faults) {
      Live(db) in files && (phase, db) !in faults.unreadable
    }
  }

  function CasStep(s: Progress, db: Db, prints: Both<Fingerprint>, faults: Faults): Progress {
    if s.Ended? then s
    else if !s.Reads(Cas, db, faults) then s.End(Unreadable(db))
    else if FingerprintOf(s.files[Live(db)]) != prints.Of(db) then s.End(Changed(db))
    else s
  }

  function BackupStep(s: Progress, db: Db, faults: Faults): Progress {
    if s.Ended? then s
    else if Live(db) !in s.files then s.End(BackupRaised(db))
    else
      match faults.backup.Of(db)
      case Some(left) => s.Write(Backup(db), left).End(BackupRaised(db))
      case None => s.Write(Backup(db), s.files[Live(db)])
  }

  function StageStep(s: Progress, db: Db, payload: Both<Bytes>, faults: Faults): Progress {
    if s.Ended? then s
    else
      match faults.stage.Of(db)
      case StageRaises => s.End(StageFailed(db))
      case Writes(tampered) =>
        var bytes := Instead(tampered, payload.Of(db));
        var t := s.Write(Staged(db), bytes);
        if bytes != payload.Of(db) then t.End(StageFailed(db)) else t
  }

  /** The first attempt from the `k`-th on that is not refused. */
  function Landing(attempt: nat -> Attempt, k: nat): Attempt
    decreases ATTEMPTS - k
  {
    if k >= ATTEMPTS then Refused
    else if attempt(k).Lands? then attempt(k)
    else Landing(attempt, k + 1)
  }

  function ReplaceStep(s: Progress, db: Db, prints: Both<Fingerprint>, faults: Faults): Progress {
    if s.Ended? then s
    else
      match Landing(faults.replace.Of(db), 0)
      case Refused => Rollback(s, ReplaceFailed(db), prints, faults)
      case Lands(tampered) =>
        if Staged(db) !in s.files then Rollback(s, ReplaceFailed(db), prints, faults)
        else
          var found := Instead(tampered, s.files[Staged(db)]);
          Running(s.files[Live(db) := found] - {Staged(db)}, s.past + [s.files])
  }

  function VerifyStep(s: Progress, db: Db, payload: Both<Bytes>, prints: Both<Fingerprint>, faults: Faults)
    : Progress
  {
    if s.Ended? then s
    else if !s.Reads(Verify, db, faults) then s.End(ReadRaised(Verify, db))
    else if FingerprintOf(s.files[Live(db)]) != FingerprintOf(payload.Of(db)) then
      Rollback(s, VerifyFailed(db), prints, faults)
    else s
  }

  function RestoreStep(s: Progress, db: Db, prints: Both<Fingerprint>, faults: Faults): Progress {
    if s.Ended? then s
    else if !s.Reads(BeforeRestore, db, faults) then s.End(ReadRaised(BeforeRestore, db))
    else if FingerprintOf(s.files[Live(db)]) == prints.Of(db) then s
    else if Backup(db) !in s.files then s.End(RollbackRaised(db))
    else
      match faults.restore.Of(db)
      case Raises(left) => s.Write(Live(db), left).End(RollbackRaised(db))
      case Copies(tampered) =>
        var found := Instead(tampered, s.files[Backup(db)]);
        var t := s.Write(Live(db), found);
        if !t.Reads(AfterRestore, db, faults) then t.End(ReadRaised(AfterRestore, db))
        else if FingerprintOf(found) != prints.Of(db) then t.End(RollbackWrong(db))
        else t
  }

  // The loops over both files, as far as the first `n` of them.

  function BackupFirst(s: Progress, n: nat, faults: Faults): Progress
    requires n <= |ORDER|
  {
    if n == 0 then s else BackupStep(BackupFirst(s, n - 1, faults), ORDER[n - 1], faults)
  }

  function StageFirst(s: Progress, n: nat, payload: Both<Bytes>, faults: Faults): Progress
    requires n <= |ORDER|
  {
    if n == 0 then s else StageStep(StageFirst(s, n - 1, payload, faults), ORDER[n - 1], payload, faults)
  }

  function ReplaceFirst(s: Progress, n: nat, prints: Both<Fingerprint>, faults: Faults): Progress
    requires n <= |ORDER|
  {
    if n == 0 then s else ReplaceStep(ReplaceFirst(s, n - 1, prints, faults), ORDER[n - 1], prints, faults)
  }

  function VerifyFirst(s: Progress, n: nat, payload: Both<Bytes>, prints: Both<Fingerprint>, faults: Faults)
    : Progress
    requires n <= |ORDER|
  {
    if n == 0 then s
    else VerifyStep(VerifyFirst(s, n - 1, payload, prints, faults), ORDER[n - 1], payload, prints, faults)
  }

  function RestoreFirst(s: Progress, n: nat, prints: Both<Fingerprint>, faults: Faults): Progress
    requires n <= |ORDER|
  {
    if n == 0 then s else RestoreStep(RestoreFirst(s, n - 1, prints, faults), ORDER[n - 1], prints, faults)
  }

  function Rollback(s: Progress, reason: Reason, prints: Both<Fingerprint>, faults: Faults): Progress {
    var t := RestoreFirst(s, 2, prints, faults);
    if t.Ended? then t else t.End(RolledBack(reason))
  }

  /** Everything before the first replacement of a live file. */
  function Prepare(files: Files, payload: Both<Bytes>, prints: Both<Fingerprint>, faults: Faults): Progress {
    var checked := CasStep(CasStep(Running(files, []), Dtc, prints, faults), J1939, prints, faults);
    StageFirst(BackupFirst(checked, 2, faults), 2, payload, faults)
  }

  /** The whole commit: its outcome, the files it leaves and every state they went through. */
  function Commit(files: Files, payload: Both<Bytes>, prints: Both<Fingerprint>, faults: Faults): Progress {
    var replaced := ReplaceFirst(Prepare(files, payload, prints, faults), 2, prints, faults);
    Close(VerifyFirst(replaced, 2, payload, prints, faults), faults)
  }

  /** A verified commit reads both files once more for its report. */
  function Close(s: Progress, faults: Faults): Progress {
    if s.Ended? then s
    else if !s.Reads(Report, Dtc, faults) then s.End(ReadRaised(Report, Dtc))
    else if !s.Reads(Report, J1939, faults) then s.End(ReadRaised(Report, J1939))
    else s.End(Committed)
  }

  // ----------------------------------------------------------- implementation

  class Disk {
    var files: Files
    /** Every state the files have been in since the commit began. */
    ghost var past: seq<Files>

    ghost function Now(): Progress
      reads this
    {
      Running(files, past)
    }

    constructor (files: Files)
      ensures this.files == files && past == []
    {
      this.files := files;
      past := [];
    }

    method Write(f: File, b: Bytes)
      modifies this
      ensures Now() == old(Now()).Write(f, b)
    {
      past := past + [files];
      files := files[f := b];
    }

    /** `os.replace`: the staged file is gone, and its bytes are the live ones, or what tampering left there. */
    method Move(db: Db, tampered: Option<Bytes>) returns (found: Bytes)
      requires Staged(db) in files
      modifies this
      ensures found == Instead(tampered, old(files)[Staged(db)])
      ensures files == old(files)[Live(db) := found] - {Staged(db)}
      ensures past == old(past) + [old(files)]
    {
      found := Instead(tampered, files[Staged(db)]);
      past := past + [files];
      files := files[Live(db) := found] - {Staged(db)};
    }

    /** `_verify_unchanged`: no failure when the bytes are the ones that were read. */
    method VerifyUnchanged(db: Db, prints: Both<Fingerprint>, faults: Faults) returns (failure: Option<Outcome>)
      ensures CasStep(Now(), db, prints, faults)
           == if failure.None? then Now() else Now().End(failure.value)
    {
      if Live(db) !in files || (Cas, db) in faults.unreadable {
        return Some(Unreadable(db));
      }
      if FingerprintOf(files[Live(db)]) != prints.Of(db) {
        return Some(Changed(db));
      }
      return None;
    }

    method BackupAll(faults: Faults) returns (failure: Option<Outcome>)
      modifies this
      ensures BackupFirst(old(Now()), 2, faults)
           == if failure.None? then Now() else Now().End(failure.value)
    {
      var i := 0;
      while i < |ORDER|
        invariant i <= |ORDER|
        invariant BackupFirst(old(Now()), i, faults) == Now()
      {
        var db := ORDER[i];
        if Live(db) !in files {
          BackupStays(old(Now()), i + 1, 2, faults);
          return Some(BackupRaised(db));
        }
        match faults.backup.Of(db)
        case Some(left) =>
          Write(Backup(db), left);
          BackupStays(old(Now()), i + 1, 2, faults);
          return Some(BackupRaised(db));
        case None =>
          Write(Backup(db), files[Live(db)]);
        i := i + 1;
      }
      return None;
    }

    method StageAll(payload: Both<Bytes>, faults: Faults) returns (failure: Option<Outcome>)
      modifies this
      ensures StageFirst(old(Now()), 2, payload, faults)
           == if failure.None? then Now() else Now().End(failure.value)
    {
      var i := 0;
      while i < |ORDER|
        invariant i <= |ORDER|
        invariant StageFirst(old(Now()), i, payload, faults) == Now()
      {
        var db := ORDER[i];
        match faults.stage.Of(db)
        case StageRaises =>
          StageStays(old(Now()), i + 1, 2, payload, faults);
          return Some(StageFailed(db));
        case Writes(tampered) =>
          Write(Staged(db), Instead(tampered, payload.Of(db)));
          if files[Staged(db)] != payload.Of(db) {
            StageStays(old(Now()), i + 1, 2, payload, faults);
            return Some(StageFailed(db));
          }
        i := i + 1;
      }
      return None;
    }

    /** `_rollback`: both files are looked at, the changed ones are copied back and proved. */
    method RollBack(reason: Reason, prints: Both<Fingerprint>, faults: Faults) returns (outcome: Outcome)
      modifies this
      ensures Rollback(old(Now()), reason, prints, faults) == Now().End(outcome)
    {
      var i := 0;
      while i < |ORDER|
        invariant i <= |ORDER|
        invariant RestoreFirst(old(Now()), i, prints, faults) == Now()
      {
        var db := ORDER[i];
        if Live(db) !in files || (BeforeRestore, db) in faults.unreadable {
          RestoreStays(old(Now()), i + 1, 2, prints, faults);
          return ReadRaised(BeforeRestore, db);
        }
        if FingerprintOf(files[Live(db)]) != prints.Of(db) {
          var failure := RestoreFromBackup(db, prints, faults);
          if failure.Some? {
            RestoreStays(old(Now()), i + 1, 2, prints, faults);
            return failure.value;
          }
        }
        i := i + 1;
      }
      return RolledBack(reason);
    }

    /** `_restore_from_bak`. */
    method RestoreFromBackup(db: Db, prints: Both<Fingerprint>, faults: Faults) returns (failure: Option<Outcome>)
      requires Now().Reads(BeforeRestore, db, faults) && FingerprintOf(files[Live(db)]) != prints.Of(db)
      modifies this
      ensures RestoreStep(old(Now()), db, prints, faults)
           == if failure.None? then Now() else Now().End(failure.value)
    {
      if Backup(db) !in files {
        return Some(RollbackRaised(db));
      }
      match faults.restore.Of(db)
      case Raises(left) =>
        Write(Live(db), left);
        return Some(RollbackRaised(db));
      case Copies(tampered) =>
        Write(Live(db), Instead(tampered, files[Backup(db)]));
        if (AfterRestore, db) in faults.unreadable {
          return Some(ReadRaised(AfterRestore, db));
        }
        if FingerprintOf(files[Live(db)]) != prints.Of(db) {
          return Some(RollbackWrong(db));
        }
        return None;
    }

    method ReplaceAll(prints: Both<Fingerprint>, faults: Faults) returns (failure: Option<Outcome>)
      modifies this
      ensures ReplaceFirst(old(Now()), 2, prints, faults)
           == if failure.None? then Now() else Now().End(failure.value)
    {
      var i := 0;
      while i < |ORDER|
        invariant i <= |ORDER|
        invariant ReplaceFirst(old(Now()), i, prints, faults) == Now()
      {
        var db := ORDER[i];
        var attempt := 0;
        var landed := false;
        while attempt < ATTEMPTS && !landed
          invariant attempt <= ATTEMPTS
          invariant !landed ==> Now() == ReplaceFirst(old(Now()), i, prints, faults)
          invariant !landed && Staged(db) in files ==>
            Landing(faults.replace.Of(db), 0) == Landing(faults.replace.Of(db), attempt)
          invariant landed ==> Now() == ReplaceFirst(old(Now()), i + 1, prints, faults)
          decreases ATTEMPTS - attempt, !landed
        {
          var try := faults.replace.Of(db)(attempt);
          if try.Lands? && Staged(db) in files {
            var _ := Move(db, try.tampered);
            landed := true;
          } else {
            attempt := attempt + 1;
          }
        }
        if !landed {
          var outcome := RollBack(ReplaceFailed(db), prints, faults);
          ReplaceStays(old(Now()), i + 1, 2, prints, faults);
          return Some(outcome);
        }
        i := i + 1;
      }
      return None;
    }

    method VerifyAll(payload: Both<Bytes>, prints: Both<Fingerprint>, faults: Faults)
      returns (failure: Option<Outcome>)
      modifies this
      ensures VerifyFirst(old(Now()), 2, payload, prints, faults)
           == if failure.None? then Now() else Now().End(failure.value)
    {
      var i := 0;
      while i < |ORDER|
        invariant i <= |ORDER|
        invariant VerifyFirst(old(Now()), i, payload, prints, faults) == Now()
      {
        var db := ORDER[i];
        if Live(db) !in files || (Verify, db) in faults.unreadable {
          VerifyStays(old(Now()), i + 1, 2, payload, prints, faults);
          return Some(ReadRaised(Verify, db));
        }
        if FingerprintOf(files[Live(db)]) != FingerprintOf(payload.Of(db)) {
          var outcome := RollBack(VerifyFailed(db), prints, faults);
          VerifyStays(old(Now()), i + 1, 2, payload, prints, faults);
          return Some(outcome);
        }
        i := i + 1;
      }
      return None;
    }

    /** `_commit_databases`. */
    method CommitDatabases(payload: Both<Bytes>, prints: Both<Fingerprint>, faults: Faults)
      returns (outcome: Outcome)
      requires past == []
      modifies this
      ensures Commit(old(files), payload, prints, faults) == Ended(outcome, files, past)
    {
      ghost var start := Now();
      var failure := VerifyUnchanged(Dtc, prints, faults);
      if failure.None? {
        failure := VerifyUnchanged(J1939, prints, faults);
      }
      if failure.Some? {
        EndedStays(Now().End(failure.value), payload, prints, faults);
        return failure.value;
      }
      failure := BackupAll(faults);
      if failure.None? {
        failure := StageAll(payload, faults);
      } else {
        StageStays(Now().End(failure.value), 0, 2, payload, faults);
      }
      if failure.None? {
        failure := ReplaceAll(prints, faults);
      } else {
        ReplaceStays(Now().End(failure.value), 0, 2, prints, faults);
      }
      if failure.None? {
        failure := VerifyAll(payload, prints, faults);
      } else {
        VerifyStays(Now().End(failure.value), 0, 2, payload, prints, faults);
      }
      if failure.Some? {
        return failure.value;
      }
      if Live(Dtc) !in files || (Report, Dtc) in faults.unreadable {
        return ReadRaised(Report, Dtc);
      }
      if Live(J1939) !in files || (Report, J1939) in faults.unreadable {
        return ReadRaised(Report, J1939);
      }
      return Committed;
    }
  }

  // A commit that has ended stays as it is through the remaining steps.

  lemma {:induction false} BackupStays(s: Progress, k: nat, n: nat, faults: Faults)
    requires k <= n <= |ORDER| && BackupFirst(s, k, faults).Ended?
    ensures BackupFirst(s, n, faults) == BackupFirst(s, k, faults)
    decreases n
  {
    if k < n { BackupStays(s, k, n - 1, faults); }
  }

  lemma {:induction false} StageStays(s: Progress, k: nat, n: nat, payload: Both<Bytes>, faults: Faults)
    requires k <= n <= |ORDER| && StageFirst(s, k, payload, faults).Ended?
    ensures StageFirst(s, n, payload, faults) == StageFirst(s, k, payload, faults)
    decreases n
  {
    if k < n { StageStays(s, k, n - 1, payload, faults); }
  }

  lemma {:induction false} ReplaceStays(s: Progress, k: nat, n: nat, prints: Both<Fingerprint>, faults: Faults)
    requires k <= n <= |ORDER| && ReplaceFirst(s, k, prints, faults).Ended?
    ensures ReplaceFirst(s, n, prints, faults) == ReplaceFirst(s, k, prints, faults)
    decreases n
  {
    if k < n { ReplaceStays(s, k, n - 1, prints, faults); }
  }

  lemma {:induction false} VerifyStays(
      s: Progress, k: nat, n: nat, payload: Both<Bytes>, prints: Both<Fingerprint>, faults: Faults)
    requires k <= n <= |ORDER| && VerifyFirst(s, k, payload, prints, faults).Ended?
    ensures VerifyFirst(s, n, payload, prints, faults) == VerifyFirst(s, k, payload, prints, faults)
    decreases n
  {
    if k < n { VerifyStays(s, k, n - 1, payload, prints, faults); }
  }

  lemma {:induction false} RestoreStays(s: Progress, k: nat, n: nat, prints: Both<Fingerprint>, faults: Faults)
    requires k <= n <= |ORDER| && RestoreFirst(s, k, prints, faults).Ended?
    ensures RestoreFirst(s, n, prints, faults) == RestoreFirst(s, k, prints, faults)
    decreases n
  {
    if k < n { RestoreStays(s, k, n - 1, prints, faults); }
  }

  lemma {:induction false} EndedStays(s: Progress, payload: Both<Bytes>, prints: Both<Fingerprint>, faults: Faults)
    requires s.Ended?
    ensures StageFirst(BackupFirst(s, 2, faults), 2, payload, faults) == s
    ensures ReplaceFirst(s, 2, prints, faults) == s && VerifyFirst(s, 2, payload, prints, faults) == s
  {
    BackupStays(s, 0, 2, faults);
    StageStays(s, 0, 2, payload, faults);
    ReplaceStays(s, 0, 2, prints, faults);
    VerifyStays(s, 0, 2, payload, prints, faults);
  }

  // ---------------------------------------------------------------- properties

  predicate LiveAre(files: Files, c: Both<Bytes>) {
    && Live(J1939) in files && files[Live(J1939)] == c.j1939
    && Live(Dtc) in files && files[Live(Dtc)] == c.dtc
  }

  predicate BackupsAre(files: Files, c: Both<Bytes>) {
    && Backup(J1939) in files && files[Backup(J1939)] == c.j1939
    && Backup(Dtc) in files && files[Backup(Dtc)] == c.dtc
  }

  predicate StagedAre(files: Files, payload: Both<Bytes>) {
    && Staged(J1939) in files && files[Staged(J1939)] == payload.j1939
    && Staged(Dtc) in files && files[Staged(Dtc)] == payload.dtc
  }

  predicate BothLive(files: Files) { Live(J1939) in files && Live(Dtc) in files }

  function PrintsOf(c: Both<Bytes>): Both<Fingerprint> {
    Both(FingerprintOf(c.j1939), FingerprintOf(c.dtc))
  }

  /** The file can be read and still has the bytes its fingerprint was taken from. */
  predicate Unmoved(files: Files, db: Db, c: Both<Bytes>, faults: Faults) {
    Live(db) in files && (Cas, db) !in faults.unreadable && files[Live(db)] == c.Of(db)
  }

  /** Staging this file goes through. */
  predicate Stages(db: Db, payload: Both<Bytes>, faults: Faults) {
    faults.stage.Of(db).Writes? && Instead(faults.stage.Of(db).tampered, payload.Of(db)) == payload.Of(db)
  }

  /** Backing up and staging this file goes through. */
  predicate Prepares(db: Db, payload: Both<Bytes>, faults: Faults) {
    faults.backup.Of(db).None? && Stages(db, payload, faults)
  }

  /** One of the six tries gets through. */
  predicate GetsThrough(db: Db, faults: Faults) { Landing(faults.replace.Of(db), 0).Lands? }

  /** What is found in the live file when a try gets through. */
  function FoundAt(db: Db, payload: Both<Bytes>, faults: Faults): Bytes
    requires GetsThrough(db, faults)
  {
    Instead(Landing(faults.replace.Of(db), 0).tampered, payload.Of(db))
  }

  /** The payload arrives and reads back. */
  predicate Arrives(db: Db, payload: Both<Bytes>, faults: Faults) {
    GetsThrough(db, faults) && FoundAt(db, payload, faults) == payload.Of(db) && (Verify, db) !in faults.unreadable
  }

  /** Every state from the `from`-th on keeps the original bytes in both backups. */
  predicate BackedUp(s: Progress, from: nat, c: Both<Bytes>) {
    |s.past| >= from && BackupsAre(s.files, c) && forall i :: from <= i < |s.past| ==> BackupsAre(s.past[i], c)
  }

  /** A file that moved or cannot be read ends the commit before anything is written. */
  lemma {:induction false} CasGuards(files: Files, c: Both<Bytes>, payload: Both<Bytes>, faults: Faults)
    ensures var r := Commit(files, payload, PrintsOf(c), faults);
      && r.Ended?
      && (r.outcome.Changed? || r.outcome.Unreadable?
          <==> !(Unmoved(files, Dtc, c, faults) && Unmoved(files, J1939, c, faults)))
      && (r.outcome.Changed? || r.outcome.Unreadable? ==> r.files == files && r.past == [])
  {
    hide BackupFirst, StageFirst, ReplaceFirst, VerifyFirst;
    var checked := CasStep(CasStep(Running(files, []), Dtc, PrintsOf(c), faults), J1939, PrintsOf(c), faults);
    if checked.Ended? {
      EndedStays(checked, payload, PrintsOf(c), faults);
    } else {
      OtherOutcomes(checked, payload, PrintsOf(c), faults);
    }
  }

  predicate Guard(o: Outcome) { o.Changed? || o.Unreadable? }

  /** Only the compare-and-swap reports a moved or unreadable file. */
  lemma {:induction false} OtherOutcomes(s: Progress, payload: Both<Bytes>, prints: Both<Fingerprint>, faults: Faults)
    requires s.Running?
    ensures var p := StageFirst(BackupFirst(s, 2, faults), 2, payload, faults);
      var r := VerifyFirst(ReplaceFirst(p, 2, prints, faults), 2, payload, prints, faults);
      r.Ended? ==> !Guard(r.outcome)
  {
    var p := StageFirst(BackupFirst(s, 2, faults), 2, payload, faults);
    assert BackupFirst(s, 1, faults).Ended? ==> !Guard(BackupFirst(s, 1, faults).outcome);
    assert BackupFirst(s, 2, faults).Ended? ==> !Guard(BackupFirst(s, 2, faults).outcome);
    var q := BackupFirst(s, 2, faults);
    assert StageFirst(q, 1, payload, faults).Ended? ==> !Guard(StageFirst(q, 1, payload, faults).outcome);
    assert p.Ended? ==> !Guard(p.outcome);
    LateOutcomes(p, payload, prints, faults);
  }

  lemma {:induction false} LateOutcomes(p: Progress, payload: Both<Bytes>, prints: Both<Fingerprint>, faults: Faults)
    requires p.Ended? ==> !Guard(p.outcome)
    ensures var r := VerifyFirst(ReplaceFirst(p, 2, prints, faults), 2, payload, prints, faults);
      r.Ended? ==> !Guard(r.outcome)
  {
    var r1 := ReplaceFirst(p, 1, prints, faults);
    assert r1 == ReplaceStep(ReplaceFirst(p, 0, prints, faults), J1939, prints, faults);
    if !p.Ended? { RollbackOutcome(p, ReplaceFailed(J1939), prints, faults); }
    var r2 := ReplaceFirst(p, 2, prints, faults);
    if !r1.Ended? { RollbackOutcome(r1, ReplaceFailed(Dtc), prints, faults); }
    var v1 := VerifyFirst(r2, 1, payload, prints, faults);
    assert v1 == VerifyStep(VerifyFirst(r2, 0, payload, prints, faults), J1939, payload, prints, faults);
    if !r2.Ended? { RollbackOutcome(r2, VerifyFailed(J1939), prints, faults); }
    if !v1.Ended? { RollbackOutcome(v1, VerifyFailed(Dtc), prints, faults); }
  }

  lemma {:induction false} RollbackOutcome(s: Progress, reason: Reason, prints: Both<Fingerprint>, faults: Faults)
    requires s.Running?
    ensures var r := Rollback(s, reason, prints, faults);
      r.Ended? && !Guard(r.outcome) && !r.outcome.Committed?
  {
    var t1 := RestoreFirst(s, 1, prints, faults);
    assert t1 == RestoreStep(RestoreFirst(s, 0, prints, faults), J1939, prints, faults);
    var t2 := RestoreFirst(s, 2, prints, faults);
    assert t2 == RestoreStep(t1, Dtc, prints, faults);
  }

  /** What a rollback can end in, and what each ending means: a wrong copy needs tampering. */
  predicate RollbackMeans(r: Progress, c: Both<Bytes>, faults: Faults) {
    && r.Ended?
    && match r.outcome
       case RolledBack(_) => LiveAre(r.files, c)
       case RollbackRaised(db) => faults.restore.Of(db).Raises?
       case RollbackWrong(db) => TamperedCopy(db, c, faults)
       case ReadRaised(phase, db) => (phase.BeforeRestore? || phase.AfterRestore?) && (phase, db) in faults.unreadable
       case _ => false
  }

  /** Something put other bytes than the backup's in the place of a restored file. */
  predicate TamperedCopy(db: Db, c: Both<Bytes>, faults: Faults) {
    && faults.restore.Of(db).Copies? && faults.restore.Of(db).tampered.Some?
    && faults.restore.Of(db).tampered.value != c.Of(db)
  }

  /** Something put other bytes than the staged ones in the place of a replaced file. */
  predicate TamperedMove(db: Db, payload: Both<Bytes>, faults: Faults) {
    var try := Landing(faults.replace.Of(db), 0);
    try.Lands? && try.tampered.Some? && try.tampered.value != payload.Of(db)
  }

  /** One file of a rollback: it holds its original bytes again, or the reason is reported. */
  lemma {:induction false} RestoreMeans(s: Progress, from: nat, db: Db, c: Both<Bytes>, faults: Faults)
    requires s.Running? && BothLive(s.files) && BackedUp(s, from, c)
    ensures var r := RestoreStep(s, db, PrintsOf(c), faults);
      && BackedUp(r, from, c)
      && (r.Running? ==> Live(db) in r.files && r.files[Live(db)] == c.Of(db)
                         && BothLive(r.files)
                         && (db.Dtc? ==> r.files[Live(J1939)] == s.files[Live(J1939)]))
      && (r.Ended? ==> !r.outcome.RolledBack? && RollbackMeans(r, c, faults))
  {
  }

  lemma {:induction false} RollbackRestores(
      s: Progress, from: nat, reason: Reason, c: Both<Bytes>, faults: Faults)
    requires s.Running? && BothLive(s.files) && BackedUp(s, from, c)
    ensures var r := Rollback(s, reason, PrintsOf(c), faults);
      RollbackMeans(r, c, faults) && BackedUp(r, from, c)
      && (r.outcome.RolledBack? ==> r.outcome.reason == reason)
  {
    hide RestoreStep;
    var prints := PrintsOf(c);
    assert ORDER[0] == J1939 && ORDER[1] == Dtc;
    var t1 := RestoreFirst(s, 1, prints, faults);
    assert RestoreFirst(s, 0, prints, faults) == s;
    assert t1 == RestoreStep(s, J1939, prints, faults);
    RestoreMeans(s, from, J1939, c, faults);
    var t2 := RestoreFirst(s, 2, prints, faults);
    assert t2 == RestoreStep(t1, Dtc, prints, faults);
    if t1.Running? {
      RestoreMeans(t1, from, Dtc, c, faults);
    } else {
      EndedRestore(t1, Dtc, prints, faults);
    }
  }

  lemma {:induction false} EndedRestore(s: Progress, db: Db, prints: Both<Fingerprint>, faults: Faults)
    requires s.Ended?
    ensures RestoreStep(s, db, prints, faults) == s
  {}

  /**
   * Preparation writes backups and staged files only; it goes through exactly when no
   * step of it fails, and then the backups hold the original bytes and the staged files
   * the payloads.
   */
  lemma {:induction false} PrepareMeans(files: Files, c: Both<Bytes>, payload: Both<Bytes>, faults: Faults)
    requires Unmoved(files, Dtc, c, faults) && Unmoved(files, J1939, c, faults)
    ensures var s := Prepare(files, payload, PrintsOf(c), faults);
      && LiveAre(s.files, c)
      && (s.Running? <==> Prepares(J1939, payload, faults) && Prepares(Dtc, payload, faults))
      && (s.Ended? ==> s.outcome.BackupRaised? || s.outcome.StageFailed?)
      && (s.Running? || s.outcome.StageFailed? ==> BackedUp(s, 2, c))
      && (s.Running? ==> StagedAre(s.files, payload))
  {
    var s0 := Running(files, []);
    assert CasStep(CasStep(s0, Dtc, PrintsOf(c), faults), J1939, PrintsOf(c), faults) == s0;
    var b1 := BackupFirst(s0, 1, faults);
    assert b1 == BackupStep(BackupFirst(s0, 0, faults), J1939, faults);
    var b2 := BackupFirst(s0, 2, faults);
    assert b2 == BackupStep(b1, Dtc, faults);
    if b2.Running? {
      StageMeans(b2, c, payload, faults);
    } else {
      StageStays(b2, 0, 2, payload, faults);
    }
  }

  lemma {:induction false} StageMeans(s: Progress, c: Both<Bytes>, payload: Both<Bytes>, faults: Faults)
    requires s.Running? && LiveAre(s.files, c) && BackedUp(s, 2, c)
    ensures var r := StageFirst(s, 2, payload, faults);
      && LiveAre(r.files, c) && BackedUp(r, 2, c)
      && (r.Running? <==> Stages(J1939, payload, faults) && Stages(Dtc, payload, faults))
      && (r.Running? ==> StagedAre(r.files, payload))
      && (r.Ended? ==> r.outcome.StageFailed?)
  {
    var t1 := StageFirst(s, 1, payload, faults);
    assert t1 == StageStep(StageFirst(s, 0, payload, faults), J1939, payload, faults);
    assert StageFirst(s, 2, payload, faults) == StageStep(t1, Dtc, payload, faults);
  }

  /** How a failure after the preparation ends; a mismatch at the verification needs tampering. */
  predicate LateMeans(r: Progress, c: Both<Bytes>, payload: Both<Bytes>, faults: Faults) {
    && r.Ended?
    && match r.outcome
       case RolledBack(ReplaceFailed(db)) => LiveAre(r.files, c) && !GetsThrough(db, faults)
       case RolledBack(VerifyFailed(db)) => LiveAre(r.files, c) && TamperedMove(db, payload, faults)
       case RollbackRaised(db) => faults.restore.Of(db).Raises?
       case RollbackWrong(db) => TamperedCopy(db, c, faults)
       case ReadRaised(phase, db) => !phase.Cas? && !phase.Report? && (phase, db) in faults.unreadable
       case _ => false
  }

  lemma {:induction false} ReplaceMeans(s: Progress, c: Both<Bytes>, payload: Both<Bytes>, faults: Faults)
    requires s.Running? && BothLive(s.files) && BackedUp(s, 2, c) && StagedAre(s.files, payload)
    ensures var r := ReplaceFirst(s, 2, PrintsOf(c), faults);
      && BackedUp(r, 2, c)
      && (r.Running? <==> GetsThrough(J1939, faults) && GetsThrough(Dtc, faults))
      && (r.Running? ==> LiveAre(r.files, Both(FoundAt(J1939, payload, faults), FoundAt(Dtc, payload, faults))))
      && (r.Ended? ==> LateMeans(r, c, payload, faults))
  {
    hide Landing, Rollback;
    var prints := PrintsOf(c);
    var r1 := ReplaceFirst(s, 1, prints, faults);
    assert r1 == ReplaceStep(ReplaceFirst(s, 0, prints, faults), J1939, prints, faults);
    var r2 := ReplaceFirst(s, 2, prints, faults);
    assert r2 == ReplaceStep(r1, Dtc, prints, faults);
    RollbackRestores(s, 2, ReplaceFailed(J1939), c, faults);
    if r1.Running? {
      RollbackRestores(r1, 2, ReplaceFailed(Dtc), c, faults);
    }
  }

  lemma {:induction false} VerifyMeans(
      s: Progress, found: Both<Bytes>, payload: Both<Bytes>, c: Both<Bytes>, faults: Faults)
    requires s.Running? && LiveAre(s.files, found) && BackedUp(s, 2, c)
    requires GetsThrough(J1939, faults) && GetsThrough(Dtc, faults)
    requires found == Both(FoundAt(J1939, payload, faults), FoundAt(Dtc, payload, faults))
    ensures var r := VerifyFirst(s, 2, payload, PrintsOf(c), faults);
      && BackedUp(r, 2, c)
      && (r.Running? <==> Arrives(J1939, payload, faults) && Arrives(Dtc, payload, faults))
      && (r.Running? ==> r == s && found == payload)
      && (r.Ended? ==> LateMeans(r, c, payload, faults))
  {
    hide Landing, Rollback;
    var prints := PrintsOf(c);
    var r1 := VerifyFirst(s, 1, payload, prints, faults);
    assert r1 == VerifyStep(VerifyFirst(s, 0, payload, prints, faults), J1939, payload, prints, faults);
    var r2 := VerifyFirst(s, 2, payload, prints, faults);
    assert r2 == VerifyStep(r1, Dtc, payload, prints, faults);
    RollbackRestores(s, 2, VerifyFailed(J1939), c, faults);
    if r1.Running? {
      RollbackRestores(r1, 2, VerifyFailed(Dtc), c, faults);
    }
  }

  /** The run of a commit after its preparation, with what it means for files, backups and outcome. */
  lemma {:induction false} LateCommit(s: Progress, c: Both<Bytes>, payload: Both<Bytes>, faults: Faults)
    requires s.Running? && LiveAre(s.files, c) && BackedUp(s, 2, c) && StagedAre(s.files, payload)
    ensures var v := VerifyFirst(ReplaceFirst(s, 2, PrintsOf(c), faults), 2, payload, PrintsOf(c), faults);
      && BackedUp(v, 2, c)
      && (v.Running? <==> Arrives(J1939, payload, faults) && Arrives(Dtc, payload, faults))
      && (v.Running? ==> LiveAre(v.files, payload))
      && (v.Ended? ==> LateMeans(v, c, payload, faults))
  {
    hide ReplaceFirst, VerifyFirst, Landing, LateMeans;
    ReplaceMeans(s, c, payload, faults);
    var r := ReplaceFirst(s, 2, PrintsOf(c), faults);
    if r.Ended? {
      NothingVerified(r, payload, PrintsOf(c), faults);
      VerifyStays(r, 0, 2, payload, PrintsOf(c), faults);
    } else {
      VerifyMeans(r, Both(FoundAt(J1939, payload, faults), FoundAt(Dtc, payload, faults)), payload, c, faults);
    }
  }

  lemma {:induction false} NothingVerified(s: Progress, payload: Both<Bytes>, prints: Both<Fingerprint>, faults: Faults)
    ensures VerifyFirst(s, 0, payload, prints, faults) == s
  {
  }

  /**
   * Every way a commit can end, for every pattern of faults, once both files are still
   * as they were read. It commits exactly when nothing fails and both payloads arrive;
   * otherwise both live files hold the bytes originally read, unless a restore copy raised
   * or was tampered with or a file could not be read back, each of which is reported.
   */
  lemma {:induction false} CommitMeans(files: Files, c: Both<Bytes>, payload: Both<Bytes>, faults: Faults)
    requires Unmoved(files, Dtc, c, faults) && Unmoved(files, J1939, c, faults)
    ensures var r := Commit(files, payload, PrintsOf(c), faults);
      && r.Ended?
      && (r.outcome.Committed? <==> Lasts(payload, faults) && ReportReads(faults))
      && match r.outcome
         case Committed => LiveAre(r.files, payload)
         case BackupRaised(_) => LiveAre(r.files, c)
         case StageFailed(_) => LiveAre(r.files, c)
         case ReadRaised(Report, _) => LiveAre(r.files, payload) && Lasts(payload, faults) && !ReportReads(faults)
         case _ => LateMeans(r, c, payload, faults)
  {
    hide BackupFirst, StageFirst, ReplaceFirst, VerifyFirst, Landing;
    var prints := PrintsOf(c);
    var s := Prepare(files, payload, prints, faults);
    PrepareMeans(files, c, payload, faults);
    if s.Ended? {
      EndedStays(s, payload, prints, faults);
    } else {
      LateCommit(s, c, payload, faults);
    }
  }

  /** Every step up to the verification goes through. */
  predicate Lasts(payload: Both<Bytes>, faults: Faults) {
    && Prepares(J1939, payload, faults) && Prepares(Dtc, payload, faults)
    && Arrives(J1939, payload, faults) && Arrives(Dtc, payload, faults)
  }

  predicate ReportReads(faults: Faults) {
    (Report, J1939) !in faults.unreadable && (Report, Dtc) !in faults.unreadable
  }

  /** From the end of the backup loop on, in every state of the files, both backups hold the original bytes. */
  lemma {:induction false} BackupsHold(files: Files, c: Both<Bytes>, payload: Both<Bytes>, faults: Faults)
    requires Unmoved(files, Dtc, c, faults) && Unmoved(files, J1939, c, faults)
    ensures var r := Commit(files, payload, PrintsOf(c), faults);
      r.Ended? && (!r.outcome.BackupRaised? ==> BackedUp(r, 2, c))
  {
    hide BackupFirst, StageFirst, ReplaceFirst, VerifyFirst, Landing;
    var prints := PrintsOf(c);
    var s := Prepare(files, payload, prints, faults);
    PrepareMeans(files, c, payload, faults);
    if s.Ended? {
      EndedStays(s, payload, prints, faults);
    } else {
      LateCommit(s, c, payload, faults);
    }
  }

  /** All or nothing: both files new, or both as they were read, or one of the three reported exceptions. */
  lemma {:induction false} AllOrNothing(files: Files, c: Both<Bytes>, payload: Both<Bytes>, faults: Faults)
    requires LiveAre(files, c)
    ensures var r := Commit(files, payload, PrintsOf(c), faults);
      && r.Ended?
      && (LiveAre(r.files, payload) || LiveAre(r.files, c)
          || r.outcome.RollbackRaised? || r.outcome.RollbackWrong? || r.outcome.ReadRaised?)
  {
    hide Commit, Landing;
    CasGuards(files, c, payload, faults);
    if Unmoved(files, Dtc, c, faults) && Unmoved(files, J1939, c, faults) {
      CommitMeans(files, c, payload, faults);
    }
  }
}
