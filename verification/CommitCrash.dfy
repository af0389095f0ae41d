// Every state the live files pass through in a commit in which operations may fail but
// nothing is tampered with: so what a crash at any point leaves.
module CommitCrash {
  import opened Wrappers
  import opened DatabaseCommit

  /** What lands is what was staged, and restore copies are exact. Anything else may fail. */
  predicate Clean(faults: Faults) {
    forall db: Db ::
      (Landing(faults.replace.Of(db), 0).Lands? ==> Landing(faults.replace.Of(db), 0).tampered.None?)
      && faults.restore.Of(db) == Copies(None)
  }

  function Half(c: Both<Bytes>, payload: Both<Bytes>): Both<Bytes> { Both(payload.j1939, c.dtc) }

  /** Both files old, the J1939 file new alone, or both new. */
  predicate OneOfThree(files: Files, c: Both<Bytes>, payload: Both<Bytes>) {
    LiveAre(files, c) || LiveAre(files, Half(c, payload)) || LiveAre(files, payload)
  }

  /** The states of a commit, the last one included. */
  function StateAt(s: Progress, i: nat): Files
    requires i <= |s.past|
  {
    if i < |s.past| then s.past[i] else s.files
  }

  predicate Throughout(s: Progress, c: Both<Bytes>, payload: Both<Bytes>) {
    forall i :: 0 <= i <= |s.past| ==> OneOfThree(StateAt(s, i), c, payload)
  }

  lemma {:induction false} ThroughoutNext(s: Progress, t: Progress, c: Both<Bytes>, payload: Both<Bytes>)
    requires Throughout(s, c, payload) && OneOfThree(t.files, c, payload)
    requires (t.past == s.past && t.files == s.files) || t.past == s.past + [s.files]
    ensures Throughout(t, c, payload)
  {
    hide OneOfThree;
    forall i | 0 <= i <= |t.past| ensures OneOfThree(StateAt(t, i), c, payload) {
      assert i <= |s.past| ==> OneOfThree(StateAt(s, i), c, payload);
    }
  }

  /** Backing up and staging leave the live files alone. */
  lemma {:induction false} PreparingStep(s: Progress, db: Db, c: Both<Bytes>, payload: Both<Bytes>, faults: Faults)
    requires Throughout(s, c, payload) && LiveAre(s.files, c)
    ensures var t := BackupStep(s, db, faults); Throughout(t, c, payload) && LiveAre(t.files, c)
    ensures var t := StageStep(s, db, payload, faults); Throughout(t, c, payload) && LiveAre(t.files, c)
  {
    hide Throughout;
    ThroughoutNext(s, BackupStep(s, db, faults), c, payload);
    ThroughoutNext(s, StageStep(s, db, payload, faults), c, payload);
  }

  lemma {:induction false} Preparing(files: Files, c: Both<Bytes>, payload: Both<Bytes>, faults: Faults)
    requires LiveAre(files, c)
    ensures var s := Prepare(files, payload, PrintsOf(c), faults);
      Throughout(s, c, payload) && LiveAre(s.files, c)
  {
    hide BackupStep, StageStep, Throughout, LiveAre;
    var start := Running(files, []);
    assert Throughout(start, c, payload) by { StartIsOld(files, c, payload); }
    var checked := CasStep(CasStep(start, Dtc, PrintsOf(c), faults), J1939, PrintsOf(c), faults);
    assert checked.files == files && checked.past == [];
    ThroughoutNext(start, checked, c, payload) by { OldIsOne(files, c, payload); }
    var b1, b2 := BackupFirst(checked, 1, faults), BackupFirst(checked, 2, faults);
    InOrder(checked, payload, PrintsOf(c), faults);
    PreparingStep(checked, J1939, c, payload, faults);
    PreparingStep(b1, Dtc, c, payload, faults);
    InOrder(b2, payload, PrintsOf(c), faults);
    PreparingStep(b2, J1939, c, payload, faults);
    PreparingStep(StageFirst(b2, 1, payload, faults), Dtc, c, payload, faults);
  }

  lemma {:induction false} StartIsOld(files: Files, c: Both<Bytes>, payload: Both<Bytes>)
    requires LiveAre(files, c)
    ensures Throughout(Running(files, []), c, payload)
  {
  }

  lemma {:induction false} OldIsOne(files: Files, c: Both<Bytes>, payload: Both<Bytes>)
    requires LiveAre(files, c)
    ensures OneOfThree(files, c, payload)
  {
  }

  lemma {:induction false} InOrder(s: Progress, payload: Both<Bytes>, prints: Both<Fingerprint>, faults: Faults)
    ensures BackupFirst(s, 1, faults) == BackupStep(s, J1939, faults)
    ensures BackupFirst(s, 2, faults) == BackupStep(BackupFirst(s, 1, faults), Dtc, faults)
    ensures StageFirst(s, 1, payload, faults) == StageStep(s, J1939, payload, faults)
    ensures StageFirst(s, 2, payload, faults) == StageStep(StageFirst(s, 1, payload, faults), Dtc, payload, faults)
    ensures ReplaceFirst(s, 1, prints, faults) == ReplaceStep(s, J1939, prints, faults)
    ensures ReplaceFirst(s, 2, prints, faults) == ReplaceStep(ReplaceFirst(s, 1, prints, faults), Dtc, prints, faults)
    ensures RestoreFirst(s, 1, prints, faults) == RestoreStep(s, J1939, prints, faults)
    ensures RestoreFirst(s, 2, prints, faults) == RestoreStep(RestoreFirst(s, 1, prints, faults), Dtc, prints, faults)
    ensures VerifyFirst(s, 1, payload, prints, faults) == VerifyStep(s, J1939, payload, prints, faults)
    ensures VerifyFirst(s, 2, payload, prints, faults)
      == VerifyStep(VerifyFirst(s, 1, payload, prints, faults), Dtc, payload, prints, faults)
  {
    hide BackupStep, StageStep, ReplaceStep, RestoreStep, VerifyStep;
    assert ORDER[0] == J1939 && ORDER[1] == Dtc;
    assert BackupFirst(s, 0, faults) == s && StageFirst(s, 0, payload, faults) == s;
    assert ReplaceFirst(s, 0, prints, faults) == s && RestoreFirst(s, 0, prints, faults) == s;
    assert VerifyFirst(s, 0, payload, prints, faults) == s;
  }

  /** A rollback with the second file still old leads back over the first. */
  lemma {:induction false} RollingBack(
      s: Progress, reason: Reason, c: Both<Bytes>, payload: Both<Bytes>, faults: Faults)
    requires s.Running? && Throughout(s, c, payload) && Clean(faults) && BackupsAre(s.files, c)
    requires LiveAre(s.files, c) || LiveAre(s.files, Half(c, payload))
    ensures Throughout(Rollback(s, reason, PrintsOf(c), faults), c, payload)
  {
    hide Throughout, Landing;
    InOrder(s, payload, PrintsOf(c), faults);
    var t := RestoreStep(s, J1939, PrintsOf(c), faults);
    ThroughoutNext(s, t, c, payload);
    assert t.Running? ==> LiveAre(t.files, c);
    var u := RestoreStep(t, Dtc, PrintsOf(c), faults);
    ThroughoutNext(t, u, c, payload);
    if u.Running? { ThroughoutNext(u, Rollback(s, reason, PrintsOf(c), faults), c, payload); }
  }

  lemma {:induction false} ReplacingJ1939(s: Progress, c: Both<Bytes>, payload: Both<Bytes>, faults: Faults)
    requires s.Running? && Throughout(s, c, payload) && Clean(faults)
    requires LiveAre(s.files, c) && BackupsAre(s.files, c) && StagedAre(s.files, payload)
    ensures var t := ReplaceStep(s, J1939, PrintsOf(c), faults);
      && Throughout(t, c, payload)
      && (t.Running? ==>
            && LiveAre(t.files, Half(c, payload)) && BackupsAre(t.files, c)
            && Staged(Dtc) in t.files && t.files[Staged(Dtc)] == payload.dtc)
  {
    hide Throughout, Landing, Rollback;
    var t := ReplaceStep(s, J1939, PrintsOf(c), faults);
    RollingBack(s, ReplaceFailed(J1939), c, payload, faults);
    RollbackEnds(s, ReplaceFailed(J1939), PrintsOf(c), faults);
    if t.Running? { ThroughoutNext(s, t, c, payload); }
  }

  lemma {:induction false} RollbackEnds(s: Progress, reason: Reason, prints: Both<Fingerprint>, faults: Faults)
    ensures Rollback(s, reason, prints, faults).Ended?
  {
  }

  lemma {:induction false} ReplacingDtc(s: Progress, c: Both<Bytes>, payload: Both<Bytes>, faults: Faults)
    requires s.Running? && Throughout(s, c, payload) && Clean(faults)
    requires LiveAre(s.files, Half(c, payload)) && BackupsAre(s.files, c)
    requires Staged(Dtc) in s.files && s.files[Staged(Dtc)] == payload.dtc
    ensures var t := ReplaceStep(s, Dtc, PrintsOf(c), faults);
      Throughout(t, c, payload) && (t.Running? ==> LiveAre(t.files, payload))
  {
    hide Throughout, Landing, Rollback;
    var t := ReplaceStep(s, Dtc, PrintsOf(c), faults);
    RollingBack(s, ReplaceFailed(Dtc), c, payload, faults);
    RollbackEnds(s, ReplaceFailed(Dtc), PrintsOf(c), faults);
    if t.Running? { ThroughoutNext(s, t, c, payload); }
  }

  /** Verifying new files, and reading them for the report, writes nothing. */
  lemma {:induction false} Verifying(s: Progress, c: Both<Bytes>, payload: Both<Bytes>, faults: Faults)
    requires s.Ended? || LiveAre(s.files, payload)
    ensures var r := Close(VerifyFirst(s, 2, payload, PrintsOf(c), faults), faults);
      r.files == s.files && r.past == s.past && r.Ended?
  {
    hide Rollback;
    InOrder(s, payload, PrintsOf(c), faults);
  }

  lemma {:induction false} EndedReplace(s: Progress, prints: Both<Fingerprint>, faults: Faults)
    requires s.Ended?
    ensures ReplaceStep(s, J1939, prints, faults) == s && ReplaceStep(s, Dtc, prints, faults) == s
  {
  }

  /** In every state of the commit the live files are both old, the first new alone, or both new. */
  lemma {:induction false} CrashStates(files: Files, c: Both<Bytes>, payload: Both<Bytes>, faults: Faults)
    requires LiveAre(files, c) && Clean(faults)
    ensures Throughout(Commit(files, payload, PrintsOf(c), faults), c, payload)
  {
    hide Throughout, Prepare, ReplaceStep, Close, VerifyFirst, ReplaceFirst, Clean, Unmoved, LiveAre, BackupsAre,
      StagedAre;
    var s := Prepare(files, payload, PrintsOf(c), faults);
    var t := ReplaceStep(s, J1939, PrintsOf(c), faults);
    var u := ReplaceStep(t, Dtc, PrintsOf(c), faults);
    Preparing(files, c, payload, faults);
    InOrder(s, payload, PrintsOf(c), faults);
    if s.Running? {
      Prepared(files, c, payload, faults);
      ReplacingJ1939(s, c, payload, faults);
      if t.Running? { ReplacingDtc(t, c, payload, faults); } else { EndedReplace(t, PrintsOf(c), faults); }
    } else {
      EndedReplace(s, PrintsOf(c), faults);
    }
    Verifying(u, c, payload, faults);
    Alike(u, Commit(files, payload, PrintsOf(c), faults), c, payload);
  }

  lemma {:induction false} Alike(s: Progress, t: Progress, c: Both<Bytes>, payload: Both<Bytes>)
    requires Throughout(s, c, payload) && t.files == s.files && t.past == s.past
    ensures Throughout(t, c, payload)
  {
    hide OneOfThree;
    forall i | 0 <= i <= |t.past| ensures OneOfThree(StateAt(t, i), c, payload) {
      assert OneOfThree(StateAt(s, i), c, payload);
    }
  }

  lemma {:induction false} Prepared(files: Files, c: Both<Bytes>, payload: Both<Bytes>, faults: Faults)
    requires LiveAre(files, c) && Prepare(files, payload, PrintsOf(c), faults).Running?
    ensures var s := Prepare(files, payload, PrintsOf(c), faults);
      BackupsAre(s.files, c) && StagedAre(s.files, payload)
  {
    hide BackupFirst, StageFirst, LiveAre;
    Unguarded(files, c, payload, faults);
    PrepareMeans(files, c, payload, faults);
  }

  lemma {:induction false} Unguarded(files: Files, c: Both<Bytes>, payload: Both<Bytes>, faults: Faults)
    requires LiveAre(files, c) && Prepare(files, payload, PrintsOf(c), faults).Running?
    ensures Unmoved(files, Dtc, c, faults) && Unmoved(files, J1939, c, faults)
  {
    hide BackupFirst, StageFirst;
    var checked := CasStep(CasStep(Running(files, []), Dtc, PrintsOf(c), faults), J1939, PrintsOf(c), faults);
    if checked.Ended? {
      NothingDone(checked, payload, faults);
      BackupStays(checked, 0, 2, faults);
      StageStays(checked, 0, 2, payload, faults);
    }
  }

  lemma {:induction false} NothingDone(s: Progress, payload: Both<Bytes>, faults: Faults)
    ensures BackupFirst(s, 0, faults) == s && StageFirst(s, 0, payload, faults) == s
  {
  }
}
