// The promise of the commit is all new, all old, or a reported failure of a restore copy.
// Errors while reading a file back are not caught: here is exactly when that breaks it.
module CommitReads {
  import opened Wrappers
  import opened DatabaseCommit

  /** What the commit promises about the live files. */
  predicate Kept(r: Progress, c: Both<Bytes>, payload: Both<Bytes>) {
    && r.Ended?
    && (LiveAre(r.files, payload) || LiveAre(r.files, c) || r.outcome.RollbackRaised? || r.outcome.RollbackWrong?)
  }

  /**
   * No read between the comparison and the report fails, or the comparison itself does.
   * The reads for the report come after both files are known to be new.
   */
  predicate NoLateReads(unreadable: set<(Phase, Db)>) {
    || (Cas, J1939) in unreadable || (Cas, Dtc) in unreadable
    || forall db: Db ::
      (Verify, db) !in unreadable && (BeforeRestore, db) !in unreadable && (AfterRestore, db) !in unreadable
  }

  function Always(a: Attempt): nat -> Attempt { k => a }

  lemma {:induction false} AlwaysLands(a: Attempt)
    requires a.Lands?
    ensures Landing(Always(a), 0) == a
  {
  }

  /** Bytes that differ from two given ones. */
  function Torn(a: Bytes, b: Bytes): (t: Bytes)
    ensures t != a && t != b
  {
    a + b + [0]
  }

  /**
   * The DTC file lands torn and its restore copy is torn as well; the J1939 file lands
   * torn or as staged, and its restore copy is exact. Nothing else goes wrong but the reads.
   */
  function TornPlan(unreadable: set<(Phase, Db)>, c: Both<Bytes>, payload: Both<Bytes>, tornFirst: bool): Faults {
    var j := if tornFirst then Some(Torn(c.j1939, payload.j1939)) else None;
    var d := Some(Torn(c.dtc, payload.dtc));
    Faults(
      unreadable,
      Both(None, None),
      Both(Writes(None), Writes(None)),
      Both(Always(Lands(j)), Always(Lands(d))),
      Both(Copies(None), Copies(d)))
  }

  lemma {:induction false} InTwoSteps(s: Progress, payload: Both<Bytes>, prints: Both<Fingerprint>, faults: Faults)
    ensures ReplaceFirst(s, 2, prints, faults) ==
      ReplaceStep(ReplaceStep(s, J1939, prints, faults), Dtc, prints, faults)
    ensures VerifyFirst(s, 2, payload, prints, faults) ==
      VerifyStep(VerifyStep(s, J1939, payload, prints, faults), Dtc, payload, prints, faults)
    ensures RestoreFirst(s, 2, prints, faults) ==
      RestoreStep(RestoreStep(s, J1939, prints, faults), Dtc, prints, faults)
  {
    hide ReplaceStep, VerifyStep, RestoreStep;
    assert ORDER[0] == J1939 && ORDER[1] == Dtc;
    assert ReplaceFirst(s, 0, prints, faults) == s && RestoreFirst(s, 0, prints, faults) == s;
    assert VerifyFirst(s, 0, payload, prints, faults) == s;
    assert ReplaceFirst(s, 1, prints, faults) == ReplaceStep(s, J1939, prints, faults);
    assert VerifyFirst(s, 1, payload, prints, faults) == VerifyStep(s, J1939, payload, prints, faults);
    assert RestoreFirst(s, 1, prints, faults) == RestoreStep(s, J1939, prints, faults);
  }

  /** Both files land; the verification starts from the landed bytes. */
  lemma {:induction false} LandedTorn(
      files: Files, c: Both<Bytes>, payload: Both<Bytes>, unreadable: set<(Phase, Db)>, tornFirst: bool)
    returns (s: Progress)
    requires LiveAre(files, c) && (Cas, J1939) !in unreadable && (Cas, Dtc) !in unreadable
    ensures var faults := TornPlan(unreadable, c, payload, tornFirst);
      && s.Running? && BackupsAre(s.files, c)
      && LiveAre(s.files, Both(
           if tornFirst then Torn(c.j1939, payload.j1939) else payload.j1939, Torn(c.dtc, payload.dtc)))
      && Commit(files, payload, PrintsOf(c), faults) ==
         Close(VerifyStep(VerifyStep(s, J1939, payload, PrintsOf(c), faults), Dtc, payload, PrintsOf(c), faults),
           faults)
  {
    hide BackupFirst, StageFirst, ReplaceFirst, VerifyFirst, VerifyStep, Landing, Torn;
    var faults := TornPlan(unreadable, c, payload, tornFirst);
    var prints := PrintsOf(c);
    PrepareMeans(files, c, payload, faults);
    var p := Prepare(files, payload, prints, faults);
    AlwaysLands(faults.replace.j1939(0));
    AlwaysLands(faults.replace.dtc(0));
    ReplaceMeans(p, c, payload, faults);
    s := ReplaceFirst(p, 2, prints, faults);
    InTwoSteps(s, payload, prints, faults);
  }

  /** A read of the second file fails at the verification: the first is new, the second torn. */
  lemma {:induction false} BrokenAtVerify(
      files: Files, c: Both<Bytes>, payload: Both<Bytes>, unreadable: set<(Phase, Db)>)
    requires LiveAre(files, c) && (Cas, J1939) !in unreadable && (Cas, Dtc) !in unreadable
    requires (Verify, J1939) in unreadable || (Verify, Dtc) in unreadable
    ensures !Kept(Commit(files, payload, PrintsOf(c), TornPlan(unreadable, c, payload, false)), c, payload)
  {
    hide Commit, Rollback, Torn;
    var s := LandedTorn(files, c, payload, unreadable, false);
  }

  /** A read fails in the rollback: the second file keeps torn bytes, whichever read it is. */
  lemma {:induction false} BrokenAtRollback(
      files: Files, c: Both<Bytes>, payload: Both<Bytes>, unreadable: set<(Phase, Db)>, db: Db)
    requires LiveAre(files, c) && (Cas, J1939) !in unreadable && (Cas, Dtc) !in unreadable
    requires (BeforeRestore, db) in unreadable || (AfterRestore, db) in unreadable
    ensures !Kept(Commit(files, payload, PrintsOf(c), TornPlan(unreadable, c, payload, true)), c, payload)
  {
    hide Commit, Torn, RestoreFirst;
    var faults := TornPlan(unreadable, c, payload, true);
    var s := LandedTorn(files, c, payload, unreadable, true);
    var v := VerifyStep(s, J1939, payload, PrintsOf(c), faults);
    RollbackTorn(s, c, payload, unreadable, db);
    assert v.Ended?;
  }

  /** The rollback of two torn files ends in an uncaught read error, with torn bytes left in the second. */
  lemma {:induction false} RollbackTorn(
      s: Progress, c: Both<Bytes>, payload: Both<Bytes>, unreadable: set<(Phase, Db)>, db: Db)
    requires s.Running? && BackupsAre(s.files, c)
    requires LiveAre(s.files, Both(Torn(c.j1939, payload.j1939), Torn(c.dtc, payload.dtc)))
    requires (BeforeRestore, db) in unreadable || (AfterRestore, db) in unreadable
    ensures var r := Rollback(s, VerifyFailed(J1939), PrintsOf(c), TornPlan(unreadable, c, payload, true));
      && r.Ended? && r.outcome.ReadRaised?
      && Live(Dtc) in r.files && r.files[Live(Dtc)] == Torn(c.dtc, payload.dtc)
  {
    hide Torn, RestoreFirst, Landing;
    var faults := TornPlan(unreadable, c, payload, true);
    InTwoSteps(s, payload, PrintsOf(c), faults);
    var t := RestoreStep(s, J1939, PrintsOf(c), faults);
    if t.Running? {
      assert (BeforeRestore, Dtc) in unreadable || (AfterRestore, Dtc) in unreadable by {
        match db case J1939 => case Dtc =>
      }
      assert LiveAre(t.files, Both(c.j1939, Torn(c.dtc, payload.dtc))) && BackupsAre(t.files, c);
    }
  }

  lemma {:induction false} NoRead(unreadable: set<(Phase, Db)>, phase: Phase, db: Db)
    requires NoLateReads(unreadable) && (Cas, J1939) !in unreadable && (Cas, Dtc) !in unreadable
    requires !phase.Report?
    ensures (phase, db) !in unreadable
  {
    match phase
    case Cas => match db { case J1939 => case Dtc => }
    case Verify =>
    case BeforeRestore =>
    case AfterRestore =>
  }

  lemma {:induction false} WithoutLateReads(files: Files, c: Both<Bytes>, payload: Both<Bytes>, faults: Faults)
    requires LiveAre(files, c) && NoLateReads(faults.unreadable)
    ensures Kept(Commit(files, payload, PrintsOf(c), faults), c, payload)
  {
    hide Commit, Landing;
    CasGuards(files, c, payload, faults);
    if Unmoved(files, Dtc, c, faults) && Unmoved(files, J1939, c, faults) {
      CommitMeans(files, c, payload, faults);
      var r := Commit(files, payload, PrintsOf(c), faults);
      if r.outcome.ReadRaised? && !r.outcome.phase.Report? {
        NoRead(faults.unreadable, r.outcome.phase, r.outcome.db);
      }
    }
  }

  /**
   * Whatever else fails, the live files end all new, all old or under a reported restore
   * failure, if and only if no read between the comparison and the report can fail.
   */
  lemma {:induction false} PromiseKeptIff(
      files: Files, c: Both<Bytes>, payload: Both<Bytes>, unreadable: set<(Phase, Db)>)
    requires LiveAre(files, c)
    ensures NoLateReads(unreadable) <==>
      forall faults: Faults | faults.unreadable == unreadable ::
        Kept(Commit(files, payload, PrintsOf(c), faults), c, payload)
  {
    hide Commit, Kept;
    forall faults: Faults | faults.unreadable == unreadable && NoLateReads(unreadable)
      ensures Kept(Commit(files, payload, PrintsOf(c), faults), c, payload)
    {
      WithoutLateReads(files, c, payload, faults);
    }
    if !NoLateReads(unreadable) {
      if (Verify, J1939) in unreadable || (Verify, Dtc) in unreadable {
        BrokenAtVerify(files, c, payload, unreadable);
      } else {
        var db: Db :| (Verify, db) in unreadable || (BeforeRestore, db) in unreadable
          || (AfterRestore, db) in unreadable;
        assert (Verify, db) !in unreadable by { match db case J1939 => case Dtc => }
        BrokenAtRollback(files, c, payload, unreadable, db);
      }
    }
  }

  /**
   * A concrete breach: the second file lands with other bytes than staged and cannot be
   * read back, the error is not caught, and the live files are neither new nor old.
   */
  lemma {:induction false} UncaughtReadBreaksPromise(files: Files, c: Both<Bytes>, payload: Both<Bytes>)
    requires LiveAre(files, c)
    ensures var r := Commit(files, payload, PrintsOf(c), TornPlan({(Verify, Dtc)}, c, payload, false));
      && r.Ended? && r.outcome == ReadRaised(Verify, Dtc)
      && LiveAre(r.files, Both(payload.j1939, Torn(c.dtc, payload.dtc)))
      && !Kept(r, c, payload)
  {
    hide Commit, Rollback, Torn;
    var s := LandedTorn(files, c, payload, {(Verify, Dtc)}, false);
  }
}
