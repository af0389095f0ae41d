// The commit and the protocol meet: for every plan of faults, the steps of one writer
// from its check on leave the live files as the two-database commit leaves them.
module WriterCommit {
  import opened Wrappers
  import opened DatabaseCommit
  import opened WriterProtocol

  /** The protocol's view of the disk: the live files, and where the writer is. */
  predicate Shows(s: State, files: Files, p: Pid, pc: Pc) {
    p in s.pcs && s.pcs[p] == pc && LiveAre(files, s.live)
  }

  /** How the protocol sees one file of the rollback. */
  function RestoringOf(s: Progress, db: Db, c: Both<Bytes>, faults: Faults): Option<Restoring> {
    var r := RestoreStep(s, db, PrintsOf(c), faults);
    if r.Running? then Some(Exact)
    else if r.outcome.ReadRaised? && r.outcome.phase.BeforeRestore? then None
    else if Live(db) in r.files then Some(Fails(r.files[Live(db)]))
    else None
  }

  function RestoreAction(p: Pid, db: Db, how: Option<Restoring>): Action {
    match how
    case None => ReadFails(p)
    case Some(h) => if db.J1939? then RestoreJ1939(p, h) else RestoreDtc(p, h)
  }

  /** The steps of a rollback. */
  function UndoSteps(p: Pid, s: Progress, c: Both<Bytes>, faults: Faults): seq<Action> {
    var first := RestoreAction(p, J1939, RestoringOf(s, J1939, c, faults));
    var t := RestoreStep(s, J1939, PrintsOf(c), faults);
    if t.Ended? then [first] else [first] + [RestoreAction(p, Dtc, RestoringOf(t, Dtc, c, faults))]
  }

  /** The steps of the verification of the second file. */
  function VerifyDtcSteps(p: Pid, s: Progress, c: Both<Bytes>, payload: Both<Bytes>, faults: Faults): seq<Action> {
    if !s.Reads(Verify, Dtc, faults) then [ReadFails(p)]
    else if s.files[Live(Dtc)] != payload.dtc then [VerifyDtc(p)] + UndoSteps(p, s, c, faults)
    else [VerifyDtc(p)]
  }

  /** The steps of the verification of both files. */
  function VerifySteps(p: Pid, s: Progress, c: Both<Bytes>, payload: Both<Bytes>, faults: Faults): seq<Action> {
    if !s.Reads(Verify, J1939, faults) then [ReadFails(p)]
    else if s.files[Live(J1939)] != payload.j1939 then [VerifyJ1939(p)] + UndoSteps(p, s, c, faults)
    else [VerifyJ1939(p)] + VerifyDtcSteps(p, s, c, payload, faults)
  }

  /** The steps from a prepared commit on. */
  function LateSteps(p: Pid, s: Progress, c: Both<Bytes>, payload: Both<Bytes>, faults: Faults): seq<Action> {
    if !GetsThrough(J1939, faults) then [ReplaceJ1939(p, Stuck)] + UndoSteps(p, s, c, faults)
    else
      var t := ReplaceStep(s, J1939, PrintsOf(c), faults);
      [ReplaceJ1939(p, Found(FoundAt(J1939, payload, faults)))] + SecondSteps(p, t, c, payload, faults)
  }

  /** The steps from the first replaced file on. */
  function SecondSteps(p: Pid, t: Progress, c: Both<Bytes>, payload: Both<Bytes>, faults: Faults): seq<Action> {
    if !GetsThrough(Dtc, faults) then [ReplaceDtc(p, Stuck)] + UndoSteps(p, t, c, faults)
    else
      var u := ReplaceStep(t, Dtc, PrintsOf(c), faults);
      [ReplaceDtc(p, Found(FoundAt(Dtc, payload, faults)))] + VerifySteps(p, u, c, payload, faults)
  }

  /** The steps from a passed check on, for these faults. */
  function StepsOf(p: Pid, files: Files, c: Both<Bytes>, payload: Both<Bytes>, faults: Faults): seq<Action> {
    var s := Prepare(files, payload, PrintsOf(c), faults);
    if s.Ended? then [GiveUp(p)] else LateSteps(p, s, c, payload, faults)
  }

  /** How a writer ends for an outcome of the commit; a failed report comes after its success. */
  function EndingOf(outcome: Outcome): Ending {
    match outcome
    case Committed => Success
    case ReadRaised(phase, _) => if phase.Report? then Success else Failed
    case RollbackRaised(_) => Failed
    case RollbackWrong(_) => Failed
    case RolledBack(_) => Aborted
    case BackupRaised(_) => Aborted
    case StageFailed(_) => Aborted
    case Changed(_) => Aborted
    case Unreadable(_) => Aborted
  }

  /** The steps lead to the files of an ended progress, and the writer ends accordingly. */
  ghost predicate LeadsTo(jobs: Jobs, s: State, acts: seq<Action>, p: Pid, r: Progress) {
    && Legal(jobs, s, acts) && r.Ended?
    && Shows(Run(jobs, s, acts), r.files, p, Done(EndingOf(r.outcome)))
  }

  lemma {:induction false} After(jobs: Jobs, s: State, a: Action, rest: seq<Action>, p: Pid, r: Progress)
    requires Enabled(jobs, s, a) && LeadsTo(jobs, Do(jobs, s, a), rest, p, r)
    ensures LeadsTo(jobs, s, [a] + rest, p, r)
  {
    hide Legal, Run, Do, Enabled;
    Chain(jobs, s, a, rest);
  }

  lemma {:induction false} AtOnce(jobs: Jobs, s: State, a: Action, p: Pid, r: Progress)
    requires Enabled(jobs, s, a) && r.Ended? && Shows(Do(jobs, s, a), r.files, p, Done(EndingOf(r.outcome)))
    ensures LeadsTo(jobs, s, [a], p, r)
  {
    hide Legal, Run, Do, Enabled;
    One(jobs, s, a);
  }

  // ------------------------------------------------------------------ the rollback

  /** One file of the rollback is one step of the protocol. */
  lemma {:induction false} RestoreJ1939IsStep(
      jobs: Jobs, st: State, p: Pid, s: Progress, c: Both<Bytes>, faults: Faults)
    requires p in jobs && s.Running? && BackupsAre(s.files, c) && Shows(st, s.files, p, Undo(c))
    ensures var r := RestoreStep(s, J1939, PrintsOf(c), faults);
      var a := RestoreAction(p, J1939, RestoringOf(s, J1939, c, faults));
      && Enabled(jobs, st, a) && BackupsAre(r.files, c)
      && (r.Ended? ==> Shows(Do(jobs, st, a), r.files, p, Done(EndingOf(r.outcome))))
      && (r.Running? ==> Shows(Do(jobs, st, a), r.files, p, UndoDtc(c)))
  {
  }

  lemma {:induction false} RestoreDtcIsStep(
      jobs: Jobs, st: State, p: Pid, s: Progress, c: Both<Bytes>, faults: Faults)
    requires p in jobs && s.Running? && BackupsAre(s.files, c) && Shows(st, s.files, p, UndoDtc(c))
    ensures var r := RestoreStep(s, Dtc, PrintsOf(c), faults);
      var a := RestoreAction(p, Dtc, RestoringOf(s, Dtc, c, faults));
      && Enabled(jobs, st, a)
      && Shows(Do(jobs, st, a), r.files, p, Done(if r.Ended? then EndingOf(r.outcome) else Aborted))
  {
  }

  lemma {:induction false} RollbackIsSteps(
      jobs: Jobs, st: State, p: Pid, s: Progress, reason: Reason, c: Both<Bytes>, faults: Faults)
    requires p in jobs && s.Running? && BackupsAre(s.files, c) && Shows(st, s.files, p, Undo(c))
    ensures LeadsTo(jobs, st, UndoSteps(p, s, c, faults), p, Rollback(s, reason, PrintsOf(c), faults))
  {
    hide RestoreStep, RestoringOf, Do, Enabled, LeadsTo, RestoreFirst;
    var r := Rollback(s, reason, PrintsOf(c), faults);
    TwoRestores(s, PrintsOf(c), faults);
    var a := RestoreAction(p, J1939, RestoringOf(s, J1939, c, faults));
    RestoreJ1939IsStep(jobs, st, p, s, c, faults);
    var t := RestoreStep(s, J1939, PrintsOf(c), faults);
    if t.Ended? {
      EndedRestore(t, Dtc, PrintsOf(c), faults);
      AtOnce(jobs, st, a, p, r);
    } else {
      var st1 := Do(jobs, st, a);
      var b := RestoreAction(p, Dtc, RestoringOf(t, Dtc, c, faults));
      RestoreDtcIsStep(jobs, st1, p, t, c, faults);
      AtOnce(jobs, st1, b, p, r);
      After(jobs, st, a, [b], p, r);
    }
  }

  lemma {:induction false} TwoRestores(s: Progress, prints: Both<Fingerprint>, faults: Faults)
    ensures RestoreFirst(s, 2, prints, faults) ==
      RestoreStep(RestoreStep(s, J1939, prints, faults), Dtc, prints, faults)
  {
    hide RestoreStep;
    assert ORDER[0] == J1939 && ORDER[1] == Dtc;
    assert RestoreFirst(s, 0, prints, faults) == s;
    assert RestoreFirst(s, 1, prints, faults) == RestoreStep(s, J1939, prints, faults);
  }

  // ---------------------------------------------------------------- the verification

  lemma {:induction false} VerifyDtcIsSteps(
      jobs: Jobs, st: State, p: Pid, s: Progress, c: Both<Bytes>, faults: Faults)
    requires p in jobs && jobs[p].Merge? && s.Running? && BackupsAre(s.files, c)
    requires Shows(st, s.files, p, HalfVerified(c))
    ensures var payload := jobs[p].merged(c);
      LeadsTo(jobs, st, VerifyDtcSteps(p, s, c, payload, faults), p,
        Close(VerifyStep(s, Dtc, payload, PrintsOf(c), faults), faults))
  {
    hide LeadsTo, Rollback, UndoSteps;
    var payload := jobs[p].merged(c);
    var r := Close(VerifyStep(s, Dtc, payload, PrintsOf(c), faults), faults);
    if !s.Reads(Verify, Dtc, faults) {
      AtOnce(jobs, st, ReadFails(p), p, r);
    } else if s.files[Live(Dtc)] != payload.dtc {
      var next := Do(jobs, st, VerifyDtc(p));
      RollbackIsSteps(jobs, next, p, s, VerifyFailed(Dtc), c, faults);
      LeadsToEnd(jobs, next, UndoSteps(p, s, c, faults), p, Rollback(s, VerifyFailed(Dtc), PrintsOf(c), faults));
      After(jobs, st, VerifyDtc(p), UndoSteps(p, s, c, faults), p, r);
    } else {
      AtOnce(jobs, st, VerifyDtc(p), p, r);
    }
  }

  lemma {:induction false} VerifyIsSteps(
      jobs: Jobs, st: State, p: Pid, s: Progress, c: Both<Bytes>, faults: Faults)
    requires p in jobs && jobs[p].Merge? && s.Running? && BackupsAre(s.files, c) && Shows(st, s.files, p, Arrived(c))
    ensures var payload := jobs[p].merged(c);
      var v := VerifyStep(VerifyStep(s, J1939, payload, PrintsOf(c), faults), Dtc, payload, PrintsOf(c), faults);
      LeadsTo(jobs, st, VerifySteps(p, s, c, payload, faults), p, Close(v, faults))
  {
    hide LeadsTo, Rollback, UndoSteps, VerifyDtcSteps, Close;
    var payload := jobs[p].merged(c);
    var v1 := VerifyStep(s, J1939, payload, PrintsOf(c), faults);
    var r := Close(VerifyStep(v1, Dtc, payload, PrintsOf(c), faults), faults);
    if !s.Reads(Verify, J1939, faults) {
      ClosedStays(v1, payload, PrintsOf(c), faults);
      AtOnce(jobs, st, ReadFails(p), p, r);
    } else {
      var next := Do(jobs, st, VerifyJ1939(p));
      if s.files[Live(J1939)] != payload.j1939 {
        RollbackIsSteps(jobs, next, p, s, VerifyFailed(J1939), c, faults);
        LeadsToEnd(jobs, next, UndoSteps(p, s, c, faults), p, v1);
        ClosedStays(v1, payload, PrintsOf(c), faults);
        After(jobs, st, VerifyJ1939(p), UndoSteps(p, s, c, faults), p, r);
      } else {
        VerifyDtcIsSteps(jobs, next, p, s, c, faults);
        After(jobs, st, VerifyJ1939(p), VerifyDtcSteps(p, s, c, payload, faults), p, r);
      }
    }
  }

  lemma {:induction false} ClosedStays(s: Progress, payload: Both<Bytes>, prints: Both<Fingerprint>, faults: Faults)
    requires s.Ended?
    ensures Close(VerifyStep(s, Dtc, payload, prints, faults), faults) == s
  {
  }

  lemma {:induction false} LeadsToEnd(jobs: Jobs, s: State, acts: seq<Action>, p: Pid, r: Progress)
    requires LeadsTo(jobs, s, acts, p, r)
    ensures r.Ended?
  {
  }

  // ------------------------------------------------------------------ the commit

  /** Replacing a file is one step of the protocol, and keeps the backups. */
  lemma {:induction false} ReplaceIsStep(
      jobs: Jobs, st: State, p: Pid, s: Progress, db: Db, c: Both<Bytes>, faults: Faults)
    requires p in jobs && jobs[p].Merge? && s.Running? && BackupsAre(s.files, c) && GetsThrough(db, faults)
    requires Shows(st, s.files, p, if db.J1939? then Checked(c) else Half(c))
    requires var payload := jobs[p].merged(c); Staged(db) in s.files && s.files[Staged(db)] == payload.Of(db)
    ensures var payload := jobs[p].merged(c);
      var move := Found(FoundAt(db, payload, faults));
      var a := if db.J1939? then ReplaceJ1939(p, move) else ReplaceDtc(p, move);
      var t := ReplaceStep(s, db, PrintsOf(c), faults);
      && t.Running? && BackupsAre(t.files, c) && Enabled(jobs, st, a)
      && Shows(Do(jobs, st, a), t.files, p, if db.J1939? then Half(c) else Arrived(c))
      && (db.J1939? && Staged(Dtc) in s.files ==>
        Staged(Dtc) in t.files && t.files[Staged(Dtc)] == s.files[Staged(Dtc)])
  {
    hide Landing, Rollback;
  }

  /** A file that never gets replaced starts the rollback. */
  lemma {:induction false} StuckIsSteps(
      jobs: Jobs, st: State, p: Pid, s: Progress, db: Db, c: Both<Bytes>, faults: Faults)
    requires p in jobs && jobs[p].Merge? && s.Running? && BackupsAre(s.files, c) && !GetsThrough(db, faults)
    requires Shows(st, s.files, p, if db.J1939? then Checked(c) else Half(c))
    ensures var a := if db.J1939? then ReplaceJ1939(p, Stuck) else ReplaceDtc(p, Stuck);
      LeadsTo(jobs, st, [a] + UndoSteps(p, s, c, faults), p, ReplaceStep(s, db, PrintsOf(c), faults))
  {
    hide LeadsTo, Landing, Rollback, UndoSteps;
    var a := if db.J1939? then ReplaceJ1939(p, Stuck) else ReplaceDtc(p, Stuck);
    RollbackIsSteps(jobs, Do(jobs, st, a), p, s, ReplaceFailed(db), c, faults);
    After(jobs, st, a, UndoSteps(p, s, c, faults), p, Rollback(s, ReplaceFailed(db), PrintsOf(c), faults));
  }

  /** From a prepared state, replacing and verifying both files are the steps of the protocol. */
  lemma {:induction false} LateIsSteps(
      jobs: Jobs, st: State, p: Pid, s: Progress, c: Both<Bytes>, faults: Faults)
    requires p in jobs && jobs[p].Merge? && s.Running? && BackupsAre(s.files, c)
    requires StagedAre(s.files, jobs[p].merged(c))
    requires Shows(st, s.files, p, Checked(c))
    ensures var payload := jobs[p].merged(c);
      LeadsTo(jobs, st, LateSteps(p, s, c, payload, faults), p, Finish(s, payload, PrintsOf(c), faults))
  {
    hide LeadsTo, Landing, Rollback, UndoSteps, VerifySteps, ReplaceStep, VerifyStep, Close, Do, Enabled;
    var payload, prints := jobs[p].merged(c), PrintsOf(c);
    var t := ReplaceStep(s, J1939, prints, faults);
    var u := ReplaceStep(t, Dtc, prints, faults);
    var r := Finish(s, payload, prints, faults);
    if !GetsThrough(J1939, faults) {
      StuckIsSteps(jobs, st, p, s, J1939, c, faults);
      LeadsToEnd(jobs, st, [ReplaceJ1939(p, Stuck)] + UndoSteps(p, s, c, faults), p, t);
      FinishedStays(t, payload, prints, faults);
    } else {
      var first := ReplaceJ1939(p, Found(FoundAt(J1939, payload, faults)));
      ReplaceIsStep(jobs, st, p, s, J1939, c, faults);
      var st1 := Do(jobs, st, first);
      if !GetsThrough(Dtc, faults) {
        var rest := [ReplaceDtc(p, Stuck)] + UndoSteps(p, t, c, faults);
        StuckIsSteps(jobs, st1, p, t, Dtc, c, faults);
        LeadsToEnd(jobs, st1, rest, p, u);
        VerifiedStays(u, payload, prints, faults);
        After(jobs, st, first, rest, p, r);
      } else {
        var second := ReplaceDtc(p, Found(FoundAt(Dtc, payload, faults)));
        ReplaceIsStep(jobs, st1, p, t, Dtc, c, faults);
        VerifyIsSteps(jobs, Do(jobs, st1, second), p, u, c, faults);
        After(jobs, st1, second, VerifySteps(p, u, c, payload, faults), p, r);
        After(jobs, st, first, [second] + VerifySteps(p, u, c, payload, faults), p, r);
      }
    }
  }

  /** Replacement, verification and report of both files. */
  function Finish(s: Progress, payload: Both<Bytes>, prints: Both<Fingerprint>, faults: Faults): Progress {
    var u := ReplaceStep(ReplaceStep(s, J1939, prints, faults), Dtc, prints, faults);
    Close(VerifyStep(VerifyStep(u, J1939, payload, prints, faults), Dtc, payload, prints, faults), faults)
  }

  lemma {:induction false} VerifiedStays(u: Progress, payload: Both<Bytes>, prints: Both<Fingerprint>, faults: Faults)
    requires u.Ended?
    ensures Close(VerifyStep(VerifyStep(u, J1939, payload, prints, faults), Dtc, payload, prints, faults), faults) == u
  {
  }

  lemma {:induction false} FinishedStays(t: Progress, payload: Both<Bytes>, prints: Both<Fingerprint>, faults: Faults)
    requires t.Ended?
    ensures var u := ReplaceStep(t, Dtc, prints, faults);
      Close(VerifyStep(VerifyStep(u, J1939, payload, prints, faults), Dtc, payload, prints, faults), faults) == t
  {
  }

  lemma {:induction false} CommitFinishes(files: Files, payload: Both<Bytes>, prints: Both<Fingerprint>, faults: Faults)
    ensures Commit(files, payload, prints, faults) ==
      Finish(Prepare(files, payload, prints, faults), payload, prints, faults)
  {
    hide ReplaceStep, VerifyStep, Prepare, Close;
    var s := Prepare(files, payload, prints, faults);
    assert ORDER[0] == J1939 && ORDER[1] == Dtc;
    assert ReplaceFirst(s, 0, prints, faults) == s;
    assert ReplaceFirst(s, 1, prints, faults) == ReplaceStep(s, J1939, prints, faults);
    var u := ReplaceFirst(s, 2, prints, faults);
    assert VerifyFirst(u, 0, payload, prints, faults) == u;
    assert VerifyFirst(u, 1, payload, prints, faults) == VerifyStep(u, J1939, payload, prints, faults);
  }

  /**
   * For every plan of faults, from a passed check on: the writer's steps are legal, the
   * live files end as the commit leaves them, and the writer succeeds, aborts or reports
   * a failure as the commit does.
   */
  lemma {:induction false} StepsAreTheCommit(jobs: Jobs, s: State, p: Pid, files: Files, faults: Faults)
    requires p in s.pcs && p in jobs && jobs[p].Merge? && s.pcs[p] == Checked(s.live)
    requires Unmoved(files, Dtc, s.live, faults) && Unmoved(files, J1939, s.live, faults)
    ensures var c, payload := s.live, jobs[p].merged(s.live);
      LeadsTo(jobs, s, StepsOf(p, files, c, payload, faults), p, Commit(files, payload, PrintsOf(c), faults))
  {
    hide LeadsTo, Landing, LateSteps, Prepare, ReplaceStep, VerifyStep;
    var c, payload := s.live, jobs[p].merged(s.live);
    CommitFinishes(files, payload, PrintsOf(c), faults);
    PrepareMeans(files, c, payload, faults);
    var q := Prepare(files, payload, PrintsOf(c), faults);
    if q.Ended? {
      EndedFinish(q, payload, PrintsOf(c), faults);
      AtOnce(jobs, s, GiveUp(p), p, q);
    } else {
      LateIsSteps(jobs, s, p, q, c, faults);
    }
  }

  lemma {:induction false} EndedFinish(s: Progress, payload: Both<Bytes>, prints: Both<Fingerprint>, faults: Faults)
    requires s.Ended?
    ensures Finish(s, payload, prints, faults) == s
  {
  }
}
