// What the writers of the protocol get done: undisturbed, a merge and a repair each put
// their result in place, and whoever holds the lock can always let it go.
module WriterRuns {
  import opened Wrappers
  import opened DatabaseCommit
  import opened WriterProtocol

  /** The writer went through alone: these files, this log, the lock free again. */
  function Through(s: State, p: Pid, live: Both<Bytes>, log: seq<Event>, ending: Ending): State {
    State(live, None, s.pcs[p := Gone(ending)], log, s.acquired + [p])
  }

  // ------------------------------------------------------------------- a repair

  function RepairSteps(p: Pid, r: Bytes): seq<Action> {
    [Acquire(p)] + ([ReadDtc(p)] + ([CheckRepair(p)] + ([ReplaceRepair(p, Found(r))]
      + ([CountRepair(p)] + [Release(p)]))))
  }

  /** The lock is taken and the database read. */
  function HavingRead(s: State, p: Pid): State {
    s.(lock := Some(p), acquired := s.acquired + [p], pcs := s.pcs[p := HasDtc(s.live.dtc)])
  }

  lemma {:induction false} Reading(jobs: Jobs, s: State, p: Pid, rest: seq<Action>)
    requires Initial(s) && p in s.pcs && p in jobs && Legal(jobs, HavingRead(s, p), rest)
    ensures Legal(jobs, s, [Acquire(p)] + ([ReadDtc(p)] + rest))
    ensures Run(jobs, s, [Acquire(p)] + ([ReadDtc(p)] + rest)) == Run(jobs, HavingRead(s, p), rest)
  {
    hide Legal, Run;
    var s1 := s.(lock := Some(p), acquired := s.acquired + [p], pcs := s.pcs[p := Locked]);
    assert Do(jobs, s, Acquire(p)) == s1;
    assert Do(jobs, s1, ReadDtc(p)) == HavingRead(s, p);
    Chain(jobs, s1, ReadDtc(p), rest);
    Chain(jobs, s, Acquire(p), [ReadDtc(p)] + rest);
  }

  /** A repair that has something to do, and keeps the record count, is made: its result is in place. */
  lemma {:induction false} RepairCommits(jobs: Jobs, s: State, p: Pid, r: Bytes)
    requires Initial(s) && p in s.pcs && p in jobs && jobs[p].Repair?
    requires jobs[p].repaired(s.live.dtc) == Some(r)
    requires jobs[p].count(r).Some? && jobs[p].count(r) == jobs[p].count(s.live.dtc)
    ensures Legal(jobs, s, RepairSteps(p, r))
    ensures Run(jobs, s, RepairSteps(p, r)) == Through(s, p, Both(s.live.j1939, r), [Wrote(p)], Success)
  {
    hide Legal, Run;
    var d := s.live.dtc;
    var s2 := HavingRead(s, p);
    var s3 := s2.(pcs := s.pcs[p := RepairChecked(d, r)]);
    assert Do(jobs, s2, CheckRepair(p)) == s3;
    CheckedRepair(jobs, s3, p, d, r);
    assert s3.pcs[p := Gone(Success)] == s.pcs[p := Gone(Success)];
    var rest := [ReplaceRepair(p, Found(r))] + ([CountRepair(p)] + [Release(p)]);
    Chain(jobs, s2, CheckRepair(p), rest);
    Reading(jobs, s, p, [CheckRepair(p)] + rest);
  }

  lemma {:induction false} CheckedRepair(jobs: Jobs, s: State, p: Pid, d: Bytes, r: Bytes)
    requires p in s.pcs && p in jobs && jobs[p].Repair? && s.pcs[p] == RepairChecked(d, r)
    requires jobs[p].count(r).Some? && jobs[p].count(r) == jobs[p].count(d)
    ensures var acts := [ReplaceRepair(p, Found(r))] + ([CountRepair(p)] + [Release(p)]);
      && Legal(jobs, s, acts)
      && Run(jobs, s, acts) ==
         State(Both(s.live.j1939, r), None, s.pcs[p := Gone(Success)], s.log + [Wrote(p)], s.acquired)
  {
    hide Legal, Run;
    var s1 := s.(live := Both(s.live.j1939, r), pcs := s.pcs[p := RepairArrived(d, r)]);
    assert Do(jobs, s, ReplaceRepair(p, Found(r))) == s1;
    var s2 := s1.(pcs := s.pcs[p := Done(Success)], log := s.log + [Wrote(p)]);
    assert Do(jobs, s1, CountRepair(p)) == s2;
    One(jobs, s2, Release(p));
    assert Do(jobs, s2, Release(p)).pcs == s.pcs[p := Gone(Success)];
    Chain(jobs, s1, CountRepair(p), [Release(p)]);
    Chain(jobs, s, ReplaceRepair(p, Found(r)), [CountRepair(p)] + [Release(p)]);
  }

  /** A repair with nothing to do ends without a trace. */
  lemma {:induction false} RepairWithNothingToDo(jobs: Jobs, s: State, p: Pid)
    requires Initial(s) && p in s.pcs && p in jobs && jobs[p].Repair?
    requires jobs[p].repaired(s.live.dtc) == None
    ensures var acts := [Acquire(p)] + ([ReadDtc(p)] + ([CheckRepair(p)] + [Release(p)]));
      Legal(jobs, s, acts) && Run(jobs, s, acts) == Through(s, p, s.live, [], Aborted)
  {
    hide Legal, Run;
    var s2 := HavingRead(s, p);
    var s3 := s2.(pcs := s.pcs[p := Done(Aborted)]);
    assert Do(jobs, s2, CheckRepair(p)) == s3;
    One(jobs, s3, Release(p));
    assert Do(jobs, s3, Release(p)) == Through(s, p, s.live, [], Aborted);
    Chain(jobs, s2, CheckRepair(p), [Release(p)]);
    Reading(jobs, s, p, [CheckRepair(p)] + [Release(p)]);
  }

  /** A repair that finds the file changed since it read it ends without a trace of its own. */
  lemma {:induction false} RepairFindsChange(jobs: Jobs, s: State, p: Pid, b: Bytes)
    requires Initial(s) && p in s.pcs && p in jobs && jobs[p].Repair? && b != s.live.dtc
    ensures var acts := [Acquire(p)] + ([ReadDtc(p)] + ([Bypass(Dtc, b)] + ([CheckRepair(p)] + [Release(p)])));
      && Legal(jobs, s, acts)
      && Run(jobs, s, acts) == Through(s, p, Both(s.live.j1939, b), [Bypassed(Dtc, b)], Aborted)
  {
    hide Legal, Run;
    var s2 := HavingRead(s, p);
    var s3 := s2.(live := Both(s.live.j1939, b), log := [Bypassed(Dtc, b)]);
    assert Do(jobs, s2, Bypass(Dtc, b)) == s3;
    var s4 := s3.(pcs := s.pcs[p := Done(Aborted)]);
    assert Do(jobs, s3, CheckRepair(p)) == s4;
    One(jobs, s4, Release(p));
    assert Do(jobs, s4, Release(p)) == Through(s, p, Both(s.live.j1939, b), [Bypassed(Dtc, b)], Aborted);
    Chain(jobs, s3, CheckRepair(p), [Release(p)]);
    Chain(jobs, s2, Bypass(Dtc, b), [CheckRepair(p)] + [Release(p)]);
    Reading(jobs, s, p, [Bypass(Dtc, b)] + ([CheckRepair(p)] + [Release(p)]));
  }

  // -------------------------------------------------------------------- a merge

  function MergeSteps(p: Pid, merged: Both<Bytes>): seq<Action> {
    UpToCheck(p) + ([ReplaceJ1939(p, Found(merged.j1939))] + ([ReplaceDtc(p, Found(merged.dtc))]
      + ([VerifyJ1939(p)] + ([VerifyDtc(p)] + [Release(p)]))))
  }

  /** An undisturbed merge puts both its files in place. */
  lemma {:induction false} MergeCommits(jobs: Jobs, s: State, p: Pid)
    requires Initial(s) && p in s.pcs && p in jobs && jobs[p].Merge?
    ensures var merged := jobs[p].merged(s.live);
      && Legal(jobs, s, MergeSteps(p, merged))
      && Run(jobs, s, MergeSteps(p, merged)) == Through(s, p, merged, [Wrote(p)], Success)
  {
    hide Legal, Run;
    var m := jobs[p].merged(s.live);
    var s0 := Checking(s, p);
    var end := [VerifyJ1939(p)] + ([VerifyDtc(p)] + [Release(p)]);
    UpToChecked(jobs, s, p);
    var s1 := s0.(live := Both(m.j1939, s.live.dtc), pcs := s.pcs[p := Half(s.live)]);
    assert Do(jobs, s0, ReplaceJ1939(p, Found(m.j1939))) == s1;
    var s2 := s0.(live := m, pcs := s.pcs[p := Arrived(s.live)]);
    assert Do(jobs, s1, ReplaceDtc(p, Found(m.dtc))) == s2;
    Finishing(jobs, s2, p, s.live);
    assert s2.pcs[p := Gone(Success)] == s.pcs[p := Gone(Success)];
    Chain(jobs, s1, ReplaceDtc(p, Found(m.dtc)), end);
    Chain(jobs, s0, ReplaceJ1939(p, Found(m.j1939)), [ReplaceDtc(p, Found(m.dtc))] + end);
    Then(jobs, s, UpToCheck(p), [ReplaceJ1939(p, Found(m.j1939))] + ([ReplaceDtc(p, Found(m.dtc))] + end));
  }

  // ------------------------------------------------------------- nobody is stuck

  /** A writer that finds the lock taken may stop waiting; nothing changes. */
  lemma {:induction false} WaitingEnds(jobs: Jobs, s: State, p: Pid)
    requires p in s.pcs && p in jobs && s.pcs[p] == Waiting && s.lock.Some?
    ensures Enabled(jobs, s, Timeout(p)) && Do(jobs, s, Timeout(p)) == s.(pcs := s.pcs[p := Gone(Aborted)])
  {
  }

  /** Only merges come to write both files. */
  predicate OwnPosition(jobs: Jobs, s: State, p: Pid) {
    p in s.pcs && p in jobs && (s.pcs[p].Half? ==> jobs[p].Merge?)
  }

  predicate Own(acts: seq<Action>, p: Pid) { forall a :: a in acts ==> !a.Bypass? && a.pid == p }

  /** Wherever the holder of the lock stands, some steps of its own free the lock. */
  lemma {:induction false} HolderCanFinish(jobs: Jobs, s: State, p: Pid) returns (acts: seq<Action>)
    requires s.lock == Some(p) && OwnPosition(jobs, s, p) && Critical(s.pcs[p])
    ensures Own(acts, p) && Legal(jobs, s, acts) && Run(jobs, s, acts).lock == None
  {
    hide Legal, Run;
    match s.pcs[p] {
      case Locked => acts := GivingUp(jobs, s, p);
      case HasDtc(_) => acts := GivingUp(jobs, s, p);
      case HasBoth(_) => acts := GivingUp(jobs, s, p);
      case DtcChecked(_) => acts := GivingUp(jobs, s, p);
      case Checked(_) => acts := GivingUp(jobs, s, p);
      case RepairChecked(_, _) => acts := GivingUp(jobs, s, p);
      case Half(c) =>
        var s1 := s.(pcs := s.pcs[p := Undo(c)]);
        assert Do(jobs, s, ReplaceDtc(p, Stuck)) == s1;
        var rest := Failing(jobs, s1, p);
        acts := [ReplaceDtc(p, Stuck)] + rest;
        Chain(jobs, s, ReplaceDtc(p, Stuck), rest);
      case Arrived(_) => acts := Failing(jobs, s, p);
      case HalfVerified(_) => acts := Failing(jobs, s, p);
      case Undo(_) => acts := Failing(jobs, s, p);
      case UndoDtc(_) => acts := Failing(jobs, s, p);
      case RepairArrived(_, _) => acts := Failing(jobs, s, p);
      case Done(_) =>
        acts := [Release(p)];
        One(jobs, s, Release(p));
    }
  }

  /** Before it has written anything, the holder may give up; the files stay as they are. */
  lemma {:induction false} GivingUp(jobs: Jobs, s: State, p: Pid) returns (acts: seq<Action>)
    requires p in s.pcs && p in jobs && s.lock == Some(p)
    requires s.pcs[p].Locked? || s.pcs[p].HasDtc? || s.pcs[p].HasBoth? || s.pcs[p].DtcChecked? || s.pcs[p].Checked?
      || s.pcs[p].RepairChecked?
    ensures Own(acts, p) && Legal(jobs, s, acts)
    ensures Run(jobs, s, acts) == s.(lock := None, pcs := s.pcs[p := Gone(Aborted)])
  {
    hide Legal, Run;
    acts := [GiveUp(p)] + [Release(p)];
    var s1 := s.(pcs := s.pcs[p := Done(Aborted)]);
    assert Do(jobs, s, GiveUp(p)) == s1;
    assert Do(jobs, s1, Release(p)) == s.(lock := None, pcs := s.pcs[p := Gone(Aborted)]);
    One(jobs, s1, Release(p));
    Chain(jobs, s, GiveUp(p), [Release(p)]);
  }

  /** A read that fails ends the holder with a reported failure; the files stay as they are. */
  lemma {:induction false} Failing(jobs: Jobs, s: State, p: Pid) returns (acts: seq<Action>)
    requires p in s.pcs && p in jobs && s.lock == Some(p)
    requires s.pcs[p].Arrived? || s.pcs[p].HalfVerified? || s.pcs[p].Undo? || s.pcs[p].UndoDtc?
      || s.pcs[p].RepairArrived?
    ensures Own(acts, p) && Legal(jobs, s, acts)
    ensures Run(jobs, s, acts) ==
      s.(lock := None, pcs := s.pcs[p := Gone(Failed)], log := s.log + [Left(p, s.live)])
  {
    hide Legal, Run;
    acts := [ReadFails(p)] + [Release(p)];
    var s1 := s.(pcs := s.pcs[p := Done(Failed)], log := s.log + [Left(p, s.live)]);
    assert Do(jobs, s, ReadFails(p)) == s1;
    One(jobs, s1, Release(p));
    assert Do(jobs, s1, Release(p)) ==
      s.(lock := None, pcs := s.pcs[p := Gone(Failed)], log := s.log + [Left(p, s.live)]);
    Chain(jobs, s, ReadFails(p), [Release(p)]);
  }
}
