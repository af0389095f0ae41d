// What a writer whose failure is reported, or missed, can have left in the files: said
// against the serial history up to that point.
module WriterLeavings {
  import opened Wrappers
  import opened DatabaseCommit
  import opened WriterProtocol

  /** A move lands the writer's result, and a restore that fails leaves the file alone or restores it. */
  predicate Untampered(jobs: Jobs, s: State, a: Action)
    requires Enabled(jobs, s, a)
  {
    match a
    case ReplaceJ1939(p, Found(b)) => b == jobs[p].merged(s.pcs[p].c).j1939
    case ReplaceDtc(p, Found(b)) => b == jobs[p].merged(s.pcs[p].c).dtc
    case ReplaceRepair(p, Found(b)) => b == s.pcs[p].r
    case RestoreJ1939(p, Fails(left)) => left in {s.live.j1939, s.pcs[p].c.j1939}
    case RestoreDtc(p, Fails(left)) => left in {s.live.dtc, s.pcs[p].c.dtc}
    case _ => true
  }

  predicate AllUntampered(jobs: Jobs, s: State, acts: seq<Action>)
    requires Legal(jobs, s, acts)
    decreases |acts|
  {
    acts != [] ==> Untampered(jobs, s, acts[0]) && AllUntampered(jobs, Do(jobs, s, acts[0]), acts[1..])
  }

  /** Each file is old or new. */
  predicate Mixed(files: Both<Bytes>, before: Both<Bytes>, after: Both<Bytes>) {
    files.j1939 in {before.j1939, after.j1939} && files.dtc in {before.dtc, after.dtc}
  }

  /**
   * What the job may leave where the history stands at `base`. A repair leaves the J1939
   * file alone, and leaves nothing where it has nothing to do. Without tampering a merge
   * leaves each file old or new, and a repair leaves its result.
   */
  predicate MayLeave(jobs: Jobs, base: Both<Bytes>, p: Pid, files: Both<Bytes>, exact: bool) {
    && p in jobs
    && match jobs[p]
       case Merge(merged) => exact ==> Mixed(files, base, merged(base))
       case Repair(repaired, _) =>
         && files.j1939 == base.j1939 && repaired(base.dtc).Some?
         && (exact ==> files.dtc == repaired(base.dtc).value)
  }

  predicate Leavings(jobs: Jobs, start: Both<Bytes>, log: seq<Event>, exact: bool) {
    forall i :: 0 <= i < |log| && log[i].Left? ==>
      MayLeave(jobs, Serial(jobs, start, log[..i]), log[i].pid, log[i].files, exact)
  }

  /** How the live files stand to the holder's result, where nothing is tampered with. */
  predicate HolderExact(jobs: Jobs, live: Both<Bytes>, p: Pid, pc: Pc) {
    match pc
    case Half(c) => p in jobs && jobs[p].Merge? && live.j1939 == jobs[p].merged(c).j1939
    case Arrived(c) => p in jobs && jobs[p].Merge? && live == jobs[p].merged(c)
    case HalfVerified(c) => p in jobs && jobs[p].Merge? && live == jobs[p].merged(c)
    case Undo(c) => p in jobs && jobs[p].Merge? && Mixed(live, c, jobs[p].merged(c))
    case UndoDtc(c) => p in jobs && jobs[p].Merge? && Mixed(live, c, jobs[p].merged(c))
    case RepairArrived(_, r) => live.dtc == r
    case _ => true
  }

  /** The writers that can come to write both files are merges, at every step. */
  predicate MergesWrite(jobs: Jobs, s: State) {
    forall p :: p in s.pcs && WritesBoth(s.pcs[p]) ==> p in jobs && jobs[p].Merge?
  }

  predicate WritesBoth(pc: Pc) {
    pc.Half? || pc.Arrived? || pc.HalfVerified? || pc.Undo? || pc.UndoDtc?
  }

  lemma {:induction false} MergesStep(jobs: Jobs, s: State, a: Action)
    requires Enabled(jobs, s, a) && MergesWrite(jobs, s)
    ensures MergesWrite(jobs, Do(jobs, s, a))
  {
  }

  predicate LeavingsOk(jobs: Jobs, start: Both<Bytes>, s: State, exact: bool) {
    && MergesWrite(jobs, s)
    && Leavings(jobs, start, s.log, exact)
    && (exact && s.lock.Some? ==> s.lock.value in s.pcs && HolderExact(jobs, s.live, s.lock.value, s.pcs[s.lock.value]))
  }

  lemma {:induction false} LeavingsNext(
      jobs: Jobs, start: Both<Bytes>, log: seq<Event>, e: Event, exact: bool)
    requires Leavings(jobs, start, log, exact)
    requires e.Left? ==> MayLeave(jobs, Serial(jobs, start, log), e.pid, e.files, exact)
    ensures Leavings(jobs, start, log + [e], exact)
  {
    hide Serial, MayLeave;
    var all := log + [e];
    forall i | 0 <= i < |all| && all[i].Left?
      ensures MayLeave(jobs, Serial(jobs, start, all[..i]), all[i].pid, all[i].files, exact)
    {
      assert all[..i] == if i < |log| then log[..i] else log;
    }
  }

  lemma {:induction false} HolderStep(jobs: Jobs, base: Both<Bytes>, s: State, a: Action)
    requires Enabled(jobs, s, a) && !a.Bypass? && s.lock == Some(a.pid) && Untampered(jobs, s, a)
    requires a.pid in s.pcs && HolderOk(jobs, base, s.live, a.pid, s.pcs[a.pid])
    requires HolderExact(jobs, s.live, a.pid, s.pcs[a.pid])
    ensures var t := Do(jobs, s, a);
      t.lock.Some? ==> HolderExact(jobs, t.live, a.pid, t.pcs[a.pid])
  {
    hide SameCount;
  }

  lemma {:induction false} LeftNow(jobs: Jobs, base: Both<Bytes>, s: State, a: Action, exact: bool)
    requires Enabled(jobs, s, a) && !a.Bypass? && s.lock == Some(a.pid)
    requires a.pid in s.pcs && HolderOk(jobs, base, s.live, a.pid, s.pcs[a.pid]) && MergesWrite(jobs, s)
    requires exact ==> Untampered(jobs, s, a) && HolderExact(jobs, s.live, a.pid, s.pcs[a.pid])
    ensures var t := Do(jobs, s, a);
      t.log != s.log ==>
        && |t.log| == |s.log| + 1 && t.log == s.log + [t.log[|s.log|]]
        && (t.log[|s.log|].Left? ==>
              t.log[|s.log|] == Left(a.pid, t.live) && MayLeave(jobs, base, a.pid, t.live, exact))
  {
    hide SameCount;
  }

  lemma {:induction false} LeavingsStep(jobs: Jobs, start: Both<Bytes>, s: State, a: Action, exact: bool)
    requires Enabled(jobs, s, a) && Exclusive(s) && Consistent(jobs, start, s) && Guarded(s, a)
    requires LeavingsOk(jobs, start, s, exact) && (exact ==> Untampered(jobs, s, a))
    ensures LeavingsOk(jobs, start, Do(jobs, s, a), exact)
  {
    hide Serial, HolderOk, HolderExact, Leavings, MayLeave, Untampered, MergesWrite;
    MergesStep(jobs, s, a);
    var t := Do(jobs, s, a);
    var base := Serial(jobs, start, s.log);
    if a.Bypass? {
      LeavingsNext(jobs, start, s.log, Bypassed(a.db, a.bytes), exact);
      if exact && s.lock.Some? { Unexposed(jobs, s, a, s.lock.value); }
    } else if s.lock == Some(a.pid) {
      LeftNow(jobs, base, s, a, exact);
      if t.log != s.log { LeavingsNext(jobs, start, s.log, t.log[|s.log|], exact); }
      if exact { HolderStep(jobs, base, s, a); }
      StillHolds(jobs, s, a);
    } else {
      OtherSteps(jobs, s, a);
    }
  }

  /** A guarded bypassing write does not fall where the holder's files are compared. */
  lemma {:induction false} Unexposed(jobs: Jobs, s: State, a: Action, p: Pid)
    requires a.Bypass? && Guarded(s, a) && p in s.pcs && HolderExact(jobs, s.live, p, s.pcs[p])
    ensures HolderExact(jobs, Put(s.live, a.db, a.bytes), p, s.pcs[p])
  {
  }

  lemma {:induction false} StillHolds(jobs: Jobs, s: State, a: Action)
    requires Enabled(jobs, s, a) && !a.Bypass? && s.lock == Some(a.pid)
    ensures var t := Do(jobs, s, a);
      a.pid in t.pcs && (t.lock == s.lock || t.lock.None?)
  {
  }

  lemma {:induction false} OtherSteps(jobs: Jobs, s: State, a: Action)
    requires Enabled(jobs, s, a) && !a.Bypass? && Exclusive(s) && s.lock != Some(a.pid)
    ensures var t := Do(jobs, s, a);
      && t.log == s.log && t.live == s.live
      && (t.lock == s.lock
          || (t.lock == Some(a.pid) && a.pid in t.pcs && HolderExact(jobs, t.live, a.pid, t.pcs[a.pid])))
      && (forall p :: p in s.pcs && p != a.pid ==> p in t.pcs && t.pcs[p] == s.pcs[p])
  {
  }

  lemma {:induction false} LeavingsRun(jobs: Jobs, start: Both<Bytes>, s: State, acts: seq<Action>, exact: bool)
    requires Legal(jobs, s, acts) && AllGuarded(jobs, s, acts) && (exact ==> AllUntampered(jobs, s, acts))
    requires Exclusive(s) && Consistent(jobs, start, s) && LeavingsOk(jobs, start, s, exact)
    ensures LeavingsOk(jobs, start, Run(jobs, s, acts), exact)
    decreases |acts|
  {
    hide Do, Enabled, Guarded, Untampered, Exclusive, Consistent, LeavingsOk;
    if acts != [] {
      ExclusiveStep(jobs, s, acts[0]);
      ConsistentStep(jobs, start, s, acts[0]);
      LeavingsStep(jobs, start, s, acts[0], exact);
      LeavingsRun(jobs, start, Do(jobs, s, acts[0]), acts[1..], exact);
    }
  }

  /** Over any guarded run: a repair that fails, or is misled, has left the J1939 file as the history has it. */
  lemma {:induction false} FailedRepairs(jobs: Jobs, s: State, acts: seq<Action>)
    requires Initial(s) && Legal(jobs, s, acts) && AllGuarded(jobs, s, acts)
    ensures Leavings(jobs, s.live, Run(jobs, s, acts).log, false)
  {
    hide Run, Legal, AllGuarded;
    LeavingsRun(jobs, s.live, s, acts, false);
  }

  /**
   * Over any guarded run without tampering, so where only operations fail: a merge that
   * fails has left each file old or new, and a repair that fails has left its result.
   */
  lemma {:induction false} FailedWithoutTampering(jobs: Jobs, s: State, acts: seq<Action>)
    requires Initial(s) && Legal(jobs, s, acts) && AllGuarded(jobs, s, acts) && AllUntampered(jobs, s, acts)
    ensures Leavings(jobs, s.live, Run(jobs, s, acts).log, true)
  {
    hide Run, Legal, AllGuarded, AllUntampered;
    LeavingsRun(jobs, s.live, s, acts, true);
  }
}
