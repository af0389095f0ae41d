// Any number of writers over the two databases, interleaved one file operation at a
// time: t66 merges (both files) and t80 repairs (the DTC file only), all under one
// lock, and writers that bypass the lock. Every operation of a writer may fail.
module WriterProtocol {
  import opened Wrappers
  import opened DatabaseCommit

  type Pid = nat

  /**
   * What a writer computes from what it read. A repair that finds nothing to do writes
   * nothing, and afterwards compares record counts only; unreadable bytes have none.
   */
  datatype Job =
    | Merge(merged: Both<Bytes> -> Both<Bytes>)
    | Repair(repaired: Bytes -> Option<Bytes>, count: Bytes -> Option<nat>)

  type Jobs = map<Pid, Job>

  /**
   * How a writer ends: its result is in place; the files are as it found them; a failure
   * it reports leaves the files as they are; or its own check passes over other bytes.
   */
  datatype Ending = Success | Aborted | Failed | Misled

  /** Where a writer is, with the bytes it has read. */
  datatype Pc =
    | Waiting
    | Locked
    | HasDtc(d: Bytes)
    | HasBoth(c: Both<Bytes>)
    | DtcChecked(c: Both<Bytes>)
    | Checked(c: Both<Bytes>)
    | Half(c: Both<Bytes>)         // J1939 replaced, DTC not yet
    | Arrived(c: Both<Bytes>)      // both replaced, not yet verified
    | HalfVerified(c: Both<Bytes>) // J1939 verified
    | Undo(c: Both<Bytes>)         // rolling back, J1939 first
    | UndoDtc(c: Both<Bytes>)      // J1939 rolled back
    | RepairChecked(d: Bytes, r: Bytes)
    | RepairArrived(d: Bytes, r: Bytes)
    | Done(ending: Ending)
    | Gone(ending: Ending)

  /** A result, what a failed or misled writer left in the files, or a bypassing write. */
  datatype Event = Wrote(pid: Pid) | Left(pid: Pid, files: Both<Bytes>) | Bypassed(db: Db, bytes: Bytes)

  datatype State = State(
    live: Both<Bytes>,
    lock: Option<Pid>,
    pcs: map<Pid, Pc>,
    log: seq<Event>,
    acquired: seq<Pid>)

  /** A replacement is refused on every try, or these bytes are found afterwards. */
  datatype Move = Stuck | Found(bytes: Bytes)

  /** A file is rolled back exactly, or the copy or its proof fails and leaves these bytes. */
  datatype Restoring = Exact | Fails(left: Bytes)

  datatype Action =
    | Acquire(pid: Pid)
    | Timeout(pid: Pid)
    | ReadDtc(pid: Pid)
    | ReadJ1939(pid: Pid)
    | CheckDtc(pid: Pid)
    | CheckJ1939(pid: Pid)
    | ReplaceJ1939(pid: Pid, move: Move)
    | ReplaceDtc(pid: Pid, move: Move)
    | VerifyJ1939(pid: Pid)
    | VerifyDtc(pid: Pid)
    | RestoreJ1939(pid: Pid, how: Restoring)
    | RestoreDtc(pid: Pid, how: Restoring)
    | ReadFails(pid: Pid)
    | CheckRepair(pid: Pid)
    | ReplaceRepair(pid: Pid, move: Move)
    | CountRepair(pid: Pid)
    | GiveUp(pid: Pid)
    | Release(pid: Pid)
    | Bypass(db: Db, bytes: Bytes)

  function Put(live: Both<Bytes>, db: Db, b: Bytes): Both<Bytes> {
    if db.J1939? then live.(j1939 := b) else live.(dtc := b)
  }

  /** The writer holds the lock and has replaced nothing: any failed read, gate, backup or staging ends it here. */
  predicate Unwritten(pc: Pc) {
    pc.Locked? || pc.HasDtc? || pc.HasBoth? || pc.DtcChecked? || pc.Checked? || pc.RepairChecked?
  }

  /** The writer has files to read back. */
  predicate ReadsBack(pc: Pc) {
    pc.Arrived? || pc.HalfVerified? || pc.Undo? || pc.UndoDtc? || pc.RepairArrived?
  }

  predicate Enabled(jobs: Jobs, s: State, a: Action) {
    a.Bypass? ||
    (a.pid in s.pcs && a.pid in jobs && match a
      case Acquire(p) => s.pcs[p].Waiting? && s.lock.None?
      case Timeout(p) => s.pcs[p].Waiting? && s.lock.Some?
      case ReadDtc(p) => s.pcs[p].Locked?
      case ReadJ1939(p) => s.pcs[p].HasDtc? && jobs[p].Merge?
      case CheckDtc(p) => s.pcs[p].HasBoth?
      case CheckJ1939(p) => s.pcs[p].DtcChecked?
      case ReplaceJ1939(p, _) => s.pcs[p].Checked? && jobs[p].Merge?
      case ReplaceDtc(p, _) => s.pcs[p].Half? && jobs[p].Merge?
      case VerifyJ1939(p) => s.pcs[p].Arrived? && jobs[p].Merge?
      case VerifyDtc(p) => s.pcs[p].HalfVerified? && jobs[p].Merge?
      case RestoreJ1939(p, _) => s.pcs[p].Undo?
      case RestoreDtc(p, _) => s.pcs[p].UndoDtc?
      case ReadFails(p) => ReadsBack(s.pcs[p])
      case CheckRepair(p) => s.pcs[p].HasDtc? && jobs[p].Repair?
      case ReplaceRepair(p, _) => s.pcs[p].RepairChecked? && jobs[p].Repair?
      case CountRepair(p) => s.pcs[p].RepairArrived? && jobs[p].Repair?
      case GiveUp(p) => Unwritten(s.pcs[p])
      case Release(p) => s.pcs[p].Done?)
  }

  function Go(s: State, p: Pid, pc: Pc): State { s.(pcs := s.pcs[p := pc]) }

  /** The writer's result is in place. */
  function Succeed(s: State, p: Pid): State { Go(s, p, Done(Success)).(log := s.log + [Wrote(p)]) }

  /** The writer stops, and these files are what it leaves. */
  function Leave(s: State, p: Pid, ending: Ending, files: Both<Bytes>): State {
    Go(s, p, Done(ending)).(live := files, log := s.log + [Left(p, files)])
  }

  function Do(jobs: Jobs, s: State, a: Action): State
    requires Enabled(jobs, s, a)
  {
    match a
    case Acquire(p) => Go(s, p, Locked).(lock := Some(p), acquired := s.acquired + [p])
    case Timeout(p) => Go(s, p, Gone(Aborted))
    case ReadDtc(p) => Go(s, p, HasDtc(s.live.dtc))
    case ReadJ1939(p) => Go(s, p, HasBoth(Both(s.live.j1939, s.pcs[p].d)))
    case CheckDtc(p) =>
      var c := s.pcs[p].c;
      Go(s, p, if s.live.dtc == c.dtc then DtcChecked(c) else Done(Aborted))
    case CheckJ1939(p) =>
      var c := s.pcs[p].c;
      Go(s, p, if s.live.j1939 == c.j1939 then Checked(c) else Done(Aborted))
    case ReplaceJ1939(p, move) =>
      var c := s.pcs[p].c;
      if move.Stuck? then Go(s, p, Undo(c)) else Go(s, p, Half(c)).(live := Put(s.live, J1939, move.bytes))
    case ReplaceDtc(p, move) =>
      var c := s.pcs[p].c;
      if move.Stuck? then Go(s, p, Undo(c)) else Go(s, p, Arrived(c)).(live := Put(s.live, Dtc, move.bytes))
    case VerifyJ1939(p) =>
      var c := s.pcs[p].c;
      Go(s, p, if s.live.j1939 == jobs[p].merged(c).j1939 then HalfVerified(c) else Undo(c))
    case VerifyDtc(p) =>
      var c := s.pcs[p].c;
      if s.live.dtc == jobs[p].merged(c).dtc then Succeed(s, p) else Go(s, p, Undo(c))
    case RestoreJ1939(p, how) =>
      var c := s.pcs[p].c;
      if how.Exact? then Go(s, p, UndoDtc(c)).(live := Put(s.live, J1939, c.j1939))
      else Leave(s, p, Failed, Put(s.live, J1939, how.left))
    case RestoreDtc(p, how) =>
      var c := s.pcs[p].c;
      if how.Exact? then Go(s, p, Done(Aborted)).(live := Put(s.live, Dtc, c.dtc))
      else Leave(s, p, Failed, Put(s.live, Dtc, how.left))
    case ReadFails(p) => Leave(s, p, Failed, s.live)
    case CheckRepair(p) =>
      var d := s.pcs[p].d;
      Go(s, p, match jobs[p].repaired(d)
               case None => Done(Aborted)
               case Some(r) => if s.live.dtc == d then RepairChecked(d, r) else Done(Aborted))
    case ReplaceRepair(p, move) =>
      var pc := s.pcs[p];
      if move.Stuck? then Go(s, p, Done(Aborted))
      else Go(s, p, RepairArrived(pc.d, pc.r)).(live := Put(s.live, Dtc, move.bytes))
    case CountRepair(p) =>
      var pc := s.pcs[p];
      if !SameCount(jobs[p], s.live.dtc, pc.d) then Leave(s, p, Failed, s.live)
      else if s.live.dtc == pc.r then Succeed(s, p)
      else Leave(s, p, Misled, s.live)
    case GiveUp(p) => Go(s, p, Done(Aborted))
    case Release(p) => Go(s, p, Gone(s.pcs[p].ending)).(lock := None)
    case Bypass(db, b) => s.(live := Put(s.live, db, b), log := s.log + [Bypassed(db, b)])
  }

  /** The one check a repair makes after writing. */
  predicate SameCount(job: Job, after: Bytes, before: Bytes)
    requires job.Repair?
  {
    job.count(after).Some? && job.count(after) == job.count(before)
  }

  // -------------------------------------------------------------------- runs

  predicate Initial(s: State) {
    s.lock.None? && s.log == [] && s.acquired == [] && forall p :: p in s.pcs ==> s.pcs[p].Waiting?
  }

  /** Between a writer's check of a file and the end of its commit, that file is exposed. */
  predicate Exposed(pc: Pc, db: Db) {
    match pc
    case DtcChecked(_) => db.Dtc?
    case RepairChecked(_, _) => db.Dtc?
    case RepairArrived(_, _) => db.Dtc?
    case Checked(_) => true
    case Half(_) => true
    case Arrived(_) => true
    case HalfVerified(_) => true
    case Undo(_) => true
    case UndoDtc(_) => true
    case _ => false
  }

  /** A bypassing write is guarded against unless it falls where a checked file is exposed. */
  predicate Guarded(s: State, a: Action) {
    a.Bypass? ==> forall p :: p in s.pcs ==> !Exposed(s.pcs[p], a.db)
  }

  predicate Legal(jobs: Jobs, s: State, acts: seq<Action>)
    decreases |acts|
  {
    acts != [] ==> Enabled(jobs, s, acts[0]) && Legal(jobs, Do(jobs, s, acts[0]), acts[1..])
  }

  function Run(jobs: Jobs, s: State, acts: seq<Action>): State
    requires Legal(jobs, s, acts)
    decreases |acts|
  {
    if acts == [] then s else Run(jobs, Do(jobs, s, acts[0]), acts[1..])
  }

  predicate AllGuarded(jobs: Jobs, s: State, acts: seq<Action>)
    requires Legal(jobs, s, acts)
    decreases |acts|
  {
    acts != [] ==> Guarded(s, acts[0]) && AllGuarded(jobs, Do(jobs, s, acts[0]), acts[1..])
  }

  // ------------------------------------------------------ one after another

  /** What an event leaves when nothing else happens meanwhile. */
  function Alone(jobs: Jobs, live: Both<Bytes>, e: Event): Both<Bytes> {
    match e
    case Bypassed(db, b) => Put(live, db, b)
    case Left(_, files) => files
    case Wrote(p) =>
      if p !in jobs then live
      else
        match jobs[p]
        case Merge(merged) => merged(live)
        case Repair(repaired, _) =>
          match repaired(live.dtc)
          case None => live
          case Some(r) => Put(live, Dtc, r)
  }

  function Serial(jobs: Jobs, live: Both<Bytes>, log: seq<Event>): Both<Bytes> {
    if log == [] then live
    else Alone(jobs, Serial(jobs, live, log[..|log| - 1]), log[|log| - 1])
  }

  // -------------------------------------------------------------- invariants

  predicate Critical(pc: Pc) { !pc.Waiting? && !pc.Gone? }

  /** Exactly the holder of the lock is between acquiring and releasing it. */
  predicate Exclusive(s: State) {
    && (forall p :: p in s.pcs && Critical(s.pcs[p]) ==> s.lock == Some(p))
    && (s.lock.Some? ==> s.lock.value in s.pcs && Critical(s.pcs[s.lock.value]))
  }

  /** How the live files stand to the serial history, by where the lock holder is. */
  predicate HolderOk(jobs: Jobs, base: Both<Bytes>, live: Both<Bytes>, p: Pid, pc: Pc) {
    match pc
    case DtcChecked(c) => live == base && base.dtc == c.dtc
    case Checked(c) => live == base == c
    case Half(c) => base == c && live.dtc == c.dtc
    case Arrived(c) => base == c
    case HalfVerified(c) => base == c && p in jobs && jobs[p].Merge? && live.j1939 == jobs[p].merged(c).j1939
    case Undo(c) => base == c
    case UndoDtc(c) => base == c && live.j1939 == c.j1939
    case RepairChecked(d, r) =>
      p in jobs && jobs[p].Repair? && live == base && base.dtc == d && jobs[p].repaired(d) == Some(r)
    case RepairArrived(d, r) =>
      p in jobs && jobs[p].Repair? && live.j1939 == base.j1939 && base.dtc == d && jobs[p].repaired(d) == Some(r)
    case _ => live == base
  }

  predicate Consistent(jobs: Jobs, start: Both<Bytes>, s: State) {
    var base := Serial(jobs, start, s.log);
    match s.lock
    case None => s.live == base
    case Some(p) => p in s.pcs && HolderOk(jobs, base, s.live, p, s.pcs[p])
  }

  lemma {:induction false} ExclusiveStep(jobs: Jobs, s: State, a: Action)
    requires Enabled(jobs, s, a) && Exclusive(s)
    ensures Exclusive(Do(jobs, s, a))
  {
  }

  lemma {:induction false} SerialAppend(jobs: Jobs, live: Both<Bytes>, log: seq<Event>, e: Event)
    ensures Serial(jobs, live, log + [e]) == Alone(jobs, Serial(jobs, live, log), e)
  {
    assert (log + [e])[..|log|] == log;
  }

  /** The steps that write, or end a writer that has written. */
  predicate Writing(a: Action) {
    || a.ReplaceJ1939? || a.ReplaceDtc? || a.VerifyJ1939? || a.VerifyDtc? || a.RestoreJ1939? || a.RestoreDtc?
    || a.ReadFails? || a.ReplaceRepair? || a.CountRepair?
  }

  lemma {:induction false} ConsistentWrite(jobs: Jobs, start: Both<Bytes>, s: State, a: Action)
    requires Enabled(jobs, s, a) && Writing(a) && s.lock == Some(a.pid) && Consistent(jobs, start, s)
    ensures Consistent(jobs, start, Do(jobs, s, a))
  {
    hide Serial, SameCount;
    var t := Do(jobs, s, a);
    SerialAppend(jobs, start, s.log, Wrote(a.pid));
    SerialAppend(jobs, start, s.log, Left(a.pid, t.live));
  }

  lemma {:induction false} ConsistentStep(jobs: Jobs, start: Both<Bytes>, s: State, a: Action)
    requires Enabled(jobs, s, a) && Exclusive(s) && Consistent(jobs, start, s) && Guarded(s, a)
    ensures Consistent(jobs, start, Do(jobs, s, a))
  {
    hide Serial;
    if Writing(a) {
      ConsistentWrite(jobs, start, s, a);
    } else if a.Bypass? {
      SerialAppend(jobs, start, s.log, Bypassed(a.db, a.bytes));
    }
  }

  lemma {:induction false} ConsistentRun(jobs: Jobs, start: Both<Bytes>, s: State, acts: seq<Action>)
    requires Legal(jobs, s, acts) && AllGuarded(jobs, s, acts)
    requires Exclusive(s) && Consistent(jobs, start, s)
    ensures Exclusive(Run(jobs, s, acts)) && Consistent(jobs, start, Run(jobs, s, acts))
    decreases |acts|
  {
    hide Do, Enabled, Guarded;
    if acts != [] {
      ExclusiveStep(jobs, s, acts[0]);
      ConsistentStep(jobs, start, s, acts[0]);
      ConsistentRun(jobs, start, Do(jobs, s, acts[0]), acts[1..]);
    }
  }

  /**
   * However the writers interleave and fail, whenever the lock is free the two files are
   * what the events of the history leave one after another: results of whole writers,
   * bypassing writes, and what writers with a reported failure left behind.
   */
  lemma {:induction false} Serialisable(jobs: Jobs, s: State, acts: seq<Action>)
    requires Initial(s) && Legal(jobs, s, acts) && AllGuarded(jobs, s, acts)
    ensures var t := Run(jobs, s, acts);
      t.lock.None? ==> t.live == Serial(jobs, s.live, t.log)
  {
    ConsistentRun(jobs, s.live, s, acts);
  }

  // ------------------------------------------------ endings, the log and the lock

  predicate Ended(s: State, p: Pid, ending: Ending) {
    p in s.pcs && s.pcs[p] in {Done(ending), Gone(ending)}
  }

  /** The writer ended after having written, other than by restoring what it found. */
  predicate LeftMark(s: State, p: Pid) { Ended(s, p, Success) || Ended(s, p, Failed) || Ended(s, p, Misled) }

  /** The event of the log that a writer's ending calls for, if any. */
  predicate Accounts(s: State, p: Pid, e: Event) {
    match e
    case Wrote(q) => q == p && Ended(s, p, Success)
    case Left(q, _) => q == p && (Ended(s, p, Failed) || Ended(s, p, Misled))
    case Bypassed(_, _) => false
  }

  /**
   * Every event of a writer is accounted for by the way it ended, every writer that left
   * a mark has an event, and none has two.
   */
  ghost predicate LogOk(s: State) {
    && (forall i :: 0 <= i < |s.log| && !s.log[i].Bypassed? ==> Accounts(s, s.log[i].pid, s.log[i]))
    && (forall p :: LeftMark(s, p) ==> exists i :: 0 <= i < |s.log| && Accounts(s, p, s.log[i]))
    && (forall i, j :: 0 <= i < j < |s.log| && !s.log[i].Bypassed? && !s.log[j].Bypassed? ==>
          s.log[i].pid != s.log[j].pid)
  }

  lemma {:induction false} AccountsStay(jobs: Jobs, s: State, a: Action, p: Pid, e: Event)
    requires Enabled(jobs, s, a) && Accounts(s, p, e)
    ensures Accounts(Do(jobs, s, a), p, e)
  {
  }

  /** What a step adds to the log, and whose mark it is. */
  lemma {:induction false} LogGrows(jobs: Jobs, s: State, a: Action)
    requires Enabled(jobs, s, a)
    ensures var t := Do(jobs, s, a);
      if a.Bypass? then t.log == s.log + [Bypassed(a.db, a.bytes)] && t.pcs == s.pcs
      else
        || (t.log == s.log && forall p :: LeftMark(t, p) <==> LeftMark(s, p))
        || (|t.log| == |s.log| + 1 && t.log == s.log + [t.log[|s.log|]]
            && Accounts(t, a.pid, t.log[|s.log|]) && !LeftMark(s, a.pid)
            && forall p :: p != a.pid ==> (LeftMark(t, p) <==> LeftMark(s, p)))
  {
    hide SameCount;
  }

  lemma {:induction false} LogStep(jobs: Jobs, s: State, a: Action)
    requires Enabled(jobs, s, a) && LogOk(s)
    ensures LogOk(Do(jobs, s, a))
  {
    hide Do, Enabled, Accounts, LeftMark;
    var t := Do(jobs, s, a);
    LogGrows(jobs, s, a);
    forall i | 0 <= i < |s.log| && !s.log[i].Bypassed? ensures Accounts(t, s.log[i].pid, s.log[i]) {
      AccountsStay(jobs, s, a, s.log[i].pid, s.log[i]);
    }
    forall i | 0 <= i < |s.log| && !s.log[i].Bypassed? && !a.Bypass? && t.log != s.log ensures s.log[i].pid != a.pid {
      AccountsMark(s, s.log[i].pid, s.log[i]);
    }
    forall p | LeftMark(t, p) ensures exists i :: 0 <= i < |t.log| && Accounts(t, p, t.log[i]) {
      if LeftMark(s, p) || a.Bypass? {
        if a.Bypass? { SameMark(s, t, p); }
        var i :| 0 <= i < |s.log| && Accounts(s, p, s.log[i]);
        AccountsStay(jobs, s, a, p, s.log[i]);
        assert t.log[i] == s.log[i];
      }
    }
    if t.log != s.log && !a.Bypass? { AccountsMark(t, a.pid, t.log[|s.log|]); }
  }

  lemma {:induction false} AccountsMark(s: State, p: Pid, e: Event)
    requires Accounts(s, p, e)
    ensures LeftMark(s, p) && !e.Bypassed? && e.pid == p
  {
  }

  lemma {:induction false} SameMark(s: State, t: State, p: Pid)
    requires s.pcs == t.pcs
    ensures LeftMark(s, p) == LeftMark(t, p)
  {
  }

  /** The writers of the log, in its order. */
  function Writers(log: seq<Event>): seq<Pid> {
    if log == [] then []
    else
      var e := log[|log| - 1];
      Writers(log[..|log| - 1]) + if e.Bypassed? then [] else [e.pid]
  }

  predicate Subsequence(a: seq<Pid>, b: seq<Pid>) {
    if a == [] then true
    else if b == [] then false
    else
      || Subsequence(a, b[..|b| - 1])
      || (a[|a| - 1] == b[|b| - 1] && Subsequence(a[..|a| - 1], b[..|b| - 1]))
  }

  /** The writers of the log are in the order in which they took the lock. */
  predicate OrderOk(s: State) {
    if s.lock.Some? && !LeftMark(s, s.lock.value) then
      && s.acquired != [] && s.acquired[|s.acquired| - 1] == s.lock.value
      && Subsequence(Writers(s.log), s.acquired[..|s.acquired| - 1])
    else Subsequence(Writers(s.log), s.acquired)
  }

  lemma {:induction false} WritersAppend(log: seq<Event>, e: Event)
    ensures Writers(log + [e]) == Writers(log) + if e.Bypassed? then [] else [e.pid]
  {
    assert (log + [e])[..|log|] == log;
  }

  lemma {:induction false} SubsequenceAppend(a: seq<Pid>, b: seq<Pid>, p: Pid)
    requires Subsequence(a, b)
    ensures Subsequence(a, b + [p]) && Subsequence(a + [p], b + [p])
  {
    assert (b + [p])[..|b|] == b && (a + [p])[..|a|] == a;
  }

  lemma {:induction false} OrderStep(jobs: Jobs, s: State, a: Action)
    requires Enabled(jobs, s, a) && Exclusive(s) && OrderOk(s)
    ensures OrderOk(Do(jobs, s, a))
  {
    hide Writers, Subsequence, LeftMark, Do, Enabled;
    var t := Do(jobs, s, a);
    LogGrows(jobs, s, a);
    LockMoves(jobs, s, a);
    if a.Acquire? {
      assert t.acquired[..|t.acquired| - 1] == s.acquired;
    } else if a.Bypass? {
      WritersAppend(s.log, Bypassed(a.db, a.bytes));
      assert Writers(s.log) + [] == Writers(s.log);
      SameMark(s, t, if s.lock.Some? then s.lock.value else 0);
    } else if t.log != s.log {
      AccountsMark(t, a.pid, t.log[|s.log|]);
      MarkedOrder(s, a.pid, t.log[|s.log|]);
    } else if a.Release? && !LeftMark(s, a.pid) {
      MarkedOrder(s, a.pid, Wrote(a.pid));
    }
  }

  /** How a step moves the lock: only its holder acts, and only a release gives it up. */
  lemma {:induction false} LockMoves(jobs: Jobs, s: State, a: Action)
    requires Enabled(jobs, s, a) && Exclusive(s)
    ensures var t := Do(jobs, s, a);
      if a.Acquire? then
        && s.lock.None? && t.lock == Some(a.pid) && t.acquired == s.acquired + [a.pid] && t.log == s.log
        && !LeftMark(t, a.pid)
      else
        && t.acquired == s.acquired
        && (a.Release? ==> s.lock == Some(a.pid) && t.lock.None? && t.log == s.log)
        && (!a.Release? ==> t.lock == s.lock)
        && (t.log != s.log && !a.Bypass? ==> s.lock == Some(a.pid))
  {
    hide SameCount;
  }

  lemma {:induction false} MarkedOrder(s: State, p: Pid, e: Event)
    requires OrderOk(s) && s.lock == Some(p) && !LeftMark(s, p) && !e.Bypassed? && e.pid == p
    ensures Subsequence(Writers(s.log), s.acquired)
    ensures Subsequence(Writers(s.log + [e]), s.acquired)
  {
    hide Subsequence, LeftMark;
    var front := s.acquired[..|s.acquired| - 1];
    assert s.acquired == front + [p];
    WritersAppend(s.log, e);
    SubsequenceAppend(Writers(s.log), front, p);
  }

  lemma {:induction false} HistoryRun(jobs: Jobs, s: State, acts: seq<Action>)
    requires Legal(jobs, s, acts) && Exclusive(s) && LogOk(s) && OrderOk(s)
    ensures var t := Run(jobs, s, acts); LogOk(t) && OrderOk(t)
    decreases |acts|
  {
    hide Do, Enabled, LogOk, OrderOk, Exclusive;
    if acts != [] {
      ExclusiveStep(jobs, s, acts[0]);
      LogStep(jobs, s, acts[0]);
      OrderStep(jobs, s, acts[0]);
      HistoryRun(jobs, Do(jobs, s, acts[0]), acts[1..]);
    }
  }

  /**
   * No result is lost or repeated: the history holds exactly the writers that succeeded,
   * and those whose failure left something in the files, each once and in the order in
   * which they took the lock.
   */
  lemma {:induction false} NoCommitLost(jobs: Jobs, s: State, acts: seq<Action>)
    requires Initial(s) && Legal(jobs, s, acts)
    ensures var t := Run(jobs, s, acts);
      && LogOk(t) && (t.lock.None? ==> Subsequence(Writers(t.log), t.acquired))
      && forall p :: Wrote(p) in t.log <==> Ended(t, p, Success)
  {
    hide Do, Enabled;
    HistoryRun(jobs, s, acts);
    var t := Run(jobs, s, acts);
    forall p ensures Wrote(p) in t.log <==> Ended(t, p, Success) {
      if Ended(t, p, Success) {
        assert LeftMark(t, p);
        var i :| 0 <= i < |t.log| && Accounts(t, p, t.log[i]);
        assert t.log[i] == Wrote(p);
      }
    }
  }

  // --------------------------------------------------------- bypassing the lock

  /** The writer has read this file and not yet compared it with what it read. */
  predicate Holds(pc: Pc, db: Db, b: Bytes) {
    match pc
    case HasDtc(d) => db.Dtc? && b == d
    case HasBoth(c) => b == c.Of(db)
    case DtcChecked(c) => db.J1939? && b == c.j1939
    case _ => false
  }

  predicate HasAborted(pc: Pc) { pc in {Done(Aborted), Gone(Aborted)} }

  /** Nobody but the lock holder and bypassing writes changes a live file. */
  lemma {:induction false} OnlyHolderWrites(jobs: Jobs, s: State, a: Action, p: Pid)
    requires Enabled(jobs, s, a) && Exclusive(s) && s.lock == Some(p)
    requires !a.Bypass? && a.pid != p
    ensures var t := Do(jobs, s, a); t.live == s.live && t.lock == s.lock && t.pcs[p] == s.pcs[p]
  {
  }

  /** No action bypasses the lock to write this file. */
  predicate NoBypass(acts: seq<Action>, db: Db) {
    forall a :: a in acts && a.Bypass? ==> a.db != db
  }

  /** None of the writer's own steps changes a live file. */
  predicate Untouching(jobs: Jobs, s: State, acts: seq<Action>, p: Pid)
    requires Legal(jobs, s, acts)
    decreases |acts|
  {
    acts != [] ==>
      && (!acts[0].Bypass? && acts[0].pid == p ==> Do(jobs, s, acts[0]).live == s.live)
      && Untouching(jobs, Do(jobs, s, acts[0]), acts[1..], p)
  }

  /** One step in the life of a writer with a stale copy: it keeps the copy or aborts, and writes nothing. */
  lemma {:induction false} StaleStep(jobs: Jobs, s: State, a: Action, p: Pid, db: Db, read: Bytes)
    requires Enabled(jobs, s, a) && Exclusive(s) && (a.Bypass? ==> a.db != db)
    requires p in s.pcs && Holds(s.pcs[p], db, read) && s.live.Of(db) != read
    ensures var t := Do(jobs, s, a);
      && p in t.pcs && ((Holds(t.pcs[p], db, read) && t.live.Of(db) != read) || HasAborted(t.pcs[p]))
      && (!a.Bypass? && a.pid == p ==> t.live == s.live)
  {
    if !a.Bypass? && a.pid != p {
      OnlyHolderWrites(jobs, s, a, p);
    }
  }

  lemma {:induction false} AbortedStep(jobs: Jobs, s: State, a: Action, p: Pid)
    requires Enabled(jobs, s, a) && p in s.pcs && HasAborted(s.pcs[p])
    ensures var t := Do(jobs, s, a);
      p in t.pcs && HasAborted(t.pcs[p]) && (!a.Bypass? && a.pid == p ==> t.live == s.live)
  {
  }

  lemma {:induction false} AbortedStays(jobs: Jobs, s: State, acts: seq<Action>, p: Pid)
    requires Legal(jobs, s, acts) && p in s.pcs && HasAborted(s.pcs[p])
    ensures var t := Run(jobs, s, acts); p in t.pcs && HasAborted(t.pcs[p])
    ensures Untouching(jobs, s, acts, p)
    decreases |acts|
  {
    hide Do, Enabled, HasAborted;
    if acts != [] {
      AbortedStep(jobs, s, acts[0], p);
      AbortedStays(jobs, Do(jobs, s, acts[0]), acts[1..], p);
    }
  }

  /**
   * While a writer has read a file and not yet checked it, the file keeps whatever a
   * bypassing write left in it, and the writer touches neither file, then or later.
   */
  lemma {:induction false} StaleStays(jobs: Jobs, s: State, acts: seq<Action>, p: Pid, db: Db, read: Bytes)
    requires Legal(jobs, s, acts) && Exclusive(s) && NoBypass(acts, db)
    requires p in s.pcs && Holds(s.pcs[p], db, read) && s.live.Of(db) != read
    ensures var t := Run(jobs, s, acts);
      && p in t.pcs
      && ((Holds(t.pcs[p], db, read) && t.live.Of(db) != read) || HasAborted(t.pcs[p]))
    ensures Untouching(jobs, s, acts, p)
    decreases |acts|
  {
    hide Do, Enabled, Holds, HasAborted, Exclusive;
    if acts != [] {
      var t := Do(jobs, s, acts[0]);
      assert acts[0] in acts && NoBypass(acts[1..], db);
      ExclusiveStep(jobs, s, acts[0]);
      StaleStep(jobs, s, acts[0], p, db, read);
      if HasAborted(t.pcs[p]) {
        AbortedStays(jobs, t, acts[1..], p);
      } else {
        StaleStays(jobs, t, acts[1..], p, db, read);
      }
    }
  }

  /**
   * A write that bypasses the lock between a writer's read of a file and its check, and
   * leaves other bytes there, makes the writer abort: it never succeeds, leaves no mark,
   * and none of its steps writes either file.
   */
  lemma {:induction false} BypassAborts(
      jobs: Jobs, s: State, acts: seq<Action>, p: Pid, db: Db, read: Bytes, b: Bytes)
    requires Exclusive(s) && p in s.pcs && Holds(s.pcs[p], db, read) && b != read
    requires Legal(jobs, Do(jobs, s, Bypass(db, b)), acts) && NoBypass(acts, db)
    ensures var t := Run(jobs, Do(jobs, s, Bypass(db, b)), acts);
      p in t.pcs && !LeftMark(t, p) && (t.pcs[p].Done? || t.pcs[p].Gone? ==> HasAborted(t.pcs[p]))
    ensures Untouching(jobs, Do(jobs, s, Bypass(db, b)), acts, p)
  {
    hide Legal, Run, Untouching;
    ExclusiveStep(jobs, s, Bypass(db, b));
    StaleStays(jobs, Do(jobs, s, Bypass(db, b)), acts, p, db, read);
  }

  // ------------------------------------------------------------ runs step by step

  lemma {:induction false} Stop(jobs: Jobs, s: State)
    ensures Legal(jobs, s, []) && Run(jobs, s, []) == s
  {
  }

  lemma {:induction false} Chain(jobs: Jobs, s: State, a: Action, rest: seq<Action>)
    requires Enabled(jobs, s, a) && Legal(jobs, Do(jobs, s, a), rest)
    ensures Legal(jobs, s, [a] + rest) && Run(jobs, s, [a] + rest) == Run(jobs, Do(jobs, s, a), rest)
  {
    hide Do, Enabled;
    assert ([a] + rest)[1..] == rest;
  }

  lemma {:induction false} One(jobs: Jobs, s: State, a: Action)
    requires Enabled(jobs, s, a)
    ensures Legal(jobs, s, [a]) && Run(jobs, s, [a]) == Do(jobs, s, a)
  {
    hide Legal, Run, Do, Enabled;
    Stop(jobs, Do(jobs, s, a));
    Chain(jobs, s, a, []);
    assert [a] + [] == [a];
  }

  lemma {:induction false} Then(jobs: Jobs, s: State, a: seq<Action>, b: seq<Action>)
    requires Legal(jobs, s, a) && Legal(jobs, Run(jobs, s, a), b)
    ensures Legal(jobs, s, a + b) && Run(jobs, s, a + b) == Run(jobs, Run(jobs, s, a), b)
    decreases |a|
  {
    hide Do, Enabled;
    if a == [] {
      assert a + b == b;
    } else {
      var t := Do(jobs, s, a[0]);
      Then(jobs, t, a[1..], b);
      assert a + b == [a[0]] + (a[1..] + b);
      assert (a + b)[1..] == a[1..] + b;
    }
  }

  // ------------------------------------------------------------ after the check

  function UpToCheck(p: Pid): seq<Action> {
    [Acquire(p)] + ([ReadDtc(p)] + ([ReadJ1939(p)] + ([CheckDtc(p)] + [CheckJ1939(p)])))
  }

  function FromBypass(p: Pid, b: Bytes, merged: Both<Bytes>): seq<Action> {
    [Bypass(Dtc, b)] + ([ReplaceJ1939(p, Found(merged.j1939))] + ([ReplaceDtc(p, Found(merged.dtc))]
      + ([VerifyJ1939(p)] + ([VerifyDtc(p)] + [Release(p)]))))
  }

  /**
   * The guard is needed: a write that bypasses the lock after the check is lost. Both
   * files end as the merge made them from what it had read, whatever the bypass wrote.
   */
  lemma {:induction false} BypassAfterCheckIsLost(jobs: Jobs, s: State, p: Pid, b: Bytes)
    requires Initial(s) && p in s.pcs && p in jobs && jobs[p].Merge?
    ensures var acts := UpToCheck(p) + FromBypass(p, b, jobs[p].merged(s.live));
      && Legal(jobs, s, acts)
      && var t := Run(jobs, s, acts);
         && t.lock.None? && t.live == jobs[p].merged(s.live)
         && t.log == [Bypassed(Dtc, b), Wrote(p)]
         && Serial(jobs, s.live, t.log) == jobs[p].merged(Put(s.live, Dtc, b))
  {
    hide Legal, Run;
    Committing(jobs, Checking(s, p), p, b);
    UpToChecked(jobs, s, p);
    Then(jobs, s, UpToCheck(p), FromBypass(p, b, jobs[p].merged(s.live)));
    SerialAppend(jobs, s.live, [Bypassed(Dtc, b)], Wrote(p));
  }

  /** Where a merge stands that took the free lock and found both files as it had read them. */
  function Checking(s: State, p: Pid): State {
    s.(lock := Some(p), acquired := s.acquired + [p], pcs := s.pcs[p := Checked(s.live)])
  }

  lemma {:induction false} UpToChecked(jobs: Jobs, s: State, p: Pid)
    requires Initial(s) && p in s.pcs && p in jobs && jobs[p].Merge?
    ensures Legal(jobs, s, UpToCheck(p)) && Run(jobs, s, UpToCheck(p)) == Checking(s, p)
  {
    hide Legal, Run;
    var s1 := s.(lock := Some(p), acquired := s.acquired + [p], pcs := s.pcs[p := Locked]);
    assert Do(jobs, s, Acquire(p)) == s1;
    var s2 := s1.(pcs := s.pcs[p := HasDtc(s.live.dtc)]);
    assert Do(jobs, s1, ReadDtc(p)) == s2;
    var s3 := s1.(pcs := s.pcs[p := HasBoth(s.live)]);
    assert Do(jobs, s2, ReadJ1939(p)) == s3;
    CheckedBoth(jobs, s3, s, p);
    Chain(jobs, s2, ReadJ1939(p), [CheckDtc(p)] + [CheckJ1939(p)]);
    Chain(jobs, s1, ReadDtc(p), [ReadJ1939(p)] + ([CheckDtc(p)] + [CheckJ1939(p)]));
    Chain(jobs, s, Acquire(p), [ReadDtc(p)] + ([ReadJ1939(p)] + ([CheckDtc(p)] + [CheckJ1939(p)])));
  }

  lemma {:induction false} CheckedBoth(jobs: Jobs, t: State, s: State, p: Pid)
    requires p in s.pcs && p in jobs && t == Checking(s, p).(pcs := s.pcs[p := HasBoth(s.live)])
    ensures Legal(jobs, t, [CheckDtc(p)] + [CheckJ1939(p)])
    ensures Run(jobs, t, [CheckDtc(p)] + [CheckJ1939(p)]) == Checking(s, p)
  {
    hide Legal, Run;
    var u := t.(pcs := s.pcs[p := DtcChecked(s.live)]);
    assert Do(jobs, t, CheckDtc(p)) == u;
    assert Do(jobs, u, CheckJ1939(p)) == Checking(s, p);
    One(jobs, u, CheckJ1939(p));
    Chain(jobs, t, CheckDtc(p), [CheckJ1939(p)]);
  }

  lemma {:induction false} Committing(jobs: Jobs, s: State, p: Pid, b: Bytes)
    requires p in s.pcs && p in jobs && jobs[p].Merge? && s.pcs[p] == Checked(s.live) && s.log == []
    ensures var acts := FromBypass(p, b, jobs[p].merged(s.live));
      && Legal(jobs, s, acts)
      && Run(jobs, s, acts) ==
         State(jobs[p].merged(s.live), None, s.pcs[p := Gone(Success)], [Bypassed(Dtc, b), Wrote(p)], s.acquired)
  {
    hide Legal, Run;
    var m := jobs[p].merged(s.live);
    var s1 := s.(live := Put(s.live, Dtc, b), log := [Bypassed(Dtc, b)]);
    assert Do(jobs, s, Bypass(Dtc, b)) == s1;
    var s2 := s1.(live := Put(s1.live, J1939, m.j1939), pcs := s.pcs[p := Half(s.live)]);
    assert Do(jobs, s1, ReplaceJ1939(p, Found(m.j1939))) == s2;
    var s3 := s1.(live := m, pcs := s.pcs[p := Arrived(s.live)]);
    assert Do(jobs, s2, ReplaceDtc(p, Found(m.dtc))) == s3;
    Finishing(jobs, s3, p, s.live);
    var end := [VerifyJ1939(p)] + ([VerifyDtc(p)] + [Release(p)]);
    Chain(jobs, s2, ReplaceDtc(p, Found(m.dtc)), end);
    Chain(jobs, s1, ReplaceJ1939(p, Found(m.j1939)), [ReplaceDtc(p, Found(m.dtc))] + end);
    Chain(jobs, s, Bypass(Dtc, b), [ReplaceJ1939(p, Found(m.j1939))] + ([ReplaceDtc(p, Found(m.dtc))] + end));
    assert s3.pcs[p := Gone(Success)] == s.pcs[p := Gone(Success)];
  }

  lemma {:induction false} Finishing(jobs: Jobs, s: State, p: Pid, c: Both<Bytes>)
    requires p in s.pcs && p in jobs && jobs[p].Merge? && s.pcs[p] == Arrived(c) && s.live == jobs[p].merged(c)
    ensures Legal(jobs, s, [VerifyJ1939(p)] + ([VerifyDtc(p)] + [Release(p)]))
    ensures Run(jobs, s, [VerifyJ1939(p)] + ([VerifyDtc(p)] + [Release(p)])) ==
      State(s.live, None, s.pcs[p := Gone(Success)], s.log + [Wrote(p)], s.acquired)
  {
    hide Legal, Run;
    var s1 := s.(pcs := s.pcs[p := HalfVerified(c)]);
    assert Do(jobs, s, VerifyJ1939(p)) == s1;
    var s2 := s.(pcs := s.pcs[p := Done(Success)], log := s.log + [Wrote(p)]);
    assert Do(jobs, s1, VerifyDtc(p)) == s2;
    One(jobs, s2, Release(p));
    Chain(jobs, s1, VerifyDtc(p), [Release(p)]);
    Chain(jobs, s, VerifyJ1939(p), [VerifyDtc(p)] + [Release(p)]);
    assert Do(jobs, s2, Release(p)).pcs == s.pcs[p := Gone(Success)];
  }

  /**
   * A repair never takes its write back. Whatever bytes land, they stay; it reports a
   * failure exactly when their record count differs from the old one or cannot be had.
   */
  lemma {:induction false} RepairIsNotTakenBack(jobs: Jobs, s: State, p: Pid, d: Bytes, r: Bytes, b: Bytes)
    requires p in s.pcs && p in jobs && jobs[p].Repair? && s.pcs[p] == RepairChecked(d, r)
    ensures var acts := [ReplaceRepair(p, Found(b))] + [CountRepair(p)];
      && Legal(jobs, s, acts)
      && var t := Run(jobs, s, acts);
         && t.live == Put(s.live, Dtc, b)
         && (Ended(t, p, Failed) <==> jobs[p].count(b).None? || jobs[p].count(b) != jobs[p].count(d))
         && (Ended(t, p, Success) <==> !Ended(t, p, Failed) && b == r)
  {
    hide Legal, Run;
    var s1 := Do(jobs, s, ReplaceRepair(p, Found(b)));
    assert s1.pcs[p] == RepairArrived(d, r) && s1.live.dtc == b;
    One(jobs, s1, CountRepair(p));
    Chain(jobs, s, ReplaceRepair(p, Found(b)), [CountRepair(p)]);
  }
}
