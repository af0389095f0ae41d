// The tries of a replacement counted out, and when a commit goes through, said of the
// plan of faults alone.
module CommitTries {
  import opened Wrappers
  import opened DatabaseCommit

  /** The try is among the six, lands, and is the first that does. */
  predicate FirstToLand(attempt: nat -> Attempt, k: nat) {
    k < 6 && attempt(k).Lands? && forall j :: 0 <= j < k ==> !attempt(j).Lands?
  }

  lemma {:induction false} LandingFrom(attempt: nat -> Attempt, k: nat, n: nat)
    requires n <= k && FirstToLand(attempt, k)
    ensures Landing(attempt, n) == attempt(k)
    decreases k - n
  {
    if n < k { LandingFrom(attempt, k, n + 1); }
  }

  lemma {:induction false} NoneLands(attempt: nat -> Attempt, n: nat)
    requires n <= 6 && forall j :: n <= j < 6 ==> !attempt(j).Lands?
    ensures Landing(attempt, n) == Refused
    decreases 6 - n
  {
    if n < 6 { NoneLands(attempt, n + 1); }
  }

  lemma {:induction false} FirstOf(attempt: nat -> Attempt, k: nat) returns (first: nat)
    requires k < 6 && attempt(k).Lands?
    ensures FirstToLand(attempt, first)
  {
    if j: nat :| j < k && attempt(j).Lands? {
      first := FirstOf(attempt, j);
    } else {
      first := k;
    }
  }

  /** A replacement gets through if and only if one of its six tries lands; the first that does decides. */
  lemma {:induction false} SixTries(db: Db, payload: Both<Bytes>, faults: Faults)
    ensures GetsThrough(db, faults) <==> exists k: nat :: k < 6 && faults.replace.Of(db)(k).Lands?
    ensures forall k: nat | FirstToLand(faults.replace.Of(db), k) ::
      && GetsThrough(db, faults)
      && FoundAt(db, payload, faults) ==
         match faults.replace.Of(db)(k).tampered
         case None => payload.Of(db)
         case Some(found) => found
  {
    hide Landing;
    var attempt := faults.replace.Of(db);
    forall k: nat | FirstToLand(attempt, k) ensures Landing(attempt, 0) == attempt(k) {
      LandingFrom(attempt, k, 0);
    }
    if k: nat :| k < 6 && attempt(k).Lands? {
      var first := FirstOf(attempt, k);
    } else {
      NoneLands(attempt, 0);
    }
  }

  /** These bytes, unless something else was put in their place. */
  predicate Exactly(tampered: Option<Bytes>, own: Bytes) { tampered == None || tampered == Some(own) }

  /** Every operation of the commit on this file goes through, and its payload arrives. */
  ghost predicate GoesWell(db: Db, payload: Bytes, faults: Faults) {
    && (forall phase: Phase ::
          phase.Cas? || phase.Verify? || phase.Report? ==> (phase, db) !in faults.unreadable)
    && faults.backup.Of(db) == None
    && faults.stage.Of(db).Writes? && Exactly(faults.stage.Of(db).tampered, payload)
    && exists k: nat ::
         FirstToLand(faults.replace.Of(db), k) && Exactly(faults.replace.Of(db)(k).tampered, payload)
  }

  lemma {:induction false} ArrivesIff(db: Db, payload: Both<Bytes>, faults: Faults)
    ensures Arrives(db, payload, faults) <==>
      && (Verify, db) !in faults.unreadable
      && exists k: nat ::
           FirstToLand(faults.replace.Of(db), k) && Exactly(faults.replace.Of(db)(k).tampered, payload.Of(db))
  {
    hide Landing, FoundAt;
    SixTries(db, payload, faults);
    var attempt := faults.replace.Of(db);
    if GetsThrough(db, faults) {
      var k: nat :| k < 6 && attempt(k).Lands?;
      var first := FirstOf(attempt, k);
      OneFirst(attempt, first);
    }
  }

  lemma {:induction false} OneFirst(attempt: nat -> Attempt, first: nat)
    requires FirstToLand(attempt, first)
    ensures forall k: nat | FirstToLand(attempt, k) :: k == first
  {
  }

  /** A commit goes through if and only if everything goes well on both files; then both hold their payloads. */
  lemma {:induction false} CommittedIff(files: Files, c: Both<Bytes>, payload: Both<Bytes>, faults: Faults)
    requires LiveAre(files, c)
    ensures var r := Commit(files, payload, PrintsOf(c), faults);
      && r.Ended?
      && (r.outcome == Committed <==>
            GoesWell(J1939, payload.j1939, faults) && GoesWell(Dtc, payload.dtc, faults))
      && (r.outcome == Committed ==> LiveAre(r.files, payload))
  {
    hide Commit, Landing, FoundAt, Arrives;
    ArrivesIff(J1939, payload, faults);
    ArrivesIff(Dtc, payload, faults);
    CasGuards(files, c, payload, faults);
    if Unmoved(files, Dtc, c, faults) && Unmoved(files, J1939, c, faults) {
      CommitMeans(files, c, payload, faults);
    }
    WellIs(J1939, payload, faults);
    WellIs(Dtc, payload, faults);
  }

  lemma {:induction false} WellIs(db: Db, payload: Both<Bytes>, faults: Faults)
    ensures GoesWell(db, payload.Of(db), faults) <==>
      && (Cas, db) !in faults.unreadable && (Verify, db) !in faults.unreadable && (Report, db) !in faults.unreadable
      && Prepares(db, payload, faults)
      && exists k: nat ::
           FirstToLand(faults.replace.Of(db), k) && Exactly(faults.replace.Of(db)(k).tampered, payload.Of(db))
  {
  }

  predicate CanCheck(files: Files, db: Db, faults: Faults) { Live(db) in files && (Cas, db) !in faults.unreadable }

  /** What the comparison reports: the trouble-code file before the other, an unreadable one before a moved one. */
  lemma {:induction false} ComparisonReports(files: Files, c: Both<Bytes>, payload: Both<Bytes>, faults: Faults)
    ensures var r := Commit(files, payload, PrintsOf(c), faults);
      if !CanCheck(files, Dtc, faults) then r == Ended(Unreadable(Dtc), files, [])
      else if files[Live(Dtc)] != c.dtc then r == Ended(Changed(Dtc), files, [])
      else if !CanCheck(files, J1939, faults) then r == Ended(Unreadable(J1939), files, [])
      else files[Live(J1939)] != c.j1939 ==> r == Ended(Changed(J1939), files, [])
  {
    hide BackupFirst, StageFirst, ReplaceFirst, VerifyFirst;
    var checked := CasStep(CasStep(Running(files, []), Dtc, PrintsOf(c), faults), J1939, PrintsOf(c), faults);
    if checked.Ended? { EndedStays(checked, payload, PrintsOf(c), faults); }
  }
}
