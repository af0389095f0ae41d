// A merge run that crashes, even between its two files, and is run again on the same
// batch: it reaches the databases of an undisturbed run.
module MergeRestart {
  import opened DatabaseCommit
  import opened CommitCrash
  import D = DtcMerge
  import DtcMergeLaws
  import DtcMergeBatch
  import J = J1939Merge
  import J1939MergeLaws

  /** The records of a run, by the database they go to. */
  datatype Batch = Batch(dtc: seq<D.Record>, j1939: seq<J.Record>, anchor: D.Anchor)

  /** Reading and writing the two files. */
  datatype Codec = Codec(
    readDtc: Bytes -> D.Entries, writeDtc: D.Entries -> Bytes,
    readJ1939: Bytes -> J.Entries, writeJ1939: J.Entries -> Bytes)

  ghost predicate RoundTrips(codec: Codec) {
    && (forall e :: codec.readDtc(codec.writeDtc(e)) == e)
    && (forall e :: codec.readJ1939(codec.writeJ1939(e)) == e)
  }

  function DtcMerged(entries: D.Entries, batch: Batch): D.Entries {
    D.MergeAll(entries, batch.dtc, D.TitleIndex(entries), batch.anchor)
  }

  /** What a run that reads these files writes. */
  function Rewritten(codec: Codec, batch: Batch, c: Both<Bytes>): Both<Bytes> {
    Both(
      codec.writeJ1939(J.MergeAll(codec.readJ1939(c.j1939), batch.j1939)),
      codec.writeDtc(DtcMerged(codec.readDtc(c.dtc), batch)))
  }

  /** The conditions under which either database may be merged twice. */
  ghost predicate Repeatable(codec: Codec, batch: Batch, c: Both<Bytes>) {
    && (forall key :: key in codec.readJ1939(c.j1939) ==> J1939MergeLaws.AllNamed(J1939MergeLaws.For(batch.j1939, key)))
    && (forall code :: code in codec.readDtc(c.dtc) ==> DtcMergeLaws.Sound(codec.readDtc(c.dtc)[code]))
  }

  lemma {:induction false} DtcTwice(entries: D.Entries, batch: Batch)
    requires forall code :: code in entries ==> DtcMergeLaws.Sound(entries[code])
    ensures DtcMerged(DtcMerged(entries, batch), batch) == DtcMerged(entries, batch)
  {
    hide D.MergeAll, D.TitleIndex, DtcMergeLaws.Sound;
    var index := D.TitleIndex(entries);
    var once := D.MergeAll(entries, batch.dtc, index, batch.anchor);
    DtcMergeBatch.CodeByCode(entries, batch.dtc, "", index, batch.anchor);
    D.IndexStable(entries, once);
    DtcMergeBatch.SecondPassChangesNothing(entries, batch.dtc, index, batch.anchor);
  }

  predicate Between(seen: Both<Bytes>, c: Both<Bytes>, payload: Both<Bytes>) {
    seen in {c, Half(c, payload), payload}
  }

  /** From the old files, from the first new alone, and from both new, a run writes the same. */
  lemma {:induction false} RerunWritesTheSame(codec: Codec, batch: Batch, c: Both<Bytes>, seen: Both<Bytes>)
    requires RoundTrips(codec) && Repeatable(codec, batch, c)
    requires Between(seen, c, Rewritten(codec, batch, c))
    ensures Rewritten(codec, batch, seen) == Rewritten(codec, batch, c)
  {
    hide DtcMerged, J.MergeAll, J1939MergeLaws.AllNamed, J1939MergeLaws.For, DtcMergeLaws.Sound;
    DtcTwice(codec.readDtc(c.dtc), batch);
    J1939MergeLaws.SecondPassChangesNothing(codec.readJ1939(c.j1939), batch.j1939);
  }

  /** A run that reads `seen` can crash and leave `left`: operations may fail, nothing is tampered with. */
  ghost predicate CrashLeaves(codec: Codec, batch: Batch, seen: Both<Bytes>, left: Both<Bytes>) {
    exists files: Files, faults: Faults, i: nat :: CrashAt(codec, batch, seen, left, files, faults, i)
  }

  predicate CrashAt(
      codec: Codec, batch: Batch, seen: Both<Bytes>, left: Both<Bytes>, files: Files, faults: Faults, i: nat)
  {
    && LiveAre(files, seen) && Clean(faults)
    && var r := Commit(files, Rewritten(codec, batch, seen), PrintsOf(seen), faults);
       i <= |r.past| && LiveAre(StateAt(r, i), left)
  }

  lemma {:induction false} CrashStaysBetween(codec: Codec, batch: Batch, seen: Both<Bytes>, left: Both<Bytes>)
    requires CrashLeaves(codec, batch, seen, left)
    ensures Between(left, seen, Rewritten(codec, batch, seen))
  {
    hide Rewritten, Commit, Clean;
    var files: Files, faults: Faults, i: nat :| CrashAt(codec, batch, seen, left, files, faults, i);
    var payload := Rewritten(codec, batch, seen);
    CrashStates(files, seen, payload, faults);
    var state := StateAt(Commit(files, payload, PrintsOf(seen), faults), i);
    assert OneOfThree(state, seen, payload);
  }

  /** Each run after the first starts from what a crash of the one before left. */
  ghost predicate Crashes(codec: Codec, batch: Batch, seen: seq<Both<Bytes>>) {
    forall k :: 0 <= k < |seen| - 1 ==> CrashLeaves(codec, batch, seen[k], seen[k + 1])
  }

  /** However often the run crashes, the files stay between the old and the new of an undisturbed run. */
  lemma {:induction false} CrashesStayBetween(codec: Codec, batch: Batch, seen: seq<Both<Bytes>>, k: nat)
    requires RoundTrips(codec) && k < |seen| && Crashes(codec, batch, seen) && Repeatable(codec, batch, seen[0])
    ensures Between(seen[k], seen[0], Rewritten(codec, batch, seen[0]))
    ensures Rewritten(codec, batch, seen[k]) == Rewritten(codec, batch, seen[0])
  {
    hide Rewritten, CrashLeaves, Repeatable, RoundTrips;
    if k > 0 {
      CrashesStayBetween(codec, batch, seen, k - 1);
      CrashStaysBetween(codec, batch, seen[k - 1], seen[k]);
    }
    RerunWritesTheSame(codec, batch, seen[0], seen[k]);
  }

  /** A run that commits after any number of crashes leaves what an undisturbed run leaves. */
  lemma {:induction false} RestartConverges(
      codec: Codec, batch: Batch, seen: seq<Both<Bytes>>, files: Files, faults: Faults)
    requires RoundTrips(codec) && seen != [] && Crashes(codec, batch, seen) && Repeatable(codec, batch, seen[0])
    requires LiveAre(files, seen[|seen| - 1])
    requires var last := seen[|seen| - 1];
      Commit(files, Rewritten(codec, batch, last), PrintsOf(last), faults).outcome == Committed
    ensures var last := seen[|seen| - 1];
      LiveAre(Commit(files, Rewritten(codec, batch, last), PrintsOf(last), faults).files,
        Rewritten(codec, batch, seen[0]))
  {
    hide Rewritten, Crashes, Repeatable, RoundTrips, Commit, Lasts;
    var last := seen[|seen| - 1];
    CrashesStayBetween(codec, batch, seen, |seen| - 1);
    CasGuards(files, last, Rewritten(codec, batch, last), faults);
    CommitMeans(files, last, Rewritten(codec, batch, last), faults);
  }
}
