// What the quarantine promises: interrupted runs lose nothing and converge, a finished
// run leaves nothing to find, and the quarantined payloads rebuild the database.
module QuarantineLaws {
  import opened Wrappers
  import opened Quarantine

  // ----------------------------------------- removal by position, said by content

  predicate Foul(b: Block) { Hit(ByContent, b) || Hit(ByMark, b) }

  function Clean(blocks: seq<Block>): (r: seq<Block>)
    ensures |r| <= |blocks| && forall b :: b in r ==> !Foul(b)
    ensures |r| == |blocks| ==> r == blocks
  {
    if blocks == [] then []
    else
      var n := |blocks| - 1;
      Clean(blocks[..n]) + if Foul(blocks[n]) then [] else [blocks[n]]
  }

  lemma {:induction false} CleanAlready(blocks: seq<Block>)
    requires forall i :: 0 <= i < |blocks| ==> !Foul(blocks[i])
    ensures Clean(blocks) == blocks
  {
    hide Hit;
    if blocks != [] { CleanAlready(blocks[..|blocks| - 1]); }
  }

  function CleanFull(full: Full): Full {
    if !full.List? then full
    else
      var keep := Clean(full.blocks);
      if |keep| == |full.blocks| then full else if keep == [] then Absent else List(keep)
  }

  function Cleaned(spns: Spns): Spns { map spn | spn in spns :: CleanFull(spns[spn]) }

  lemma {:induction false} KeptIsClean(spn: string, blocks: seq<Block>, gone: set<Key>)
    requires forall i :: 0 <= i < |blocks| ==> (Key(spn, i) in gone <==> Hit(ByContent, blocks[i]))
    ensures Kept(spn, blocks, gone) == Clean(blocks)
  {
    hide Hit;
    if blocks != [] {
      var n := |blocks| - 1;
      KeptIsClean(spn, blocks[..n], gone);
      assert Key(spn, n) in gone <==> Hit(ByContent, blocks[n]);
    }
  }

  /** Removing by recorded position takes out exactly the dirty and the marked blocks, and keeps the order. */
  lemma {:induction false} RemovalIsCleaning(spns: Spns, keys: seq<string>)
    requires Enumerates(keys, spns)
    ensures Removed(spns, Marks(FoundIn(ByContent, spns, keys))) == Cleaned(spns)
  {
    hide Kept, Clean, Hit, FoundIn;
    var found := FoundIn(ByContent, spns, keys);
    var gone := Marks(found);
    forall spn | spn in spns && spns[spn].List? ensures Kept(spn, spns[spn].blocks, gone) == Clean(spns[spn].blocks) {
      var blocks := spns[spn].blocks;
      forall i | 0 <= i < |blocks| ensures Key(spn, i) in gone <==> Hit(ByContent, blocks[i]) {
        var f := Found(spn, i, blocks[i]);
        if Hit(ByContent, blocks[i]) {
          assert f in found;
          assert Key(f.spn, f.index) in gone;
        }
        if Key(spn, i) in gone {
          var g :| g in found && Key(g.spn, g.index) == Key(spn, i);
        }
      }
      KeptIsClean(spn, blocks, gone);
    }
  }

  lemma {:induction false} CleanedIsClean(spns: Spns, spn: string, i: nat)
    requires i < |BlocksAt(Cleaned(spns), spn)|
    ensures !Foul(BlocksAt(Cleaned(spns), spn)[i])
  {
    hide Clean, Foul;
    var keep := Clean(spns[spn].blocks);
    assert BlocksAt(Cleaned(spns), spn) == keep;
    assert keep[i] in keep;
  }

  /** A cleaned database gives both scans nothing to find. */
  lemma {:induction false} NothingLeft(spns: Spns, keys: seq<string>, scan: Scan)
    ensures FoundIn(scan, Cleaned(spns), keys) == []
  {
    hide FoundIn, Hit, Cleaned;
    var found := FoundIn(scan, Cleaned(spns), keys);
    assert found != [] ==> found[0] in found;
    forall f: Found ensures f !in found {
      if f.index < |BlocksAt(Cleaned(spns), f.spn)| { CleanedIsClean(spns, f.spn, f.index); }
    }
  }

  // ------------------------------------------------- what the file then holds

  lemma {:induction false} QuotedPlace(found: seq<Found>, f: Found)
    requires f in found && f.spn != ""
    ensures var i := Place(Quotes(found), Key(f.spn, f.index));
      i >= 0 && found[i].spn == f.spn && found[i].index == f.index
  {
    hide Place;
    var k :| 0 <= k < |found| && found[k] == f;
    assert KeyOf(Quotes(found)[k]) == Key(f.spn, f.index);
    var i := Place(Quotes(found), Key(f.spn, f.index));
    assert KeyOf(Quoted(found[i])) == Key(f.spn, f.index);
  }

  /** Under the empty SPN key all blocks share one key of the file. */
  predicate EmptyKeyFits(spns: Spns) { |FoundOf(ByContent, "", BlocksAt(spns, ""))| <= 1 }

  lemma {:induction false} QuoteIsStored(spns: Spns, keys: seq<string>, records: seq<Record>, f: Found)
    requires EmptyKeyFits(spns) && f in FoundIn(ByContent, spns, keys)
    ensures Quoted(f) in UpsertAll(records, Quotes(FoundIn(ByContent, spns, keys)))
  {
    hide FoundIn, FoundOf, Hit, UpsertAll, Place;
    var found := FoundIn(ByContent, spns, keys);
    var key := KeyOf(Quoted(f));
    var k :| 0 <= k < |found| && found[k] == f;
    assert KeyOf(Quotes(found)[k]) == key;
    var i := Place(Quotes(found), key);
    var g := found[i];
    assert g in found && KeyOf(Quoted(g)) == key;
    var empty := FoundOf(ByContent, "", BlocksAt(spns, ""));
    if f.spn == "" {
      assert f in empty && g in empty;
    }
    assert f == g;
    RecordUpserted(records, Quotes(found), key);
  }

  /** Every dirty block is in the file, under the key that its record gets. */
  lemma {:induction false} DirtyIsStored(spns: Spns, keys: seq<string>, records: seq<Record>, f: Found)
    requires EmptyKeyFits(spns) && f in FoundIn(ByContent, spns, keys)
    ensures Payload(UpsertAll(records, Quotes(FoundIn(ByContent, spns, keys))), KeyOf(Quoted(f))) == Some(f.payload)
  {
    hide FoundIn, FoundOf, Hit, UpsertAll, Place;
    var found := FoundIn(ByContent, spns, keys);
    var key := KeyOf(Quoted(f));
    var k :| 0 <= k < |found| && found[k] == f;
    assert KeyOf(Quotes(found)[k]) == key;
    var g := found[Place(Quotes(found), key)];
    assert g in found && KeyOf(Quoted(g)) == key;
    var empty := FoundOf(ByContent, "", BlocksAt(spns, ""));
    if f.spn == "" {
      assert f in empty && g in empty;
    }
    assert f == g;
    PayloadUpserted(records, Quotes(found), key);
  }

  // The empty SPN key: all its blocks get the key of a malformed record.

  const EMPTY_KEY := Key("", -1)

  /** The findings of one SPN stand in the scan in the order of their positions. */
  lemma {:induction false} ScanOrder(spns: Spns, keys: seq<string>, a: nat, b: nat)
    requires forall i, j :: 0 <= i < j < |keys| ==> keys[i] != keys[j]
    requires a < b < |FoundIn(ByContent, spns, keys)|
    requires FoundIn(ByContent, spns, keys)[a].spn == FoundIn(ByContent, spns, keys)[b].spn
    ensures FoundIn(ByContent, spns, keys)[a].index < FoundIn(ByContent, spns, keys)[b].index
  {
    hide FoundOf, Hit;
    var n := |keys| - 1;
    var front := FoundIn(ByContent, spns, keys[..n]);
    var last := FoundOf(ByContent, keys[n], BlocksAt(spns, keys[n]));
    var found := FoundIn(ByContent, spns, keys);
    assert found == front + last;
    assert (forall x :: x in front ==> x.spn in keys[..n]) && keys[n] !in keys[..n];
    assert a < |front| ==> front[a] in front;
    if b < |front| {
      ScanOrder(spns, keys[..n], a, b);
    } else {
      assert last[b - |front|] in last && found[b].spn == keys[n];
    }
  }

  lemma {:induction false} LastIsGreatest(list: seq<Found>, g: Found)
    requires g in list && forall i, j :: 0 <= i < j < |list| ==> list[i].index < list[j].index
    ensures g.index <= list[|list| - 1].index && (g.index == list[|list| - 1].index ==> g == list[|list| - 1])
  {
    var w :| 0 <= w < |list| && list[w] == g;
  }

  lemma {:induction false} PlaceOfEmpty(found: seq<Found>, f: Found)
    requires f in found && f.spn == ""
    ensures var i := Place(Quotes(found), EMPTY_KEY);
      && i >= 0 && found[i].spn == "" && found[i] in found
      && forall k :: i < k < |found| ==> found[k].spn != ""
  {
    hide Place;
    var k :| 0 <= k < |found| && found[k] == f;
    assert KeyOf(Quotes(found)[k]) == EMPTY_KEY;
    var i := Place(Quotes(found), EMPTY_KEY);
    assert KeyOf(Quotes(found)[i]) == EMPTY_KEY;
    forall m | i < m < |found| ensures found[m].spn != "" { assert KeyOf(Quotes(found)[m]) != EMPTY_KEY; }
  }

  /** The last finding under the empty SPN key. */
  lemma {:induction false} LastEmpty(spns: Spns, keys: seq<string>, f: Found)
    requires Enumerates(keys, spns) && f in FoundIn(ByContent, spns, keys) && f.spn == ""
    ensures var empty := FoundOf(ByContent, "", BlocksAt(spns, ""));
      var i := Place(Quotes(FoundIn(ByContent, spns, keys)), EMPTY_KEY);
      empty != [] && i >= 0 && FoundIn(ByContent, spns, keys)[i] == empty[|empty| - 1]
  {
    hide FoundIn, FoundOf, Hit, Place, Quotes, BlocksAt;
    var found := FoundIn(ByContent, spns, keys);
    var empty := FoundOf(ByContent, "", BlocksAt(spns, ""));
    PlaceOfEmpty(found, f);
    var i := Place(Quotes(found), EMPTY_KEY);
    assert f in empty && found[i] in empty;
    var last := empty[|empty| - 1];
    assert last in empty;
    LastIsGreatest(empty, found[i]);
    var m :| 0 <= m < |found| && found[m] == last;
    if m < i { ScanOrder(spns, keys, m, i); }
  }

  /** The record stands in the list at a place that the upsert of the empty key does not touch. */
  predicate StandsElsewhere(records: seq<Record>, r: Record) {
    exists j :: 0 <= j < |records| && j != Place(records, EMPTY_KEY) && records[j] == r
  }

  /** A record of the empty key is in the file afterwards if it is the last one found, or stood there untouched. */
  lemma {:induction false} EmptyStoredIff(spns: Spns, keys: seq<string>, records: seq<Record>, f: Found)
    requires Enumerates(keys, spns) && f in FoundIn(ByContent, spns, keys) && f.spn == ""
    ensures var empty := FoundOf(ByContent, "", BlocksAt(spns, ""));
      && empty != []
      && (Quoted(f) in UpsertAll(records, Quotes(FoundIn(ByContent, spns, keys)))
          <==> f == empty[|empty| - 1] || StandsElsewhere(records, Quoted(f)))
  {
    hide FoundIn, FoundOf, Hit, UpsertAll, Place;
    var found := FoundIn(ByContent, spns, keys);
    var incoming := Quotes(found);
    var after := UpsertAll(records, incoming);
    var last := LastRecord(spns, keys, f);
    RecordUpserted(records, incoming, EMPTY_KEY);
    if StandsElsewhere(records, Quoted(f)) {
      var j :| 0 <= j < |records| && j != Place(records, EMPTY_KEY) && records[j] == Quoted(f);
      UpsertKeeps(records, incoming, j);
      assert after[j] == Quoted(f);
    }
    if Quoted(f) in after {
      var j :| 0 <= j < |after| && after[j] == Quoted(f);
      assert KeyOf(after[j]) == EMPTY_KEY;
      if j < |records| {
        UpsertKeeps(records, incoming, j);
      } else {
        AppendedOnce(records, incoming, EMPTY_KEY, j);
      }
    }
  }

  lemma {:induction false} LastRecord(spns: Spns, keys: seq<string>, f: Found) returns (last: Found)
    requires Enumerates(keys, spns) && f in FoundIn(ByContent, spns, keys) && f.spn == ""
    ensures var empty := FoundOf(ByContent, "", BlocksAt(spns, ""));
      var incoming := Quotes(FoundIn(ByContent, spns, keys));
      && empty != [] && last == empty[|empty| - 1] && last.spn == ""
      && Place(incoming, EMPTY_KEY) >= 0 && incoming[Place(incoming, EMPTY_KEY)] == Quoted(last)
  {
    hide FoundIn, FoundOf, Hit, Place;
    LastEmpty(spns, keys, f);
    var empty := FoundOf(ByContent, "", BlocksAt(spns, ""));
    last := empty[|empty| - 1];
    assert last in empty;
  }

  /** A record appended for a key is the one that the key then finds. */
  lemma {:induction false} AppendedOnce(records: seq<Record>, incoming: seq<Record>, key: Key, j: nat)
    requires |records| <= j < |UpsertAll(records, incoming)| && KeyOf(UpsertAll(records, incoming)[j]) == key
    ensures j == Place(UpsertAll(records, incoming), key)
  {
    hide KeyOf, Place;
    if incoming != [] {
      var n := |incoming| - 1;
      var before := UpsertAll(records, incoming[..n]);
      var after := UpsertAll(records, incoming);
      PlaceUpsert(before, incoming[n], key);
      if j < |before| {
        var i := Place(before, KeyOf(incoming[n]));
        assert KeyOf(before[j]) == KeyOf(after[j]);
        AppendedOnce(records, incoming[..n], key, j);
      }
    }
  }

  /**
   * One run stores every dirty block if and only if each dirty block under the empty SPN
   * key is the last of them, or the file held its record already where it is not replaced.
   */
  lemma {:induction false} AllStoredIff(spns: Spns, keys: seq<string>, records: seq<Record>)
    requires Enumerates(keys, spns)
    ensures var empty := FoundOf(ByContent, "", BlocksAt(spns, ""));
      (forall f :: f in empty ==> f == empty[|empty| - 1] || StandsElsewhere(records, Quoted(f)))
      <==>
      (forall f :: f in FoundIn(ByContent, spns, keys)
        ==> Quoted(f) in UpsertAll(records, Quotes(FoundIn(ByContent, spns, keys))))
  {
    hide FoundOf, Hit, UpsertAll, Place, FoundIn, StandsElsewhere;
    var found := FoundIn(ByContent, spns, keys);
    var empty := FoundOf(ByContent, "", BlocksAt(spns, ""));
    forall f | f in found && f.spn != "" ensures Quoted(f) in UpsertAll(records, Quotes(found)) {
      OwnKeyStored(spns, keys, records, f);
    }
    forall f | f in empty
      ensures f in found
        && (Quoted(f) in UpsertAll(records, Quotes(found)) <==>
          f == empty[|empty| - 1] || StandsElsewhere(records, Quoted(f)))
    {
      assert "" in keys;
      EmptyStoredIff(spns, keys, records, f);
    }
  }

  /** A block of an SPN with a name has a key of its own. */
  lemma {:induction false} OwnKeyStored(spns: Spns, keys: seq<string>, records: seq<Record>, f: Found)
    requires f in FoundIn(ByContent, spns, keys) && f.spn != ""
    ensures Quoted(f) in UpsertAll(records, Quotes(FoundIn(ByContent, spns, keys)))
  {
    hide FoundIn, FoundOf, Hit, UpsertAll, Place;
    var found := FoundIn(ByContent, spns, keys);
    QuotedPlace(found, f);
    var key := Key(f.spn, f.index);
    var g := found[Place(Quotes(found), key)];
    assert g in found && g == f;
    RecordUpserted(records, Quotes(found), key);
  }

  // -------------------------------------------------------- interrupted runs

  lemma {:induction false} RecordsOfFile(records: seq<Record>)
    ensures Previous(AsFile(records)) == records && Readable(AsFile(records))
  {
    if records != [] {
      var n := |records| - 1;
      RecordsOfFile(records[..n]);
      assert AsFile(records).items[..n] == AsFile(records[..n]).items;
    }
  }

  lemma {:induction false} WriteTwice(file: File, found: seq<Found>)
    requires Readable(file)
    ensures Readable(AfterWrite(file, found))
    ensures AfterWrite(AfterWrite(file, found), found) == AfterWrite(file, found)
  {
    hide UpsertAll, Records, Readable;
    RecordsOfFile(UpsertAll(Previous(file), Quotes(found)));
    UpsertIdempotent(Previous(file), Quotes(found));
  }

  /** The three states interrupted runs can leave, given the state they start from. */
  function Midway(f: Files, keys: seq<string>): Files { Run(f, keys, BetweenWrites) }

  function Finished(f: Files, keys: seq<string>): Files { Run(f, keys, Never) }

  lemma {:induction false} RunStep(f: Files, keys: seq<string>, cut: Cut)
    requires Enumerates(keys, f.spns)
    ensures Run(f, keys, cut) in {f, Midway(f, keys), Finished(f, keys)}
    ensures Run(Midway(f, keys), keys, cut) in {Midway(f, keys), Finished(f, keys)}
    ensures Run(Finished(f, keys), keys, cut) == Finished(f, keys)
    ensures Finished(Midway(f, keys), keys) == Finished(f, keys)
  {
    hide FoundIn, UpsertAll, Hit, Removed, Cleaned, Marks, Readable, AfterWrite;
    var found := FoundIn(ByContent, f.spns, keys);
    if Readable(f.file) {
      WriteTwice(f.file, found);
      RemovalIsCleaning(f.spns, keys);
      NothingLeft(f.spns, keys, ByContent);
      NothingLeft(f.spns, keys, ByMark);
    }
  }

  lemma {:induction false} RunsStay(f: Files, g: Files, keys: seq<string>, cuts: seq<Cut>)
    requires Enumerates(keys, f.spns) && g in {f, Midway(f, keys), Finished(f, keys)}
    ensures Runs(g, keys, cuts) in {f, Midway(f, keys), Finished(f, keys)}
    ensures g == Finished(f, keys) ==> Runs(g, keys, cuts) == g
    decreases |cuts|
  {
    hide Run, Midway, Finished, Enumerates;
    if cuts != [] {
      RunStep(f, keys, cuts[0]);
      RunsStay(f, Run(g, keys, cuts[0]), keys, cuts[1..]);
    }
  }

  /**
   * However often it is interrupted and re-run, the quarantine is in one of three
   * states, and a run that completes reaches the same two files as an undisturbed one.
   */
  lemma {:induction false} Converges(f: Files, keys: seq<string>, cuts: seq<Cut>)
    requires Enumerates(keys, f.spns)
    ensures Runs(f, keys, cuts) in {f, Midway(f, keys), Finished(f, keys)}
    ensures Run(Runs(f, keys, cuts), keys, Never) == Finished(f, keys)
  {
    hide Run, Enumerates;
    RunsStay(f, f, keys, cuts);
    RunStep(f, keys, Never);
  }

  /** A completed run over a readable file leaves a cleaned database, on which both scans come back empty. */
  lemma {:induction false} FinishedIsClean(f: Files, keys: seq<string>, scan: Scan)
    requires Enumerates(keys, f.spns) && Readable(f.file)
    ensures Finished(f, keys).spns == Cleaned(f.spns)
    ensures FoundIn(scan, Finished(f, keys).spns, keys) == []
  {
    hide Hit, Readable, FoundIn, Removed;
    NothingLeft(f.spns, keys, scan);
    RemovalIsCleaning(f.spns, keys);
    if FoundIn(ByContent, f.spns, keys) == [] && FoundIn(ByMark, f.spns, keys) == [] {
      NothingToClean(f.spns, keys);
    }
  }

  lemma {:induction false} NothingToClean(spns: Spns, keys: seq<string>)
    requires Enumerates(keys, spns)
    requires FoundIn(ByContent, spns, keys) == [] && FoundIn(ByMark, spns, keys) == []
    ensures Cleaned(spns) == spns
  {
    hide FoundIn, Hit, Clean;
    forall spn | spn in spns && spns[spn].List? ensures CleanFull(spns[spn]) == spns[spn] {
      var blocks := spns[spn].blocks;
      forall i | 0 <= i < |blocks| ensures !Foul(blocks[i]) {
        assert Found(spn, i, blocks[i]) !in FoundIn(ByContent, spns, keys);
        assert Found(spn, i, blocks[i]) !in FoundIn(ByMark, spns, keys);
      }
      CleanAlready(blocks);
    }
  }

  /**
   * No interruption loses a block: every block dirty at the start is still where it was,
   * in an untouched database, or is in the file with its position.
   */
  lemma {:induction false} NothingLost(f: Files, keys: seq<string>, cuts: seq<Cut>, d: Found)
    requires Enumerates(keys, f.spns) && EmptyKeyFits(f.spns)
    requires d in FoundIn(ByContent, f.spns, keys)
    ensures var g := Runs(f, keys, cuts);
      g.spns == f.spns || Quoted(d) in Previous(g.file)
  {
    hide Hit, Removed, UpsertAll, FoundIn, FoundOf, Records;
    Converges(f, keys, cuts);
    QuoteIsStored(f.spns, keys, Previous(f.file), d);
    RecordsOfFile(UpsertAll(Previous(f.file), Quotes(FoundIn(ByContent, f.spns, keys))));
  }

  /** A file the residue scan cannot read stops every run before it writes anything. */
  lemma {:induction false} UnreadableFileStopsRuns(f: Files, keys: seq<string>, cuts: seq<Cut>)
    requires !Readable(f.file)
    ensures Runs(f, keys, cuts) == f
    decreases |cuts|
  {
    if cuts != [] { UnreadableFileStopsRuns(f, keys, cuts[1..]); }
  }

  /** Where there is something to do, a run left alone changes nothing exactly when the file cannot be read. */
  lemma {:induction false} RunsIffReadable(f: Files, keys: seq<string>)
    requires Enumerates(keys, f.spns) && !NothingToDo(f.spns, keys)
    ensures Runs(f, keys, [Never]) == f <==> !Readable(f.file)
  {
    hide FoundIn, Readable, Run, Cleaned;
    OneRun(f, keys);
    if Readable(f.file) {
      FinishedIsClean(f, keys, ByContent);
      FinishedIsClean(f, keys, ByMark);
    } else {
      UnreadableFileStopsRuns(f, keys, [Never]);
    }
  }

  lemma {:induction false} OneRun(f: Files, keys: seq<string>)
    ensures Runs(f, keys, [Never]) == Finished(f, keys)
  {
    hide FoundIn, Readable, Run;
    assert [Never][1..] == [];
  }

  // ------------------------------------------------------------ the way back

  /** Python's `list.insert`: a position past the end appends. */
  function Insert(blocks: seq<Block>, i: nat, b: Block): seq<Block> {
    if i < |blocks| then blocks[..i] + [b] + blocks[i..] else blocks + [b]
  }

  function Reinserted(blocks: seq<Block>, found: seq<Found>): (r: seq<Block>)
    ensures |r| == |blocks| + |found|
  {
    if found == [] then blocks
    else
      var n := |found| - 1;
      Insert(Reinserted(blocks, found[..n]), found[n].index, found[n].payload)
  }

  /** The documented way back: put each payload at its recorded position, one after the other. */
  function Restored(spns: Spns, found: seq<Found>): Spns {
    if found == [] then spns
    else
      var n := |found| - 1;
      var before := Restored(spns, found[..n]);
      var f := found[n];
      before[f.spn := List(Insert(BlocksAt(before, f.spn), f.index, f.payload))]
  }

  /** What the file holds under the keys of these findings. */
  function AsStored(found: seq<Found>, records: seq<Record>): (r: seq<Found>)
    ensures |r| == |found|
  {
    seq(|found|, i requires 0 <= i < |found| =>
      match Payload(records, KeyOf(Quoted(found[i])))
      case None => found[i]
      case Some(b) => found[i].(payload := b))
  }

  /** A block that only the old mark condemns: it is removed and nothing is stored for it. */
  predicate OnlyMarked(b: Block) { Hit(ByMark, b) && !Hit(ByContent, b) }

  predicate NoneOnlyMarked(blocks: seq<Block>) {
    forall i :: 0 <= i < |blocks| ==> !OnlyMarked(blocks[i])
  }

  lemma {:induction false} CountClean(spn: string, blocks: seq<Block>)
    ensures |Clean(blocks)| + |FoundOf(ByContent, spn, blocks)| <= |blocks|
    ensures |Clean(blocks)| + |FoundOf(ByContent, spn, blocks)| == |blocks| <==> NoneOnlyMarked(blocks)
  {
    hide Hit;
    if blocks != [] {
      var n := |blocks| - 1;
      CountClean(spn, blocks[..n]);
      assert NoneOnlyMarked(blocks) <==> NoneOnlyMarked(blocks[..n]) && !OnlyMarked(blocks[n]);
    }
  }

  /** The k-th finding sits at most k places beyond the clean blocks, so no insertion overshoots. */
  lemma {:induction false} FoundInRange(spn: string, blocks: seq<Block>, k: nat)
    requires NoneOnlyMarked(blocks) && k < |FoundOf(ByContent, spn, blocks)|
    ensures FoundOf(ByContent, spn, blocks)[k].index <= |Clean(blocks)| + k
  {
    hide Hit;
    var n := |blocks| - 1;
    assert NoneOnlyMarked(blocks[..n]);
    CountClean(spn, blocks[..n]);
    if k < |FoundOf(ByContent, spn, blocks[..n])| {
      FoundInRange(spn, blocks[..n], k);
    }
  }

  lemma {:induction false} InsertTail(blocks: seq<Block>, i: nat, p: Block, b: Block)
    requires i <= |blocks|
    ensures Insert(blocks + [b], i, p) == Insert(blocks, i, p) + [b]
  {
  }

  lemma {:induction false} ReinsertedTail(blocks: seq<Block>, found: seq<Found>, b: Block)
    requires forall k :: 0 <= k < |found| ==> found[k].index <= |blocks| + k
    ensures Reinserted(blocks + [b], found) == Reinserted(blocks, found) + [b]
  {
    hide Insert;
    if found != [] {
      var n := |found| - 1;
      ReinsertedTail(blocks, found[..n], b);
      InsertTail(Reinserted(blocks, found[..n]), found[n].index, found[n].payload, b);
    }
  }

  lemma {:induction false} ReinsertedNext(blocks: seq<Block>, found: seq<Found>, f: Found)
    ensures Reinserted(blocks, found + [f]) == Insert(Reinserted(blocks, found), f.index, f.payload)
  {
    assert (found + [f])[..|found|] == found;
  }

  lemma {:induction false} CleanNext(blocks: seq<Block>, b: Block)
    ensures Clean(blocks + [b]) == if Foul(b) then Clean(blocks) else Clean(blocks) + [b]
  {
    hide Foul;
    assert (blocks + [b])[..|blocks|] == blocks;
  }

  lemma {:induction false} ListRebuilt(spn: string, blocks: seq<Block>)
    requires NoneOnlyMarked(blocks)
    ensures Reinserted(Clean(blocks), FoundOf(ByContent, spn, blocks)) == blocks
  {
    hide Hit, Clean, FoundOf, Reinserted;
    if blocks == [] {
      NothingToRebuild(spn);
    } else {
      var n := |blocks| - 1;
      var front, b := blocks[..n], blocks[n];
      assert blocks[..n + 1] == blocks == front + [b];
      assert NoneOnlyMarked(front) && !OnlyMarked(b);
      ListRebuilt(spn, front);
      CleanNext(front, b);
      FoundOfNext(ByContent, spn, blocks, n);
      var found := FoundOf(ByContent, spn, front);
      if Hit(ByContent, b) {
        ReinsertedNext(Clean(front), found, Found(spn, n, b));
      } else {
        forall k | 0 <= k < |found| ensures found[k].index <= |Clean(front)| + k {
          FoundInRange(spn, front, k);
        }
        ReinsertedTail(Clean(front), found, b);
        assert found + [] == found;
      }
    }
  }

  lemma {:induction false} NothingToRebuild(spn: string)
    ensures Clean([]) == [] && FoundOf(ByContent, spn, []) == [] && Reinserted([], []) == []
  {
  }

  lemma {:induction false} RestoredConcat(spns: Spns, a: seq<Found>, b: seq<Found>)
    ensures Restored(spns, a + b) == Restored(Restored(spns, a), b)
  {
    if b == [] {
      assert a + b == a;
    } else {
      var n := |b| - 1;
      assert (a + b)[..|a + b| - 1] == a + b[..n];
      RestoredConcat(spns, a, b[..n]);
    }
  }

  lemma {:induction false} RestoredNext(spns: Spns, found: seq<Found>, f: Found)
    ensures var before := Restored(spns, found);
      Restored(spns, found + [f]) == before[f.spn := List(Insert(BlocksAt(before, f.spn), f.index, f.payload))]
  {
    assert (found + [f])[..|found|] == found;
  }

  lemma {:induction false} RestoredOne(spns: Spns, spn: string, found: seq<Found>)
    requires found != [] && forall k :: 0 <= k < |found| ==> found[k].spn == spn
    ensures Restored(spns, found) == spns[spn := List(Reinserted(BlocksAt(spns, spn), found))]
  {
    hide Restored, Reinserted;
    var n := |found| - 1;
    var front, f := found[..n], found[n];
    assert found == front + [f];
    RestoredNext(spns, front, f);
    ReinsertedNext(BlocksAt(spns, spn), front, f);
    if front == [] {
      RestoreNothing(spns, BlocksAt(spns, spn));
    } else {
      RestoredOne(spns, spn, front);
    }
  }

  lemma {:induction false} RestoreNothing(spns: Spns, blocks: seq<Block>)
    ensures Restored(spns, []) == spns && Reinserted(blocks, []) == blocks
  {
  }

  /** What the way back makes of one list. */
  function Rebuilt(spn: string, full: Full): Full {
    if !full.List? then full
    else
      var found := FoundOf(ByContent, spn, full.blocks);
      if found == [] then CleanFull(full) else List(Reinserted(Clean(full.blocks), found))
  }

  lemma {:induction false} RestoredAt(spns: Spns, keys: seq<string>, spn: string)
    requires forall i, j :: 0 <= i < j < |keys| ==> keys[i] != keys[j]
    requires forall k :: k in keys ==> k in spns
    requires spn in spns
    ensures var back := Restored(Cleaned(spns), FoundIn(ByContent, spns, keys));
      && back.Keys == spns.Keys
      && back[spn] == if spn in keys then Rebuilt(spn, spns[spn]) else CleanFull(spns[spn])
  {
    hide Hit, Clean, FoundOf, Restored, Reinserted;
    if keys == [] {
      RestoreNothing(Cleaned(spns), []);
    } else {
      var n := |keys| - 1;
      var key := keys[n];
      var found := FoundOf(ByContent, key, BlocksAt(spns, key));
      var before := Restored(Cleaned(spns), FoundIn(ByContent, spns, keys[..n]));
      RestoredAt(spns, keys[..n], spn);
      RestoredAt(spns, keys[..n], key);
      RestoredConcat(Cleaned(spns), FoundIn(ByContent, spns, keys[..n]), found);
      if found != [] {
        assert forall k :: 0 <= k < |found| ==> found[k] in found;
        assert found[0] in found;
        assert spns[key].List?;
        RestoredOne(before, key, found);
        CleanBlocks(spns[key].blocks);
        assert BlocksAt(before, key) == Clean(spns[key].blocks);
      } else {
        RestoreNothing(before, []);
      }
    }
  }

  lemma {:induction false} CleanBlocks(blocks: seq<Block>)
    ensures match CleanFull(List(blocks))
      case Absent => Clean(blocks) == []
      case List(keep) => Clean(blocks) == keep
      case NotList => false
  {
  }

  /**
   * The documented way back is exact if and only if no block was condemned by the old
   * mark alone: then every list is rebuilt, in order, also where several blocks of one
   * SPN were taken and where nothing was left.
   */
  lemma {:induction false} WayBackExact(spns: Spns, keys: seq<string>)
    requires Enumerates(keys, spns)
    ensures Restored(Cleaned(spns), FoundIn(ByContent, spns, keys)) == spns
      <==> forall spn :: spn in spns ==> NoneOnlyMarked(BlocksAt(spns, spn))
  {
    hide Restored, FoundIn, Clean, FoundOf, Reinserted, NoneOnlyMarked;
    var back := Restored(Cleaned(spns), FoundIn(ByContent, spns, keys));
    forall spn | spn in spns
      ensures back.Keys == spns.Keys && (back[spn] == spns[spn] <==> NoneOnlyMarked(BlocksAt(spns, spn)))
    {
      RestoredAt(spns, keys, spn);
      RebuiltExact(spn, spns[spn]);
    }
    if keys != [] {
      RestoredAt(spns, keys, keys[0]);
    } else {
      FoundNone(ByContent, spns);
      RestoreNothing(Cleaned(spns), []);
    }
    assert back.Keys == spns.Keys;
  }

  lemma {:induction false} RebuiltExact(spn: string, full: Full)
    ensures Rebuilt(spn, full) == full <==> NoneOnlyMarked(if full.List? then full.blocks else [])
  {
    hide Hit, Clean, FoundOf, Reinserted, OnlyMarked;
    if full.List? {
      CountClean(spn, full.blocks);
      if NoneOnlyMarked(full.blocks) {
        ListRebuilt(spn, full.blocks);
      }
    }
  }

  /** The file that a finished run wrote holds exactly the payloads the way back needs. */
  lemma {:induction false} FileHoldsTheWayBack(f: Files, keys: seq<string>)
    requires Enumerates(keys, f.spns) && EmptyKeyFits(f.spns) && Readable(f.file)
    ensures var found := FoundIn(ByContent, f.spns, keys);
      AsStored(found, Previous(Finished(f, keys).file)) == found
  {
    hide FoundIn, Hit, UpsertAll, Records, Readable, Removed;
    var found := FoundIn(ByContent, f.spns, keys);
    var records := UpsertAll(Previous(f.file), Quotes(found));
    RecordsOfFile(records);
    forall i | 0 <= i < |found| ensures AsStored(found, Previous(Finished(f, keys).file))[i] == found[i] {
      assert found[i] in found;
      DirtyIsStored(f.spns, keys, Previous(f.file), found[i]);
    }
  }

  // ---------------------------------------------------------------- many rounds

  /** The database as one round finds it, after whatever others did to it, and the order of its scan. */
  datatype Round = Round(spns: Spns, keys: seq<string>)

  function AfterRounds(records: seq<Record>, rounds: seq<Round>): seq<Record> {
    if rounds == [] then records
    else
      var n := |rounds| - 1;
      UpsertAll(AfterRounds(records, rounds[..n]), Quotes(FoundIn(ByContent, rounds[n].spns, rounds[n].keys)))
  }

  /** The dirty block this round finds at the position. */
  function DirtyAt(spns: Spns, key: Key): Option<Block> {
    var blocks := BlocksAt(spns, key.spn);
    if 0 <= key.index < |blocks| && Hit(ByContent, blocks[key.index]) then Some(blocks[key.index]) else None
  }

  function LastDirty(rounds: seq<Round>, key: Key): Option<Block> {
    if rounds == [] then None
    else
      var n := |rounds| - 1;
      var d := DirtyAt(rounds[n].spns, key);
      if d.Some? then d else LastDirty(rounds[..n], key)
  }

  lemma {:induction false} RoundPayload(records: seq<Record>, round: Round, key: Key)
    requires Enumerates(round.keys, round.spns) && key.spn != ""
    ensures var after := UpsertAll(records, Quotes(FoundIn(ByContent, round.spns, round.keys)));
      Payload(after, key) ==
        if DirtyAt(round.spns, key).Some? then DirtyAt(round.spns, key) else Payload(records, key)
  {
    hide FoundIn, Hit, UpsertAll, Place;
    var found := FoundIn(ByContent, round.spns, round.keys);
    PayloadUpserted(records, Quotes(found), key);
    var i := Place(Quotes(found), key);
    var d := DirtyAt(round.spns, key);
    if d.Some? {
      var f := Found(key.spn, key.index, d.value);
      assert f in found;
      QuotedPlace(found, f);
    }
    if i >= 0 {
      assert KeyOf(Quoted(found[i])) == key;
      assert found[i] in found;
    }
  }

  /**
   * Over any rounds of quarantine, whatever happens to the database in between, a key of
   * the file holds the last dirty block found at its position, and otherwise what it held.
   */
  lemma {:induction false} RoundsPayload(records: seq<Record>, rounds: seq<Round>, key: Key)
    requires key.spn != ""
    requires forall k :: 0 <= k < |rounds| ==> Enumerates(rounds[k].keys, rounds[k].spns)
    ensures Payload(AfterRounds(records, rounds), key) ==
      if LastDirty(rounds, key).Some? then LastDirty(rounds, key) else Payload(records, key)
  {
    hide FoundIn, DirtyAt, UpsertAll, Payload, Enumerates;
    if rounds != [] {
      var n := |rounds| - 1;
      RoundsPayload(records, rounds[..n], key);
      RoundPayload(AfterRounds(records, rounds[..n]), rounds[n], key);
    }
  }

  /** Records keep their place and key over any rounds; none disappears. */
  lemma {:induction false} RoundsKeepRecords(records: seq<Record>, rounds: seq<Round>, j: nat)
    requires j < |records|
    ensures |AfterRounds(records, rounds)| >= |records|
    ensures KeyOf(AfterRounds(records, rounds)[j]) == KeyOf(records[j])
  {
    hide FoundIn, UpsertAll, KeyOf;
    if rounds != [] {
      var n := |rounds| - 1;
      var before := AfterRounds(records, rounds[..n]);
      RoundsKeepRecords(records, rounds[..n], j);
      UpsertKeeps(before, Quotes(FoundIn(ByContent, rounds[n].spns, rounds[n].keys)), j);
    }
  }
}
