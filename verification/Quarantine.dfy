// The block quarantine: detect dirty procedure blocks, upsert them into the quarantine
// file, then take them out of the database by position. Two files, two atomic writes.
module Quarantine {
  import opened Wrappers
  import Text

  // ------------------------------------------------------------ the criterion

  const PHRASES: seq<string> := [
    "dtcdocs.com", "frequently asked questions", "diagnostic & repair procedure",
    "meaning, causes & fix", "is this a false alarm", "we use cookies", "by continuing, you agree"]

  // ----------------------------------------------------------------- the data

  /** An element of `procedures_full`: an object, with its JSON text and whether it bears the old mark. */
  datatype Block = Object(json: string, quarantined: bool) | NotObject(json: string)

  datatype Full = Absent | NotList | List(blocks: seq<Block>)

  type Spns = map<string, Full>

  /** The two scans: by the content criterion, and by the mark an older version left in place. */
  datatype Scan = ByContent | ByMark

  predicate Hit(scan: Scan, b: Block) {
    b.Object? && match scan
      case ByContent => Text.MentionsAny(b.json, PHRASES)
      case ByMark => b.quarantined
  }

  datatype Found = Found(spn: string, index: nat, payload: Block)

  /** A key of the quarantine file; malformed records share the index -1. */
  datatype Key = Key(spn: string, index: int)

  datatype Record = Record(spn: string, index: Option<int>, payload: Block)

  /** An entry of the file's `records` list. */
  datatype Item = Stored(record: Record) | Junk

  datatype File = Missing | Corrupt | Document(items: seq<Item>)

  datatype Files = Files(spns: Spns, file: File)

  function KeyOf(r: Record): Key {
    if r.spn != "" && r.index.Some? then Key(r.spn, r.index.value) else Key(r.spn, -1)
  }

  function Quoted(f: Found): Record { Record(f.spn, Some(f.index), f.payload) }

  /** The keys of the database in some order, each once. */
  ghost predicate Enumerates(keys: seq<string>, spns: Spns) {
    && (forall i, j :: 0 <= i < j < |keys| ==> keys[i] != keys[j])
    && (forall k :: k in keys <==> k in spns)
  }

  // --------------------------------------------------- what the scans must find

  function FoundOf(scan: Scan, spn: string, blocks: seq<Block>): (r: seq<Found>)
    ensures forall f :: f in r <==>
      f.spn == spn && f.index < |blocks| && blocks[f.index] == f.payload && Hit(scan, f.payload)
    ensures forall i, j :: 0 <= i < j < |r| ==> r[i].index < r[j].index
  {
    if blocks == [] then []
    else
      var n := |blocks| - 1;
      FoundOf(scan, spn, blocks[..n]) + if Hit(scan, blocks[n]) then [Found(spn, n, blocks[n])] else []
  }

  function BlocksAt(spns: Spns, key: string): seq<Block> {
    if key in spns && spns[key].List? then spns[key].blocks else []
  }

  function FoundIn(scan: Scan, spns: Spns, keys: seq<string>): (r: seq<Found>)
    ensures forall f :: f in r <==>
      && f.spn in keys && f.index < |BlocksAt(spns, f.spn)|
      && BlocksAt(spns, f.spn)[f.index] == f.payload && Hit(scan, f.payload)
  {
    if keys == [] then []
    else
      var n := |keys| - 1;
      FoundIn(scan, spns, keys[..n]) + FoundOf(scan, keys[n], BlocksAt(spns, keys[n]))
  }

  // ------------------------------------------------------ the upsert, by records

  /** Where a key is stored: the last record that carries it, or -1. */
  function Place(records: seq<Record>, key: Key): (r: int)
    ensures -1 <= r < |records|
    ensures r >= 0 ==> KeyOf(records[r]) == key && forall j :: r < j < |records| ==> KeyOf(records[j]) != key
    ensures r < 0 ==> forall j :: 0 <= j < |records| ==> KeyOf(records[j]) != key
  {
    if records == [] then -1
    else
      var n := |records| - 1;
      if KeyOf(records[n]) == key then n else Place(records[..n], key)
  }

  function Upsert(records: seq<Record>, r: Record): seq<Record> {
    var i := Place(records, KeyOf(r));
    if i >= 0 then records[i := r] else records + [r]
  }

  function UpsertAll(records: seq<Record>, incoming: seq<Record>): seq<Record> {
    if incoming == [] then records
    else
      var n := |incoming| - 1;
      Upsert(UpsertAll(records, incoming[..n]), incoming[n])
  }

  /** The payload the file holds for a key. */
  function Payload(records: seq<Record>, key: Key): Option<Block> {
    var i := Place(records, key);
    if i >= 0 then Some(records[i].payload) else None
  }

  lemma {:induction false} PlaceUpsert(records: seq<Record>, r: Record, key: Key)
    ensures Place(Upsert(records, r), key) ==
      if key == KeyOf(r) && Place(records, key) < 0 then |records| else Place(records, key)
  {
    hide Place, KeyOf;
    var after := Upsert(records, r);
    var i := Place(after, key);
    var j := Place(records, key);
    assert forall k :: 0 <= k < |records| ==> KeyOf(after[k]) == KeyOf(records[k]);
    if i >= 0 { assert KeyOf(after[i]) == key; }
    if j >= 0 { assert KeyOf(after[j]) == key; }
    if j < 0 && key == KeyOf(r) { assert KeyOf(after[|records|]) == key; }
  }

  /** Keys never move or disappear; a record changes only where its key is upserted. */
  lemma {:induction false} UpsertKeeps(records: seq<Record>, incoming: seq<Record>, j: nat)
    requires j < |records|
    ensures |UpsertAll(records, incoming)| >= |records|
    ensures var key := KeyOf(records[j]);
      && KeyOf(UpsertAll(records, incoming)[j]) == key
      && UpsertAll(records, incoming)[j] ==
        if Place(records, key) == j && Place(incoming, key) >= 0 then incoming[Place(incoming, key)] else records[j]
  {
    hide KeyOf;
    if incoming != [] {
      var n := |incoming| - 1;
      UpsertKeeps(records, incoming[..n], j);
      PlaceUpsertAll(records, incoming[..n], KeyOf(records[j]));
      var before := UpsertAll(records, incoming[..n]);
      assert KeyOf(before[j]) == KeyOf(records[j]);
      if KeyOf(incoming[n]) == KeyOf(records[j]) {
        assert Place(incoming, KeyOf(records[j])) == n;
      } else {
        assert Place(before, KeyOf(incoming[n])) != j;
        assert UpsertAll(records, incoming)[j] == before[j];
      }
    }
  }

  lemma {:induction false} PlaceUpsertAll(records: seq<Record>, incoming: seq<Record>, key: Key)
    ensures var p := Place(UpsertAll(records, incoming), key);
      && (p < 0 <==> Place(records, key) < 0 && Place(incoming, key) < 0)
      && (Place(records, key) >= 0 ==> p == Place(records, key))
  {
    if incoming != [] {
      hide KeyOf;
      var n := |incoming| - 1;
      PlaceUpsertAll(records, incoming[..n], key);
      PlaceUpsert(UpsertAll(records, incoming[..n]), incoming[n], key);
    }
  }

  /** After an upsert a key holds the last incoming payload for it, or what it held before. */
  lemma {:induction false} PayloadUpserted(records: seq<Record>, incoming: seq<Record>, key: Key)
    ensures Payload(UpsertAll(records, incoming), key) ==
      if Place(incoming, key) >= 0 then Payload(incoming, key) else Payload(records, key)
  {
    if incoming != [] {
      hide KeyOf;
      var n := |incoming| - 1;
      var before := UpsertAll(records, incoming[..n]);
      PayloadUpserted(records, incoming[..n], key);
      PlaceUpsert(before, incoming[n], key);
    }
  }

  /** Upserting the same list a second time changes nothing. */
  lemma {:induction false} UpsertIdempotent(records: seq<Record>, incoming: seq<Record>)
    ensures var once := UpsertAll(records, incoming); UpsertAll(once, incoming) == once
  {
    hide UpsertAll, Place, KeyOf;
    var once := UpsertAll(records, incoming);
    forall j | 0 <= j < |once|
      ensures |UpsertAll(once, incoming)| >= |once| && UpsertAll(once, incoming)[j] == once[j]
    {
      UpsertKeeps(once, incoming, j);
      var key := KeyOf(once[j]);
      if Place(once, key) == j && Place(incoming, key) >= 0 {
        RecordUpserted(records, incoming, key);
      }
    }
    forall k | 0 <= k < |incoming| ensures Place(once, KeyOf(incoming[k])) >= 0 {
      PlaceUpsertAll(records, incoming, KeyOf(incoming[k]));
    }
    NothingAdded(once, incoming);
  }

  lemma {:induction false} RecordUpserted(records: seq<Record>, incoming: seq<Record>, key: Key)
    requires Place(incoming, key) >= 0
    ensures var once := UpsertAll(records, incoming);
      Place(once, key) >= 0 && once[Place(once, key)] == incoming[Place(incoming, key)]
  {
    hide KeyOf;
    var n := |incoming| - 1;
    var before := UpsertAll(records, incoming[..n]);
    PlaceUpsert(before, incoming[n], key);
    if KeyOf(incoming[n]) != key {
      RecordUpserted(records, incoming[..n], key);
    }
  }

  lemma {:induction false} NothingAdded(records: seq<Record>, incoming: seq<Record>)
    requires forall k :: 0 <= k < |incoming| ==> Place(records, KeyOf(incoming[k])) >= 0
    ensures |UpsertAll(records, incoming)| == |records|
  {
    hide KeyOf, Place;
    if incoming != [] {
      var n := |incoming| - 1;
      NothingAdded(records, incoming[..n]);
      PlaceUpsertAll(records, incoming[..n], KeyOf(incoming[n]));
    }
  }

  // ------------------------------------------------- removal, by position and mark

  function Marks(found: seq<Found>): set<Key> { set f | f in found :: Key(f.spn, f.index) }

  /** What removal leaves of a list: everything but the given positions and the marked blocks. */
  function Kept(spn: string, blocks: seq<Block>, gone: set<Key>): (r: seq<Block>)
    ensures |r| <= |blocks|
    ensures |r| == |blocks| ==> r == blocks
  {
    if blocks == [] then []
    else
      var n := |blocks| - 1;
      Kept(spn, blocks[..n], gone)
      + if Key(spn, n) in gone || Hit(ByMark, blocks[n]) then [] else [blocks[n]]
  }

  function Shrunk(spn: string, full: Full, gone: set<Key>): Full {
    if !full.List? then full
    else
      var keep := Kept(spn, full.blocks, gone);
      if |keep| == |full.blocks| then full else if keep == [] then Absent else List(keep)
  }

  function Removed(spns: Spns, gone: set<Key>): Spns {
    map spn | spn in spns :: Shrunk(spn, spns[spn], gone)
  }

  // ------------------------------------------------------------------ whole runs

  function Quotes(found: seq<Found>): (r: seq<Record>)
    ensures |r| == |found| && forall i :: 0 <= i < |r| ==> r[i] == Quoted(found[i])
  {
    seq(|found|, i requires 0 <= i < |found| => Quoted(found[i]))
  }

  /** The records a write starts from: an unreadable file counts as empty, junk entries are dropped. */
  function Records(items: seq<Item>): seq<Record> {
    if items == [] then []
    else
      var n := |items| - 1;
      Records(items[..n]) + if items[n].Stored? then [items[n].record] else []
  }

  function Previous(file: File): seq<Record> {
    if file.Document? then Records(file.items) else []
  }

  function AsFile(records: seq<Record>): File {
    Document(seq(|records|, i requires 0 <= i < |records| => Stored(records[i])))
  }

  /** The residue scan reads the file first, and raises on anything it cannot index. */
  predicate Readable(file: File) {
    !file.Corrupt? && (file.Document? ==> Junk !in file.items)
  }

  /** Where a run is interrupted: before it writes, between its two writes, or not at all. */
  datatype Cut = BeforeWrites | BetweenWrites | Never

  function AfterWrite(file: File, found: seq<Found>): File {
    if found == [] then file else AsFile(UpsertAll(Previous(file), Quotes(found)))
  }

  /** Neither scan finds anything. */
  predicate NothingToDo(spns: Spns, keys: seq<string>) {
    FoundIn(ByContent, spns, keys) == [] && FoundIn(ByMark, spns, keys) == []
  }

  /** One run of `--apply` over the two files. */
  function Run(f: Files, keys: seq<string>, cut: Cut): Files {
    var found := FoundIn(ByContent, f.spns, keys);
    if !Readable(f.file) || NothingToDo(f.spns, keys) then f
    else
      match cut
      case BeforeWrites => f
      case BetweenWrites => f.(file := AfterWrite(f.file, found))
      case Never => Files(Removed(f.spns, Marks(found)), AfterWrite(f.file, found))
  }

  function Runs(f: Files, keys: seq<string>, cuts: seq<Cut>): Files
    decreases |cuts|
  {
    if cuts == [] then f else Runs(Run(f, keys, cuts[0]), keys, cuts[1..])
  }

  // ------------------------------------------------------------------- the class

  /** The two files, and the steps of one run over them. */
  class Store {
    var spns: Spns
    var file: File

    constructor (spns: Spns, file: File)
      ensures this.spns == spns && this.file == file
    {
      this.spns, this.file := spns, file;
    }

    method Detect(scan: Scan, keys: seq<string>) returns (found: seq<Found>)
      ensures found == FoundIn(scan, spns, keys)
    {
      hide FoundOf, FoundIn, Hit;
      found := [];
      FoundNone(scan, spns);
      for k := 0 to |keys|
        invariant found == FoundIn(scan, spns, keys[..k])
      {
        var blocks := BlocksAt(spns, keys[k]);
        ghost var before := found;
        for i := 0 to |blocks|
          invariant found == before + FoundOf(scan, keys[k], blocks[..i])
        {
          FoundOfNext(scan, keys[k], blocks, i);
          if Hit(scan, blocks[i]) {
            found := found + [Found(keys[k], i, blocks[i])];
          }
        }
        assert blocks[..|blocks|] == blocks;
        FoundInNext(scan, spns, keys, k);
      }
      assert keys[..|keys|] == keys;
    }

    method WriteQuarantine(found: seq<Found>) returns (added: nat, updated: nat)
      modifies this`file
      ensures file == AsFile(UpsertAll(Previous(old(file)), Quotes(found)))
      ensures added + updated == |found|
      ensures file.Document? && |file.items| == |Previous(old(file))| + added
    {
      hide UpsertAll, KeyOf, Place;
      var merged := Previous(file);
      var byKey: map<Key, nat> := map[];
      for i := 0 to |merged|
        invariant Indexes(byKey, merged[..i])
      {
        IndexNext(byKey, merged[..i], merged[i]);
        byKey := byKey[KeyOf(merged[i]) := i];
        assert merged[..i] + [merged[i]] == merged[..i + 1];
      }
      assert merged[..|merged|] == merged;
      ghost var previous := merged;
      ghost var incoming := Quotes(found);
      added, updated := 0, 0;
      UpsertNone(previous);
      for i := 0 to |found|
        invariant merged == UpsertAll(previous, incoming[..i]) && Indexes(byKey, merged)
        invariant added + updated == i && |merged| == |previous| + added
      {
        var record := Quoted(found[i]);
        UpsertNext(previous, incoming, i);
        IndexUpsert(byKey, merged, record);
        var key := KeyOf(record);
        if key in byKey {
          merged := merged[byKey[key] := record];
          updated := updated + 1;
        } else {
          byKey := byKey[key := |merged|];
          merged := merged + [record];
          added := added + 1;
        }
      }
      assert incoming[..|found|] == incoming;
      file := AsFile(merged);
    }

    method Keep(spn: string, blocks: seq<Block>, applied: set<Key>) returns (keep: seq<Block>)
      ensures keep == Kept(spn, blocks, applied)
    {
      hide Kept, Hit;
      keep := [];
      KeptNone(spn, applied);
      for i := 0 to |blocks|
        invariant keep == Kept(spn, blocks[..i], applied)
      {
        KeptNext(spn, blocks, i, applied);
        if Key(spn, i) !in applied && !Hit(ByMark, blocks[i]) {
          keep := keep + [blocks[i]];
        }
      }
      assert blocks[..|blocks|] == blocks;
    }

    method ApplyQuarantine(found: seq<Found>, order: seq<string>)
      requires Enumerates(order, spns)
      modifies this`spns
      ensures spns == Removed(old(spns), Marks(found))
    {
      hide Kept, Hit;
      var applied := Marks(found);
      for k := 0 to |order|
        invariant spns.Keys == old(spns).Keys
        invariant forall key :: key in spns ==>
          spns[key] == if key in order[..k] then Shrunk(key, old(spns)[key], applied) else old(spns)[key]
      {
        var key := order[k];
        assert order[..k + 1] == order[..k] + [key];
        assert key !in order[..k];
        var full := spns[key];
        if full.List? && full.blocks != [] {
          var keep := Keep(key, full.blocks, applied);
          if |keep| != |full.blocks| {
            spns := spns[key := if keep != [] then List(keep) else Absent];
          }
        }
      }
      assert order[..|order|] == order;
    }

    /** The `--apply` path, up to the point where it is cut short. */
    method Apply(keys: seq<string>, order: seq<string>, cut: Cut) returns (completed: bool)
      requires Enumerates(order, spns)
      modifies this
      ensures Files(spns, file) == Run(old(Files(spns, file)), keys, cut)
      ensures completed <==> Readable(old(file)) && (cut.Never? || NothingToDo(old(spns), keys))
    {
      hide FoundIn, Removed, UpsertAll;
      var found := Detect(ByContent, keys);
      if !Readable(file) { return false; }
      var residue := Detect(ByMark, keys);
      if found == [] && residue == [] { return true; }
      if cut.BeforeWrites? { return false; }
      if found != [] {
        var _, _ := WriteQuarantine(found);
      }
      if cut.BetweenWrites? { return false; }
      ApplyQuarantine(found, order);
      return true;
    }
  }

  lemma {:induction false} FoundNone(scan: Scan, spns: Spns)
    ensures FoundIn(scan, spns, []) == [] && forall spn :: FoundOf(scan, spn, []) == []
  {
  }

  lemma {:induction false} FoundOfNext(scan: Scan, spn: string, blocks: seq<Block>, i: nat)
    requires i < |blocks|
    ensures FoundOf(scan, spn, blocks[..i + 1]) ==
      FoundOf(scan, spn, blocks[..i]) + if Hit(scan, blocks[i]) then [Found(spn, i, blocks[i])] else []
  {
    assert blocks[..i + 1][..i] == blocks[..i];
  }

  lemma {:induction false} FoundInNext(scan: Scan, spns: Spns, keys: seq<string>, k: nat)
    requires k < |keys|
    ensures FoundIn(scan, spns, keys[..k + 1]) ==
      FoundIn(scan, spns, keys[..k]) + FoundOf(scan, keys[k], BlocksAt(spns, keys[k]))
  {
    assert keys[..k + 1][..k] == keys[..k];
  }

  lemma {:induction false} KeptNone(spn: string, gone: set<Key>)
    ensures Kept(spn, [], gone) == []
  {
  }

  lemma {:induction false} KeptNext(spn: string, blocks: seq<Block>, i: nat, gone: set<Key>)
    requires i < |blocks|
    ensures Kept(spn, blocks[..i + 1], gone) ==
      Kept(spn, blocks[..i], gone) + if Key(spn, i) in gone || Hit(ByMark, blocks[i]) then [] else [blocks[i]]
  {
    assert blocks[..i + 1][..i] == blocks[..i];
  }

  lemma {:induction false} UpsertNone(records: seq<Record>)
    ensures UpsertAll(records, []) == records
  {
  }

  lemma {:induction false} UpsertNext(records: seq<Record>, incoming: seq<Record>, i: nat)
    requires i < |incoming|
    ensures UpsertAll(records, incoming[..i + 1]) == Upsert(UpsertAll(records, incoming[..i]), incoming[i])
  {
    assert incoming[..i + 1][..i] == incoming[..i];
  }

  /** The cached index agrees with the list: the last position of every key, and no other key. */
  ghost predicate Indexes(byKey: map<Key, nat>, records: seq<Record>) {
    forall key :: (key in byKey <==> Place(records, key) >= 0)
      && (key in byKey ==> byKey[key] == Place(records, key))
  }

  lemma {:induction false} IndexNext(byKey: map<Key, nat>, records: seq<Record>, r: Record)
    requires Indexes(byKey, records)
    ensures Indexes(byKey[KeyOf(r) := |records|], records + [r])
  {
    hide KeyOf;
    assert (records + [r])[..|records|] == records;
  }

  lemma {:induction false} IndexUpsert(byKey: map<Key, nat>, records: seq<Record>, r: Record)
    requires Indexes(byKey, records)
    ensures var i := Place(records, KeyOf(r));
      && Upsert(records, r) == (if KeyOf(r) in byKey then records[byKey[KeyOf(r)] := r] else records + [r])
      && Indexes(if KeyOf(r) in byKey then byKey else byKey[KeyOf(r) := |records|], Upsert(records, r))
  {
    hide KeyOf, Place;
    forall key ensures Place(Upsert(records, r), key) ==
      if key == KeyOf(r) && Place(records, key) < 0 then |records| else Place(records, key)
    {
      PlaceUpsert(records, r, key);
    }
  }
}
