// What a promotion adds and removes, spelled out: which records are promoted to which
// entry, which names a signal gets, and which files and rows go.
module PromotionMeaning {
  import opened Promotion

  // ------------------------------------------------------------------------- SPNs

  /** The record is complete, the base has nothing under its number, and no earlier record is complete. */
  predicate Adds(spns: map<int, Entry>, recs: seq<SpnRecord>, k: nat)
    requires k < |recs|
  {
    && Complete(recs[k]) && recs[k].spn !in spns
    && forall i :: 0 <= i < k && recs[i].spn == recs[k].spn ==> !Complete(recs[i])
  }

  /** Absent from the base, with a name, a unit and two sources. */
  predicate Complete(r: SpnRecord) { r.absent && |r.names| > 0 && |r.units| > 0 && r.sources > 1 }

  lemma {:induction false} SpnsTaken(spns: map<int, Entry>, recs: seq<SpnRecord>, spn: int)
    ensures spn in SpnsAfter(spns, recs) <==>
      spn in spns || exists i :: 0 <= i < |recs| && recs[i].spn == spn && Complete(recs[i])
  {
    if recs != [] {
      var n := |recs| - 1;
      SpnsTaken(spns, recs[..n], spn);
      assert forall i :: 0 <= i < n ==> recs[..n][i] == recs[i];
    }
  }

  /** One more record adds its entry, and its file goes, exactly if it is the first complete one of a new number. */
  lemma {:induction false} SpnsAre(spns: map<int, Entry>, recs: seq<SpnRecord>, r: SpnRecord)
    ensures SpnsAfter(spns, []) == spns && SpnsRemoved(spns, []) == {}
    ensures var all := recs + [r];
      if Adds(spns, all, |recs|)
      then
        && SpnsAfter(spns, all) == SpnsAfter(spns, recs)[r.spn := Entry(r.path, r.names[0])]
        && SpnsRemoved(spns, all) == SpnsRemoved(spns, recs) + {r.path}
      else SpnsAfter(spns, all) == SpnsAfter(spns, recs) && SpnsRemoved(spns, all) == SpnsRemoved(spns, recs)
  {
    var all := recs + [r];
    assert all[..|recs|] == recs && forall i :: 0 <= i < |recs| ==> all[i] == recs[i];
    SpnsTaken(spns, recs, r.spn);
  }

  // ------------------------------------------------------------------------- PGNs

  /** The layout is ready and not bulk, the only one of its number, and the base has none. */
  predicate Alone(pgns: map<int, Entry>, recs: seq<PgnRecord>, k: nat)
    requires k < |recs|
  {
    && recs[k].ready && !recs[k].bulk && recs[k].pgn !in pgns
    && forall i :: 0 <= i < |recs| && i != k ==> recs[i].pgn != recs[k].pgn
  }

  lemma {:induction false} CountNone(recs: seq<PgnRecord>, pgn: int)
    ensures CountPgn(recs, pgn) == 0 <==> forall i :: 0 <= i < |recs| ==> recs[i].pgn != pgn
  {
    if recs != [] {
      var n := |recs| - 1;
      CountNone(recs[..n], pgn);
      assert forall i :: 0 <= i < n ==> recs[..n][i] == recs[i];
    }
  }

  lemma {:induction false} CountOne(recs: seq<PgnRecord>, k: nat)
    requires k < |recs|
    ensures CountPgn(recs, recs[k].pgn) == 1 <==>
      forall i :: 0 <= i < |recs| && i != k ==> recs[i].pgn != recs[k].pgn
  {
    var n := |recs| - 1;
    assert forall i :: 0 <= i < n ==> recs[..n][i] == recs[i];
    if k == n {
      CountNone(recs[..n], recs[k].pgn);
    } else {
      CountOne(recs[..n], k);
      CountsItself(recs[..n], k);
    }
  }

  lemma {:induction false} PgnPromotesIff(pgns: map<int, Entry>, recs: seq<PgnRecord>, k: nat)
    requires k < |recs|
    ensures PgnPromotes(pgns, recs, recs[k]) <==> Alone(pgns, recs, k)
  {
    hide CountPgn;
    CountOne(recs, k);
  }

  /** Exactly the lone layouts are added, each under its number and from its file, and their files go. */
  lemma {:induction false} PgnsAre(pgns: map<int, Entry>, recs: seq<PgnRecord>)
    ensures forall pgn :: pgn in PgnsAfter(pgns, recs, recs) <==>
      pgn in pgns || exists k :: 0 <= k < |recs| && recs[k].pgn == pgn && Alone(pgns, recs, k)
    ensures forall pgn :: pgn in pgns ==> PgnsAfter(pgns, recs, recs)[pgn] == pgns[pgn]
    ensures forall k :: 0 <= k < |recs| && Alone(pgns, recs, k) ==>
      recs[k].pgn in PgnsAfter(pgns, recs, recs)
      && PgnsAfter(pgns, recs, recs)[recs[k].pgn] == Entry(recs[k].path, "")
    ensures forall p :: p in PgnsRemoved(pgns, recs) <==>
      exists k :: 0 <= k < |recs| && recs[k].path == p && Alone(pgns, recs, k)
  {
    hide PgnsAfter, PgnPromotes, Alone;
    PgnsUpTo(pgns, recs, |recs|);
    assert recs[..|recs|] == recs;
    forall k | 0 <= k < |recs| ensures PgnPromotes(pgns, recs, recs[k]) <==> Alone(pgns, recs, k) {
      PgnPromotesIff(pgns, recs, k);
    }
    forall p
      ensures p in PgnsRemoved(pgns, recs) <==>
        exists k :: 0 <= k < |recs| && recs[k].path == p && Alone(pgns, recs, k)
    {
      if r :| r in recs && PgnPromotes(pgns, recs, r) && r.path == p {
        var k :| 0 <= k < |recs| && recs[k] == r;
        assert Alone(pgns, recs, k);
      }
    }
  }

  lemma {:induction false} PgnsUpTo(pgns: map<int, Entry>, all: seq<PgnRecord>, n: nat)
    requires n <= |all|
    ensures forall pgn :: pgn in PgnsAfter(pgns, all, all[..n]) <==>
      pgn in pgns || exists k :: 0 <= k < n && all[k].pgn == pgn && Alone(pgns, all, k)
    ensures forall pgn :: pgn in pgns ==> PgnsAfter(pgns, all, all[..n])[pgn] == pgns[pgn]
    ensures forall k :: 0 <= k < n && Alone(pgns, all, k) ==>
      PgnsAfter(pgns, all, all[..n])[all[k].pgn] == Entry(all[k].path, "")
  {
    hide PgnPromotes;
    if n > 0 {
      PgnsUpTo(pgns, all, n - 1);
      assert all[..n][..n - 1] == all[..n - 1];
      PgnPromotesIff(pgns, all, n - 1);
    }
  }

  // ------------------------------------------------------------------------ names

  lemma {:induction false} KnownAfter(s: Naming, names: seq<string>, fold: Fold, f: string)
    ensures f in NewNames(s, names, fold).known <==>
      f in s.known || (f != "" && exists i :: 0 <= i < |names| && fold(names[i]) == f)
  {
    if names != [] {
      var n := |names| - 1;
      KnownAfter(s, names[..n], fold, f);
      assert forall i :: 0 <= i < n ==> names[..n][i] == names[i];
    }
  }

  /** A name is added exactly if its folded form is not empty, not known, and not that of an earlier one. */
  lemma {:induction false} NamesAre(s: Naming, names: seq<string>, name: string, fold: Fold)
    ensures NewNames(s, [], fold) == s
    ensures NewNames(s, names + [name], fold).added ==
      NewNames(s, names, fold).added
      + if fold(name) != "" && fold(name) !in s.known && (forall i :: 0 <= i < |names| ==> fold(names[i]) != fold(name))
        then [name] else []
  {
    assert (names + [name])[..|names|] == names;
    KnownAfter(s, names, fold, fold(name));
  }

  /** The names in use are the folded names of the signals, and those of the other files. */
  lemma {:induction false} KnownIff(others: set<string>, signals: map<int, seq<string>>, fold: Fold, f: string)
    ensures f in Known(others, signals, fold) <==>
      f in others || exists spn, i :: spn in signals && 0 <= i < |signals[spn]| && fold(signals[spn][i]) == f
  {
    if f in Known(others, signals, fold) && f !in others {
      var spn, name :| spn in signals && name in signals[spn] && fold(name) == f;
      var i :| 0 <= i < |signals[spn]| && signals[spn][i] == name;
    }
    if spn, i :| spn in signals && 0 <= i < |signals[spn]| && fold(signals[spn][i]) == f {
      assert signals[spn][i] in signals[spn];
    }
  }

  /** A record adds its names and then its bus names to the signal of its number, and to no other. */
  lemma {:induction false} SignalsAre(s: Names, recs: seq<SpnRecord>, r: SpnRecord, fold: Fold)
    ensures NamesAfter(s, [], fold) == s
    ensures var before, after := NamesAfter(s, recs, fold), NamesAfter(s, recs + [r], fold);
      && after.signals.Keys == before.signals.Keys
      && (forall spn :: spn in before.signals && spn != r.spn ==> after.signals[spn] == before.signals[spn])
      && (r.spn in before.signals ==>
            var found := NewNames(Naming(before.known, []), r.names + r.dbcSignals, fold);
            after.signals[r.spn] == before.signals[r.spn] + found.added && after.known == found.known)
      && (r.spn !in before.signals ==> after == before)
  {
    hide NewNames;
    assert (recs + [r])[..|recs|] == recs;
  }

  // ------------------------------------------------------------------------ files

  /** The files of names and divergences that go: those of known signals, and those published already. */
  lemma {:induction false} OthersRemoved(s: State, p: Path)
    ensures p in NamesRemoved(s.signals, s.spnRecords) <==>
      exists k :: 0 <= k < |s.spnRecords| && s.spnRecords[k].path == p && s.spnRecords[k].spn in s.signals
    ensures p in OemRemoved(s.oemRecords, s.published) <==>
      exists k :: 0 <= k < |s.oemRecords| && s.oemRecords[k].path == p && s.oemRecords[k].id in s.published
  {
  }

  /** A file goes if any of the four passes removes it. */
  lemma {:induction false} RemovedIff(s: State, p: Path)
    ensures p in Removed(s) <==>
      || p in SpnsRemoved(s.spns, s.spnRecords)
      || p in PgnsRemoved(s.pgns, s.pgnRecords)
      || p in NamesRemoved(s.signals, s.spnRecords)
      || p in OemRemoved(s.oemRecords, s.published)
  {
    hide SpnsRemoved, PgnsRemoved, NamesRemoved, OemRemoved;
  }

  /** The rows that stay do so in order, and those go whose first cell is the stem of a removed file. */
  lemma {:induction false} RowsAre(rows: seq<Row>, row: Row, stems: set<string>)
    ensures RowsKept([], stems) == []
    ensures RowsKept(rows + [row], stems) == RowsKept(rows, stems) + if row.id in stems then [] else [row]
  {
    assert (rows + [row])[..|rows|] == rows;
  }
}
