// What promotion keeps: nothing is overwritten, no file goes without its content being in
// the base, the manifest stays in step with the files, and a second run does nothing.
module PromotionLaws {
  import opened Promotion

  // ------------------------------------------------------------ nothing overwritten

  lemma {:induction false} SpnsGrow(spns: map<int, Entry>, recs: seq<SpnRecord>, k: nat)
    requires k <= |recs|
    ensures forall spn :: spn in SpnsAfter(spns, recs[..k]) ==>
      spn in SpnsAfter(spns, recs) && SpnsAfter(spns, recs)[spn] == SpnsAfter(spns, recs[..k])[spn]
    decreases |recs| - k
  {
    hide SpnReady;
    if k < |recs| {
      assert recs[..k + 1][..k] == recs[..k];
      ReadyHasName(recs[k]);
      SpnsGrow(spns, recs, k + 1);
    } else {
      assert recs[..k] == recs;
    }
  }

  lemma {:induction false} PgnsGrow(pgns: map<int, Entry>, all: seq<PgnRecord>, recs: seq<PgnRecord>, pgn: int)
    requires pgn in pgns
    ensures pgn in PgnsAfter(pgns, all, recs) && PgnsAfter(pgns, all, recs)[pgn] == pgns[pgn]
  {
    hide CountPgn;
    if recs != [] { PgnsGrow(pgns, all, recs[..|recs| - 1], pgn); }
  }

  lemma {:induction false} NamesGrow(s: Names, recs: seq<SpnRecord>, fold: Fold)
    ensures var t := NamesAfter(s, recs, fold);
      && t.signals.Keys == s.signals.Keys && s.known <= t.known
      && forall spn :: spn in s.signals ==> s.signals[spn] <= t.signals[spn]
  {
    hide NewNames;
    if recs != [] { NamesGrow(s, recs[..|recs| - 1], fold); }
  }

  /** Promotion changes no entry that was there: keys keep their entries, signals only get further names. */
  lemma {:induction false} NothingOverwritten(s: State, stem: Path -> string, fold: Fold)
    ensures var t := Promoted(s, stem, fold);
      && (forall spn :: spn in s.spns ==> spn in t.spns && t.spns[spn] == s.spns[spn])
      && (forall pgn :: pgn in s.pgns ==> pgn in t.pgns && t.pgns[pgn] == s.pgns[pgn])
      && t.signals.Keys == s.signals.Keys
      && (forall spn :: spn in s.signals ==> s.signals[spn] <= t.signals[spn])
  {
    hide SpnReady, CountPgn, Known, NewNames, RowsKept, SpnsKept, PgnsKept, OemsKept, Removed;
    SpnsGrow(s.spns, s.spnRecords, 0);
    forall pgn | pgn in s.pgns ensures pgn in PgnsAfter(s.pgns, s.pgnRecords, s.pgnRecords)
      && PgnsAfter(s.pgns, s.pgnRecords, s.pgnRecords)[pgn] == s.pgns[pgn]
    {
      PgnsGrow(s.pgns, s.pgnRecords, s.pgnRecords, pgn);
    }
    NamesGrow(Names(s.signals, Known(s.others, s.signals, fold)), s.spnRecords, fold);
  }

  // ------------------------------------------------- no file removed for nothing

  lemma {:induction false} SpnInBase(spns: map<int, Entry>, recs: seq<SpnRecord>, p: Path)
    requires p in SpnsRemoved(spns, recs)
    ensures exists spn :: spn in SpnsAfter(spns, recs) && spn !in spns && SpnsAfter(spns, recs)[spn].origin == p
  {
    hide SpnReady;
    var n := |recs| - 1;
    ReadyHasName(recs[n]);
    SpnsGrow(spns, recs, n);
    SpnsGrow(spns, recs[..n], 0);
    if p in SpnsRemoved(spns, recs[..n]) {
      SpnInBase(spns, recs[..n], p);
      var spn :| spn in SpnsAfter(spns, recs[..n]) && spn !in spns && SpnsAfter(spns, recs[..n])[spn].origin == p;
      assert spn in SpnsAfter(spns, recs);
    } else {
      assert recs[n].spn in SpnsAfter(spns, recs);
    }
  }

  lemma {:induction false} PgnUntouched(pgns: map<int, Entry>, all: seq<PgnRecord>, recs: seq<PgnRecord>, pgn: int)
    requires forall i :: 0 <= i < |recs| ==> recs[i].pgn != pgn
    ensures pgn in PgnsAfter(pgns, all, recs) <==> pgn in pgns
    ensures pgn in pgns ==> PgnsAfter(pgns, all, recs)[pgn] == pgns[pgn]
  {
    hide CountPgn;
    if recs != [] { PgnUntouched(pgns, all, recs[..|recs| - 1], pgn); }
  }

  lemma {:induction false} CountTwo(recs: seq<PgnRecord>, i: nat, j: nat)
    requires i < j < |recs| && recs[i].pgn == recs[j].pgn
    ensures CountPgn(recs, recs[i].pgn) >= 2
  {
    var n := |recs| - 1;
    if j < n { CountTwo(recs[..n], i, j); } else { CountsItself(recs[..n], i); }
  }

  lemma {:induction false} PgnInBase(pgns: map<int, Entry>, all: seq<PgnRecord>, k: nat, i: nat)
    requires i < k <= |all| && PgnPromotes(pgns, all, all[i])
    ensures var after := PgnsAfter(pgns, all, all[..k]); all[i].pgn in after && after[all[i].pgn].origin == all[i].path
  {
    hide CountPgn;
    var n := k - 1;
    assert all[..k][..n] == all[..n];
    if i < n {
      PgnInBase(pgns, all, n, i);
      if all[n].pgn == all[i].pgn { CountTwo(all, i, n); }
    }
  }

  lemma {:induction false} NamesKnown(s: Names, recs: seq<SpnRecord>, fold: Fold, i: nat, name: string)
    requires i < |recs| && recs[i].spn in s.signals && name in recs[i].names + recs[i].dbcSignals && fold(name) != ""
    ensures fold(name) in NamesAfter(s, recs, fold).known
  {
    hide NewNames;
    var n := |recs| - 1;
    NamesGrow(s, recs[..n], fold);
    if i < n { NamesKnown(s, recs[..n], fold, i, name); }
  }

  /**
   * Why a file may go: it is the origin of a new entry, or every one of its names is known
   * to the signals, or its divergence is published.
   */
  ghost predicate Accounted(s: State, t: State, p: Path, fold: Fold) {
    || (exists spn :: spn in t.spns && spn !in s.spns && t.spns[spn].origin == p)
    || (exists pgn :: pgn in t.pgns && pgn !in s.pgns && t.pgns[pgn].origin == p)
    || (exists r :: r in s.spnRecords && r.path == p && r.spn in s.signals && NamesIn(r, s, fold))
    || (exists r :: r in s.oemRecords && r.path == p && r.id in s.published)
  }

  ghost predicate NamesIn(r: SpnRecord, s: State, fold: Fold) {
    forall name :: name in r.names + r.dbcSignals && fold(name) != "" ==>
      fold(name) in NamesAfter(Names(s.signals, Known(s.others, s.signals, fold)), s.spnRecords, fold).known
  }

  lemma {:induction false} RemovedIsAccounted(s: State, stem: Path -> string, fold: Fold, p: Path)
    requires p in Removed(s)
    ensures Accounted(s, Promoted(s, stem, fold), p, fold)
  {
    hide SpnReady, CountPgn, Known, NamesAfter, RowsKept, SpnsKept, PgnsKept, OemsKept, SpnsAfter, PgnsAfter,
      SpnsRemoved;
    var t := Promoted(s, stem, fold);
    if p in SpnsRemoved(s.spns, s.spnRecords) {
      SpnInBase(s.spns, s.spnRecords, p);
    } else if p in PgnsRemoved(s.pgns, s.pgnRecords) {
      var i :| 0 <= i < |s.pgnRecords| && PgnPromotes(s.pgns, s.pgnRecords, s.pgnRecords[i])
        && s.pgnRecords[i].path == p;
      PgnInBase(s.pgns, s.pgnRecords, |s.pgnRecords|, i);
      assert s.pgnRecords[..|s.pgnRecords|] == s.pgnRecords;
      assert s.pgnRecords[i].pgn in t.pgns;
    } else if p in NamesRemoved(s.signals, s.spnRecords) {
      var i :| 0 <= i < |s.spnRecords| && s.spnRecords[i].spn in s.signals && s.spnRecords[i].path == p;
      var r := s.spnRecords[i];
      forall name | name in r.names + r.dbcSignals && fold(name) != ""
        ensures fold(name) in NamesAfter(Names(s.signals, Known(s.others, s.signals, fold)), s.spnRecords, fold).known
      {
        NamesKnown(Names(s.signals, Known(s.others, s.signals, fold)), s.spnRecords, fold, i, name);
      }
      assert NamesIn(r, s, fold);
    }
  }

  // ------------------------------------------------------------- the second run

  /** A file holds one record: layouts do not share a file with each other or with other records. */
  ghost predicate OwnFiles(s: State) {
    && (forall i, j :: 0 <= i < j < |s.pgnRecords| ==> s.pgnRecords[i].path != s.pgnRecords[j].path)
    && (forall r, q :: r in s.pgnRecords && q in s.spnRecords ==> r.path != q.path)
    && (forall r, q :: r in s.pgnRecords && q in s.oemRecords ==> r.path != q.path)
  }

  lemma {:induction false} SpnsLeft(recs: seq<SpnRecord>, gone: set<Path>, r: SpnRecord)
    ensures r in SpnsKept(recs, gone) <==> r in recs && r.path !in gone
  {
    if recs != [] {
      assert recs == recs[..|recs| - 1] + [recs[|recs| - 1]];
      SpnsLeft(recs[..|recs| - 1], gone, r);
    }
  }

  lemma {:induction false} PgnsLeft(recs: seq<PgnRecord>, gone: set<Path>, r: PgnRecord)
    ensures r in PgnsKept(recs, gone) <==> r in recs && r.path !in gone
  {
    if recs != [] {
      assert recs == recs[..|recs| - 1] + [recs[|recs| - 1]];
      PgnsLeft(recs[..|recs| - 1], gone, r);
    }
  }

  lemma {:induction false} OemsLeft(recs: seq<OemRecord>, gone: set<Path>, r: OemRecord)
    ensures r in OemsKept(recs, gone) <==> r in recs && r.path !in gone
  {
    if recs != [] {
      assert recs == recs[..|recs| - 1] + [recs[|recs| - 1]];
      OemsLeft(recs[..|recs| - 1], gone, r);
    }
  }

  lemma {:induction false} NoSpnGone(recs: seq<SpnRecord>)
    ensures SpnsKept(recs, {}) == recs
  {
    if recs != [] { NoSpnGone(recs[..|recs| - 1]); }
  }

  lemma {:induction false} NoPgnGone(recs: seq<PgnRecord>)
    ensures PgnsKept(recs, {}) == recs
  {
    if recs != [] { NoPgnGone(recs[..|recs| - 1]); }
  }

  lemma {:induction false} NoOemGone(recs: seq<OemRecord>)
    ensures OemsKept(recs, {}) == recs
  {
    if recs != [] { NoOemGone(recs[..|recs| - 1]); }
  }

  lemma {:induction false} NoRowGone(rows: seq<Row>)
    ensures RowsKept(rows, {}) == rows
  {
    if rows != [] { NoRowGone(rows[..|rows| - 1]); }
  }

  /** A ready record that is not removed found its key taken. */
  lemma {:induction false} KeptSpnIsTaken(spns: map<int, Entry>, recs: seq<SpnRecord>, r: SpnRecord)
    requires r in recs && SpnReady(r) && r.path !in SpnsRemoved(spns, recs)
    ensures r.spn in SpnsAfter(spns, recs)
  {
    hide SpnReady;
    var n := |recs| - 1;
    ReadyHasName(recs[n]);
    if r in recs[..n] {
      KeptSpnIsTaken(spns, recs[..n], r);
      SpnsGrow(spns, recs, n);
    } else {
      assert r == recs[n];
      SpnsGrow(spns, recs, n);
    }
  }

  lemma {:induction false} NoSpnPromotes(spns: map<int, Entry>, recs: seq<SpnRecord>)
    requires forall r :: r in recs && SpnReady(r) ==> r.spn in spns
    ensures SpnsAfter(spns, recs) == spns && SpnsRemoved(spns, recs) == {}
  {
    hide SpnReady;
    if recs != [] {
      NoSpnPromotes(spns, recs[..|recs| - 1]);
      assert recs[|recs| - 1] in recs;
    }
  }

  lemma {:induction false} NoPgnPromotes(pgns: map<int, Entry>, all: seq<PgnRecord>, recs: seq<PgnRecord>)
    requires forall r :: r in recs ==> !PgnPromotes(pgns, all, r)
    ensures PgnsAfter(pgns, all, recs) == pgns
  {
    hide PgnPromotes;
    if recs != [] {
      assert recs[|recs| - 1] in recs;
      NoPgnPromotes(pgns, all, recs[..|recs| - 1]);
    }
  }

  lemma {:induction false} NoNames(s: Names, recs: seq<SpnRecord>, fold: Fold)
    requires forall r :: r in recs ==> r.spn !in s.signals
    ensures NamesAfter(s, recs, fold) == s
  {
    hide NewNames;
    if recs != [] {
      assert recs[|recs| - 1] in recs;
      NoNames(s, recs[..|recs| - 1], fold);
    }
  }

  lemma {:induction false} CountNext(recs: seq<PgnRecord>, r: PgnRecord, pgn: int)
    ensures CountPgn(recs + [r], pgn) == CountPgn(recs, pgn) + if r.pgn == pgn then 1 else 0
  {
    assert (recs + [r])[..|recs|] == recs;
  }

  lemma {:induction false} KeptNext(recs: seq<PgnRecord>, r: PgnRecord, gone: set<Path>)
    ensures PgnsKept(recs + [r], gone) == if r.path in gone then PgnsKept(recs, gone) else PgnsKept(recs, gone) + [r]
  {
    assert (recs + [r])[..|recs|] == recs;
  }

  /** A layout goes only by being promoted, so variants of one PGN keep each other back for good. */
  lemma {:induction false} VariantsStay(s: State, recs: seq<PgnRecord>, pgn: int)
    requires OwnFiles(s) && CountPgn(s.pgnRecords, pgn) >= 2 && forall r :: r in recs ==> r in s.pgnRecords
    ensures CountPgn(PgnsKept(recs, Removed(s)), pgn) == CountPgn(recs, pgn)
  {
    hide Removed, PgnsKept, CountPgn, OwnFiles;
    var gone := Removed(s);
    if recs == [] {
      NoneKept(gone);
    } else {
      var n := |recs| - 1;
      var front, r := recs[..n], recs[n];
      assert recs == front + [r] && r in recs;
      VariantsStay(s, front, pgn);
      CountNext(front, r, pgn);
      CountNext(PgnsKept(front, gone), r, pgn);
      KeptNext(front, r, gone);
      if r.pgn == pgn { VariantIsKept(s, r); }
    }
  }

  lemma {:induction false} NoneKept(gone: set<Path>)
    ensures PgnsKept([], gone) == []
  {
  }

  lemma {:induction false} SameFile(s: State, q: PgnRecord, r: PgnRecord)
    requires OwnFiles(s) && q in s.pgnRecords && r in s.pgnRecords && q.path == r.path
    ensures q == r
  {
    var i :| 0 <= i < |s.pgnRecords| && s.pgnRecords[i] == q;
    var j :| 0 <= j < |s.pgnRecords| && s.pgnRecords[j] == r;
  }

  lemma {:induction false} VariantIsKept(s: State, r: PgnRecord)
    requires OwnFiles(s) && r in s.pgnRecords && CountPgn(s.pgnRecords, r.pgn) >= 2
    ensures r.path !in Removed(s)
  {
    hide CountPgn, SpnReady;
    SpnPaths(s.spns, s.spnRecords, r.path);
    if q :| q in s.pgnRecords && PgnPromotes(s.pgns, s.pgnRecords, q) && q.path == r.path {
      SameFile(s, q, r);
    }
  }

  lemma {:induction false} SpnPaths(spns: map<int, Entry>, recs: seq<SpnRecord>, p: Path)
    ensures p in SpnsRemoved(spns, recs) ==> exists r :: r in recs && r.path == p
  {
    hide SpnReady, SpnsAfter;
    if recs != [] && p in SpnsRemoved(spns, recs) {
      var n := |recs| - 1;
      SpnPaths(spns, recs[..n], p);
      assert recs == recs[..n] + [recs[n]];
      if p in SpnsRemoved(spns, recs[..n]) {
        var r :| r in recs[..n] && r.path == p;
        assert r in recs;
      } else {
        assert recs[n] in recs;
      }
    }
  }

  lemma {:induction false} NothingToRemove(s: State, stem: Path -> string, fold: Fold)
    requires OwnFiles(s)
    ensures var t := Promoted(s, stem, fold);
      && (forall r :: r in t.spnRecords && SpnReady(r) ==> r.spn in t.spns)
      && (forall r :: r in t.spnRecords ==> r.spn !in t.signals)
      && (forall r :: r in t.pgnRecords ==> !PgnPromotes(t.pgns, t.pgnRecords, r))
      && (forall r :: r in t.oemRecords ==> r.id !in t.published)
  {
    hide SpnReady, CountPgn, Known, RowsKept, NamesAfter, SpnsAfter, PgnsAfter, SpnsKept, PgnsKept, OemsKept,
      SpnsRemoved;
    var t := Promoted(s, stem, fold);
    var gone := Removed(s);
    NothingOverwritten(s, stem, fold);
    forall r | r in t.spnRecords ensures r.spn !in t.signals && (SpnReady(r) ==> r.spn in t.spns) {
      SpnsLeft(s.spnRecords, gone, r);
      if SpnReady(r) { KeptSpnIsTaken(s.spns, s.spnRecords, r); }
    }
    forall r | r in t.pgnRecords ensures !PgnPromotes(t.pgns, t.pgnRecords, r) {
      PgnsLeft(s.pgnRecords, gone, r);
      if PgnPromotes(t.pgns, t.pgnRecords, r) {
        var i :| 0 <= i < |s.pgnRecords| && s.pgnRecords[i] == r;
        CountsItself(s.pgnRecords, i);
        assert !PgnPromotes(s.pgns, s.pgnRecords, r);
        VariantsStay(s, s.pgnRecords, r.pgn);
      }
    }
    forall r | r in t.oemRecords ensures r.id !in t.published { OemsLeft(s.oemRecords, gone, r); }
  }

  /** A second run adds nothing, removes nothing and drops no row. */
  lemma {:induction false} SecondRunDoesNothing(s: State, stem: Path -> string, fold: Fold)
    requires OwnFiles(s)
    ensures var t := Promoted(s, stem, fold); Promoted(t, stem, fold) == t && Removed(t) == {}
  {
    hide SpnReady, PgnPromotes, Known, RowsKept, NamesAfter, SpnsAfter, PgnsAfter, SpnsKept, PgnsKept, OemsKept,
      SpnsRemoved, OwnFiles;
    NothingToRemove(s, stem, fold);
    var t := Promoted(s, stem, fold);
    NoSpnPromotes(t.spns, t.spnRecords);
    NoPgnPromotes(t.pgns, t.pgnRecords, t.pgnRecords);
    NoNames(Names(t.signals, Known(t.others, t.signals, fold)), t.spnRecords, fold);
    assert Removed(t) == {};
    assert (set p | p in Removed(t) :: stem(p)) == {};
    NoSpnGone(t.spnRecords);
    NoPgnGone(t.pgnRecords);
    NoOemGone(t.oemRecords);
    NoRowGone(t.rows);
  }

  // ---------------------------------------------------------------- the manifest

  /** The files of the intake. */
  function FilesOf(s: State): set<Path> {
    (set r | r in s.spnRecords :: r.path) + (set r | r in s.pgnRecords :: r.path)
    + (set r | r in s.oemRecords :: r.path) + s.otherFiles
  }

  /** Rows and files correspond one to one. */
  ghost predicate Listed(rows: seq<Row>, files: set<Path>) {
    && (forall i, j :: 0 <= i < j < |rows| ==> rows[i].path != rows[j].path)
    && (forall p :: p in files <==> exists i :: 0 <= i < |rows| && rows[i].path == p)
  }

  lemma {:induction false} RowsLeft(rows: seq<Row>, stems: set<string>, r: Row)
    ensures r in RowsKept(rows, stems) <==> r in rows && r.id !in stems
  {
    if rows != [] {
      assert rows == rows[..|rows| - 1] + [rows[|rows| - 1]];
      RowsLeft(rows[..|rows| - 1], stems, r);
    }
  }

  lemma {:induction false} RowsStayDistinct(rows: seq<Row>, stems: set<string>)
    requires forall i, j :: 0 <= i < j < |rows| ==> rows[i].path != rows[j].path
    ensures var kept := RowsKept(rows, stems);
      forall i, j :: 0 <= i < j < |kept| ==> kept[i].path != kept[j].path
  {
    if rows != [] {
      var n := |rows| - 1;
      RowsStayDistinct(rows[..n], stems);
      var front := RowsKept(rows[..n], stems);
      forall i | 0 <= i < |front| ensures front[i].path != rows[n].path {
        RowsLeft(rows[..n], stems, front[i]);
        assert front[i] in front;
      }
    }
  }

  /** The files left are the files without the removed ones. */
  lemma {:induction false} FilesLeft(s: State, stem: Path -> string, fold: Fold)
    requires Removed(s) !! s.otherFiles
    ensures FilesOf(Promoted(s, stem, fold)) == FilesOf(s) - Removed(s)
  {
    hide Removed, Known, RowsKept, NamesAfter, SpnsAfter, PgnsAfter, SpnsKept, PgnsKept, OemsKept;
    var t := Promoted(s, stem, fold);
    var gone := Removed(s);
    forall p ensures p in FilesOf(t) <==> p in FilesOf(s) && p !in gone {
      forall r: SpnRecord ensures r in t.spnRecords <==> r in s.spnRecords && r.path !in gone {
        SpnsLeft(s.spnRecords, gone, r);
      }
      forall r: PgnRecord ensures r in t.pgnRecords <==> r in s.pgnRecords && r.path !in gone {
        PgnsLeft(s.pgnRecords, gone, r);
      }
      forall r: OemRecord ensures r in t.oemRecords <==> r in s.oemRecords && r.path !in gone {
        OemsLeft(s.oemRecords, gone, r);
      }
    }
  }

  /** The rows that go are those of the removed files. */
  ghost predicate InStep(s: State, stem: Path -> string) {
    forall r :: r in s.rows ==> (r.path in Removed(s) <==> exists p :: p in Removed(s) && stem(p) == r.id)
  }

  /** Rows and files stay in correspondence if and only if exactly the rows of removed files carry a removed stem. */
  lemma {:induction false} ListedKeptIff(s: State, stem: Path -> string, fold: Fold)
    requires Listed(s.rows, FilesOf(s)) && Removed(s) !! s.otherFiles
    ensures Listed(Promoted(s, stem, fold).rows, FilesOf(Promoted(s, stem, fold))) <==> InStep(s, stem)
  {
    hide Removed, FilesOf, Known, RowsKept, NamesAfter, SpnsAfter, PgnsAfter, SpnsKept, PgnsKept, OemsKept;
    var gone := Removed(s);
    var stems := set p | p in gone :: stem(p);
    var kept := RowsKept(s.rows, stems);
    FilesLeft(s, stem, fold);
    RowsStayDistinct(s.rows, stems);
    ListedAfter(s.rows, kept, FilesOf(s), gone, stems);
  }

  lemma {:induction false} ListedAfter(
      rows: seq<Row>, kept: seq<Row>, files: set<Path>, gone: set<Path>, stems: set<string>)
    requires Listed(rows, files) && kept == RowsKept(rows, stems)
    requires forall i, j :: 0 <= i < j < |kept| ==> kept[i].path != kept[j].path
    ensures Listed(kept, files - gone) <==> forall r :: r in rows ==> (r.path in gone <==> r.id in stems)
  {
    hide RowsKept;
    forall r ensures r in kept <==> r in rows && r.id !in stems { RowsLeft(rows, stems, r); }
    if Listed(kept, files - gone) {
      forall r | r in rows ensures r.path in gone <==> r.id in stems {
        RowInStep(rows, kept, files, gone, stems, r);
      }
    }
    if forall r :: r in rows ==> (r.path in gone <==> r.id in stems) {
      forall p ensures p in files - gone <==> exists i :: 0 <= i < |kept| && kept[i].path == p {
        if p in files - gone {
          var i :| 0 <= i < |rows| && rows[i].path == p;
          assert rows[i] in kept;
        }
        if i :| 0 <= i < |kept| && kept[i].path == p {
          assert kept[i] in kept && kept[i] in rows;
        }
      }
    }
  }

  lemma {:induction false} RowInStep(
      rows: seq<Row>, kept: seq<Row>, files: set<Path>, gone: set<Path>, stems: set<string>, r: Row)
    requires Listed(rows, files) && Listed(kept, files - gone) && r in rows
    requires forall q :: q in kept <==> q in rows && q.id !in stems
    ensures r.path in gone <==> r.id in stems
  {
    var k :| 0 <= k < |rows| && rows[k] == r;
    assert r.path in files;
    if r.path !in gone {
      assert r.path in files - gone;
      var i :| 0 <= i < |kept| && kept[i].path == r.path;
      var q := kept[i];
      assert q in kept;
      assert q in rows;
      var m :| 0 <= m < |rows| && rows[m] == q;
      assert m == k;
    }
  }

  /** The files whose records can be promoted. */
  function PromotableFiles(s: State): set<Path> {
    (set r | r in s.spnRecords :: r.path)
    + (set r | r in s.pgnRecords :: r.path)
    + (set r | r in s.oemRecords :: r.path)
  }

  lemma {:induction false} RemovedIsPromotable(s: State, p: Path)
    requires p in Removed(s)
    ensures p in PromotableFiles(s)
  {
    hide SpnsRemoved, PgnPromotes;
    SpnPaths(s.spns, s.spnRecords, p);
  }

  /**
   * The manifest stays in step when the rows of promotable files carry their file's stem,
   * no two such files share one, and no other row carries one of them; a trace's frame
   * file may have a row under its record's id.
   */
  lemma {:induction false} StemsKeepStep(s: State, stem: Path -> string)
    requires forall r :: r in s.rows && r.path in PromotableFiles(s) ==> r.id == stem(r.path)
    requires forall r, p :: r in s.rows && r.path !in PromotableFiles(s) && p in PromotableFiles(s) ==> r.id != stem(p)
    requires forall p, q :: p in PromotableFiles(s) && q in PromotableFiles(s) && stem(p) == stem(q) ==> p == q
    ensures InStep(s, stem)
  {
    hide Removed, PromotableFiles;
    forall p | p in Removed(s) ensures p in PromotableFiles(s) { RemovedIsPromotable(s, p); }
  }
}
