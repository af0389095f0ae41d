// Promoting intake records into the knowledge base: what is added, which intake files are
// removed for it, and which manifest rows go with them.
module Promotion {
  type Path = string

  // ------------------------------------------------------------------ the data

  datatype SpnRecord = SpnRecord(
    path: Path, id: string, spn: int, absent: bool, names: seq<string>, units: seq<string>, sources: nat,
    dbcSignals: seq<string>)

  datatype PgnRecord = PgnRecord(path: Path, id: string, pgn: int, ready: bool, bulk: bool)

  datatype OemRecord = OemRecord(path: Path, id: string)

  /** A knowledge-base entry; `origin` is the intake file it was promoted from. */
  datatype Entry = Entry(origin: Path, name: string)

  /** A manifest row, by the intake id in its first cell and the file it lists. */
  datatype Row = Row(id: string, path: Path)

  /** The intake files, the databases they are promoted into, and the manifest; `otherFiles` are never promoted. */
  datatype State = State(
    spnRecords: seq<SpnRecord>,
    pgnRecords: seq<PgnRecord>,
    oemRecords: seq<OemRecord>,
    spns: map<int, Entry>,
    pgns: map<int, Entry>,
    signals: map<int, seq<string>>,
    others: set<string>,
    published: set<string>,
    otherFiles: set<Path>,
    rows: seq<Row>)

  type Fold = string -> string

  // ---------------------------------------------------------------- the rules

  predicate SpnReady(r: SpnRecord) { r.absent && r.names != [] && r.units != [] && r.sources >= 2 }

  function SpnsAfter(spns: map<int, Entry>, recs: seq<SpnRecord>): map<int, Entry> {
    if recs == [] then spns
    else
      var n := |recs| - 1;
      var before := SpnsAfter(spns, recs[..n]);
      if SpnReady(recs[n]) && recs[n].spn !in before
      then before[recs[n].spn := Entry(recs[n].path, recs[n].names[0])] else before
  }

  function SpnsRemoved(spns: map<int, Entry>, recs: seq<SpnRecord>): set<Path> {
    if recs == [] then {}
    else
      var n := |recs| - 1;
      SpnsRemoved(spns, recs[..n])
      + if SpnReady(recs[n]) && recs[n].spn !in SpnsAfter(spns, recs[..n]) then {recs[n].path} else {}
  }

  function CountPgn(recs: seq<PgnRecord>, pgn: int): nat {
    if recs == [] then 0 else CountPgn(recs[..|recs| - 1], pgn) + if recs[|recs| - 1].pgn == pgn then 1 else 0
  }

  /** A layout is promoted only where it is the one record of a PGN that the base does not have. */
  predicate PgnPromotes(pgns: map<int, Entry>, all: seq<PgnRecord>, r: PgnRecord) {
    r.ready && !r.bulk && r.pgn !in pgns && CountPgn(all, r.pgn) == 1
  }

  function PgnsAfter(pgns: map<int, Entry>, all: seq<PgnRecord>, recs: seq<PgnRecord>): map<int, Entry> {
    if recs == [] then pgns
    else
      var n := |recs| - 1;
      var before := PgnsAfter(pgns, all, recs[..n]);
      if PgnPromotes(pgns, all, recs[n]) then before[recs[n].pgn := Entry(recs[n].path, "")] else before
  }

  function PgnsRemoved(pgns: map<int, Entry>, recs: seq<PgnRecord>): set<Path> {
    set r | r in recs && PgnPromotes(pgns, recs, r) :: r.path
  }

  /** The names a run appends to a signal, given what is known already. */
  datatype Naming = Naming(known: set<string>, added: seq<string>)

  function NewNames(s: Naming, names: seq<string>, fold: Fold): (r: Naming)
    ensures s.known <= r.known
    ensures forall i :: 0 <= i < |names| && fold(names[i]) != "" ==> fold(names[i]) in r.known
  {
    if names == [] then s
    else
      var n := |names| - 1;
      var before := NewNames(s, names[..n], fold);
      var f := fold(names[n]);
      if f != "" && f !in before.known then Naming(before.known + {f}, before.added + [names[n]]) else before
  }

  datatype Names = Names(signals: map<int, seq<string>>, known: set<string>)

  function NameStep(s: Names, r: SpnRecord, fold: Fold): Names {
    if r.spn !in s.signals then s
    else
      var found := NewNames(Naming(s.known, []), r.names + r.dbcSignals, fold);
      Names(s.signals[r.spn := s.signals[r.spn] + found.added], found.known)
  }

  function NamesAfter(s: Names, recs: seq<SpnRecord>, fold: Fold): Names {
    if recs == [] then s else NameStep(NamesAfter(s, recs[..|recs| - 1], fold), recs[|recs| - 1], fold)
  }

  function NamesRemoved(signals: map<int, seq<string>>, recs: seq<SpnRecord>): set<Path> {
    set r | r in recs && r.spn in signals :: r.path
  }

  function OemRemoved(recs: seq<OemRecord>, published: set<string>): set<Path> {
    set r | r in recs && r.id in published :: r.path
  }

  /** The names in use: those of other files, and every folded name of a signal. */
  function Known(others: set<string>, signals: map<int, seq<string>>, fold: Fold): set<string> {
    others + set spn, name | spn in signals && name in signals[spn] :: fold(name)
  }

  function Removed(s: State): set<Path> {
    SpnsRemoved(s.spns, s.spnRecords) + PgnsRemoved(s.pgns, s.pgnRecords)
    + NamesRemoved(s.signals, s.spnRecords) + OemRemoved(s.oemRecords, s.published)
  }

  /** The rows that stay: those whose first cell is not the stem of a removed file. */
  function RowsKept(rows: seq<Row>, stems: set<string>): seq<Row> {
    if rows == [] then []
    else
      var n := |rows| - 1;
      RowsKept(rows[..n], stems) + if rows[n].id in stems then [] else [rows[n]]
  }

  function SpnsKept(recs: seq<SpnRecord>, gone: set<Path>): seq<SpnRecord> {
    if recs == [] then []
    else SpnsKept(recs[..|recs| - 1], gone) + if recs[|recs| - 1].path in gone then [] else [recs[|recs| - 1]]
  }

  function PgnsKept(recs: seq<PgnRecord>, gone: set<Path>): seq<PgnRecord> {
    if recs == [] then []
    else PgnsKept(recs[..|recs| - 1], gone) + if recs[|recs| - 1].path in gone then [] else [recs[|recs| - 1]]
  }

  function OemsKept(recs: seq<OemRecord>, gone: set<Path>): seq<OemRecord> {
    if recs == [] then []
    else OemsKept(recs[..|recs| - 1], gone) + if recs[|recs| - 1].path in gone then [] else [recs[|recs| - 1]]
  }

  function Promoted(s: State, stem: Path -> string, fold: Fold): State {
    var gone := Removed(s);
    State(
      SpnsKept(s.spnRecords, gone),
      PgnsKept(s.pgnRecords, gone),
      OemsKept(s.oemRecords, gone),
      SpnsAfter(s.spns, s.spnRecords),
      PgnsAfter(s.pgns, s.pgnRecords, s.pgnRecords),
      NamesAfter(Names(s.signals, Known(s.others, s.signals, fold)), s.spnRecords, fold).signals,
      s.others,
      s.published,
      s.otherFiles,
      RowsKept(s.rows, set p | p in gone :: stem(p)))
  }

  // ------------------------------------------------------------------- the class

  class Intake {
    var state: State

    constructor (state: State)
      ensures this.state == state
    {
      this.state := state;
    }

    method PromoteSpns() returns (spns: map<int, Entry>, removed: set<Path>)
      ensures spns == SpnsAfter(state.spns, state.spnRecords) && removed == SpnsRemoved(state.spns, state.spnRecords)
    {
      hide SpnReady;
      var recs := state.spnRecords;
      spns, removed := state.spns, {};
      for i := 0 to |recs|
        invariant spns == SpnsAfter(state.spns, recs[..i]) && removed == SpnsRemoved(state.spns, recs[..i])
      {
        assert recs[..i + 1][..i] == recs[..i];
        var r := recs[i];
        ReadyHasName(r);
        if !SpnReady(r) || r.spn in spns { continue; }
        spns := spns[r.spn := Entry(r.path, r.names[0])];
        removed := removed + {r.path};
      }
      assert recs[..|recs|] == recs;
    }

    method PromotePgns() returns (pgns: map<int, Entry>, removed: set<Path>)
      ensures pgns == PgnsAfter(state.pgns, state.pgnRecords, state.pgnRecords)
      ensures removed == PgnsRemoved(state.pgns, state.pgnRecords)
    {
      hide CountPgn;
      var recs := state.pgnRecords;
      pgns, removed := state.pgns, {};
      for i := 0 to |recs|
        invariant pgns == PgnsAfter(state.pgns, recs, recs[..i])
        invariant removed == set r | r in recs[..i] && PgnPromotes(state.pgns, recs, r) :: r.path
      {
        assert recs[..i + 1][..i] == recs[..i] && recs[..i + 1] == recs[..i] + [recs[i]];
        var r := recs[i];
        var count := CountOf(recs, r.pgn);
        if !r.ready || r.pgn in state.pgns || count > 1 || r.bulk {
          CountsItself(recs, i);
          continue;
        }
        CountsItself(recs, i);
        pgns := pgns[r.pgn := Entry(r.path, "")];
        removed := removed + {r.path};
      }
      assert recs[..|recs|] == recs;
    }

    method CountOf(recs: seq<PgnRecord>, pgn: int) returns (n: nat)
      ensures n == CountPgn(recs, pgn)
    {
      n := 0;
      for i := 0 to |recs|
        invariant n == CountPgn(recs[..i], pgn)
      {
        assert recs[..i + 1][..i] == recs[..i];
        if recs[i].pgn == pgn { n := n + 1; }
      }
      assert recs[..|recs|] == recs;
    }

    method PromoteNames(fold: Fold) returns (names: Names, removed: set<Path>)
      ensures names ==
        NamesAfter(Names(state.signals, Known(state.others, state.signals, fold)), state.spnRecords, fold)
      ensures removed == NamesRemoved(state.signals, state.spnRecords)
    {
      hide Known, NewNames;
      var recs := state.spnRecords;
      ghost var start := Names(state.signals, Known(state.others, state.signals, fold));
      names, removed := Names(state.signals, Known(state.others, state.signals, fold)), {};
      for i := 0 to |recs|
        invariant names == NamesAfter(start, recs[..i], fold) && names.signals.Keys == state.signals.Keys
        invariant removed == set r | r in recs[..i] && r.spn in state.signals :: r.path
      {
        assert recs[..i + 1][..i] == recs[..i] && recs[..i + 1] == recs[..i] + [recs[i]];
        var r := recs[i];
        if r.spn !in state.signals { continue; }
        var found := FindNames(names.known, r.names + r.dbcSignals, fold);
        names := Names(names.signals[r.spn := names.signals[r.spn] + found.added], found.known);
        removed := removed + {r.path};
      }
      assert recs[..|recs|] == recs;
    }

    method FindNames(known: set<string>, names: seq<string>, fold: Fold) returns (found: Naming)
      ensures found == NewNames(Naming(known, []), names, fold)
    {
      found := Naming(known, []);
      for i := 0 to |names|
        invariant found == NewNames(Naming(known, []), names[..i], fold)
      {
        assert names[..i + 1][..i] == names[..i];
        var f := fold(names[i]);
        if f != "" && f !in found.known {
          found := Naming(found.known + {f}, found.added + [names[i]]);
        }
      }
      assert names[..|names|] == names;
    }

    method Promote(stem: Path -> string, fold: Fold)
      modifies this
      ensures state == Promoted(old(state), stem, fold)
    {
      hide SpnsAfter, SpnsRemoved, PgnsAfter, PgnsRemoved, NamesAfter, NamesRemoved, OemRemoved, Known, RowsKept,
        SpnsKept, PgnsKept, OemsKept;
      var spns, gone1 := PromoteSpns();
      var pgns, gone2 := PromotePgns();
      var names, gone3 := PromoteNames(fold);
      var removed := gone1 + gone2 + gone3 + OemRemoved(state.oemRecords, state.published);
      var rows := RowsKept(state.rows, set p | p in removed :: stem(p));
      state := State(
        SpnsKept(state.spnRecords, removed), PgnsKept(state.pgnRecords, removed), OemsKept(state.oemRecords, removed),
        spns, pgns, names.signals, state.others, state.published, state.otherFiles, rows);
    }
  }

  lemma {:induction false} ReadyHasName(r: SpnRecord)
    ensures SpnReady(r) ==> r.names != []
  {
  }

  lemma {:induction false} CountsItself(recs: seq<PgnRecord>, i: nat)
    requires i < |recs|
    ensures CountPgn(recs, recs[i].pgn) >= 1
  {
    if i < |recs| - 1 { CountsItself(recs[..|recs| - 1], i); }
  }
}
