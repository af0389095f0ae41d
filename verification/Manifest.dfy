// The intake manifest: the two tables printed from the records on disk, the reader of
// those tables, and the three-way check of records, rows and files.
module Manifest {
  import opened Wrappers
  import opened Text
  import opened Numbers

  // ------------------------------------------------------------------ the data

  datatype Trace = Trace(format: string, bytes: string, sha256: string, location: string)

  /** A loaded intake record. `frame` is the frame file of a trace kept in git, `trace` describes one kept outside. */
  datatype Record = Record(
    id: string, relPath: string, kind: string, licence: string, source: string, frame: Option<string>,
    trace: Option<Trace>)

  /** A file under the intake directory, as the scripts see it. */
  datatype File = File(size: nat, sha256: string)

  type Files = map<string, File>

  datatype Entry = Entry(
    id: string, relPath: string, kind: string, size: int, sha256: string, licence: string, source: string)

  datatype External = External(id: string, format: string, size: int, sha256: string, location: string)

  datatype Problem =
    | TooFewColumns | SizeNotInteger | NotADigest | DuplicateExternal | DuplicateRow

  datatype Failure = Failure(line: nat, problem: Problem)

  datatype Parsed = Parsed(
    entries: map<string, Entry>, external: map<string, External>, inExternal: bool, failures: seq<Failure>)

  function OwnedPaths(r: Record): seq<string> {
    [r.relPath] + if r.kind == "trace" && r.frame.Some? then ["traces/" + r.frame.value] else []
  }

  // ------------------------------------------------------------------ printing

  function Code(s: string): string { "`" + s + "`" }

  function Padded(cells: seq<string>): (r: seq<string>)
    ensures |r| == |cells| && forall i :: 0 <= i < |r| ==> r[i] == " " + cells[i] + " "
  {
    seq(|cells|, i requires 0 <= i < |cells| => " " + cells[i] + " ")
  }

  function Joined(pieces: seq<string>): string { "|" + Join(pieces, "|") + "|" }

  function Rule(columns: nat): string { Joined(seq(columns, i => "---")) }

  function Line(cells: seq<string>): string { Joined(Padded(cells)) }

  function KindOf(r: Record, rel: string): string {
    if r.kind == "trace" && rel != r.relPath then "trace_frames" else r.kind
  }

  function PrintedLicence(r: Record): string { if r.licence == "" then "unknown" else r.licence }

  function RowCells(r: Record, rel: string, file: File): seq<string> {
    [r.id, Code("data/intake/" + rel), KindOf(r, rel), Decimal(file.size), Code(file.sha256), PrintedLicence(r),
      Code(r.source)]
  }

  function PathRows(r: Record, paths: seq<string>, files: Files): seq<string> {
    if paths == [] then []
    else
      var n := |paths| - 1;
      PathRows(r, paths[..n], files)
      + if paths[n] in files then [Line(RowCells(r, paths[n], files[paths[n]]))] else []
  }

  function Rows(records: seq<Record>, files: Files): seq<string> {
    if records == [] then []
    else
      var n := |records| - 1;
      Rows(records[..n], files) + PathRows(records[n], OwnedPaths(records[n]), files)
  }

  /** The traces kept outside git, by intake id; a later record replaces an earlier one. */
  function Outside(records: seq<Record>): map<string, Trace> {
    if records == [] then map[]
    else
      var n := |records| - 1;
      var r := records[n];
      if r.kind == "trace" && r.trace.Some? then Outside(records[..n])[r.id := r.trace.value] else Outside(records[..n])
  }

  function ExternalLine(id: string, t: Trace): string {
    Line([id, t.format, t.bytes, Code(t.sha256), Code(t.location)])
  }

  function ExternalRows(outside: map<string, Trace>, ids: seq<string>): seq<string>
    requires forall k :: 0 <= k < |ids| ==> ids[k] in outside
  {
    if ids == [] then []
    else
      var n := |ids| - 1;
      ExternalRows(outside, ids[..n]) + [ExternalLine(ids[n], outside[ids[n]])]
  }

  const ROW_HEADING := "## Git'e giren kayıtlar"
  const EXTERNAL_HEADING := "## Git'e girmeyen trace'ler (yalnız hash + konum)"
  const LOG_HEADING := "## Değişiklik günlüğü"
  const ROW_HEADER := Line(["intake_id", "path", "kind", "bytes", "sha256", "licence", "source"])
  const ROW_RULE := Rule(7)
  const EXTERNAL_HEADER := Line(["intake_id", "format", "bytes", "sha256", "location"])
  const EXTERNAL_RULE := Rule(5)

  /** The explanatory lines around the two tables. */
  datatype Prose = Prose(intro: seq<string>, note: seq<string>, log: seq<string>)

  /** The lines of the manifest. `ids` is the order in which the external rows are printed. */
  function Lines(records: seq<Record>, files: Files, ids: seq<string>, prose: Prose): seq<string>
    requires forall k :: 0 <= k < |ids| ==> ids[k] in Outside(records)
  {
    prose.intro + TableTop() + (if Rows(records, files) == [] then [""] else Rows(records, files))
    + ExternalTop(prose.note) + ExternalRows(Outside(records), ids) + LogPart(prose.log)
  }

  function TableTop(): seq<string> { [ROW_HEADING, "", ROW_HEADER, ROW_RULE] }

  function ExternalTop(note: seq<string>): seq<string> {
    ExternalHead() + note + ExternalColumns()
  }

  function ExternalHead(): seq<string> { ["", EXTERNAL_HEADING, ""] }

  function ExternalColumns(): seq<string> { ["", EXTERNAL_HEADER, EXTERNAL_RULE] }

  function LogPart(log: seq<string>): seq<string> { ["", LOG_HEADING, ""] + log }

  // ------------------------------------------------------------------- reading

  function Without(s: string, marks: set<char>): string {
    if s == "" then "" else (if s[0] in marks then "" else [s[0]]) + Without(s[1..], marks)
  }

  function StripMarkup(s: string): string { Strip(Without(s, {'`', '*'})) }

  function DropFront(s: string): string { if s != "" && s[0] == '|' then DropFront(s[1..]) else s }

  function DropBack(s: string): string { if s != "" && s[|s| - 1] == '|' then DropBack(s[..|s| - 1]) else s }

  function CellsOf(line: string): (r: seq<string>)
    ensures |r| >= 1
  {
    var raw := Split(DropBack(DropFront(line)), '|');
    seq(|raw|, i requires 0 <= i < |raw| => StripMarkup(raw[i]))
  }

  predicate OnlyRule(cell: string) { forall i :: 0 <= i < |cell| ==> cell[i] in {'-', ':'} }

  predicate IsRule(cells: seq<string>) { forall i :: 0 <= i < |cells| ==> OnlyRule(cells[i]) }

  predicate IsHeader(cells: seq<string>) {
    cells != [] && Lower(cells[0]) in {"intake_id", "intake id"}
  }

  predicate IsDigest(s: string) {
    |s| == 64 && forall i :: 0 <= i < |s| ==> '0' <= s[i] <= '9' || 'a' <= s[i] <= 'f'
  }

  predicate OpensExternal(heading: string) {
    Mentions(Lower(heading), "girmeyen") || Mentions(Lower(heading), "external")
  }

  function Unprefixed(path: string): string {
    if StartsWith(path, "data/intake/") then path[|"data/intake/"|..] else path
  }

  function Fail(p: Parsed, line: nat, problem: Problem): Parsed {
    p.(failures := p.failures + [Failure(line, problem)])
  }

  function ReadExternal(p: Parsed, cells: seq<string>, line: nat): Parsed {
    if |cells| < 5 then Fail(p, line, TooFewColumns)
    else if ParseInt(cells[2]).None? then Fail(p, line, SizeNotInteger)
    else if !IsDigest(cells[3]) then Fail(p, line, NotADigest)
    else
      var q := if cells[0] in p.external then Fail(p, line, DuplicateExternal) else p;
      q.(external := q.external[cells[0] := External(cells[0], cells[1], ParseInt(cells[2]).value, cells[3], cells[4])])
  }

  function ReadRow(p: Parsed, cells: seq<string>, line: nat): Parsed {
    if |cells| < 7 then Fail(p, line, TooFewColumns)
    else
      var rel := Unprefixed(cells[1]);
      if ParseInt(cells[3]).None? then Fail(p, line, SizeNotInteger)
      else if !IsDigest(cells[4]) then Fail(p, line, NotADigest)
      else if rel in p.entries then Fail(p, line, DuplicateRow)
      else p.(entries := p.entries[
        rel := Entry(cells[0], rel, cells[2], ParseInt(cells[3]).value, cells[4], cells[5], cells[6])])
  }

  function ReadLine(p: Parsed, raw: string, line: nat): Parsed {
    var text := Strip(raw);
    if StartsWith(text, "##") then p.(inExternal := OpensExternal(text))
    else if !StartsWith(text, "|") then p
    else
      var cells := CellsOf(text);
      if IsRule(cells) || IsHeader(cells) then p
      else if p.inExternal then ReadExternal(p, cells, line)
      else ReadRow(p, cells, line)
  }

  /** What reading the lines one after the other comes to. */
  function Read(lines: seq<string>): Parsed {
    if lines == [] then Parsed(map[], map[], false, [])
    else ReadLine(Read(lines[..|lines| - 1]), lines[|lines| - 1], |lines|)
  }

  method ParseManifest(lines: seq<string>)
    returns (entries: map<string, Entry>, external: map<string, External>, failures: seq<Failure>)
    ensures var p := Read(lines); entries == p.entries && external == p.external && failures == p.failures
  {
    hide Read, CellsOf, IsRule, IsHeader, ParseInt, IsDigest, OpensExternal, Strip, Unprefixed, StartsWith;
    entries, external, failures := map[], map[], [];
    var inExternal := false;
    ReadNone();
    for i := 0 to |lines|
      invariant Parsed(entries, external, inExternal, failures) == Read(lines[..i])
    {
      ReadNext(lines, i);
      var lineno := i + 1;
      var line := Strip(lines[i]);
      if StartsWith(line, "##") {
        inExternal := OpensExternal(line);
        continue;
      }
      if !StartsWith(line, "|") { continue; }
      var cells := CellsOf(line);
      if IsRule(cells) { continue; }
      if IsHeader(cells) { continue; }
      if inExternal {
        if |cells| < 5 {
          failures := failures + [Failure(lineno, TooFewColumns)];
          continue;
        }
        var size := ParseInt(cells[2]);
        if size.None? {
          failures := failures + [Failure(lineno, SizeNotInteger)];
          continue;
        }
        if !IsDigest(cells[3]) {
          failures := failures + [Failure(lineno, NotADigest)];
          continue;
        }
        if cells[0] in external {
          failures := failures + [Failure(lineno, DuplicateExternal)];
        }
        external := external[cells[0] := External(cells[0], cells[1], size.value, cells[3], cells[4])];
        continue;
      }
      if |cells| < 7 {
        failures := failures + [Failure(lineno, TooFewColumns)];
        continue;
      }
      var rel := Unprefixed(cells[1]);
      var size := ParseInt(cells[3]);
      if size.None? {
        failures := failures + [Failure(lineno, SizeNotInteger)];
        continue;
      }
      if !IsDigest(cells[4]) {
        failures := failures + [Failure(lineno, NotADigest)];
        continue;
      }
      if rel in entries {
        failures := failures + [Failure(lineno, DuplicateRow)];
        continue;
      }
      entries := entries[rel := Entry(cells[0], rel, cells[2], size.value, cells[4], cells[5], cells[6])];
    }
    assert lines[..|lines|] == lines;
  }

  lemma {:induction false} ReadNone()
    ensures Read([]) == Parsed(map[], map[], false, [])
  {
  }

  lemma {:induction false} ReadNext(lines: seq<string>, i: nat)
    requires i < |lines|
    ensures Read(lines[..i + 1]) == ReadLine(Read(lines[..i]), lines[i], i + 1)
  {
    hide ReadLine;
    assert lines[..i + 1][..i] == lines[..i];
  }

  method SyncManifest(records: seq<Record>, files: Files, ids: seq<string>, prose: Prose) returns (lines: seq<string>)
    requires forall k :: 0 <= k < |ids| ==> ids[k] in Outside(records)
    ensures lines == Lines(records, files, ids, prose)
  {
    hide Rows, PathRows, Outside, ExternalRows, Line, RowCells, OwnedPaths;
    var rows: seq<string> := [];
    var external: map<string, Trace> := map[];
    RowsNone(files);
    for i := 0 to |records|
      invariant rows == Rows(records[..i], files) && external == Outside(records[..i])
    {
      RowsNext(records, i, files);
      var record := records[i];
      var paths := OwnedPaths(record);
      ghost var before := rows;
      PathRowsNone(record, files);
      for k := 0 to |paths|
        invariant rows == before + PathRows(record, paths[..k], files)
      {
        PathRowsNext(record, paths, k, files);
        if paths[k] in files {
          rows := rows + [Line(RowCells(record, paths[k], files[paths[k]]))];
        }
      }
      assert paths[..|paths|] == paths;
      if record.kind == "trace" && record.trace.Some? {
        external := external[record.id := record.trace.value];
      }
    }
    assert records[..|records|] == records;
    var tail: seq<string> := [];
    ExternalNone(external);
    for k := 0 to |ids|
      invariant tail == ExternalRows(external, ids[..k])
    {
      ExternalNext(external, ids, k);
      tail := tail + [ExternalLine(ids[k], external[ids[k]])];
    }
    assert ids[..|ids|] == ids;
    lines := prose.intro + TableTop() + (if rows == [] then [""] else rows)
      + ExternalTop(prose.note) + tail + LogPart(prose.log);
  }

  lemma {:induction false} RowsNone(files: Files)
    ensures Rows([], files) == [] && Outside([]) == map[]
  {
  }

  lemma {:induction false} RowsNext(records: seq<Record>, i: nat, files: Files)
    requires i < |records|
    ensures Rows(records[..i + 1], files) ==
      Rows(records[..i], files) + PathRows(records[i], OwnedPaths(records[i]), files)
    ensures var r := records[i];
      Outside(records[..i + 1]) ==
        if r.kind == "trace" && r.trace.Some?
        then Outside(records[..i])[r.id := r.trace.value] else Outside(records[..i])
  {
    hide PathRows;
    assert records[..i + 1][..i] == records[..i];
  }

  lemma {:induction false} PathRowsNone(r: Record, files: Files)
    ensures PathRows(r, [], files) == []
  {
  }

  lemma {:induction false} PathRowsNext(r: Record, paths: seq<string>, k: nat, files: Files)
    requires k < |paths|
    ensures PathRows(r, paths[..k + 1], files) ==
      PathRows(r, paths[..k], files) + if paths[k] in files then [Line(RowCells(r, paths[k], files[paths[k]]))] else []
  {
    hide Line, RowCells;
    assert paths[..k + 1][..k] == paths[..k];
  }

  lemma {:induction false} ExternalNone(outside: map<string, Trace>)
    ensures ExternalRows(outside, []) == []
  {
  }

  lemma {:induction false} ExternalNext(outside: map<string, Trace>, ids: seq<string>, k: nat)
    requires k < |ids| && forall j :: 0 <= j < |ids| ==> ids[j] in outside
    ensures ExternalRows(outside, ids[..k + 1]) ==
      ExternalRows(outside, ids[..k]) + [ExternalLine(ids[k], outside[ids[k]])]
  {
    hide ExternalLine;
    assert ids[..k + 1][..k] == ids[..k];
  }

  // ---------------------------------------------------------- the three-way check

  datatype Finding = Finding(path: string, what: Mismatch)

  datatype Mismatch = NoRow | OtherId | MissingFile | OtherSize | OtherHash | OtherLicence | NoRecord

  /** Which record owns a path: the last one that lists it. */
  function Expected(records: seq<Record>): map<string, Record> {
    if records == [] then map[]
    else
      var n := |records| - 1;
      Claimed(Expected(records[..n]), OwnedPaths(records[n]), records[n])
  }

  function Claimed(expected: map<string, Record>, paths: seq<string>, r: Record): map<string, Record> {
    if paths == [] then expected
    else Claimed(expected, paths[..|paths| - 1], r)[paths[|paths| - 1] := r]
  }

  predicate RowMatches(rel: string, r: Record, entries: map<string, Entry>, files: Files) {
    && rel in entries && rel in files
    && entries[rel].id == r.id && entries[rel].licence == r.licence
    && entries[rel].size == files[rel].size && entries[rel].sha256 == files[rel].sha256
  }

  /** What is wrong with a path that a record owns. */
  predicate Wrong(rel: string, r: Record, entries: map<string, Entry>, files: Files, what: Mismatch) {
    match what
    case NoRow => rel !in entries
    case OtherId => rel in entries && entries[rel].id != r.id
    case MissingFile => rel in entries && rel !in files
    case OtherSize => rel in entries && rel in files && entries[rel].size != files[rel].size
    case OtherHash => rel in entries && rel in files && entries[rel].sha256 != files[rel].sha256
    case OtherLicence => rel in entries && rel in files && entries[rel].licence != r.licence
    case NoRecord => false
  }

  /** Each finding there is to make: on a path that a record owns, or on a row that none owns. */
  predicate ToFind(f: Finding, expected: map<string, Record>, entries: map<string, Entry>, files: Files) {
    if f.path in expected then Wrong(f.path, expected[f.path], entries, files, f.what)
    else f.path in entries && f.what == if f.path in files then NoRecord else MissingFile
  }

  /** Rows and owned files correspond one to one, with equal id, size, hash and licence. */
  ghost predicate Consistent(records: seq<Record>, entries: map<string, Entry>, files: Files) {
    && entries.Keys == Expected(records).Keys
    && forall rel :: rel in entries ==> RowMatches(rel, Expected(records)[rel], entries, files)
  }

  method CheckRow(rel: string, r: Record, entries: map<string, Entry>, files: Files) returns (findings: seq<Finding>)
    ensures forall f :: f in findings <==> f.path == rel && Wrong(rel, r, entries, files, f.what)
    ensures findings == [] <==> RowMatches(rel, r, entries, files)
  {
    findings := [];
    if rel !in entries {
      findings := [Finding(rel, NoRow)];
      assert findings[0] in findings;
      return;
    }
    var entry := entries[rel];
    if entry.id != r.id { findings := findings + [Finding(rel, OtherId)]; }
    if rel !in files {
      findings := findings + [Finding(rel, MissingFile)];
      assert findings[|findings| - 1] in findings;
      return;
    }
    if entry.size != files[rel].size { findings := findings + [Finding(rel, OtherSize)]; }
    if entry.sha256 != files[rel].sha256 { findings := findings + [Finding(rel, OtherHash)]; }
    if entry.licence != r.licence { findings := findings + [Finding(rel, OtherLicence)]; }
  }

  /** The check makes exactly the findings there are, and none exactly when rows and files correspond. */
  method CheckManifest(records: seq<Record>, entries: map<string, Entry>, files: Files) returns (findings: seq<Finding>)
    ensures forall f :: f in findings <==> ToFind(f, Expected(records), entries, files)
    ensures findings == [] <==> Consistent(records, entries, files)
  {
    hide Expected, RowMatches, OwnedPaths, Wrong;
    var expected := BuildExpected(records);
    findings := [];
    var todo := expected.Keys;
    while todo != {}
      invariant todo <= expected.Keys
      invariant forall f :: f in findings <==>
        f.path in expected && f.path !in todo && Wrong(f.path, expected[f.path], entries, files, f.what)
      decreases todo
    {
      var rel :| rel in todo;
      var found := CheckRow(rel, expected[rel], entries, files);
      findings := findings + found;
      todo := todo - {rel};
    }
    var rows := entries.Keys;
    while rows != {}
      invariant rows <= entries.Keys
      invariant forall f :: f in findings <==>
        (if f.path in expected then Wrong(f.path, expected[f.path], entries, files, f.what)
         else f.path in entries && f.path !in rows && f.what == if f.path in files then NoRecord else MissingFile)
      decreases rows
    {
      var rel :| rel in rows;
      if rel !in expected {
        findings := findings + [Finding(rel, if rel in files then NoRecord else MissingFile)];
      }
      rows := rows - {rel};
    }
    NothingToFind(records, entries, files, findings);
  }

  lemma {:induction false} NothingToFind(
      records: seq<Record>, entries: map<string, Entry>, files: Files, findings: seq<Finding>)
    requires forall f :: f in findings <==> ToFind(f, Expected(records), entries, files)
    ensures findings == [] <==> Consistent(records, entries, files)
  {
    hide Expected;
    var expected := Expected(records);
    if findings == [] {
      forall rel | rel in expected ensures rel in entries && RowMatches(rel, expected[rel], entries, files) {
        assert !ToFind(Finding(rel, NoRow), expected, entries, files);
        assert !ToFind(Finding(rel, OtherId), expected, entries, files);
        assert !ToFind(Finding(rel, MissingFile), expected, entries, files);
        assert !ToFind(Finding(rel, OtherSize), expected, entries, files);
        assert !ToFind(Finding(rel, OtherHash), expected, entries, files);
        assert !ToFind(Finding(rel, OtherLicence), expected, entries, files);
      }
      forall rel | rel in entries ensures rel in expected {
        assert !ToFind(Finding(rel, if rel in files then NoRecord else MissingFile), expected, entries, files);
      }
    } else {
      assert findings[0] in findings;
    }
  }

  method BuildExpected(records: seq<Record>) returns (expected: map<string, Record>)
    ensures expected == Expected(records)
  {
    hide OwnedPaths;
    expected := map[];
    for i := 0 to |records|
      invariant expected == Expected(records[..i])
    {
      assert records[..i + 1][..i] == records[..i];
      var paths := OwnedPaths(records[i]);
      ghost var before := expected;
      for k := 0 to |paths|
        invariant expected == Claimed(before, paths[..k], records[i])
      {
        assert paths[..k + 1][..k] == paths[..k];
        expected := expected[paths[k] := records[i]];
      }
      assert paths[..|paths|] == paths;
    }
    assert records[..|records|] == records;
  }
}
