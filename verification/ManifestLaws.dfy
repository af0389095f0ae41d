// Reading the printed manifest gives back exactly what was printed, and the three-way
// check of a printed manifest fails only for a missing file or a record without licence.
module ManifestLaws {
  import opened Wrappers
  import opened Text
  import opened Numbers
  import opened Manifest

  // ------------------------------------------------------------------ one line

  const MARKS: set<char> := {'`', '*'}

  /** A cell that survives the table: trimmed, on one line, and without the characters the layout uses. */
  predicate CleanCell(s: string) {
    Text.Stripped(s) && forall i :: 0 <= i < |s| ==> s[i] !in {'|', '`', '*'} && !IsBreak(s[i])
  }

  lemma {:induction false} WithoutConcat(a: string, b: string)
    ensures Without(a + b, MARKS) == Without(a, MARKS) + Without(b, MARKS)
  {
    if a == "" {
      assert a + b == b;
    } else {
      assert (a + b)[0] == a[0] && (a + b)[1..] == a[1..] + b;
      WithoutConcat(a[1..], b);
    }
  }

  lemma {:induction false} WithoutClean(s: string)
    requires forall i :: 0 <= i < |s| ==> s[i] !in MARKS
    ensures Without(s, MARKS) == s
  {
    if s != "" {
      WithoutClean(s[1..]);
      assert s == [s[0]] + s[1..];
    }
  }

  lemma {:induction false} PadIsSpace()
    ensures AllSpace(" ")
  {
  }

  /** A cell reads back as what it shows, in back quotes or not. */
  lemma {:induction false} CellReads(cell: string, shown: string)
    requires CleanCell(shown) && (cell == shown || cell == Code(shown))
    ensures StripMarkup(" " + cell + " ") == shown
    ensures '|' !in cell && Unbroken(cell)
  {
    hide Without, Strip;
    WithoutClean(shown);
    WithoutClean(" ");
    WithoutTick();
    WithoutConcat(" " + cell, " ");
    WithoutConcat(" ", cell);
    if cell != shown {
      WithoutConcat("`" + shown, "`");
      WithoutConcat("`", shown);
    }
    PadIsSpace();
    StripPad(" ", shown, " ");
    assert Without(cell, MARKS) == shown;
  }

  lemma {:induction false} WithoutTick()
    ensures Without("`", MARKS) == ""
  {
    assert "`"[1..] == "";
  }

  lemma {:induction false} JoinEnds(pieces: seq<string>)
    requires pieces != [] && forall i :: 0 <= i < |pieces| ==> pieces[i] != "" && '|' !in pieces[i]
    ensures var j := Join(pieces, "|"); j != "" && j[0] != '|' && j[|j| - 1] != '|'
  {
    if |pieces| > 1 { JoinEnds(pieces[1..]); }
  }

  lemma {:induction false} JoinedCells(pieces: seq<string>)
    requires pieces != [] && forall i :: 0 <= i < |pieces| ==> pieces[i] != "" && '|' !in pieces[i]
    ensures |CellsOf(Joined(pieces))| == |pieces|
    ensures forall i :: 0 <= i < |pieces| ==> CellsOf(Joined(pieces))[i] == StripMarkup(pieces[i])
    ensures Strip(Joined(pieces)) == Joined(pieces)
    ensures StartsWith(Joined(pieces), "|") && !StartsWith(Joined(pieces), "##")
  {
    hide StripMarkup, Join, Split;
    var j := Join(pieces, "|");
    JoinEnds(pieces);
    Bars(j);
    SplitJoin(pieces, '|');
    StripId("|" + j + "|");
  }

  lemma {:induction false} Bars(j: string)
    requires j != "" && j[0] != '|' && j[|j| - 1] != '|'
    ensures DropBack(DropFront("|" + j + "|")) == j
  {
    var s := "|" + j + "|";
    assert s[1..] == j + "|";
    assert DropFront(s) == DropFront(j + "|") == j + "|";
    assert (j + "|")[..|j|] == j;
  }

  /** A printed line reads back as the cells it shows. */
  lemma {:induction false} LineReads(cells: seq<string>, shown: seq<string>)
    requires |cells| == |shown| > 0
    requires forall i :: 0 <= i < |cells| ==>
      CleanCell(shown[i]) && (cells[i] == shown[i] || cells[i] == Code(shown[i]))
    ensures CellsOf(Line(cells)) == shown
    ensures Strip(Line(cells)) == Line(cells)
    ensures StartsWith(Line(cells), "|") && !StartsWith(Line(cells), "##")
  {
    hide StripMarkup, Joined, Strip, CellsOf, StartsWith, CleanCell;
    forall i | 0 <= i < |cells|
      ensures StripMarkup(Padded(cells)[i]) == shown[i] && '|' !in Padded(cells)[i]
    {
      CellReads(cells[i], shown[i]);
    }
    JoinedCells(Padded(cells));
  }

  // ------------------------------------------------------------ rows and headers

  lemma {:induction false} DigestIsClean(s: string)
    requires IsDigest(s)
    ensures CleanCell(s) && !OnlyRule(s)
  {
    assert s[0] !in {'-', ':'};
  }

  lemma {:induction false} DecimalIsClean(n: nat)
    ensures CleanCell(Decimal(n))
  {
    hide Decimal;
    var s := Decimal(n);
    assert IsDigit(s[0]) && IsDigit(s[|s| - 1]);
  }

  predicate NotAHeader(id: string) { Lower(id) !in {"intake_id", "intake id"} }

  /** A record whose rows survive the table. */
  predicate Printable(r: Record) {
    && CleanCell(r.id) && NotAHeader(r.id)
    && CleanCell(r.relPath) && CleanCell(r.kind) && CleanCell(r.licence) && CleanCell(r.source)
    && (r.frame.Some? ==> CleanCell(r.frame.value))
    && (r.trace.Some? ==> PrintableTrace(r.trace.value))
  }

  predicate PrintableTrace(t: Trace) {
    CleanCell(t.format) && CleanCell(t.bytes) && ParseInt(t.bytes).Some? && IsDigest(t.sha256) && CleanCell(t.location)
  }

  function EntryOf(r: Record, rel: string, file: File): Entry {
    Entry(r.id, rel, KindOf(r, rel), file.size, file.sha256, PrintedLicence(r), r.source)
  }

  lemma {:induction false} PrefixIsClean(prefix: string, rel: string)
    requires CleanCell(rel) && CleanCell(prefix) && prefix != ""
    ensures CleanCell(prefix + rel)
  {
  }

  lemma {:induction false} RowReads(p: Parsed, r: Record, rel: string, file: File, line: nat)
    requires !p.inExternal && Printable(r) && CleanCell(rel) && IsDigest(file.sha256)
    ensures ReadLine(p, Line(RowCells(r, rel, file)), line) ==
      if rel in p.entries then Fail(p, line, DuplicateRow) else p.(entries := p.entries[rel := EntryOf(r, rel, file)])
  {
    hide CleanCell, Line, CellsOf, Decimal, ParseInt, Strip, StartsWith, IsDigest, Lower, OnlyRule, Fail;
    var prefixed := "data/intake/" + rel;
    var shown := [r.id, prefixed, KindOf(r, rel), Decimal(file.size), file.sha256, PrintedLicence(r), r.source];
    Constants();
    PrefixIsClean("data/intake/", rel);
    DigestIsClean(file.sha256);
    DecimalIsClean(file.size);
    ParsePrinted(file.size);
    PrefixComesOff(rel);
    LineReads(RowCells(r, rel, file), shown);
    assert shown[4] == file.sha256;
  }

  lemma {:induction false} PrefixComesOff(rel: string)
    ensures Unprefixed("data/intake/" + rel) == rel
  {
    assert ("data/intake/" + rel)[..|"data/intake/"|] == "data/intake/";
  }

  lemma {:induction false} Constants()
    ensures CleanCell("data/intake/") && CleanCell("trace_frames") && CleanCell("unknown") && CleanCell("traces/")
  {
  }

  /** The entry a printed external row stands for, where its byte count is a number. */
  function ExternalOf(id: string, t: Trace): External {
    External(id, t.format, if ParseInt(t.bytes).Some? then ParseInt(t.bytes).value else 0, t.sha256, t.location)
  }

  predicate PrintableExternal(id: string, t: Trace) { CleanCell(id) && NotAHeader(id) && PrintableTrace(t) }

  lemma {:induction false} ExternalReads(p: Parsed, id: string, t: Trace, line: nat)
    requires p.inExternal && PrintableExternal(id, t) && id !in p.external
    ensures ReadLine(p, ExternalLine(id, t), line) == p.(external := p.external[id := ExternalOf(id, t)])
  {
    hide CleanCell, Line, CellsOf, ParseInt, Strip, StartsWith, IsDigest, Lower, OnlyRule;
    var shown := [id, t.format, t.bytes, t.sha256, t.location];
    DigestIsClean(t.sha256);
    LineReads([id, t.format, t.bytes, Code(t.sha256), Code(t.location)], shown);
    assert shown[3] == t.sha256;
  }

  // ------------------------------------------------ lines that are not rows

  /** Reading on from a state: the lines after the first `done`. */
  function ReadOn(p: Parsed, lines: seq<string>, done: nat): Parsed {
    if lines == [] then p
    else ReadLine(ReadOn(p, lines[..|lines| - 1], done), lines[|lines| - 1], done + |lines|)
  }

  lemma {:induction false} ReadConcat(p: Parsed, a: seq<string>, b: seq<string>, done: nat)
    ensures ReadOn(p, a + b, done) == ReadOn(ReadOn(p, a, done), b, done + |a|)
  {
    hide ReadLine;
    if b == [] {
      assert a + b == a;
    } else {
      var n := |b| - 1;
      assert (a + b)[..|a + b| - 1] == a + b[..n];
      ReadConcat(p, a, b[..n], done);
    }
  }

  lemma {:induction false} ReadIsReadOn(lines: seq<string>)
    ensures Read(lines) == ReadOn(Parsed(map[], map[], false, []), lines, 0)
  {
    hide ReadLine;
    if lines != [] { ReadIsReadOn(lines[..|lines| - 1]); }
  }

  /** Neither a heading nor a table row. */
  predicate Plain(line: string) { !StartsWith(Strip(line), "##") && !StartsWith(Strip(line), "|") }

  lemma {:induction false} PlainReads(p: Parsed, lines: seq<string>, done: nat)
    requires forall i :: 0 <= i < |lines| ==> Plain(lines[i])
    ensures ReadOn(p, lines, done) == p
  {
    hide Strip, CellsOf, ReadExternal, ReadRow, OpensExternal;
    if lines != [] { PlainReads(p, lines[..|lines| - 1], done); }
  }

  /** A line that only opens or closes the external table, or rules and heads a table. */
  lemma {:induction false} RuleReads(p: Parsed, columns: nat, line: nat)
    requires columns > 0
    ensures ReadLine(p, Rule(columns), line) == p
  {
    hide StripMarkup, Strip, Joined, CellsOf, StartsWith;
    var pieces := seq(columns, i => "---");
    assert forall i :: 0 <= i < |pieces| ==> pieces[i] == "---";
    JoinedCells(pieces);
    Dashes();
    assert IsRule(CellsOf(Rule(columns)));
  }

  lemma {:induction false} Dashes()
    ensures StripMarkup("---") == "---" && OnlyRule("---")
  {
    WithoutClean("---");
    StripId("---");
  }

  lemma {:induction false} HeaderReads(p: Parsed, cells: seq<string>, line: nat)
    requires cells != [] && cells[0] == "intake_id" && forall i :: 0 <= i < |cells| ==> CleanCell(cells[i])
    ensures ReadLine(p, Line(cells), line) == p
  {
    hide Line, CellsOf, Strip, StartsWith, CleanCell, OnlyRule;
    LineReads(cells, cells);
    assert Lower("intake_id") == "intake_id";
  }

  lemma {:induction false} HeaderCells()
    ensures forall c ::
      c in ["intake_id", "path", "kind", "bytes", "sha256", "licence", "source", "format", "location"] ==> CleanCell(c)
  {
  }

  /** A phrase is not in a text that lacks one of its letters. */
  lemma {:induction false} LacksLetter(s: string, phrase: string, k: nat)
    requires k < |phrase| && phrase[k] !in s
    ensures !Mentions(s, phrase)
  {
    forall i | 0 <= i < |s| ensures !StandsAt(s, i, phrase) { LetterStands(s, i, phrase, k); }
  }

  lemma {:induction false} LetterStands(s: string, i: nat, phrase: string, k: nat)
    requires k < |phrase|
    ensures StandsAt(s, i, phrase) ==> phrase[k] in s
  {
    if StandsAt(s, i, phrase) {
      assert s[i..i + |phrase|][k] == s[i + k];
    }
  }

  lemma {:induction false} RowHeadingReads(p: Parsed, line: nat)
    ensures ReadLine(p, ROW_HEADING, line) == p.(inExternal := false)
  {
    hide Strip, CellsOf, Mentions, Lower;
    StripId(ROW_HEADING);
    RowHeadingLetters();
    LacksLetter(Lower(ROW_HEADING), "girmeyen", 3);
    LacksLetter(Lower(ROW_HEADING), "external", 1);
  }

  lemma {:induction false} RowHeadingLetters()
    ensures 'm' !in Lower(ROW_HEADING) && 'x' !in Lower(ROW_HEADING)
  {
  }

  lemma {:induction false} LogHeadingReads(p: Parsed, line: nat)
    ensures ReadLine(p, LOG_HEADING, line) == p.(inExternal := false)
  {
    hide Strip, CellsOf, Mentions, Lower;
    StripId(LOG_HEADING);
    LogHeadingLetters();
    LacksLetter(Lower(LOG_HEADING), "girmeyen", 3);
    LacksLetter(Lower(LOG_HEADING), "external", 1);
  }

  lemma {:induction false} LogHeadingLetters()
    ensures 'm' !in Lower(LOG_HEADING) && 'x' !in Lower(LOG_HEADING)
  {
  }

  lemma {:induction false} ExternalHeadingReads(p: Parsed, line: nat)
    ensures ReadLine(p, EXTERNAL_HEADING, line) == p.(inExternal := true)
  {
    hide Strip, CellsOf;
    ExternalHeadingParts();
    StripId(EXTERNAL_HEADING);
    ExternalHeadingMentions();
  }

  lemma {:induction false} ExternalHeadingParts()
    ensures EXTERNAL_HEADING == "## Git'e girmeyen " + "trace'ler " + "(yalnız hash + konum)"
  {
  }

  lemma {:induction false} ExternalHeadingMentions()
    ensures Mentions(Lower(EXTERNAL_HEADING), "girmeyen")
  {
    var s := Lower(EXTERNAL_HEADING);
    var front := "## Git'e girmeyen ";
    ExternalHeadingParts();
    assert s[..|front|] == Lower(front) && s[9..17] == Lower(front)[9..17];
    assert Lower(front)[9..17] == "girmeyen";
    assert StandsAt(s, 9, "girmeyen");
  }

  // ---------------------------------------------------------------- the tables

  predicate Distinct(s: seq<string>) { forall i, j :: 0 <= i < j < |s| ==> s[i] != s[j] }

  /** No path is owned twice. */
  ghost predicate DistinctPaths(records: seq<Record>) {
    && (forall i :: 0 <= i < |records| ==> Distinct(OwnedPaths(records[i])))
    && (forall i, j, rel :: 0 <= i < j < |records| && rel in OwnedPaths(records[i]) ==> rel !in OwnedPaths(records[j]))
  }

  predicate Digests(files: Files) { forall rel :: rel in files ==> IsDigest(files[rel].sha256) }

  function EntriesOf(r: Record, paths: seq<string>, files: Files): map<string, Entry> {
    map rel | rel in paths && rel in files :: EntryOf(r, rel, files[rel])
  }

  /** The rows a printed manifest holds, by path. */
  function Printed(records: seq<Record>, files: Files): map<string, Entry> {
    if records == [] then map[]
    else
      var n := |records| - 1;
      Printed(records[..n], files) + EntriesOf(records[n], OwnedPaths(records[n]), files)
  }

  lemma {:induction false} EntriesNext(r: Record, paths: seq<string>, rel: string, files: Files)
    ensures EntriesOf(r, paths + [rel], files) ==
      if rel in files
        then EntriesOf(r, paths, files)[rel := EntryOf(r, rel, files[rel])] else EntriesOf(r, paths, files)
  {
    hide EntryOf;
  }

  lemma {:induction false} PathRowsRead(p: Parsed, r: Record, paths: seq<string>, files: Files, done: nat)
    requires !p.inExternal && Printable(r) && Digests(files) && Distinct(paths)
    requires forall rel :: rel in paths ==> CleanCell(rel) && rel !in p.entries
    ensures ReadOn(p, PathRows(r, paths, files), done) == p.(entries := p.entries + EntriesOf(r, paths, files))
  {
    hide ReadLine, Line, RowCells, Printable, CleanCell, EntryOf, IsDigest, EntriesOf, ReadOn, PathRows;
    if paths == [] {
      NoPaths(p, r, files, done);
    } else {
      var n := |paths| - 1;
      var front, rel := paths[..n], paths[n];
      assert paths == front + [rel];
      PathRowsRead(p, r, front, files, done);
      EntriesNext(r, front, rel, files);
      PathRowsNext(r, paths, n, files);
      assert paths[..n + 1] == paths;
      var before := PathRows(r, front, files);
      if rel in files {
        OneLine(p, before, Line(RowCells(r, rel, files[rel])), done);
        NotAmong(r, front, files, rel);
        RowReads(ReadOn(p, before, done), r, rel, files[rel], done + |before| + 1);
      } else {
        assert before + [] == before;
      }
    }
  }

  lemma {:induction false} NoPaths(p: Parsed, r: Record, files: Files, done: nat)
    ensures PathRows(r, [], files) == [] && EntriesOf(r, [], files) == map[] && ReadOn(p, [], done) == p
  {
  }

  lemma {:induction false} NotAmong(r: Record, paths: seq<string>, files: Files, rel: string)
    requires rel !in paths
    ensures rel !in EntriesOf(r, paths, files)
  {
  }

  lemma {:induction false} OwnedAreClean(r: Record)
    requires Printable(r)
    ensures forall rel :: rel in OwnedPaths(r) ==> CleanCell(rel)
  {
    hide CleanCell;
    Constants();
    if r.frame.Some? { PrefixIsClean("traces/", r.frame.value); }
  }

  lemma {:induction false} PrintedPaths(records: seq<Record>, files: Files, rel: string)
    requires rel in Printed(records, files)
    ensures rel in files && exists i :: 0 <= i < |records| && rel in OwnedPaths(records[i])
  {
    hide OwnedPaths, EntryOf;
    var n := |records| - 1;
    if rel in Printed(records[..n], files) {
      PrintedPaths(records[..n], files, rel);
      var i :| 0 <= i < n && rel in OwnedPaths(records[..n][i]);
      assert records[i] == records[..n][i];
    }
  }

  lemma {:induction false} RowsRead(p: Parsed, records: seq<Record>, files: Files, done: nat)
    requires !p.inExternal && p.entries == map[] && Digests(files) && DistinctPaths(records)
    requires forall i :: 0 <= i < |records| ==> Printable(records[i])
    ensures ReadOn(p, Rows(records, files), done) == p.(entries := Printed(records, files))
  {
    hide ReadLine, PathRows, Printable, CleanCell, OwnedPaths, EntriesOf, Digests;
    if records != [] {
      var n := |records| - 1;
      var front, r := records[..n], records[n];
      RowsRead(p, front, files, done);
      OwnedAreClean(r);
      var q := ReadOn(p, Rows(front, files), done);
      forall rel | rel in OwnedPaths(r) ensures rel !in q.entries {
        if rel in q.entries {
          PrintedPaths(front, files, rel);
        }
      }
      PathRowsRead(q, r, OwnedPaths(r), files, done + |Rows(front, files)|);
      ReadConcat(p, Rows(front, files), PathRows(r, OwnedPaths(r), files), done);
    }
  }

  function ExternalsOf(outside: map<string, Trace>, ids: seq<string>): map<string, External> {
    map id | id in ids && id in outside :: ExternalOf(id, outside[id])
  }

  lemma {:induction false} ExternalsNext(outside: map<string, Trace>, ids: seq<string>, id: string)
    requires id in outside && id !in ids
    ensures ExternalsOf(outside, ids + [id]) == ExternalsOf(outside, ids)[id := ExternalOf(id, outside[id])]
    ensures id !in ExternalsOf(outside, ids)
  {
    hide ExternalOf;
  }

  lemma {:induction false} ExternalRowsRead(p: Parsed, outside: map<string, Trace>, ids: seq<string>, done: nat)
    requires p.inExternal && p.external == map[] && Distinct(ids)
    requires forall k :: 0 <= k < |ids| ==> ids[k] in outside
    requires forall k :: 0 <= k < |ids| ==> PrintableExternal(ids[k], outside[ids[k]])
    ensures ReadOn(p, ExternalRows(outside, ids), done) == p.(external := ExternalsOf(outside, ids))
  {
    hide ReadLine, ExternalLine, PrintableExternal, ExternalsOf, ReadOn, ExternalRows, ExternalOf;
    if ids == [] {
      NoExternals(p, outside, done);
    } else {
      var n := |ids| - 1;
      var front, id := ids[..n], ids[n];
      assert ids == front + [id] && ids[..n + 1] == ids;
      ExternalRowsRead(p, outside, front, done);
      ExternalNext(outside, ids, n);
      ExternalsNext(outside, front, id);
      var before := ExternalRows(outside, front);
      OneLine(p, before, ExternalLine(id, outside[id]), done);
      ExternalReads(ReadOn(p, before, done), id, outside[id], done + |before| + 1);
    }
  }

  lemma {:induction false} NoExternals(p: Parsed, outside: map<string, Trace>, done: nat)
    ensures ExternalRows(outside, []) == [] && ExternalsOf(outside, []) == map[] && ReadOn(p, [], done) == p
  {
  }

  lemma {:induction false} OutsideFrom(records: seq<Record>, id: string)
    requires id in Outside(records)
    ensures exists i :: 0 <= i < |records| && records[i].id == id && records[i].trace == Some(Outside(records)[id])
  {
    var n := |records| - 1;
    if !(records[n].kind == "trace" && records[n].trace.Some? && records[n].id == id) {
      OutsideFrom(records[..n], id);
      var i :| 0 <= i < n && records[..n][i].id == id && records[..n][i].trace == Some(Outside(records[..n])[id]);
      assert records[i] == records[..n][i];
    }
  }

  // ------------------------------------------------------------ the round trip

  ghost predicate PlainProse(prose: Prose) {
    && (forall i :: 0 <= i < |prose.intro| ==> Plain(prose.intro[i]))
    && (forall i :: 0 <= i < |prose.note| ==> Plain(prose.note[i]))
    && (forall i :: 0 <= i < |prose.log| ==> Plain(prose.log[i]))
  }

  /** What a printable manifest is made from. */
  ghost predicate PrintableAll(records: seq<Record>, files: Files, ids: seq<string>, prose: Prose) {
    && (forall i :: 0 <= i < |records| ==> Printable(records[i]))
    && DistinctPaths(records) && Digests(files) && PlainProse(prose)
    && Distinct(ids) && forall id :: id in ids <==> id in Outside(records)
  }

  lemma {:induction false} OneLine(p: Parsed, lines: seq<string>, line: string, done: nat)
    ensures ReadOn(p, lines + [line], done) == ReadLine(ReadOn(p, lines, done), line, done + |lines| + 1)
  {
    hide ReadLine;
    assert (lines + [line])[..|lines|] == lines;
  }

  lemma {:induction false} BlankReads(p: Parsed, line: nat)
    ensures ReadLine(p, "", line) == p
  {
  }

  lemma {:induction false} TopReads(p: Parsed, lines: seq<string>)
    requires ReadOn(p, lines, 0) == p && !p.inExternal
    ensures ReadOn(p, lines + TableTop(), 0) == p
  {
    hide ReadLine, Line, Rule, CleanCell;
    var a := lines + [ROW_HEADING];
    var b := a + [""];
    var c := b + [ROW_HEADER];
    OneLine(p, lines, ROW_HEADING, 0);
    OneLine(p, a, "", 0);
    OneLine(p, b, ROW_HEADER, 0);
    OneLine(p, c, ROW_RULE, 0);
    RowHeadingReads(p, |lines| + 1);
    BlankReads(p, |a| + 1);
    HeaderCells();
    HeaderReads(p, ["intake_id", "path", "kind", "bytes", "sha256", "licence", "source"], |b| + 1);
    RuleReads(p, 7, |c| + 1);
    assert c + [ROW_RULE] == lines + [ROW_HEADING, "", ROW_HEADER, ROW_RULE];
  }

  lemma {:induction false} ExternalHeadReads(p: Parsed, lines: seq<string>)
    ensures ReadOn(p, lines + ExternalHead(), 0) == ReadOn(p, lines, 0).(inExternal := true)
  {
    hide ReadLine, ReadOn;
    var q := ReadOn(p, lines, 0);
    var a := lines + [""];
    var b := a + [EXTERNAL_HEADING];
    OneLine(p, lines, "", 0);
    OneLine(p, a, EXTERNAL_HEADING, 0);
    OneLine(p, b, "", 0);
    BlankReads(q, |lines| + 1);
    ExternalHeadingReads(q, |a| + 1);
    BlankReads(q.(inExternal := true), |b| + 1);
    assert b + [""] == lines + ["", EXTERNAL_HEADING, ""];
  }

  lemma {:induction false} ExternalTopReads(p: Parsed, lines: seq<string>)
    ensures ReadOn(p, lines + ExternalColumns(), 0) == ReadOn(p, lines, 0)
  {
    hide ReadLine, ReadOn, Line, Rule, CleanCell;
    var q := ReadOn(p, lines, 0);
    var a := lines + [""];
    var b := a + [EXTERNAL_HEADER];
    OneLine(p, lines, "", 0);
    OneLine(p, a, EXTERNAL_HEADER, 0);
    OneLine(p, b, EXTERNAL_RULE, 0);
    BlankReads(q, |lines| + 1);
    HeaderCells();
    HeaderReads(q, ["intake_id", "format", "bytes", "sha256", "location"], |a| + 1);
    RuleReads(q, 5, |b| + 1);
    assert b + [EXTERNAL_RULE] == lines + ["", EXTERNAL_HEADER, EXTERNAL_RULE];
  }

  lemma {:induction false} MiddleReads(p: Parsed, lines: seq<string>, note: seq<string>, q: Parsed)
    requires ReadOn(p, lines, 0) == q && forall i :: 0 <= i < |note| ==> Plain(note[i])
    ensures ReadOn(p, lines + ExternalTop(note), 0) == q.(inExternal := true)
  {
    hide ReadOn, Plain, ExternalHead, ExternalColumns;
    var c := lines + ExternalHead();
    ExternalHeadReads(p, lines);
    ReadConcat(p, c, note, 0);
    PlainReads(q.(inExternal := true), note, |c|);
    ExternalTopReads(p, c + note);
    assert lines + ExternalTop(note) == c + note + ExternalColumns();
  }

  lemma {:induction false} EndReads(p: Parsed, lines: seq<string>, log: seq<string>, q: Parsed)
    requires ReadOn(p, lines, 0) == q && forall i :: 0 <= i < |log| ==> Plain(log[i])
    ensures ReadOn(p, lines + LogPart(log), 0) == q.(inExternal := false)
  {
    hide ReadLine, Plain;
    var r := q.(inExternal := false);
    var a := lines + [""];
    var b := a + [LOG_HEADING];
    var c := b + [""];
    OneLine(p, lines, "", 0);
    OneLine(p, a, LOG_HEADING, 0);
    OneLine(p, b, "", 0);
    BlankReads(q, |lines| + 1);
    LogHeadingReads(q, |a| + 1);
    BlankReads(r, |b| + 1);
    assert c == lines + ["", LOG_HEADING, ""];
    ReadConcat(p, c, log, 0);
    PlainReads(r, log, |c|);
    assert lines + LogPart(log) == c + log;
  }

  /** Reading the printed lines gives back every printed row and every external row, without a failure. */
  lemma {:induction false} PrintedReadsBack(records: seq<Record>, files: Files, ids: seq<string>, prose: Prose)
    requires PrintableAll(records, files, ids, prose)
    ensures Read(Lines(records, files, ids, prose)) ==
      Parsed(Printed(records, files), ExternalsOf(Outside(records), ids), false, [])
  {
    hide Read, Rows, ExternalRows, Plain, Outside, ReadOn, Printed, ExternalsOf, DistinctPaths, Printable, Digests,
      PrintableExternal,
      TableTop, ExternalTop, LogPart;
    var p := Parsed(map[], map[], false, []);
    var q := p.(entries := Printed(records, files));
    var rows := if Rows(records, files) == [] then [""] else Rows(records, files);
    var top := prose.intro + TableTop() + rows;
    var middle := top + ExternalTop(prose.note);
    var outside := Outside(records);
    TablesRead(p, records, files, prose.intro, q);
    MiddleReads(p, top, prose.note, q);
    assert forall k :: 0 <= k < |ids| ==> ids[k] in ids;
    forall k | 0 <= k < |ids| ensures PrintableExternal(ids[k], outside[ids[k]]) {
      OutsideIsPrintable(records, ids[k]);
    }
    ExternalRowsRead(q.(inExternal := true), outside, ids, |middle|);
    ReadConcat(p, middle, ExternalRows(outside, ids), 0);
    EndReads(
      p, middle + ExternalRows(outside, ids), prose.log,
      q.(inExternal := true, external := ExternalsOf(outside, ids)));
    ReadIsReadOn(Lines(records, files, ids, prose));
  }

  lemma {:induction false} OutsideIsPrintable(records: seq<Record>, id: string)
    requires id in Outside(records) && forall i :: 0 <= i < |records| ==> Printable(records[i])
    ensures PrintableExternal(id, Outside(records)[id])
  {
    hide CleanCell, PrintableTrace, NotAHeader, Outside;
    OutsideFrom(records, id);
  }

  lemma {:induction false} TablesRead(p: Parsed, records: seq<Record>, files: Files, intro: seq<string>, q: Parsed)
    requires p == Parsed(map[], map[], false, []) && q == p.(entries := Printed(records, files))
    requires Digests(files) && DistinctPaths(records) && forall i :: 0 <= i < |records| ==> Printable(records[i])
    requires forall i :: 0 <= i < |intro| ==> Plain(intro[i])
    ensures ReadOn(p, intro + TableTop() + (if Rows(records, files) == [] then [""] else Rows(records, files)), 0) == q
  {
    hide Rows, ReadOn, Plain, Printable, Digests, DistinctPaths, Printed, TableTop;
    var top := intro + TableTop();
    PlainReads(p, intro, 0);
    TopReads(p, intro);
    RowsRead(p, records, files, |top|);
    TableReads(p, Rows(records, files), q, |top|);
    ReadConcat(p, top, if Rows(records, files) == [] then [""] else Rows(records, files), 0);
  }

  lemma {:induction false} TableReads(p: Parsed, rows: seq<string>, q: Parsed, done: nat)
    requires ReadOn(p, rows, done) == q
    ensures ReadOn(p, if rows == [] then [""] else rows, done) == q
  {
    hide ReadLine;
    if rows == [] {
      OneLine(p, [], "", done);
      BlankReads(p, done + 1);
      assert [] + [""] == [""];
    }
  }

  // ---------------------------------------------------------------- the text

  predicate AllUnbroken(lines: seq<string>) { forall i :: 0 <= i < |lines| ==> Unbroken(lines[i]) }

  lemma {:induction false} JoinUnbroken(pieces: seq<string>)
    requires AllUnbroken(pieces)
    ensures Unbroken(Join(pieces, "|"))
  {
    if |pieces| > 1 {
      assert AllUnbroken(pieces[1..]);
      JoinUnbroken(pieces[1..]);
    }
  }

  lemma {:induction false} LineUnbroken(cells: seq<string>, shown: seq<string>)
    requires |cells| == |shown|
    requires forall i :: 0 <= i < |cells| ==>
      CleanCell(shown[i]) && (cells[i] == shown[i] || cells[i] == Code(shown[i]))
    ensures Unbroken(Line(cells))
  {
    hide CleanCell, Join, StripMarkup;
    forall i | 0 <= i < |cells| ensures Unbroken(Padded(cells)[i]) { CellReads(cells[i], shown[i]); }
    JoinUnbroken(Padded(cells));
  }

  lemma {:induction false} RowUnbroken(r: Record, rel: string, file: File)
    requires Printable(r) && CleanCell(rel) && IsDigest(file.sha256)
    ensures Unbroken(Line(RowCells(r, rel, file)))
  {
    hide CleanCell, Line, Decimal, IsDigest, Lower, Unbroken, OnlyRule, ParseInt;
    Constants();
    PrefixIsClean("data/intake/", rel);
    DigestIsClean(file.sha256);
    DecimalIsClean(file.size);
    LineUnbroken(
      RowCells(r, rel, file),
      [r.id, "data/intake/" + rel, KindOf(r, rel), Decimal(file.size), file.sha256, PrintedLicence(r), r.source]);
  }

  lemma {:induction false} PathRowsUnbroken(r: Record, paths: seq<string>, files: Files)
    requires Printable(r) && Digests(files) && forall rel :: rel in paths ==> CleanCell(rel)
    ensures AllUnbroken(PathRows(r, paths, files))
  {
    hide Printable, CleanCell, Line, RowCells, IsDigest, Unbroken;
    if paths != [] {
      var n := |paths| - 1;
      assert paths[n] in paths;
      PathRowsUnbroken(r, paths[..n], files);
      if paths[n] in files { RowUnbroken(r, paths[n], files[paths[n]]); }
    }
  }

  lemma {:induction false} RowsUnbroken(records: seq<Record>, files: Files)
    requires Digests(files) && forall i :: 0 <= i < |records| ==> Printable(records[i])
    ensures AllUnbroken(Rows(records, files))
  {
    hide Printable, Digests, OwnedPaths, PathRows, Unbroken, CleanCell;
    if records != [] {
      var n := |records| - 1;
      RowsUnbroken(records[..n], files);
      OwnedAreClean(records[n]);
      PathRowsUnbroken(records[n], OwnedPaths(records[n]), files);
    }
  }

  lemma {:induction false} ExternalRowsUnbroken(outside: map<string, Trace>, ids: seq<string>)
    requires forall k :: 0 <= k < |ids| ==> ids[k] in outside
    requires forall k :: 0 <= k < |ids| ==> PrintableExternal(ids[k], outside[ids[k]])
    ensures AllUnbroken(ExternalRows(outside, ids))
  {
    hide PrintableExternal, ExternalLine, Unbroken;
    if ids != [] {
      var n := |ids| - 1;
      ExternalRowsUnbroken(outside, ids[..n]);
      ExternalUnbroken(ids[n], outside[ids[n]]);
    }
  }

  lemma {:induction false} ExternalUnbroken(id: string, t: Trace)
    requires PrintableExternal(id, t)
    ensures Unbroken(ExternalLine(id, t))
  {
    hide CleanCell, Line, IsDigest, Lower, Unbroken, OnlyRule, ParseInt;
    DigestIsClean(t.sha256);
    LineUnbroken(
      [id, t.format, t.bytes, Code(t.sha256), Code(t.location)],
      [id, t.format, t.bytes, t.sha256, t.location]);
  }

  lemma {:induction false} FixedUnbroken()
    ensures AllUnbroken(TableTop()) && AllUnbroken(ExternalHead()) && AllUnbroken(ExternalColumns())
  {
    hide Line, Unbroken, CleanCell;
    HeaderCells();
    var rows := ["intake_id", "path", "kind", "bytes", "sha256", "licence", "source"];
    var columns := ["intake_id", "format", "bytes", "sha256", "location"];
    LineUnbroken(rows, rows);
    LineUnbroken(columns, columns);
    RuleUnbroken(7);
    RuleUnbroken(5);
    HeadingsUnbroken();
  }

  lemma {:induction false} RuleUnbroken(n: nat)
    ensures Unbroken(Rule(n))
  {
    hide Join;
    var pieces := seq(n, i => "---");
    forall i | 0 <= i < |pieces| ensures Unbroken(pieces[i]) { assert pieces[i] == "---"; }
    JoinUnbroken(pieces);
  }

  lemma {:induction false} HeadingsUnbroken()
    ensures Unbroken(ROW_HEADING) && Unbroken(EXTERNAL_HEADING) && Unbroken(LOG_HEADING) && Unbroken("")
  {
    ExternalHeadingUnbroken();
  }

  lemma {:induction false} ExternalHeadingUnbroken()
    ensures Unbroken(EXTERNAL_HEADING)
  {
    ExternalHeadingParts();
    assert Unbroken("## Git'e girmeyen ") && Unbroken("trace'ler ") && Unbroken("(yalnız hash + konum)");
  }

  lemma {:induction false} UnbrokenConcat(a: seq<string>, b: seq<string>)
    requires AllUnbroken(a) && AllUnbroken(b)
    ensures AllUnbroken(a + b)
  {
    hide Unbroken;
  }

  /**
   * The printed text, each line ended by a line feed, is read line by line as it was
   * printed, so reading the text gives back the printed rows.
   */
  lemma {:induction false} TextReadsBack(records: seq<Record>, files: Files, ids: seq<string>, prose: Prose)
    requires PrintableAll(records, files, ids, prose)
    requires AllUnbroken(prose.intro) && AllUnbroken(prose.note) && AllUnbroken(prose.log)
    ensures Read(SplitLines(WriteLines(Lines(records, files, ids, prose)))) ==
      Parsed(Printed(records, files), ExternalsOf(Outside(records), ids), false, [])
  {
    hide Read, Rows, ExternalRows, Plain, Outside, Printed, ExternalsOf, DistinctPaths, Printable, Digests,
      PrintableExternal,
      TableTop, ExternalHead, ExternalColumns, WriteLines, SplitLines, Unbroken;
    var lines := Lines(records, files, ids, prose);
    var rows := if Rows(records, files) == [] then [""] else Rows(records, files);
    RowsUnbroken(records, files);
    assert forall k :: 0 <= k < |ids| ==> ids[k] in ids;
    forall k | 0 <= k < |ids| ensures PrintableExternal(ids[k], Outside(records)[ids[k]]) {
      OutsideIsPrintable(records, ids[k]);
    }
    ExternalRowsUnbroken(Outside(records), ids);
    FixedUnbroken();
    HeadingsUnbroken();
    UnbrokenConcat(prose.intro, TableTop());
    UnbrokenConcat(prose.intro + TableTop(), rows);
    UnbrokenConcat(ExternalHead(), prose.note);
    UnbrokenConcat(ExternalHead() + prose.note, ExternalColumns());
    UnbrokenConcat(prose.intro + TableTop() + rows, ExternalTop(prose.note));
    UnbrokenConcat(prose.intro + TableTop() + rows + ExternalTop(prose.note), ExternalRows(Outside(records), ids));
    UnbrokenConcat(["", LOG_HEADING, ""], prose.log);
    UnbrokenConcat(
      prose.intro + TableTop() + rows + ExternalTop(prose.note) + ExternalRows(Outside(records), ids),
      LogPart(prose.log));
    WrittenLinesRead(lines);
    PrintedReadsBack(records, files, ids, prose);
  }

  // ------------------------------------------------------------- the three ways

  lemma {:induction false} ClaimedAt(expected: map<string, Record>, paths: seq<string>, r: Record, rel: string)
    ensures rel in Claimed(expected, paths, r) <==> rel in expected || rel in paths
    ensures rel in paths ==> Claimed(expected, paths, r)[rel] == r
    ensures rel !in paths && rel in expected ==> Claimed(expected, paths, r)[rel] == expected[rel]
  {
    if paths != [] {
      var n := |paths| - 1;
      ClaimedAt(expected, paths[..n], r, rel);
      assert paths == paths[..n] + [paths[n]];
    }
  }

  /** The printed rows are those of the owning records whose files exist. */
  lemma {:induction false} PrintedAt(records: seq<Record>, files: Files, rel: string)
    ensures rel in Printed(records, files) <==> rel in Expected(records) && rel in files
    ensures rel in Printed(records, files) ==>
      Printed(records, files)[rel] == EntryOf(Expected(records)[rel], rel, files[rel])
  {
    hide OwnedPaths, EntryOf, Claimed;
    if records != [] {
      var n := |records| - 1;
      PrintedAt(records[..n], files, rel);
      ClaimedAt(Expected(records[..n]), OwnedPaths(records[n]), records[n], rel);
    }
  }

  /**
   * The check of a printed manifest finds nothing if and only if every owned file exists
   * and every owning record has a licence: an empty one is printed as "unknown", and the
   * check compares with the empty text.
   */
  lemma {:induction false} PrintedPassesIff(records: seq<Record>, files: Files)
    ensures Consistent(records, Printed(records, files), files) <==>
      forall rel :: rel in Expected(records) ==> rel in files && Expected(records)[rel].licence != ""
  {
    hide Expected, Printed, KindOf;
    var rows, expected := Printed(records, files), Expected(records);
    forall rel
      ensures rel in rows <==> rel in expected && rel in files
      ensures rel in rows ==> rows[rel] == EntryOf(expected[rel], rel, files[rel])
    {
      PrintedAt(records, files, rel);
    }
    if Consistent(records, rows, files) {
      forall rel | rel in expected ensures rel in files && expected[rel].licence != "" {
        assert rel in rows.Keys;
        assert RowMatches(rel, expected[rel], rows, files);
      }
    }
    if forall rel :: rel in expected ==> rel in files && expected[rel].licence != "" {
      assert rows.Keys == expected.Keys;
    }
  }
}
