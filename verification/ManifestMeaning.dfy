// What the rows of the manifest mean: which files a record owns, what a row's cells
// become, and which rows are refused for what.
module ManifestMeaning {
  import opened Wrappers
  import opened Text
  import opened Numbers
  import opened Manifest
  import opened ManifestLaws

  // ------------------------------------------------------------------ owned files

  /** A record owns its own file, and a trace kept in git its frame file too. */
  lemma {:induction false} OwnedIs(r: Record, rel: string)
    ensures rel in OwnedPaths(r) <==>
      rel == r.relPath || (r.kind == "trace" && r.frame.Some? && rel == "traces/" + r.frame.value)
    ensures |OwnedPaths(r)| > 0 && OwnedPaths(r)[0] == r.relPath
  {
  }

  lemma {:induction false} ClaimedIs(expected: map<string, Record>, paths: seq<string>, r: Record, rel: string)
    ensures rel in Claimed(expected, paths, r) <==> rel in expected || rel in paths
    ensures rel in Claimed(expected, paths, r) ==>
      Claimed(expected, paths, r)[rel] == if rel in paths then r else expected[rel]
  {
    if paths != [] {
      ClaimedIs(expected, paths[..|paths| - 1], r, rel);
      assert paths == paths[..|paths| - 1] + [paths[|paths| - 1]];
    }
  }

  /** A path is expected exactly if a record owns it, and then of the last record that does. */
  lemma {:induction false} ExpectedIs(records: seq<Record>, rel: string)
    ensures rel in Expected(records) <==> exists k :: 0 <= k < |records| && rel in OwnedPaths(records[k])
    ensures rel in Expected(records) ==>
      exists k :: 0 <= k < |records| && rel in OwnedPaths(records[k]) && Expected(records)[rel] == records[k]
        && forall j :: k < j < |records| ==> rel !in OwnedPaths(records[j])
  {
    hide OwnedPaths;
    if records != [] {
      var n := |records| - 1;
      ExpectedIs(records[..n], rel);
      ClaimedIs(Expected(records[..n]), OwnedPaths(records[n]), records[n], rel);
      if rel !in OwnedPaths(records[n]) {
        if rel in Expected(records[..n]) {
          var k :| 0 <= k < n && rel in OwnedPaths(records[..n][k]) && Expected(records[..n])[rel] == records[..n][k]
            && forall j :: k < j < n ==> rel !in OwnedPaths(records[..n][j]);
          assert forall j :: k <= j < n ==> records[j] == records[..n][j];
        }
        if k :| 0 <= k < |records| && rel in OwnedPaths(records[k]) {
          assert records[..n][k] == records[k];
        }
      }
    }
  }

  /** A trace kept outside git is printed under its intake id, as its last record describes it. */
  lemma {:induction false} OutsideIs(records: seq<Record>, r: Record, id: string)
    ensures Outside([]) == map[]
    ensures Outside(records + [r]) ==
      if r.kind == "trace" && r.trace.Some? then Outside(records)[r.id := r.trace.value] else Outside(records)
    ensures id in Outside(records) ==>
      exists k :: 0 <= k < |records| && records[k].kind == "trace" && records[k].id == id
        && records[k].trace == Some(Outside(records)[id])
  {
    assert (records + [r])[..|records|] == records;
    if records != [] {
      var n := |records| - 1;
      OutsideIs(records[..n], r, id);
      if id in Outside(records) && !(records[n].kind == "trace" && records[n].trace.Some? && records[n].id == id) {
        var k :| 0 <= k < n && records[..n][k].kind == "trace" && records[..n][k].id == id
          && records[..n][k].trace == Some(Outside(records[..n])[id]);
        assert records[k] == records[..n][k];
      }
    }
  }

  /** The kind a row prints: that of its record, but for the frame file of a trace. */
  lemma {:induction false} KindIs(r: Record)
    ensures KindOf(r, r.relPath) == r.kind
    ensures forall rel :: r.kind == "trace" && rel != r.relPath ==> KindOf(r, rel) == "trace_frames"
    ensures forall rel :: r.kind != "trace" ==> KindOf(r, rel) == r.kind
  {
  }

  // ------------------------------------------------------------------ whole numbers

  /** Digits, in groups with single underscores between them. */
  predicate Grouped(groups: seq<string>) {
    groups != [] && forall i :: 0 <= i < |groups| ==> groups[i] != "" && AllDigits(groups[i])
  }

  function Together(groups: seq<string>): (r: string)
    ensures Grouped(groups) ==> AllDigits(r) && r != ""
  {
    if groups == [] then ""
    else if |groups| == 1 then groups[0]
    else groups[0] + Together(groups[1..])
  }

  lemma {:induction false} GroupedReads(groups: seq<string>)
    requires Grouped(groups)
    ensures var s := Join(groups, "_");
      && s != "" && IsDigit(s[0]) && IsDigit(s[|s| - 1]) && SingleUnderscores(s)
      && WithoutUnderscores(s) == Together(groups)
  {
    var s := Join(groups, "_");
    if |groups| == 1 {
      NoUnderscores(s);
    } else {
      GroupedReads(groups[1..]);
      var rest := Join(groups[1..], "_");
      assert s == groups[0] + ("_" + rest);
      UnderscoredConcat(groups[0], rest);
    }
  }

  lemma {:induction false} UnderscoredConcat(digits: string, rest: string)
    requires AllDigits(digits) && rest != "" && IsDigit(rest[0]) && SingleUnderscores(rest)
    ensures var s := digits + ("_" + rest);
      SingleUnderscores(s) && WithoutUnderscores(s) == digits + WithoutUnderscores(rest)
  {
    hide SingleUnderscores, WithoutUnderscores, Value;
    var s := digits + ("_" + rest);
    if digits == "" {
      assert s == "_" + rest;
      FrontDropped('_', rest);
      assert digits + WithoutUnderscores(rest) == WithoutUnderscores(rest);
    } else {
      var tail := digits[1..] + ("_" + rest);
      UnderscoredConcat(digits[1..], rest);
      FrontDropped(digits[0], tail);
      assert s == [digits[0]] + tail;
      assert digits + WithoutUnderscores(rest) == [digits[0]] + (digits[1..] + WithoutUnderscores(rest));
    }
  }

  lemma {:induction false} FrontDropped(c: char, rest: string)
    requires SingleUnderscores(rest) && (IsDigit(c) || (c == '_' && rest != "" && IsDigit(rest[0])))
    ensures SingleUnderscores([c] + rest)
    ensures WithoutUnderscores([c] + rest) == (if c == '_' then "" else [c]) + WithoutUnderscores(rest)
  {
    hide SingleUnderscores;
    SingleFront(c, rest);
    assert ([c] + rest)[1..] == rest;
  }

  lemma {:induction false} SingleFront(c: char, rest: string)
    requires SingleUnderscores(rest) && (IsDigit(c) || (c == '_' && rest != "" && IsDigit(rest[0])))
    ensures SingleUnderscores([c] + rest)
  {
    var s := [c] + rest;
    forall i: nat | i < |s| ensures WellPlaced(s, i) {
      if i > 0 { assert WellPlaced(rest, i - 1); }
    }
  }

  /** A whole number reads with or without a sign, whatever its groups. */
  lemma {:induction false} IntReads(groups: seq<string>)
    requires Grouped(groups)
    ensures ParseInt(Join(groups, "_")) == Some(Value(Together(groups)))
    ensures ParseInt("+" + Join(groups, "_")) == Some(Value(Together(groups)))
    ensures ParseInt("-" + Join(groups, "_")) == Some(0 - Value(Together(groups)))
  {
    hide Value, Join, SingleUnderscores, WithoutUnderscores;
    var s := Join(groups, "_");
    GroupedReads(groups);
    assert ("+" + s)[1..] == s && ("-" + s)[1..] == s;
  }

  lemma {:induction false} GroupsOf(s: string) returns (groups: seq<string>)
    requires s != "" && IsDigit(s[0]) && IsDigit(s[|s| - 1]) && SingleUnderscores(s)
    ensures Grouped(groups) && s == Join(groups, "_")
  {
    groups := Split(s, '_');
    JoinSplit(s, '_');
    SplitDigits(s);
  }

  lemma {:induction false} SplitDigits(s: string)
    requires s != "" && IsDigit(s[0]) && IsDigit(s[|s| - 1]) && SingleUnderscores(s)
    ensures Grouped(Split(s, '_'))
  {
    if |s| > 1 {
      SingleTail(s);
      var t := s[1..];
      if t[0] == '_' {
        assert WellPlaced(t, 0);
        SingleTail(t);
        SplitDigits(t[1..]);
      } else {
        assert WellPlaced(t, 0);
        SplitDigits(t);
      }
    } else {
      assert s[1..] == "";
    }
  }

  lemma {:induction false} SingleTail(s: string)
    requires SingleUnderscores(s) && |s| > 0
    ensures SingleUnderscores(s[1..])
  {
    forall i: nat | i < |s[1..]| ensures WellPlaced(s[1..], i) { assert WellPlaced(s, i + 1); }
  }

  /** And nothing else does. */
  lemma {:induction false} OnlyInts(s: string)
    requires ParseInt(s).Some?
    ensures exists groups, sign :: Grouped(groups) && sign in {"", "+", "-"} && s == sign + Join(groups, "_")
  {
    hide Value, Join, SingleUnderscores, WithoutUnderscores;
    var sign := if s != "" && s[0] in {'+', '-'} then [s[0]] else "";
    var body := s[|sign|..];
    var groups := GroupsOf(body);
    assert s == sign + body;
    assert Grouped(groups) && sign in {"", "+", "-"} && s == sign + Join(groups, "_");
  }

  function Bars(cells: seq<string>): string {
    if cells == [] then "|" else "| " + cells[0] + " " + Bars(cells[1..])
  }

  /** A row is its cells between bars. */
  lemma {:induction false} LineIsBars(cells: seq<string>)
    requires cells != []
    ensures Line(cells) == Bars(cells)
  {
    hide Join;
    PaddedBars(cells);
  }

  lemma {:induction false} PaddedBars(cells: seq<string>)
    requires cells != []
    ensures "|" + Join(Padded(cells), "|") + "|" == Bars(cells)
  {
    var p := Padded(cells);
    if |cells| == 1 {
      assert Bars(cells[1..]) == "|";
    } else {
      PaddedBars(cells[1..]);
      assert p[1..] == Padded(cells[1..]);
      assert "|" + Join(p, "|") + "|" == "| " + cells[0] + " " + ("|" + Join(p[1..], "|") + "|");
    }
  }

  /** The text of a printed row. */
  lemma {:induction false} RowText(r: Record, rel: string, file: File)
    ensures Line(RowCells(r, rel, file)) ==
      Bars([
        r.id, "`data/intake/" + rel + "`", KindOf(r, rel), Decimal(file.size), "`" + file.sha256 + "`",
        PrintedLicence(r), "`" + r.source + "`"])
  {
    hide Decimal, KindOf, PrintedLicence, Line, Bars;
    LineIsBars(RowCells(r, rel, file));
    assert "`" + ("data/intake/" + rel) + "`" == "`data/intake/" + rel + "`";
  }

  // ---------------------------------------------------------------------- digests

  lemma {:induction false} SmallHexIs(c: char)
    ensures c in "0123456789abcdef" <==> '0' <= c <= '9' || 'a' <= c <= 'f'
  {
    var hex := "0123456789abcdef";
    assert forall k :: 0 <= k < 10 ==> hex[k] as int == 48 + k;
    assert forall k :: 10 <= k < 16 ==> hex[k] as int == 87 + k;
    if '0' <= c <= '9' { assert hex[c as int - 48] == c; }
    if 'a' <= c <= 'f' { assert hex[c as int - 87] == c; }
  }

  /** A digest is sixty-four small hexadecimal digits. */
  predicate Digest(s: string) { |s| == 64 && forall i :: 0 <= i < |s| ==> s[i] in "0123456789abcdef" }

  lemma {:induction false} DigestIs(s: string)
    ensures IsDigest(s) <==> Digest(s)
  {
    forall i | 0 <= i < |s| ensures s[i] in "0123456789abcdef" <==> '0' <= s[i] <= '9' || 'a' <= s[i] <= 'f' {
      SmallHexIs(s[i]);
    }
  }

  // ----------------------------------------------------------------- the cells of a line

  predicate AllBars(s: string) { forall i :: 0 <= i < |s| ==> s[i] == '|' }

  lemma {:induction false} FrontOff(front: string, s: string)
    requires AllBars(front) && (s != "" ==> s[0] != '|')
    ensures DropFront(front + s) == s
  {
    if front == "" {
      assert front + s == s;
    } else {
      assert (front + s)[1..] == front[1..] + s;
      FrontOff(front[1..], s);
    }
  }

  lemma {:induction false} BackOff(s: string, back: string)
    requires AllBars(back) && (s != "" ==> s[|s| - 1] != '|')
    ensures DropBack(s + back) == s
  {
    if back == "" {
      assert s + back == s;
    } else {
      assert (s + back)[..|s + back| - 1] == s + back[..|back| - 1];
      BackOff(s, back[..|back| - 1]);
    }
  }

  /** Between any number of bars at either end a line holds its cells, without marks and trimmed. */
  lemma {:induction false} CellsAre(front: string, cells: seq<string>, back: string)
    requires AllBars(front) && AllBars(back) && cells != [] && cells[0] != "" && cells[|cells| - 1] != ""
    requires forall i :: 0 <= i < |cells| ==> '|' !in cells[i]
    ensures var r := CellsOf(front + (Join(cells, "|") + back));
      |r| == |cells| && forall i :: 0 <= i < |r| ==> r[i] == StripMarkup(cells[i])
  {
    hide DropFront, DropBack, Split, StripMarkup, Join;
    var s := Join(cells, "|");
    JoinEnds(cells);
    FrontOff(front, s + back);
    BackOff(s, back);
    SplitJoin(cells, '|');
  }

  lemma {:induction false} JoinEnds(cells: seq<string>)
    requires cells != [] && cells[|cells| - 1] != ""
    requires forall i :: 0 <= i < |cells| ==> '|' !in cells[i]
    ensures var s := Join(cells, "|");
      s != "" && s[|s| - 1] != '|' && (cells[0] != "" ==> s[0] != '|')
  {
    if |cells| > 1 { JoinEnds(cells[1..]); }
  }

  /** Back quotes and stars are taken out of a cell wherever they stand, and nothing else. */
  lemma {:induction false} MarksOff(a: string, c: char, b: string)
    ensures Without(a + [c] + b, {'`', '*'}) ==
      Without(a, {'`', '*'}) + (if c == '`' || c == '*' then "" else [c]) + Without(b, {'`', '*'})
  {
    if a == "" {
      assert a + [c] + b == [c] + b && ([c] + b)[1..] == b;
    } else {
      assert (a + [c] + b)[1..] == a[1..] + [c] + b;
      MarksOff(a[1..], c, b);
    }
  }

  // ------------------------------------------------------------------- one table row

  /** Cells that make a row of a table: not a rule, and not a header. */
  predicate Content(cells: seq<string>) {
    && (exists i :: 0 <= i < |cells| && exists k :: 0 <= k < |cells[i]| && cells[i][k] != '-' && cells[i][k] != ':')
    && cells != [] && Lower(cells[0]) != "intake_id" && Lower(cells[0]) != "intake id"
  }

  lemma {:induction false} ContentIs(cells: seq<string>)
    ensures cells != [] ==> (Content(cells) <==> !IsRule(cells) && !IsHeader(cells))
  {
    hide Lower;
    if i :| 0 <= i < |cells| && exists k :: 0 <= k < |cells[i]| && cells[i][k] != '-' && cells[i][k] != ':' {
      assert !OnlyRule(cells[i]);
    }
  }

  /** The path a cell names, below the intake directory. */
  lemma {:induction false} BelowIntake(rel: string)
    ensures Unprefixed("data/intake/" + rel) == rel
    ensures !StartsWith(rel, "data/intake/") ==> Unprefixed(rel) == rel
  {
  }

  /** Why a row of the first table is refused, if it is. */
  function Refusal(p: Parsed, cells: seq<string>): Option<Problem> {
    if |cells| < 7 then Some(TooFewColumns)
    else if ParseInt(cells[3]) == None then Some(SizeNotInteger)
    else if !Digest(cells[4]) then Some(NotADigest)
    else if Unprefixed(cells[1]) in p.entries then Some(DuplicateRow)
    else None
  }

  /** A row of the first table adds its entry, or says why not and adds nothing. */
  lemma {:induction false} RowMeans(p: Parsed, cells: seq<string>, shown: seq<string>, line: nat)
    requires !p.inExternal && |cells| == |shown| > 0 && Content(shown)
    requires forall i :: 0 <= i < |cells| ==>
      CleanCell(shown[i]) && (cells[i] == shown[i] || cells[i] == Code(shown[i]))
    ensures var q, why := ReadLine(p, Line(cells), line), Refusal(p, shown);
      && q.external == p.external && !q.inExternal
      && q.failures == p.failures + (if why.Some? then [Failure(line, why.value)] else [])
      && q.entries ==
         if why.Some? then p.entries
         else
           var rel := Unprefixed(shown[1]);
           p.entries[rel := Entry(shown[0], rel, shown[2], ParseInt(shown[3]).value, shown[4], shown[5], shown[6])]
  {
    hide CleanCell, Line, CellsOf, ParseInt, IsDigest, Digest, Strip, StartsWith, Unprefixed, Content, IsRule, IsHeader;
    LineReads(cells, shown);
    ContentIs(shown);
    if |shown| >= 7 { DigestIs(shown[4]); }
  }

  function ExternalRefusal(cells: seq<string>): Option<Problem> {
    if |cells| < 5 then Some(TooFewColumns)
    else if ParseInt(cells[2]) == None then Some(SizeNotInteger)
    else if !Digest(cells[3]) then Some(NotADigest)
    else None
  }

  /** A row of the second table replaces an earlier one of its id, which is reported. */
  lemma {:induction false} ExternalRowMeans(p: Parsed, cells: seq<string>, shown: seq<string>, line: nat)
    requires p.inExternal && |cells| == |shown| > 0 && Content(shown)
    requires forall i :: 0 <= i < |cells| ==>
      CleanCell(shown[i]) && (cells[i] == shown[i] || cells[i] == Code(shown[i]))
    ensures var q, why := ReadLine(p, Line(cells), line), ExternalRefusal(shown);
      && q.entries == p.entries && q.inExternal
      && q.failures == p.failures
         + (if why.Some? then [Failure(line, why.value)]
            else if shown[0] in p.external then [Failure(line, DuplicateExternal)] else [])
      && q.external ==
         if why.Some? then p.external
         else p.external[shown[0] := External(shown[0], shown[1], ParseInt(shown[2]).value, shown[3], shown[4])]
  {
    hide CleanCell, Line, CellsOf, ParseInt, IsDigest, Digest, Strip, StartsWith, Content, IsRule, IsHeader;
    LineReads(cells, shown);
    ContentIs(shown);
    if |shown| >= 5 { DigestIs(shown[3]); }
  }

  /** A heading opens the second table if it mentions either word for it, in any case, and the first otherwise. */
  lemma {:induction false} HeadingMeans(p: Parsed, heading: string, line: nat)
    requires StartsWith(Strip(heading), "##")
    ensures ReadLine(p, heading, line) ==
      p.(inExternal := Mentions(Lower(Strip(heading)), "girmeyen") || Mentions(Lower(Strip(heading)), "external"))
  {
    hide Strip, Mentions, Lower;
  }

  /** The printed headers name the columns in the order in which they are read. */
  lemma {:induction false} HeadersNameColumns()
    ensures CellsOf(ROW_HEADER) == ["intake_id", "path", "kind", "bytes", "sha256", "licence", "source"]
    ensures CellsOf(EXTERNAL_HEADER) == ["intake_id", "format", "bytes", "sha256", "location"]
  {
    hide CellsOf, Line, CleanCell;
    HeaderCells();
    LineReads(
      ["intake_id", "path", "kind", "bytes", "sha256", "licence", "source"],
      ["intake_id", "path", "kind", "bytes", "sha256", "licence", "source"]);
    LineReads(
      ["intake_id", "format", "bytes", "sha256", "location"], ["intake_id", "format", "bytes", "sha256", "location"]);
  }
}
