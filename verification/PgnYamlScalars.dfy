// The scalars of the restricted YAML reader: block texts under every header, plain texts
// over several lines, numbers and quotes, and the lines that do not count.
module PgnYamlScalars {
  import opened Text
  import opened PgnYaml
  import opened PgnYamlLayout
  import opened PgnYamlReader

  // -------------------------------------------------------------------- block texts

  /** What a header says: where lines are joined, and what is put behind them. */
  datatype Style = Style(header: string, joint: char, end: string)

  predicate StyleOk(s: Style) {
    s in {
      Style("|", '\n', "\n"), Style("|-", '\n', ""), Style("|+", '\n', "\n"),
      Style(">", ' ', "\n"), Style(">-", ' ', ""), Style(">+", ' ', "\n")}
  }

  lemma {:induction false} BlockTextReads(s: Style, text: string, n: nat)
    requires StyleOk(s)
    ensures BlockHeader(s.header) && BlockText(s.header, At(n, Split(text, s.joint))) == text + s.end
  {
    hide Split, Join;
    assert Contents(At(n, Split(text, s.joint))) == Split(text, s.joint);
    JoinSplit(text, s.joint);
    assert [s.joint] == if s.joint == '\n' then "\n" else " ";
    assert text + "" == text;
  }

  /** A text laid out under any of the six headers, one line for each piece, reads back with the header's ending. */
  lemma {:induction false} BlockTextRoundTrip(key: string, s: Style, text: string, n: nat, suf: seq<Line>)
    requires KeyOk(key) && StyleOk(s) && (suf == [] || suf[0].indent <= n)
    ensures ReadEntry([Line(n, Pair(key, " " + s.header))] + At(n + 2, Split(text, s.joint)) + suf, n) ==
      Ok((Entry(key, Value.Text(text + s.end)), suf))
  {
    hide ReadEntry, Split, BlockText, Partition, Pair, Deeper, StyleOk, KeyOk;
    HeaderIsPlain(s);
    PartitionLine(key, " ", s.header);
    BlockTextReads(s, text, n + 2);
    var header := Line(n, Pair(key, " " + s.header));
    var tail := At(n + 2, Split(text, s.joint));
    Tailed(header, tail, suf);
    DeeperSplit(tail, suf, n);
    KeyWithBlock([header] + tail + suf, key, s.header, n);
  }

  lemma {:induction false} Tailed(header: Line, tail: seq<Line>, suf: seq<Line>)
    ensures var ls, k := [header] + tail + suf, 1 + |tail|;
      |ls| >= k && ls[0] == header && ls[1..] == tail + suf && ls[1..k] == tail && ls[k..] == suf
  {
  }

  lemma {:induction false} HeaderIsPlain(s: Style)
    requires StyleOk(s)
    ensures Stripped(s.header) && AllSpace(" ")
  {
  }

  // ------------------------------------------------------- texts over several lines

  /** A plain text goes on over deeper lines that are no dash lines; a space joins them. */
  lemma {:induction false} PlainTextRoundTrip(key: string, first: string, more: seq<string>, n: nat, suf: seq<Line>)
    requires KeyOk(key) && first != "" && Stripped(first) && !BlockHeader(first)
    requires more != [] && forall i :: 0 <= i < |more| ==> !Dash(more[i])
    requires suf == [] || suf[0].indent <= n || Dash(suf[0].content)
    ensures ReadEntry([Line(n, Pair(key, " " + first))] + At(n + 2, more) + suf, n) ==
      Ok((Entry(key, Value.Text(Join([first] + more, " "))), suf))
  {
    hide ReadEntry, Join, BlockHeader, Partition, Pair, Continuation, KeyOk;
    SpaceIsPad();
    PartitionLine(key, " ", first);
    var header := Line(n, Pair(key, " " + first));
    var tail := At(n + 2, more);
    Tailed(header, tail, suf);
    GoesOn(tail, suf, n);
    assert Contents(tail) == more;
    KeyWithScalar([header] + tail + suf, key, first, n);
  }

  lemma {:induction false} SpaceIsPad()
    ensures AllSpace(" ")
  {
  }

  lemma {:induction false} GoesOn(tail: seq<Line>, suf: seq<Line>, n: nat)
    requires forall i :: 0 <= i < |tail| ==> tail[i].indent > n && !Dash(tail[i].content)
    requires suf == [] || suf[0].indent <= n || Dash(suf[0].content)
    ensures Continuation(tail + suf, n) == |tail|
  {
    if tail == [] {
      assert tail + suf == suf;
    } else {
      assert (tail + suf)[1..] == tail[1..] + suf;
      GoesOn(tail[1..], suf, n);
    }
  }

  // -------------------------------------------------------------- numbers and quotes

  predicate DigitText(s: string) { s != "" && forall i :: 0 <= i < |s| ==> s[i] in "0123456789" }

  lemma {:induction false} DigitIs(c: char)
    ensures c in "0123456789" <==> '0' <= c <= '9'
  {
    var digits := "0123456789";
    assert forall i :: 0 <= i < 10 ==> digits[i] as int == 48 + i;
    if '0' <= c <= '9' { assert digits[c as int - 48] == c; }
  }

  lemma {:induction false} DigitTextIs(s: string)
    ensures DigitText(s) <==> IsDigits(s)
  {
    forall i | 0 <= i < |s| ensures s[i] in "0123456789" <==> '0' <= s[i] <= '9' { DigitIs(s[i]); }
  }

  /** A whole number: digits, with a minus before them or not. */
  ghost predicate WholeText(s: string) { DigitText(s) || (|s| > 1 && s[0] == '-' && DigitText(s[1..])) }

  /** A number with a point and digits on both sides of it. */
  ghost predicate PointText(s: string) {
    exists whole, digits :: WholeText(whole) && DigitText(digits) && s == whole + "." + digits
  }

  /** A text between two equal quotes. */
  predicate QuotedText(s: string) { |s| >= 2 && s[|s| - 1] == s[0] && (s[0] == '\'' || s[0] == '"') }

  lemma {:induction false} WholeIs(s: string)
    ensures IsInt(s) <==> WholeText(s)
  {
    DigitTextIs(s);
    if s != "" && s[0] == '-' { DigitTextIs(s[1..]); }
  }

  lemma {:induction false} NoPoint(s: string)
    requires WholeText(s) || DigitText(s)
    ensures '.' !in s
  {
    forall i | 0 <= i < |s| ensures s[i] != '.' {
      if s[0] == '-' && i > 0 { assert s[i] == s[1..][i - 1]; DigitIs(s[i]); } else { DigitIs(s[i]); }
    }
  }

  lemma {:induction false} PointIs(s: string)
    ensures IsFloat(s) <==> PointText(s)
  {
    hide Split, DigitText, IsDigits;
    if whole, digits :| WholeText(whole) && DigitText(digits) && s == whole + "." + digits {
      PointReads(whole, digits);
    }
    if IsFloat(s) {
      var parts := Split(Unsigned(s), '.');
      DigitTextIs(parts[0]);
      DigitTextIs(parts[1]);
      JoinSplit(Unsigned(s), '.');
      TwoJoined(parts);
      var whole := if s != "" && s[0] == '-' then "-" + parts[0] else parts[0];
      SignedWhole(s, parts[0]);
      assert WholeText(whole) && s == whole + "." + parts[1];
    }
  }

  lemma {:induction false} TwoJoined(parts: seq<string>)
    requires |parts| == 2
    ensures Join(parts, ".") == parts[0] + "." + parts[1]
  {
  }

  lemma {:induction false} SignedWhole(s: string, digits: string)
    requires DigitText(digits)
    ensures WholeText("-" + digits) && WholeText(digits)
  {
    assert ("-" + digits)[1..] == digits;
  }

  lemma {:induction false} PointReads(whole: string, digits: string)
    requires WholeText(whole) && DigitText(digits)
    ensures IsFloat(whole + "." + digits)
  {
    hide Split, IsDigits;
    var s := whole + "." + digits;
    var unsigned := if whole[0] == '-' then whole[1..] else whole;
    DashIsNoDigit(whole);
    assert Unsigned(s) == unsigned + ['.'] + digits;
    NoPoint(unsigned);
    NoPoint(digits);
    SplitHead(unsigned, digits, '.');
    SplitPiece(digits, '.');
    DigitTextIs(unsigned);
    DigitTextIs(digits);
  }

  lemma {:induction false} DashIsNoDigit(s: string)
    requires WholeText(s)
    ensures if s[0] == '-' then DigitText(s[1..]) else DigitText(s)
  {
    DigitIs(s[0]);
  }

  /** What a scalar is read as: nothing, a quoted text without its quotes, a number, or the trimmed text. */
  lemma {:induction false} ScalarIs(raw: string)
    ensures var s := Strip(raw);
      ScalarOf(raw) ==
        if s == "" then Null
        else if QuotedText(s) then Value.Text(s[1..|s| - 1])
        else if WholeText(s) then Int(s)
        else if PointText(s) then Float(s)
        else Value.Text(s)
  {
    hide Strip, IsInt, IsFloat, WholeText, PointText;
    WholeIs(Strip(raw));
    PointIs(Strip(raw));
  }

  // ---------------------------------------------------------- lines that do not count

  lemma {:induction false} SignificantConcat(a: seq<string>, b: seq<string>)
    ensures Significant(a + b) == Significant(a) + Significant(b)
  {
    hide Strip, Lstrip, Skipped;
    if a == [] {
      assert a + b == b;
    } else {
      assert (a + b)[1..] == a[1..] + b;
      SignificantConcat(a[1..], b);
    }
  }

  /** A line does not count exactly if it is blank, a comment, or one of the two document marks. */
  predicate DoesNotCount(line: string) {
    AllSpace(line) || Strip(line) == "---" || Strip(line) == "..." || StartsWith(Strip(line), "#")
  }

  lemma {:induction false} SkippedIs(line: string)
    ensures Skipped(Strip(line)) <==> DoesNotCount(line)
  {
    hide Strip, AllSpace, StartsWith;
    BlankIff(line);
    HashFirst(Strip(line));
  }

  lemma {:induction false} BlankIff(line: string)
    ensures Strip(line) == "" <==> AllSpace(line)
  {
    hide Strip;
    if AllSpace(line) {
      StripPad(line, "", "");
      assert line + "" + "" == line;
      assert Strip(line) == "";
    }
    if Strip(line) == "" {
      BlankIsSpace(line);
      assert AllSpace(line);
    }
  }

  lemma {:induction false} HashFirst(s: string)
    ensures StartsWith(s, "#") <==> s != "" && s[0] == '#'
  {
    if s != "" { assert s[..1] == [s[0]]; }
  }

  lemma {:induction false} BlankIsSpace(line: string)
    requires Strip(line) == ""
    ensures AllSpace(line)
  {
    hide Rstrip;
    RstripBlank(Lstrip(line));
    LstripBlank(line);
  }

  lemma {:induction false} LstripBlank(s: string)
    requires Lstrip(s) == ""
    ensures AllSpace(s)
  {
    if s != "" {
      LstripBlank(s[1..]);
      assert s == [s[0]] + s[1..];
    }
  }

  lemma {:induction false} RstripBlank(s: string)
    requires Rstrip(s) == "" && (s != "" ==> !IsSpace(s[0]))
    ensures s == ""
  {
    if s != "" && |s| > 1 && IsSpace(s[|s| - 1]) { RstripBlank(s[..|s| - 1]); }
  }

  /** Blank lines, comments and document marks may stand anywhere: the document is the same. */
  lemma {:induction false} CommentsDoNotMatter(before: seq<string>, line: string, after: seq<string>)
    requires DoesNotCount(line) && Unbroken(line)
    requires forall i :: 0 <= i < |before| ==> Unbroken(before[i])
    requires forall i :: 0 <= i < |after| ==> Unbroken(after[i])
    ensures ParseDocument(WriteLines(before + [line] + after)) == ParseDocument(WriteLines(before + after))
  {
    hide Significant, SplitLines, WriteLines, ParseBlock, Unbroken, DoesNotCount;
    WrittenLinesRead(before + [line] + after);
    WrittenLinesRead(before + after);
    SignificantConcat(before + [line], after);
    SignificantConcat(before, [line]);
    SignificantConcat(before, after);
    SkippedLine(line);
    assert Significant(before) + [] == Significant(before);
    assert SignificantLines(WriteLines(before + [line] + after)) == SignificantLines(WriteLines(before + after));
  }

  lemma {:induction false} SkippedLine(line: string)
    requires DoesNotCount(line)
    ensures Significant([line]) == []
  {
    hide Skipped, DoesNotCount;
    SkippedIs(line);
    assert [line][1..] == [];
  }

  // --------------------------------------------------------------------- key lines

  /** White space around the first colon of a line, and at its ends, belongs to neither key nor value. */
  lemma {:induction false} PartitionIs(pads: (string, string, string, string), key: string, value: string)
    requires AllSpace(pads.0) && AllSpace(pads.1) && AllSpace(pads.2) && AllSpace(pads.3)
    requires Stripped(key) && Stripped(value) && ':' !in key
    ensures var line := pads.0 + key + pads.1 + [':'] + (pads.2 + value + pads.3);
      ':' in line && Partition(line) == (key, value)
  {
    hide Strip, Colon, IsSpace;
    var front, back := pads.0 + key + pads.1, pads.2 + value + pads.3;
    SpaceHasNoColon(pads.0);
    SpaceHasNoColon(pads.1);
    ColonAt(front, back);
    var line := front + [':'] + back;
    assert line[..|front|] == front && line[|front| + 1..] == back;
    StripPad(pads.0, key, pads.1);
    StripPad(pads.2, value, pads.3);
  }

  lemma {:induction false} SpaceHasNoColon(s: string)
    requires AllSpace(s)
    ensures ':' !in s
  {
  }

  lemma {:induction false} ColonAt(front: string, back: string)
    requires ':' !in front
    ensures ':' in front + [':'] + back && Colon(front + [':'] + back) == |front|
  {
    var line := front + [':'] + back;
    assert line[|front|] == ':';
    if front != "" {
      assert line[1..] == front[1..] + [':'] + back;
      ColonAt(front[1..], back);
    }
  }

  predicate OneEach(es: seq<Entry>) { forall i, j :: 0 <= i < j < |es| ==> es[i].key != es[j].key }

  lemma {:induction false} PutAt(es: seq<Entry>, key: string, v: Value, k: nat)
    requires k < |es| && es[k].key == key && OneEach(es)
    ensures Put(es, key, v) == es[k := Entry(key, v)]
  {
    if k > 0 {
      PutAt(es[1..], key, v, k - 1);
      assert es == [es[0]] + es[1..];
    } else {
      assert es[0 := Entry(key, v)] == [Entry(key, v)] + es[1..];
    }
  }

  /** A key that is read again keeps its place and takes the new value; a new one goes behind the others. */
  lemma {:induction false} RepeatedKey(read: seq<Entry>, e: Entry)
    ensures OneEach(Dict(read)) && Dict([]) == []
    ensures Fresh(e.key, Dict(read)) ==> Dict(read + [e]) == Dict(read) + [e]
    ensures forall k :: 0 <= k < |Dict(read)| && Dict(read)[k].key == e.key ==> Dict(read + [e]) == Dict(read)[k := e]
  {
    hide Put;
    DictOneEach(read);
    assert (read + [e])[..|read|] == read;
    forall k | 0 <= k < |Dict(read)| && Dict(read)[k].key == e.key ensures Dict(read + [e]) == Dict(read)[k := e] {
      PutAt(Dict(read), e.key, e.value, k);
    }
  }

  lemma {:induction false} DictOneEach(read: seq<Entry>)
    ensures OneEach(Dict(read))
  {
    hide Put;
    if read != [] {
      var before, last := Dict(read[..|read| - 1]), read[|read| - 1];
      DictOneEach(read[..|read| - 1]);
      if k :| 0 <= k < |before| && before[k].key == last.key {
        PutAt(before, last.key, last.value, k);
      } else {
        assert Fresh(last.key, before);
      }
    }
  }
}
