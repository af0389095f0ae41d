// The index-advancing reader of scripts/intake_scan_sources.py, and its front end
// from raw text: significant lines in, one top-level mapping out, anything else refused.
module PgnYamlReader {
  import opened Text
  import opened PgnYaml
  import opened PgnYamlLayout

  // ----------------------------------------------------- the loops of the script

  /** A reading of a suffix of `total` lines, with the position it stopped at. */
  function Located(r: Result<(Value, seq<Line>)>, total: nat): Result<(Value, nat)>
    requires r.Ok? ==> |r.value.1| <= total
  {
    match r
    case Ok(p) => Ok((p.0, total - |p.1|))
    case Unparseable(l) => Unparseable(l)
  }

  method ReadBlock(lines: seq<Line>, index: nat, indent: nat) returns (r: Result<(Value, nat)>)
    requires index <= |lines|
    ensures r == Located(ParseBlock(lines[index..], indent), |lines|)
    decreases Weight(lines[index..]), 2
  {
    if index >= |lines| {
      return Ok((Null, index));
    }
    if Dash(lines[index].content) {
      r := ReadSequence(lines, index, indent);
    } else {
      r := ReadMapping(lines, index, indent);
    }
  }

  lemma {:induction false} Advance(lines: seq<Line>, i: nat, next: nat)
    requires i < next <= |lines|
    ensures Weight(lines[next..]) < Weight(lines[i..])
  {
    WeightDrop(lines[i..], next - i);
    assert lines[i..][next - i..] == lines[next..];
  }

  method ReadSequence(lines: seq<Line>, index: nat, indent: nat) returns (r: Result<(Value, nat)>)
    requires index <= |lines|
    ensures r == Located(ParseItems(lines[index..], indent, []), |lines|)
    decreases Weight(lines[index..]), 1
  {
    hide ParseItems, ReadItem, Weight, ScalarOf;
    var items: seq<Value> := [];
    var i := index;
    while i < |lines| && lines[i].indent == indent && Dash(lines[i].content)
      invariant index <= i <= |lines|
      invariant Weight(lines[i..]) <= Weight(lines[index..])
      invariant ParseItems(lines[index..], indent, []) == ParseItems(lines[i..], indent, items)
    {
      ItemsTurn(lines[i..], indent, items);
      var item := ReadOne(lines, i, indent);
      if item.Unparseable? {
        return Unparseable(item.line);
      }
      var (v, next) := item.value;
      items := items + [v];
      Advance(lines, i, next);
      i := next;
    }
    ItemsEnd(lines[i..], indent, items);
    r := Ok((Sequence(items), i));
  }

  /** One turn of the sequence loop. */
  method ReadOne(lines: seq<Line>, index: nat, indent: nat) returns (r: Result<(Value, nat)>)
    requires index < |lines| && Dash(lines[index].content)
    ensures match ReadItem(lines[index..], indent)
      case Ok(p) => r == Ok((p.0, |lines| - |p.1|)) && r.value.1 > index && p.1 == lines[r.value.1..]
      case Unparseable(l) => r == Unparseable(l)
    decreases Weight(lines[index..]), 0
  {
    hide ParseBlock, Weight, ItemBlock, Deeper;
    ghost var rest := lines[index..];
    assert rest[0] == lines[index];
    var body := Strip(lines[index].content[2..]);
    if ':' !in body {
      assert rest[1..] == lines[index + 1..];
      return Ok((ScalarOf(body), index + 1));
    }
    var block, i := CollectBlock(lines, index, indent, body);
    var item := ReadBlock(block, 0, indent + 2);
    assert block[0..] == block;
    assert rest[i - index..] == lines[i..];
    r := if item.Ok? then Ok((item.value.0, i)) else Unparseable(item.line);
  }

  /** The deeper lines of a mapping item, under its first key moved off the dash line. */
  method CollectBlock(lines: seq<Line>, index: nat, indent: nat, body: string)
    returns (block: seq<Line>, i: nat)
    requires index < |lines| && Dash(lines[index].content) && body == Strip(lines[index].content[2..])
    ensures index < i <= |lines|
    ensures block == ItemBlock(lines[index..], indent)
    ensures i == index + 1 + Deeper(lines[index..][1..], indent)
  {
    hide Weight, ItemBlock, Deeper;
    block := [Line(indent + 2, body)];
    i := index + 1;
    while i < |lines| && lines[i].indent > indent
      invariant index < i <= |lines|
      invariant block == [Line(indent + 2, body)] + lines[index + 1..i]
      invariant forall j :: index < j < i ==> lines[j].indent > indent
    {
      block := block + [lines[i]];
      i := i + 1;
    }
    BlockIs(lines[index..], i - index, indent);
    assert lines[index + 1..i] == lines[index..][1..i - index];
  }

  /** The inner loop of a mapping item collects exactly the item's block. */
  lemma {:induction false} BlockIs(rest: seq<Line>, k: nat, indent: nat)
    requires 1 <= k <= |rest| && Dash(rest[0].content)
    requires forall j :: 1 <= j < k ==> rest[j].indent > indent
    requires k < |rest| ==> rest[k].indent <= indent
    ensures Deeper(rest[1..], indent) == k - 1
    ensures ItemBlock(rest, indent) == [Line(indent + 2, Strip(rest[0].content[2..]))] + rest[1..k]
  {
    var tail := rest[1..];
    assert tail == rest[1..k] + rest[k..];
    DeeperSplit(rest[1..k], rest[k..], indent);
    assert tail[..k - 1] == rest[1..k];
  }

  method ReadMapping(lines: seq<Line>, index: nat, indent: nat) returns (r: Result<(Value, nat)>)
    requires index <= |lines|
    ensures r == Located(ParseEntries(lines[index..], indent, []), |lines|)
    decreases Weight(lines[index..]), 1
  {
    hide ParseEntries, ReadEntry, Weight, Put;
    var mapping: seq<Entry> := [];
    ghost var read: seq<Entry> := [];
    assert mapping == Dict(read);
    var i := index;
    while i < |lines| && lines[i].indent == indent && !Dash(lines[i].content)
      invariant index <= i <= |lines|
      invariant Weight(lines[i..]) <= Weight(lines[index..])
      invariant mapping == Dict(read)
      invariant ParseEntries(lines[index..], indent, []) == ParseEntries(lines[i..], indent, read)
      decreases |lines| - i
    {
      EntriesTurn(lines[i..], indent, read);
      var entry := ReadKey(lines, i, indent);
      if entry.Unparseable? {
        return Unparseable(entry.line);
      }
      var (e, next) := entry.value;
      mapping := Put(mapping, e.key, e.value);
      DictAppend(read, e);
      read := read + [e];
      Advance(lines, i, next);
      i := next;
    }
    EntriesEnd(lines[i..], indent, read);
    r := Ok((Mapping(mapping), i));
  }

  lemma {:induction false} DictAppend(read: seq<Entry>, e: Entry)
    ensures Dict(read + [e]) == Put(Dict(read), e.key, e.value)
  {
    assert (read + [e])[..|read|] == read;
  }

  /** What reading the entry at `index` must return, as a position in all the lines. */
  ghost predicate ReadsKey(lines: seq<Line>, index: nat, indent: nat, r: Result<(Entry, nat)>)
    requires index < |lines|
  {
    match ReadEntry(lines[index..], indent)
    case Ok(p) => r == Ok((p.0, |lines| - |p.1|)) && r.value.1 > index && p.1 == lines[r.value.1..]
    case Unparseable(l) => r == Unparseable(l)
  }

  /** One turn of the mapping loop. */
  method ReadKey(lines: seq<Line>, index: nat, indent: nat) returns (r: Result<(Entry, nat)>)
    requires index < |lines|
    ensures ReadsKey(lines, index, indent, r)
    decreases Weight(lines[index..]), 0
  {
    var content := lines[index].content;
    if ':' !in content {
      return Unparseable(content);
    }
    hide ReadEntry, ParseBlock, Weight, Partition, BlockHeader;
    var (key, value) := Partition(content);
    if BlockHeader(value) || value != "" {
      r := ReadInline(lines, index, indent, key, value);
      return;
    }
    ghost var rest := lines[index..];
    var i := index + 1;
    assert rest[1..] == lines[i..];
    KeyAlone(rest, key, indent);
    if i < |lines| && (lines[i].indent > indent || (lines[i].indent == indent && Dash(lines[i].content))) {
      Advance(lines, index, i);
      var child := ReadBlock(lines, i, lines[i].indent);
      if child.Unparseable? {
        return Unparseable(child.line);
      }
      return Ok((Entry(key, child.value.0), child.value.1));
    }
    return Ok((Entry(key, Null), i));
  }

  /** A key whose value starts on its own line. */
  method ReadInline(lines: seq<Line>, index: nat, indent: nat, key: string, value: string)
    returns (r: Result<(Entry, nat)>)
    requires index < |lines| && ':' in lines[index].content && Partition(lines[index].content) == (key, value)
    requires BlockHeader(value) || value != ""
    ensures ReadsKey(lines, index, indent, r)
  {
    hide ReadEntry, Partition, BlockText, BlockHeader, Deeper, Continuation, ScalarOf, Join, Contents;
    ghost var rest := lines[index..];
    assert rest[0] == lines[index] && rest[1..] == lines[index + 1..];
    if BlockHeader(value) {
      KeyWithBlock(rest, key, value, indent);
      var text, i := BlockScalar(value, lines, index + 1, indent);
      assert rest[1..i - index] == lines[index + 1..i] && rest[i - index..] == lines[i..];
      return Ok((Entry(key, Value.Text(text)), i));
    }
    KeyWithScalar(rest, key, value, indent);
    var parts, i := PlainLines(value, lines, index + 1, indent);
    assert rest[1..i - index] == lines[index + 1..i] && rest[i - index..] == lines[i..];
    var v := if |parts| > 1 then Value.Text(Join(parts, " ")) else ScalarOf(value);
    return Ok((Entry(key, v), i));
  }

  /** `_block_scalar`. */
  method BlockScalar(header: string, lines: seq<Line>, index: nat, indent: nat) returns (text: string, i: nat)
    requires BlockHeader(header) && index <= |lines|
    ensures i == index + Deeper(lines[index..], indent) && i <= |lines|
    ensures text == BlockText(header, lines[index..i])
  {
    hide BlockHeader, Deeper, Join;
    var parts: seq<string> := [];
    i := index;
    while i < |lines| && lines[i].indent > indent
      invariant index <= i <= |lines|
      invariant parts == Contents(lines[index..i])
      invariant forall j :: index <= j < i ==> lines[j].indent > indent
    {
      assert lines[index..i + 1] == lines[index..i] + [lines[i]];
      parts := parts + [lines[i].content];
      i := i + 1;
    }
    CountDeeper(lines, index, i, indent);
    text := Join(parts, if header[0] == '|' then "\n" else " ");
    if !(|header| > 1 && header[1] == '-') {
      text := text + "\n";
    }
  }

  /** The plain scalar on the key line and the lines that continue it. */
  method PlainLines(value: string, lines: seq<Line>, index: nat, indent: nat)
    returns (parts: seq<string>, i: nat)
    requires index <= |lines|
    ensures i == index + Continuation(lines[index..], indent) && i <= |lines|
    ensures parts == [value] + Contents(lines[index..i]) && |parts| == 1 + i - index
  {
    parts := [value];
    i := index;
    while i < |lines| && lines[i].indent > indent && !Dash(lines[i].content)
      invariant index <= i <= |lines|
      invariant parts == [value] + Contents(lines[index..i])
      invariant forall j :: index <= j < i ==> lines[j].indent > indent && !Dash(lines[j].content)
    {
      assert lines[index..i + 1] == lines[index..i] + [lines[i]];
      parts := parts + [lines[i].content];
      i := i + 1;
    }
    CountContinuation(lines, index, i, indent);
  }

  lemma {:induction false} CountDeeper(lines: seq<Line>, a: nat, b: nat, indent: nat)
    requires a <= b <= |lines|
    requires forall j :: a <= j < b ==> lines[j].indent > indent
    requires b < |lines| ==> lines[b].indent <= indent
    ensures Deeper(lines[a..], indent) == b - a
  {
    assert lines[a..] == lines[a..b] + lines[b..];
    DeeperSplit(lines[a..b], lines[b..], indent);
  }

  lemma {:induction false} CountContinuation(lines: seq<Line>, a: nat, b: nat, indent: nat)
    requires a <= b <= |lines|
    requires forall j :: a <= j < b ==> lines[j].indent > indent && !Dash(lines[j].content)
    requires b < |lines| ==> lines[b].indent <= indent || Dash(lines[b].content)
    ensures Continuation(lines[a..], indent) == b - a
  {
    var tail := lines[a..];
    var k := Continuation(tail, indent);
    assert forall j :: a <= j < b ==> tail[j - a] == lines[j];
    assert b < |lines| ==> tail[b - a] == lines[b];
    assert k < |tail| ==> tail[k] == lines[a + k];
  }

  // ------------------------------------------------------------------ raw text

  predicate Skipped(stripped: string) {
    stripped == "" || stripped[0] == '#' || stripped in {"---", "..."}
  }

  function Significant(raw: seq<string>): seq<Line> {
    if raw == [] then []
    else
      var stripped := Strip(raw[0]);
      if Skipped(stripped) then Significant(raw[1..])
      else [Line(|raw[0]| - |Lstrip(raw[0])|, stripped)] + Significant(raw[1..])
  }

  function SignificantLines(text: string): seq<Line> { Significant(SplitLines(text)) }

  datatype Document =
    | Parsed(entries: seq<Entry>)
    | EmptyDocument
    | UnparseableLine(line: string)
    | UnconsumedLine(indent: nat, content: string)
    | NotMapping

  /** `parse_pgn_yaml`. */
  function ParseDocument(text: string): Document {
    var lines := SignificantLines(text);
    if lines == [] then EmptyDocument
    else
      match ParseBlock(lines, lines[0].indent)
      case Unparseable(l) => UnparseableLine(l)
      case Ok((doc, rest)) =>
        if rest != [] then UnconsumedLine(rest[0].indent, rest[0].content)
        else if doc.Mapping? then Parsed(doc.entries)
        else NotMapping
  }

  // ------------------------------------------------------------------ round trip

  function Spaces(n: nat): (s: string)
    ensures |s| == n && forall i :: 0 <= i < n ==> s[i] == ' '
  {
    seq(n, i => ' ')
  }

  function Render(ls: seq<Line>): string {
    if ls == [] then "" else Spaces(ls[0].indent) + ls[0].content + "\n" + Render(ls[1..])
  }

  /** A line content that survives being written out. */
  predicate Writable(content: string) {
    Stripped(content) && !Skipped(content) && Unbroken(content)
  }

  lemma {:induction false} SignificantHead(l: Line, rest: seq<string>)
    requires Writable(l.content)
    ensures Significant([Spaces(l.indent) + l.content] + rest) == [l] + Significant(rest)
  {
    hide Strip, Lstrip;
    var pad := Spaces(l.indent);
    StripPad(pad, l.content, "");
    assert pad + l.content + "" == pad + l.content;
    LstripTail(pad, l.content);
    assert ([pad + l.content] + rest)[1..] == rest;
  }

  /** Writing lines out and keeping the significant ones gives the lines back. */
  lemma {:induction false} SignificantOfRender(ls: seq<Line>)
    requires forall i :: 0 <= i < |ls| ==> Writable(ls[i].content)
    ensures SignificantLines(Render(ls)) == ls
  {
    if ls != [] {
      var raw := Spaces(ls[0].indent) + ls[0].content;
      assert Render(ls) == raw + "\n" + Render(ls[1..]);
      LineHead(raw, Render(ls[1..]));
      SignificantHead(ls[0], SplitLines(Render(ls[1..])));
      SignificantOfRender(ls[1..]);
    }
  }

  /**
   * For every supported mapping, the reader returns it from its written block layout:
   * no line is refused, none is left over.
   */
  lemma {:induction false} DocumentRoundTrip(es: seq<Entry>)
    requires es != [] && EntriesOk(es)
    requires forall l :: l in LayoutEntries(es, 0) ==> Writable(l.content)
    ensures ParseDocument(Render(LayoutEntries(es, 0))) == Parsed(es)
  {
    hide ParseBlock;
    var lines := LayoutEntries(es, 0);
    SignificantOfRender(lines);
    EntriesShape(es, 0);
    MappingBlock(es, 0);
  }

  /**
   * The file comment promises that a line the reader cannot account for is refused.
   * Inside a sequence item it is not. After a scalar on the dash line, a line one
   * column in is neither refused nor part of the result, whatever it says: what the
   * nested reader leaves unread of an item's block is not looked at.
   */
  lemma {:induction false} ItemLineCanBeDropped(top: string, e: Entry, dropped: Line)
    requires KeyOk(top) && top != "" && KeyOk(e.key) && ScalarOk(e.value) && dropped.indent == 1
    ensures var lines := [Line(0, Pair(top, "")), Line(0, "- " + Pair(e.key, " " + Token(e.value))), dropped];
      ParseBlock(lines, 0) == Ok((Mapping([Entry(top, Sequence([Mapping([e])]))]), []))
  {
    var v := Mapping([e]);
    var inner := [Line(0, "- " + Pair(e.key, " " + Token(e.value))), dropped];
    DroppedItem(e, dropped);
    ItemsTurn(inner, 0, []);
    ItemsEnd([], 0, [v]);
    assert [] + [v] == [v];
    Lone(Line(0, Pair(top, "")), top, Sequence([v]), inner);
    assert [Line(0, Pair(top, ""))] + inner == [Line(0, Pair(top, "")), inner[0], dropped];
  }

  /** A document of one key whose block reads back completely. */
  lemma {:induction false} Lone(head: Line, key: string, v: Value, block: seq<Line>)
    requires head == Line(0, Pair(key, "")) && KeyOk(key) && key != ""
    requires block != [] && block[0].indent == 0 && Dash(block[0].content)
    requires ParseItems(block, 0, []) == Ok((v, []))
    ensures ParseBlock([head] + block, 0) == Ok((Mapping([Entry(key, v)]), []))
  {
    hide ReadEntry, ParseItems, ParseEntries;
    var e := Entry(key, v);
    var ls := [head] + block;
    assert ls[1..] == block && [] + [e] == [e];
    PartitionLine(key, "", "");
    assert "" + "" == "";
    KeyLineOf(key, "", 0);
    KeyAlone(ls, key, 0);
    EntriesTurn(ls, 0, []);
    Stops([], 0, e);
  }

  lemma {:induction false} Stops(ls: seq<Line>, n: nat, e: Entry)
    requires ls == [] || ls[0].indent != n
    ensures ParseEntries(ls, n, [e]) == Ok((Mapping([e]), ls))
  {
    assert [e][..0] == [];
    assert Dict([]) == [] && Put([], e.key, e.value) == [e];
    assert Dict([e]) == [e];
  }

  lemma {:induction false} DroppedItem(e: Entry, dropped: Line)
    requires KeyOk(e.key) && ScalarOk(e.value) && dropped.indent == 1
    ensures var ls := [Line(0, "- " + Pair(e.key, " " + Token(e.value))), dropped];
      Dash(ls[0].content) && ReadItem(ls, 0) == Ok((Mapping([e]), []))
  {
    var first := Line(2, Pair(e.key, " " + Token(e.value)));
    var ls := [Line(0, "- " + first.content), dropped];
    TokenLine(e, 2);
    StopsShort(e, first, dropped);
    hide ParseBlock, ItemBlock, Strip, Token, Pair;
    assert ls[0].content[2..] == first.content;
    StripId(first.content);
    BlockIs(ls, 2, 0);
    assert ls[1..2] == [dropped];
    assert ItemBlock(ls, 0) == [first, dropped];
    assert ls[1 + Deeper(ls[1..], 0)..] == [];
  }

  /** The reader of a block at 2 stops at a line at 1. */
  lemma {:induction false} StopsShort(e: Entry, first: Line, dropped: Line)
    requires KeyOk(e.key) && ScalarOk(e.value) && dropped.indent == 1
    requires first == Line(2, Pair(e.key, " " + Token(e.value)))
    ensures ParseBlock([first, dropped], 2) == Ok((Mapping([e]), [dropped]))
  {
    hide ReadEntry, ParseItems, ParseEntries, ScalarOf, Token, Pair, Partition;
    TokenRoundTrip(e.value);
    TokenLine(e, 2);
    PartitionLine(e.key, " ", Token(e.value));
    var ls := [first, dropped];
    assert ls[1..] == [dropped] && [] + [e] == [e];
    assert Continuation(ls[1..], 2) == 0;
    KeyWithScalar(ls, e.key, Token(e.value), 2);
    EntriesTurn(ls, 2, []);
    Stops([dropped], 2, e);
  }
}
