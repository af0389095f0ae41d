// The restricted YAML block reader of scripts/intake_scan_sources.py.
// A document is a sequence of significant lines, each an indent and its stripped
// content. `ParseBlock` is the reader on the lines still to be read; the loops of the
// script that advance an index are in `PgnYamlReader`, proved to compute the same.
module PgnYaml {
  import opened Text

  datatype Line = Line(indent: nat, content: string)

  /** A parsed value. Numbers keep their lexeme; a mapping keeps insertion order. */
  datatype Value =
    | Null
    | Int(lexeme: string)
    | Float(lexeme: string)
    | Text(text: string)
    | Sequence(items: seq<Value>)
    | Mapping(entries: seq<Entry>)

  datatype Entry = Entry(key: string, value: Value)

  datatype Result<+T> = Ok(value: T) | Unparseable(line: string)

  // ---------------------------------------------------------------- scalars

  predicate IsDigits(s: string) {
    s != "" && forall i :: 0 <= i < |s| ==> '0' <= s[i] <= '9'
  }

  function Unsigned(s: string): string {
    if s != "" && s[0] == '-' then s[1..] else s
  }

  predicate IsInt(s: string) { IsDigits(Unsigned(s)) }

  predicate IsFloat(s: string) {
    var parts := Split(Unsigned(s), '.');
    |parts| == 2 && IsDigits(parts[0]) && IsDigits(parts[1])
  }

  predicate Quoted(s: string) {
    |s| >= 2 && s[0] == s[|s| - 1] && s[0] in {'\'', '"'}
  }

  function ScalarOf(raw: string): Value {
    var text := Strip(raw);
    if text == "" then Null
    else if Quoted(text) then Value.Text(text[1..|text| - 1])
    else if IsInt(text) then Int(text)
    else if IsFloat(text) then Float(text)
    else Value.Text(text)
  }

  // ----------------------------------------------------------- line helpers

  predicate Dash(content: string) { |content| >= 2 && content[..2] == "- " }

  /** The values that announce a literal or folded block. */
  predicate BlockHeader(s: string): (b: bool)
    ensures b ==> s != ""
  {
    s == "|" || s == "|-" || s == "|+" || s == ">" || s == ">-" || s == ">+"
  }

  /** The position of the first colon. */
  function Colon(s: string): (k: nat)
    requires ':' in s
    ensures k < |s| && s[k] == ':' && ':' !in s[..k]
  {
    if s[0] == ':' then 0 else 1 + Colon(s[1..])
  }

  /** `content.partition(":")`: what stands before and after the first colon, both stripped. */
  function Partition(content: string): (string, string)
    requires ':' in content
  {
    (Strip(content[..Colon(content)]), Strip(content[Colon(content) + 1..]))
  }

  /** How many leading lines are indented deeper than `indent`. */
  function Deeper(ls: seq<Line>, indent: nat): (k: nat)
    ensures k <= |ls|
    ensures forall i :: 0 <= i < k ==> ls[i].indent > indent
    ensures k < |ls| ==> ls[k].indent <= indent
  {
    if ls != [] && ls[0].indent > indent then 1 + Deeper(ls[1..], indent) else 0
  }

  /** How many leading lines continue a plain scalar: deeper and not a dash line. */
  function Continuation(ls: seq<Line>, indent: nat): (k: nat)
    ensures k <= |ls|
    ensures forall i :: 0 <= i < k ==> ls[i].indent > indent && !Dash(ls[i].content)
    ensures k < |ls| ==> ls[k].indent <= indent || Dash(ls[k].content)
  {
    if ls != [] && ls[0].indent > indent && !Dash(ls[0].content) then
      1 + Continuation(ls[1..], indent)
    else 0
  }

  function Contents(ls: seq<Line>): (r: seq<string>)
    ensures |r| == |ls| && forall i :: 0 <= i < |ls| ==> r[i] == ls[i].content
  {
    seq(|ls|, i requires 0 <= i < |ls| => ls[i].content)
  }

  /** A block scalar: literal or folded, with the trailing line feed unless stripped. */
  function BlockText(header: string, ls: seq<Line>): string
    requires BlockHeader(header)
  {
    Join(Contents(ls), if header[0] == '|' then "\n" else " ")
      + if |header| > 1 && header[1] == '-' then "" else "\n"
  }

  predicate Fresh(key: string, es: seq<Entry>) {
    forall e :: e in es ==> e.key != key
  }

  /** Assignment to a key of an insertion-ordered mapping. */
  function Put(es: seq<Entry>, key: string, v: Value): (r: seq<Entry>)
    ensures Fresh(key, es) ==> r == es + [Entry(key, v)]
  {
    if es == [] then [Entry(key, v)]
    else if es[0].key == key then [Entry(key, v)] + es[1..]
    else [es[0]] + Put(es[1..], key, v)
  }

  /** The mapping left by assigning the entries in the order they were read. */
  function Dict(read: seq<Entry>): seq<Entry> {
    if read == [] then []
    else
      var last := read[|read| - 1];
      Put(Dict(read[..|read| - 1]), last.key, last.value)
  }

  // ------------------------------------------------------------- the reader

  /**
   * Content characters still to be read, one more per line. Every recursive call
   * lowers it: a nested block starts a line later, and the block of a mapping item
   * has as many lines as before but has lost the dash of its first line.
   */
  function Weight(ls: seq<Line>): nat {
    if ls == [] then 0 else |ls[0].content| + 1 + Weight(ls[1..])
  }

  lemma {:induction false} WeightDrop(ls: seq<Line>, k: nat)
    requires k <= |ls|
    ensures Weight(ls[k..]) <= Weight(ls)
    ensures k > 0 ==> Weight(ls[k..]) < Weight(ls)
  {
    if k == 0 {
      assert ls[0..] == ls;
    } else {
      WeightDrop(ls[1..], k - 1);
      assert ls[1..][k - 1..] == ls[k..];
    }
  }

  lemma {:induction false} WeightTake(ls: seq<Line>, k: nat)
    requires k <= |ls|
    ensures Weight(ls[..k]) <= Weight(ls)
  {
    if k > 0 {
      WeightTake(ls[1..], k - 1);
      assert ls[..k][1..] == ls[1..][..k - 1];
    }
  }

  predicate SuffixOf(rest: seq<Line>, ls: seq<Line>) {
    |rest| <= |ls| && rest == ls[|ls| - |rest|..]
  }

  /** The block of a mapping item: its first key sits on the dash line. */
  function ItemBlock(ls: seq<Line>, indent: nat): (block: seq<Line>)
    requires ls != [] && Dash(ls[0].content)
    ensures Weight(block) < Weight(ls)
  {
    var tail := ls[1..];
    var k := Deeper(tail, indent);
    WeightTake(tail, k);
    var block := [Line(indent + 2, Strip(ls[0].content[2..]))] + tail[..k];
    assert block[1..] == tail[..k];
    block
  }

  /** Parses one block at `indent`; returns the value and the lines left unread. */
  function ParseBlock(ls: seq<Line>, indent: nat): (r: Result<(Value, seq<Line>)>)
    ensures r.Ok? ==> SuffixOf(r.value.1, ls)
    decreases Weight(ls), 3
  {
    if ls == [] then Ok((Null, []))
    else if Dash(ls[0].content) then ParseItems(ls, indent, [])
    else ParseEntries(ls, indent, [])
  }

  function ParseItems(ls: seq<Line>, indent: nat, acc: seq<Value>): (r: Result<(Value, seq<Line>)>)
    ensures r.Ok? ==> SuffixOf(r.value.1, ls)
    decreases Weight(ls), 2
  {
    if ls == [] || ls[0].indent != indent || !Dash(ls[0].content) then Ok((Sequence(acc), ls))
    else
      match ReadItem(ls, indent)
      case Unparseable(line) => Unparseable(line)
      case Ok(item) =>
        WeightDrop(ls, |ls| - |item.1|);
        ParseItems(item.1, indent, acc + [item.0])
  }

  /** One dash line with the deeper lines that belong to it. */
  function ReadItem(ls: seq<Line>, indent: nat): (r: Result<(Value, seq<Line>)>)
    requires ls != [] && Dash(ls[0].content)
    ensures r.Ok? ==> |r.value.1| < |ls| && SuffixOf(r.value.1, ls)
    decreases Weight(ls), 1
  {
    var body := Strip(ls[0].content[2..]);
    if ':' in body then
      // What the nested reader leaves unread of its block is dropped here.
      match ParseBlock(ItemBlock(ls, indent), indent + 2)
      case Unparseable(line) => Unparseable(line)
      case Ok(item) => Ok((item.0, ls[1 + Deeper(ls[1..], indent)..]))
    else
      Ok((ScalarOf(body), ls[1..]))
  }

  function ParseEntries(ls: seq<Line>, indent: nat, acc: seq<Entry>): (r: Result<(Value, seq<Line>)>)
    ensures r.Ok? ==> SuffixOf(r.value.1, ls)
    decreases Weight(ls), 2
  {
    if ls == [] || ls[0].indent != indent || Dash(ls[0].content) then Ok((Mapping(Dict(acc)), ls))
    else
      match ReadEntry(ls, indent)
      case Unparseable(line) => Unparseable(line)
      case Ok(entry) =>
        WeightDrop(ls, |ls| - |entry.1|);
        ParseEntries(entry.1, indent, acc + [entry.0])
  }

  /** One key line with the continuation, block scalar or nested block that belongs to it. */
  function ReadEntry(ls: seq<Line>, indent: nat): (r: Result<(Entry, seq<Line>)>)
    requires ls != []
    ensures r.Ok? ==> |r.value.1| < |ls| && SuffixOf(r.value.1, ls)
    decreases Weight(ls), 1
  {
    if ':' !in ls[0].content then Unparseable(ls[0].content)
    else
      var (key, value) := Partition(ls[0].content);
      if BlockHeader(value) then
        var k := 1 + Deeper(ls[1..], indent);
        Ok((Entry(key, Value.Text(BlockText(value, ls[1..k]))), ls[k..]))
      else if value != "" then
        var k := 1 + Continuation(ls[1..], indent);
        var v := if k > 1 then Value.Text(Join([value] + Contents(ls[1..k]), " ")) else ScalarOf(value);
        Ok((Entry(key, v), ls[k..]))
      else if HasChild(ls, indent) then
        match ParseBlock(ls[1..], ls[1].indent)
        case Unparseable(line) => Unparseable(line)
        case Ok(child) => Ok((Entry(key, child.0), child.1))
      else
        Ok((Entry(key, Null), ls[1..]))
  }

  /** A key without a value owns a deeper block, or a sequence at its own indent. */
  predicate HasChild(ls: seq<Line>, indent: nat) {
    |ls| > 1 && (ls[1].indent > indent || (ls[1].indent == indent && Dash(ls[1].content)))
  }

  // ------------------------------------------------------ one turn of each loop

  lemma {:induction false} ItemsTurn(ls: seq<Line>, n: nat, acc: seq<Value>)
    requires ls != [] && ls[0].indent == n && Dash(ls[0].content)
    ensures match ReadItem(ls, n)
      case Ok(p) => ParseItems(ls, n, acc) == ParseItems(p.1, n, acc + [p.0])
      case Unparseable(l) => ParseItems(ls, n, acc) == Unparseable(l)
  {
    hide ReadItem, Weight;
  }

  lemma {:induction false} ItemsEnd(ls: seq<Line>, n: nat, acc: seq<Value>)
    requires ls == [] || ls[0].indent != n || !Dash(ls[0].content)
    ensures ParseItems(ls, n, acc) == Ok((Sequence(acc), ls))
  {
    hide ReadItem, Weight;
  }

  lemma {:induction false} EntriesTurn(ls: seq<Line>, n: nat, acc: seq<Entry>)
    requires ls != [] && ls[0].indent == n && !Dash(ls[0].content)
    ensures match ReadEntry(ls, n)
      case Ok(p) => ParseEntries(ls, n, acc) == ParseEntries(p.1, n, acc + [p.0])
      case Unparseable(l) => ParseEntries(ls, n, acc) == Unparseable(l)
  {
    hide ReadEntry, Weight;
  }

  lemma {:induction false} EntriesEnd(ls: seq<Line>, n: nat, acc: seq<Entry>)
    requires ls == [] || ls[0].indent != n || Dash(ls[0].content)
    ensures ParseEntries(ls, n, acc) == Ok((Mapping(Dict(acc)), ls))
  {
    hide ReadEntry, Weight;
  }

  lemma {:induction false} KeyWithBlock(ls: seq<Line>, key: string, value: string, n: nat)
    requires ls != [] && ':' in ls[0].content && Partition(ls[0].content) == (key, value)
    requires BlockHeader(value)
    ensures var k := 1 + Deeper(ls[1..], n);
      ReadEntry(ls, n) == Ok((Entry(key, Value.Text(BlockText(value, ls[1..k]))), ls[k..]))
  {
    hide ParseBlock, Partition, BlockText, BlockHeader, Deeper;
  }

  lemma {:induction false} KeyWithScalar(ls: seq<Line>, key: string, value: string, n: nat)
    requires ls != [] && ':' in ls[0].content && Partition(ls[0].content) == (key, value)
    requires value != "" && !BlockHeader(value)
    ensures var k := 1 + Continuation(ls[1..], n);
      var v := if k > 1 then Value.Text(Join([value] + Contents(ls[1..k]), " ")) else ScalarOf(value);
      ReadEntry(ls, n) == Ok((Entry(key, v), ls[k..]))
  {
    hide ParseBlock, Partition, BlockHeader, Continuation, ScalarOf, Join;
  }

  lemma {:induction false} KeyAlone(ls: seq<Line>, key: string, n: nat)
    requires ls != [] && ':' in ls[0].content && Partition(ls[0].content) == (key, "")
    ensures ReadEntry(ls, n) ==
      if HasChild(ls, n) then
        match ParseBlock(ls[1..], ls[1].indent)
        case Ok(child) => Ok((Entry(key, child.0), child.1))
        case Unparseable(l) => Unparseable(l)
      else Ok((Entry(key, Null), ls[1..]))
  {
    hide ParseBlock, Partition;
  }
}
