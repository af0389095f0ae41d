// The canonical block layout of a value, and the proof that the reader inverts it.
module PgnYamlLayout {
  import opened Text
  import opened PgnYaml

  // ------------------------------------------------------- the supported subset

  predicate Lines(s: string) { '\n' in s }

  /** A literal block can hold exactly the texts whose lines are non-empty and stripped. */
  predicate LiteralText(s: string) {
    forall p :: p in Split(s, '\n') ==> p != "" && Stripped(p)
  }

  predicate KeyOk(key: string) {
    Stripped(key) && ':' !in key && !Dash(key)
  }

  predicate IsScalar(v: Value) { v.Int? || v.Float? || v.Text? }

  predicate NumberOk(v: Value)
    requires v.Int? || v.Float?
  {
    && Stripped(v.lexeme) && !Quoted(v.lexeme)
    && (if v.Int? then IsInt(v.lexeme) else IsFloat(v.lexeme) && !IsInt(v.lexeme))
  }

  /** Values that can follow a mapping key. */
  predicate EntryOk(v: Value)
    decreases v
  {
    match v
    case Null => true
    case Int(_) => NumberOk(v)
    case Float(_) => NumberOk(v)
    case Text(s) => Lines(s) ==> LiteralText(s)
    case Sequence(items) => items != [] && ItemsOk(items)
    case Mapping(es) => es != [] && EntriesOk(es)
  }

  /** Values that can follow a dash. A colon on the dash line announces a mapping. */
  predicate ItemOk(v: Value)
    decreases v
  {
    match v
    case Null => false
    case Int(_) => NumberOk(v)
    case Float(_) => NumberOk(v)
    case Text(s) => ':' !in s && !Lines(s)
    case Sequence(items) => items != [] && ItemsOk(items) && OpensMapping(items[0])
    case Mapping(es) => es != [] && EntriesOk(es)
  }

  predicate OpensMapping(v: Value) {
    v.Mapping? || (v.Sequence? && v.items != [] && OpensMapping(v.items[0]))
  }

  predicate ItemsOk(items: seq<Value>)
    decreases items
  {
    items != [] ==> ItemOk(items[0]) && ItemsOk(items[1..])
  }

  predicate EntriesOk(es: seq<Entry>)
    decreases es
  {
    es != [] ==> KeyOk(es[0].key) && EntryOk(es[0].value) && Fresh(es[0].key, es[1..]) && EntriesOk(es[1..])
  }

  predicate EntryPairOk(e: Entry) { KeyOk(e.key) && EntryOk(e.value) }

  // ------------------------------------------------------------------ the layout

  function Token(v: Value): string
    requires v.Int? || v.Float? || v.Text?
  {
    match v
    case Int(l) => l
    case Float(l) => l
    case Text(s) =>
      if s != "" && ScalarOf(s) == v && !BlockHeader(s) then s else "'" + s + "'"
  }

  function At(indent: nat, parts: seq<string>): seq<Line> {
    seq(|parts|, i requires 0 <= i < |parts| => Line(indent, parts[i]))
  }

  function Pair(key: string, rest: string): string { key + ":" + rest }

  function LayoutEntries(es: seq<Entry>, n: nat): seq<Line>
    requires EntriesOk(es)
    decreases es
  {
    if es == [] then [] else LayoutEntry(es[0], n) + LayoutEntries(es[1..], n)
  }

  function LayoutEntry(e: Entry, n: nat): (ls: seq<Line>)
    requires EntryPairOk(e)
    ensures ls != [] && ls[0].indent == n
    decreases e
  {
    match e.value
    case Null => [Line(n, Pair(e.key, ""))]
    case Sequence(items) => [Line(n, Pair(e.key, ""))] + LayoutItems(items, n)
    case Mapping(es) => [Line(n, Pair(e.key, ""))] + LayoutEntries(es, n + 2)
    case Text(s) =>
      if Lines(s) then [Line(n, Pair(e.key, " " + "|-"))] + At(n + 2, Split(s, '\n'))
      else [Line(n, Pair(e.key, " " + Token(e.value)))]
    case Int(_) => [Line(n, Pair(e.key, " " + Token(e.value)))]
    case Float(_) => [Line(n, Pair(e.key, " " + Token(e.value)))]
  }

  function LayoutItems(items: seq<Value>, n: nat): seq<Line>
    requires ItemsOk(items)
    decreases items
  {
    if items == [] then [] else LayoutItem(items[0], n) + LayoutItems(items[1..], n)
  }

  function LayoutItem(v: Value, n: nat): seq<Line>
    requires ItemOk(v)
    decreases v
  {
    match v
    case Sequence(items) => Dashed(LayoutItems(items, n + 2), n)
    case Mapping(es) => Dashed(LayoutEntries(es, n + 2), n)
    case Text(_) => [Line(n, "- " + Token(v))]
    case Int(_) => [Line(n, "- " + Token(v))]
    case Float(_) => [Line(n, "- " + Token(v))]
  }

  /** The first line of an item's block moves up onto the dash line. */
  function Dashed(block: seq<Line>, n: nat): seq<Line> {
    if block == [] then [] else [Line(n, "- " + block[0].content)] + block[1..]
  }

  // --------------------------------------------------------------- scalar tokens

  predicate ScalarOk(v: Value) {
    IsScalar(v) && (v.Text? || NumberOk(v))
  }

  /** The token of a scalar reads back as that scalar, and is never mistaken for a block header. */
  lemma {:induction false} TokenRoundTrip(v: Value)
    requires ScalarOk(v)
    ensures ScalarOf(Token(v)) == v
    ensures Token(v) != "" && Stripped(Token(v)) && !BlockHeader(Token(v))
  {
    hide Lstrip, Rstrip;
    match v
    case Text(s) =>
      if Token(v) != s {
        var t := "'" + s + "'";
        assert t[0] == t[|t| - 1] == '\'';
        StripId(t);
        assert t[1..|t| - 1] == s;
      } else {
        assert !Quoted(Strip(s)) by { assert |Strip(s)| <= |s|; }
        assert Strip(s) == s;
      }
    case Int(l) => StripId(l); NumberNotHeader(l);
    case Float(l) => StripId(l); NumberNotHeader(l);
  }

  lemma {:induction false} NumberNotHeader(l: string)
    requires IsInt(l) || IsFloat(l)
    ensures l != "" && !BlockHeader(l) && ':' !in l
  {
    if IsFloat(l) {
      var parts := Split(Unsigned(l), '.');
      JoinSplit(Unsigned(l), '.');
      assert Unsigned(l) == parts[0] + "." + parts[1];
    }
    assert l == Unsigned(l) || l == "-" + Unsigned(l);
    assert l != "" ==> l[0] != '|' && l[0] != '>';
  }

  lemma {:induction false} TokenColon(v: Value)
    requires ScalarOk(v) && (v.Text? ==> ':' !in v.text)
    ensures ':' !in Token(v)
  {
    if !v.Text? { NumberNotHeader(v.lexeme); }
  }

  // ------------------------------------------------------------- shape of a layout

  /** A line that a mapping at `n` starts an entry from. */
  predicate KeyLine(l: Line, n: nat) {
    l.indent == n && !Dash(l.content) && ':' in l.content && Stripped(l.content)
  }

  predicate DashLine(l: Line, n: nat) {
    l.indent == n && Dash(l.content) && Stripped(l.content)
  }

  predicate AtLeast(ls: seq<Line>, n: nat) {
    forall i :: 0 <= i < |ls| ==> ls[i].indent >= n
  }

  lemma {:induction false} KeyLineOf(key: string, rest: string, n: nat)
    requires KeyOk(key) && Stripped(":" + rest)
    ensures KeyLine(Line(n, Pair(key, rest)), n)
  {
    var c := Pair(key, rest);
    assert c[|key|] == ':';
    assert c[|c| - 1] == (":" + rest)[|rest|];
    assert |key| >= 2 ==> c[..2] == key[..2];
    assert |key| == 1 ==> c[..2] == key + ":";
  }

  lemma {:induction false} EntriesShape(es: seq<Entry>, n: nat)
    requires EntriesOk(es)
    ensures AtLeast(LayoutEntries(es, n), n)
    ensures es != [] ==> LayoutEntries(es, n) != [] && KeyLine(LayoutEntries(es, n)[0], n)
    decreases es
  {
    if es != [] {
      EntryShape(es[0], n);
      EntriesShape(es[1..], n);
    }
  }

  lemma {:induction false} EntryShape(e: Entry, n: nat)
    requires EntryPairOk(e)
    ensures KeyLine(LayoutEntry(e, n)[0], n) && AtLeast(LayoutEntry(e, n), n)
    decreases e
  {
    match e.value
    case Sequence(items) =>
      ItemsShape(items, n);
      KeyLineOf(e.key, "", n);
      Headed(Line(n, Pair(e.key, "")), LayoutItems(items, n), n);
    case Mapping(es) =>
      EntriesShape(es, n + 2);
      KeyLineOf(e.key, "", n);
      Headed(Line(n, Pair(e.key, "")), LayoutEntries(es, n + 2), n);
    case Null => KeyLineOf(e.key, "", n);
    case Text(s) =>
      if Lines(s) {
        KeyLineOf(e.key, " |-", n);
        Headed(Line(n, Pair(e.key, " " + "|-")), At(n + 2, Split(s, '\n')), n);
      } else {
        TokenLine(e, n);
      }
    case Int(_) => TokenLine(e, n);
    case Float(_) => TokenLine(e, n);
  }

  lemma {:induction false} Headed(l: Line, block: seq<Line>, n: nat)
    requires KeyLine(l, n) && AtLeast(block, n)
    ensures KeyLine(([l] + block)[0], n) && AtLeast([l] + block, n)
  {}

  lemma {:induction false} TokenLine(e: Entry, n: nat)
    requires KeyOk(e.key) && ScalarOk(e.value)
    ensures KeyLine(Line(n, Pair(e.key, " " + Token(e.value))), n)
  {
    TokenRoundTrip(e.value);
    KeyLineOf(e.key, " " + Token(e.value), n);
  }

  lemma {:induction false} ItemsShape(items: seq<Value>, n: nat)
    requires ItemsOk(items)
    ensures AtLeast(LayoutItems(items, n), n)
    ensures items != [] ==> LayoutItems(items, n) != [] && DashLine(LayoutItems(items, n)[0], n)
    ensures items != [] && OpensMapping(items[0]) ==> ':' in LayoutItems(items, n)[0].content
    decreases items
  {
    if items != [] {
      ItemShape(items[0], n);
      ItemsShape(items[1..], n);
    }
  }

  lemma {:induction false} TokenDash(v: Value, n: nat)
    requires ScalarOk(v)
    ensures DashLine(Line(n, "- " + Token(v)), n)
  {
    hide ScalarOf;
    TokenRoundTrip(v);
  }

  /** One item: a dash line at `n`, everything after it deeper. */
  lemma {:induction false} ItemShape(v: Value, n: nat)
    requires ItemOk(v)
    ensures var ls := LayoutItem(v, n);
      ls != [] && DashLine(ls[0], n) && AtLeast(ls[1..], n + 1)
    ensures OpensMapping(v) ==> ':' in LayoutItem(v, n)[0].content
    decreases v
  {
    match v
    case Sequence(items) =>
      ItemsShape(items, n + 2);
      DashedShape(LayoutItems(items, n + 2), n);
    case Mapping(es) =>
      EntriesShape(es, n + 2);
      DashedShape(LayoutEntries(es, n + 2), n);
    case Text(_) => TokenDash(v, n);
    case Int(_) => TokenDash(v, n);
    case Float(_) => TokenDash(v, n);
  }

  lemma {:induction false} DashedShape(block: seq<Line>, n: nat)
    requires block != [] && ':' in block[0].content && Stripped(block[0].content) && AtLeast(block, n + 2)
    ensures var ls := Dashed(block, n);
      ls != [] && DashLine(ls[0], n) && AtLeast(ls[1..], n + 1) && ':' in ls[0].content
  {
    var c := "- " + block[0].content;
    var i :| 0 <= i < |block[0].content| && block[0].content[i] == ':';
    assert c[i + 2] == ':' && c[|c| - 1] == block[0].content[|c| - 3];
  }

  // ------------------------------------------------------------ reading one line

  lemma {:induction false} ColonAt(key: string, rest: string)
    requires ':' !in key
    ensures ':' in Pair(key, rest) && Colon(Pair(key, rest)) == |key|
  {
    var s := Pair(key, rest);
    assert s[|key|] == ':';
    if key != "" {
      assert s[1..] == Pair(key[1..], rest);
      ColonAt(key[1..], rest);
    }
  }

  /** `content.partition(":")`, stripped, gives the key and the token back. */
  lemma {:induction false} PartitionLine(key: string, pad: string, token: string)
    requires KeyOk(key) && AllSpace(pad) && Stripped(token)
    ensures var c := Pair(key, pad + token);
      ':' in c && Partition(c) == (key, token)
  {
    var c := Pair(key, pad + token);
    ColonAt(key, pad + token);
    assert c[..|key|] == key;
    assert c[|key| + 1..] == pad + token;
    StripId(key);
    StripPad(pad, token, "");
    assert pad + token + "" == pad + token;
  }

  lemma {:induction false} DeeperSplit(tail: seq<Line>, suf: seq<Line>, n: nat)
    requires AtLeast(tail, n + 1)
    requires suf == [] || suf[0].indent <= n
    ensures Deeper(tail + suf, n) == |tail|
  {
    var both := tail + suf;
    var k := Deeper(both, n);
    assert forall i :: 0 <= i < |tail| ==> both[i].indent > n;
    assert suf != [] ==> both[|tail|] == suf[0];
  }

  // ------------------------------------------------------------- the round trip

  /** What may follow an entry at `n`: a shallower line, or a key line of the same mapping. */
  predicate EndsEntry(suf: seq<Line>, n: nat) {
    suf == [] || suf[0].indent < n || (suf[0].indent == n && !Dash(suf[0].content))
  }

  /** What may follow the last entry of a mapping at `n`. */
  predicate EndsMapping(suf: seq<Line>, n: nat) { suf == [] || suf[0].indent < n }

  /** Reading the entries of a laid-out mapping adds them to it and leaves the rest unread. */
  lemma {:induction false} EntriesRoundTrip(es: seq<Entry>, n: nat, suf: seq<Line>, acc: seq<Entry>)
    requires EntriesOk(es) && EndsEntry(suf, n)
    ensures ParseEntries(LayoutEntries(es, n) + suf, n, acc) == ParseEntries(suf, n, acc + es)
    decreases es, 1
  {
    hide ParseEntries;
    if es == [] {
      assert LayoutEntries(es, n) + suf == suf && acc + es == acc;
    } else {
      FirstEntry(es, n, suf, acc);
      EntriesRoundTrip(es[1..], n, suf, acc + [es[0]]);
      assert acc + [es[0]] + es[1..] == acc + es;
    }
  }

  lemma {:induction false} FirstEntry(es: seq<Entry>, n: nat, suf: seq<Line>, acc: seq<Entry>)
    requires es != [] && EntriesOk(es) && EndsEntry(suf, n)
    ensures ParseEntries(LayoutEntries(es, n) + suf, n, acc)
         == ParseEntries(LayoutEntries(es[1..], n) + suf, n, acc + [es[0]])
    decreases es, 0
  {
    hide ParseEntries, ReadEntry, LayoutEntry;
    var rest := LayoutEntries(es[1..], n) + suf;
    assert LayoutEntries(es, n) + suf == LayoutEntry(es[0], n) + rest;
    assert EndsEntry(rest, n) by { EntriesShape(es[1..], n); }
    EntryRoundTrip(es[0], n, rest);
    EntryShape(es[0], n);
    EntriesTurn(LayoutEntry(es[0], n) + rest, n, acc);
  }

  /** Reading one entry returns it and advances past exactly its lines. */
  lemma {:induction false} EntryRoundTrip(e: Entry, n: nat, suf: seq<Line>)
    requires EntryPairOk(e) && EndsEntry(suf, n)
    ensures ReadEntry(LayoutEntry(e, n) + suf, n) == Ok((e, suf))
    decreases e, 1
  {
    hide ReadEntry, ParseBlock, LayoutEntries, LayoutItems;
    match e.value
    case Null =>
      NoChild(e.key, suf, n);
    case Sequence(items) =>
      ItemsShape(items, n);
      SequenceBefore(items, n, suf);
      Child(e, LayoutItems(items, n), n, n, suf);
    case Mapping(es) =>
      EntriesShape(es, n + 2);
      MappingBefore(es, n + 2, suf);
      Child(e, LayoutEntries(es, n + 2), n, n + 2, suf);
    case Text(s) => if Lines(s) { LiteralRoundTrip(e, n, suf); } else { TokenEntry(e, n, suf); }
    case Int(_) => TokenEntry(e, n, suf);
    case Float(_) => TokenEntry(e, n, suf);
  }

  lemma {:induction false} NoChild(key: string, suf: seq<Line>, n: nat)
    requires KeyOk(key) && EndsEntry(suf, n)
    ensures ReadEntry([Line(n, Pair(key, ""))] + suf, n) == Ok((Entry(key, Null), suf))
  {
    hide ReadEntry, Partition;
    var ls := [Line(n, Pair(key, ""))] + suf;
    PartitionLine(key, "", "");
    assert "" + "" == "";
    assert ls[1..] == suf;
    KeyAlone(ls, key, n);
  }

  /** A key line followed by a block that reads back as the entry's value. */
  lemma {:induction false} Child(e: Entry, block: seq<Line>, n: nat, m: nat, suf: seq<Line>)
    requires KeyOk(e.key) && block != [] && block[0].indent == m
    requires m > n || (m == n && Dash(block[0].content))
    requires ParseBlock(block + suf, m) == Ok((e.value, suf))
    ensures ReadEntry([Line(n, Pair(e.key, ""))] + block + suf, n) == Ok((e, suf))
  {
    hide ReadEntry, ParseBlock, Partition;
    var ls := [Line(n, Pair(e.key, ""))] + block + suf;
    PartitionLine(e.key, "", "");
    assert "" + "" == "";
    assert ls[1..] == block + suf;
    assert ls[1] == block[0];
    KeyAlone(ls, e.key, n);
  }

  lemma {:induction false} TokenEntry(e: Entry, n: nat, suf: seq<Line>)
    requires KeyOk(e.key) && ScalarOk(e.value)
    requires suf == [] || suf[0].indent <= n
    ensures ReadEntry([Line(n, Pair(e.key, " " + Token(e.value)))] + suf, n) == Ok((e, suf))
  {
    hide ReadEntry, Partition, ScalarOf;
    var ls := [Line(n, Pair(e.key, " " + Token(e.value)))] + suf;
    TokenRoundTrip(e.value);
    PartitionLine(e.key, " ", Token(e.value));
    assert ls[1..] == suf;
    assert Continuation(suf, n) == 0;
    KeyWithScalar(ls, e.key, Token(e.value), n);
  }

  lemma {:induction false} LiteralText1(s: string, n: nat)
    ensures BlockText("|-", At(n, Split(s, '\n'))) == s
  {
    assert Contents(At(n, Split(s, '\n'))) == Split(s, '\n');
    JoinSplit(s, '\n');
  }

  lemma {:induction false} LiteralEntry(header: Line, e: Entry, tail: seq<Line>, n: nat, suf: seq<Line>)
    requires ':' in header.content && Partition(header.content) == (e.key, "|-")
    requires AtLeast(tail, n + 1) && (suf == [] || suf[0].indent <= n)
    requires e.value == Value.Text(BlockText("|-", tail))
    ensures ReadEntry([header] + tail + suf, n) == Ok((e, suf))
  {
    hide ReadEntry, Partition, BlockText;
    var ls := [header] + tail + suf;
    assert ls[1..] == tail + suf;
    DeeperSplit(tail, suf, n);
    var k := 1 + |tail|;
    assert ls[1..k] == tail && ls[k..] == suf;
    KeyWithBlock(ls, e.key, "|-", n);
  }

  lemma {:induction false} LiteralRoundTrip(e: Entry, n: nat, suf: seq<Line>)
    requires KeyOk(e.key) && e.value.Text? && Lines(e.value.text) && LiteralText(e.value.text)
    requires suf == [] || suf[0].indent <= n
    ensures ReadEntry([Line(n, Pair(e.key, " " + "|-"))] + At(n + 2, Split(e.value.text, '\n')) + suf, n) ==
      Ok((e, suf))
  {
    hide ReadEntry, Split;
    PartitionLine(e.key, " ", "|-");
    LiteralText1(e.value.text, n + 2);
    LiteralEntry(Line(n, Pair(e.key, " " + "|-")), e, At(n + 2, Split(e.value.text, '\n')), n, suf);
  }

  lemma {:induction false} ItemsRoundTrip(items: seq<Value>, n: nat, suf: seq<Line>, acc: seq<Value>)
    requires ItemsOk(items) && (suf == [] || suf[0].indent <= n)
    ensures ParseItems(LayoutItems(items, n) + suf, n, acc) == ParseItems(suf, n, acc + items)
    decreases items, 1
  {
    hide ParseItems;
    if items == [] {
      assert LayoutItems(items, n) + suf == suf && acc + items == acc;
    } else {
      FirstItem(items, n, suf, acc);
      ItemsRoundTrip(items[1..], n, suf, acc + [items[0]]);
      assert acc + [items[0]] + items[1..] == acc + items;
    }
  }

  lemma {:induction false} FirstItem(items: seq<Value>, n: nat, suf: seq<Line>, acc: seq<Value>)
    requires items != [] && ItemsOk(items) && (suf == [] || suf[0].indent <= n)
    ensures ParseItems(LayoutItems(items, n) + suf, n, acc)
         == ParseItems(LayoutItems(items[1..], n) + suf, n, acc + [items[0]])
    decreases items, 0
  {
    hide ParseItems, ReadItem, LayoutItem;
    var rest := LayoutItems(items[1..], n) + suf;
    assert LayoutItems(items, n) + suf == LayoutItem(items[0], n) + rest;
    assert rest == [] || rest[0].indent <= n by { ItemsShape(items[1..], n); }
    ItemRoundTrip(items[0], n, rest);
    ItemShape(items[0], n);
    ItemsTurn(LayoutItem(items[0], n) + rest, n, acc);
  }

  /** Reading one item returns it and advances past exactly its lines. */
  lemma {:induction false} ItemRoundTrip(v: Value, n: nat, suf: seq<Line>)
    requires ItemOk(v)
    requires suf == [] || suf[0].indent <= n
    ensures var ls := LayoutItem(v, n) + suf;
      ls != [] && Dash(ls[0].content) && ReadItem(ls, n) == Ok((v, suf))
    decreases v, 1
  {
    ItemShape(v, n);
    match v
    case Sequence(items) =>
      ItemsShape(items, n + 2);
      SequenceBlock(items, n + 2);
      BlockItem(LayoutItems(items, n + 2), v, n, suf);
    case Mapping(es) =>
      EntriesShape(es, n + 2);
      MappingBlock(es, n + 2);
      BlockItem(LayoutEntries(es, n + 2), v, n, suf);
    case Text(_) => TokenItem(v, n, suf);
    case Int(_) => TokenItem(v, n, suf);
    case Float(_) => TokenItem(v, n, suf);
  }

  lemma {:induction false} TokenItem(v: Value, n: nat, suf: seq<Line>)
    requires ScalarOk(v) && (v.Text? ==> ':' !in v.text)
    ensures var ls := [Line(n, "- " + Token(v))] + suf;
      Dash(ls[0].content) && ReadItem(ls, n) == Ok((v, suf))
  {
    var ls := [Line(n, "- " + Token(v))] + suf;
    TokenRoundTrip(v);
    TokenColon(v);
    assert ls[0].content[2..] == Token(v);
    StripId(Token(v));
    assert ls[1..] == suf;
  }

  lemma {:induction false} ReadBlockItem(ls: seq<Line>, block: seq<Line>, v: Value, n: nat)
    requires ls != [] && Dash(ls[0].content) && block != []
    requires Strip(ls[0].content[2..]) == block[0].content && ':' in block[0].content
    requires ItemBlock(ls, n) == block && ParseBlock(block, n + 2) == Ok((v, []))
    ensures ReadItem(ls, n) == Ok((v, ls[1 + Deeper(ls[1..], n)..]))
  {
    hide ParseBlock, Strip, ItemBlock;
  }

  lemma {:induction false} DashStrip(content: string)
    requires Stripped(content)
    ensures var c := "- " + content; Dash(c) && Strip(c[2..]) == content
  {
    assert ("- " + content)[2..] == content;
    StripId(content);
  }

  /** The block gathered under a dash line is the one that was moved onto it. */
  lemma {:induction false} DashedBlock(block: seq<Line>, n: nat, suf: seq<Line>)
    requires block != [] && block[0].indent == n + 2 && AtLeast(block, n + 2)
    requires Stripped(block[0].content) && (suf == [] || suf[0].indent <= n)
    ensures var ls := Dashed(block, n) + suf;
      && Dash(ls[0].content) && Strip(ls[0].content[2..]) == block[0].content
      && ItemBlock(ls, n) == block && ls[1 + Deeper(ls[1..], n)..] == suf
  {
    hide Weight, Deeper, Strip, Dash, Stripped;
    var ls := Dashed(block, n) + suf;
    var tail := block[1..];
    assert ls[0] == Line(n, "- " + block[0].content);
    DashStrip(block[0].content);
    assert ls[1..] == tail + suf;
    DeeperSplit(tail, suf, n);
    assert (tail + suf)[..|tail|] == tail;
  }

  /** An item whose block reads back completely on its own reads back in its sequence. */
  lemma {:induction false} BlockItem(block: seq<Line>, v: Value, n: nat, suf: seq<Line>)
    requires block != [] && block[0].indent == n + 2 && AtLeast(block, n + 2)
    requires ':' in block[0].content && Stripped(block[0].content)
    requires suf == [] || suf[0].indent <= n
    requires ParseBlock(block, n + 2) == Ok((v, []))
    ensures var ls := Dashed(block, n) + suf;
      Dash(ls[0].content) && ReadItem(ls, n) == Ok((v, suf))
  {
    hide ReadItem, ParseBlock, ItemBlock, Strip, Deeper;
    DashedBlock(block, n, suf);
    ReadBlockItem(Dashed(block, n) + suf, block, v, n);
  }

  lemma {:induction false} MappingBefore(es: seq<Entry>, n: nat, suf: seq<Line>)
    requires EntriesOk(es) && es != [] && EndsMapping(suf, n)
    ensures ParseBlock(LayoutEntries(es, n) + suf, n) == Ok((Mapping(es), suf))
    decreases es, 2
  {
    hide ParseEntries, LayoutEntries;
    EntriesShape(es, n);
    EntriesRoundTrip(es, n, suf, []);
    EntriesEnd(suf, n, es);
    assert [] + es == es;
    DictDistinct(es, |es|);
    assert es[..|es|] == es;
  }

  /** Entries with distinct keys are the mapping they build. */
  lemma {:induction false} DictDistinct(es: seq<Entry>, k: nat)
    requires EntriesOk(es) && k <= |es|
    ensures Dict(es[..k]) == es[..k]
  {
    if k > 0 {
      DictDistinct(es, k - 1);
      assert es[..k][..k - 1] == es[..k - 1];
      assert Fresh(es[k - 1].key, es[..k - 1]) by { Distinct(es, k - 1); }
    }
  }

  lemma {:induction false} Distinct(es: seq<Entry>, k: nat)
    requires EntriesOk(es) && k < |es|
    ensures forall i :: 0 <= i < k ==> es[i].key != es[k].key
  {
    if k > 0 {
      Distinct(es[1..], k - 1);
      assert es[k] in es[1..];
      forall i | 0 <= i < k ensures es[i].key != es[k].key {
        if i > 0 { assert es[1..][i - 1] == es[i] && es[1..][k - 1] == es[k]; }
      }
    }
  }

  lemma {:induction false} SequenceBefore(items: seq<Value>, n: nat, suf: seq<Line>)
    requires ItemsOk(items) && items != [] && EndsEntry(suf, n)
    ensures ParseBlock(LayoutItems(items, n) + suf, n) == Ok((Sequence(items), suf))
    decreases items, 2
  {
    hide ParseItems, LayoutItems;
    ItemsShape(items, n);
    ItemsRoundTrip(items, n, suf, []);
    ItemsEnd(suf, n, items);
    assert [] + items == items;
  }

  /** Reading the block layout of any supported mapping returns it and consumes every line. */
  lemma {:induction false} MappingBlock(es: seq<Entry>, n: nat)
    requires EntriesOk(es) && es != []
    ensures ParseBlock(LayoutEntries(es, n), n) == Ok((Mapping(es), []))
    decreases es, 3
  {
    MappingBefore(es, n, []);
    assert LayoutEntries(es, n) + [] == LayoutEntries(es, n);
  }

  /** The same for a sequence. */
  lemma {:induction false} SequenceBlock(items: seq<Value>, n: nat)
    requires ItemsOk(items) && items != []
    ensures ParseBlock(LayoutItems(items, n), n) == Ok((Sequence(items), []))
    decreases items, 3
  {
    SequenceBefore(items, n, []);
    assert LayoutItems(items, n) + [] == LayoutItems(items, n);
  }
}
