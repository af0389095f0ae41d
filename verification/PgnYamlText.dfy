// Which documents survive being written as text: a condition on the values alone.
module PgnYamlText {
  import opened Text
  import opened PgnYaml
  import opened PgnYamlLayout
  import opened PgnYamlReader

  /** A key line must not be broken, nor look like a comment. */
  predicate KeyWrites(key: string) { Unbroken(key) && (key != "" ==> key[0] != '#') }

  /** A text on one line is unbroken; each line of a literal text is a line that is read back. */
  predicate TextWrites(s: string) {
    if Lines(s) then forall p :: p in Split(s, '\n') ==> Writable(p) else Unbroken(s)
  }

  predicate ValueWrites(v: Value)
    decreases v
  {
    match v
    case Null => true
    case Int(_) => true
    case Float(_) => true
    case Text(s) => TextWrites(s)
    case Sequence(items) => ItemsWrite(items)
    case Mapping(es) => EntriesWrite(es)
  }

  predicate ItemsWrite(items: seq<Value>)
    decreases items
  {
    items != [] ==> ValueWrites(items[0]) && ItemsWrite(items[1..])
  }

  predicate EntriesWrite(es: seq<Entry>)
    decreases es
  {
    es != [] ==> KeyWrites(es[0].key) && ValueWrites(es[0].value) && EntriesWrite(es[1..])
  }

  predicate AllWritable(ls: seq<Line>) { forall i :: 0 <= i < |ls| ==> Writable(ls[i].content) }

  lemma {:induction false} WritableConcat(a: seq<Line>, b: seq<Line>)
    requires AllWritable(a) && AllWritable(b)
    ensures AllWritable(a + b)
  {
    hide Writable;
  }

  lemma {:induction false} WritableOne(l: Line)
    requires Writable(l.content)
    ensures AllWritable([l])
  {
    hide Writable;
  }

  /** A key line: the rest is empty, or stands after a space. */
  lemma {:induction false} PairWrites(key: string, rest: string)
    requires KeyOk(key) && KeyWrites(key)
    requires rest == "" || (|rest| >= 2 && Unbroken(rest) && !IsSpace(rest[|rest| - 1]))
    ensures Writable(Pair(key, rest))
  {
    var s := Pair(key, rest);
    assert s[|key|] == ':';
    assert s == key + (":" + rest);
    if key != "" { assert s[0] == key[0]; }
  }

  lemma {:induction false} DashWrites(token: string)
    requires token != "" && Unbroken(token) && !IsSpace(token[|token| - 1])
    ensures Writable("- " + token)
  {
    var s := "- " + token;
    assert s[1] == ' ' && s[|s| - 1] == token[|token| - 1];
  }

  lemma {:induction false} NumberUnbroken(v: Value)
    requires (v.Int? || v.Float?) && NumberOk(v)
    ensures v.lexeme != "" && Unbroken(v.lexeme)
  {
    NumberChars(v);
    assert forall c: char :: NumberChar(c) ==> !IsBreak(c);
  }

  predicate NumberChar(c: char) { '0' <= c <= '9' || c in {'-', '.'} }

  predicate NumberCharsOnly(s: string) { forall i :: 0 <= i < |s| ==> NumberChar(s[i]) }

  lemma {:induction false} NumberChars(v: Value)
    requires (v.Int? || v.Float?) && NumberOk(v)
    ensures v.lexeme != "" && NumberCharsOnly(v.lexeme)
  {
    hide Split;
    var u := Unsigned(v.lexeme);
    if v.Float? {
      var parts := Split(u, '.');
      JoinSplit(u, '.');
      TwoParts(parts);
      assert u == parts[0] + ['.'] + parts[1];
      Joined(parts[0], parts[1]);
    }
    assert v.lexeme == u || v.lexeme == ['-'] + u;
  }

  lemma {:induction false} TwoParts(parts: seq<string>)
    requires |parts| == 2
    ensures Join(parts, ['.']) == parts[0] + ['.'] + parts[1]
  {
    assert parts[1..] == [parts[1]];
  }

  lemma {:induction false} Joined(a: string, b: string)
    requires IsDigits(a) && IsDigits(b)
    ensures NumberCharsOnly(a + ['.'] + b)
  {
  }

  /** The token of a scalar stands on one line and ends in a character that is no space. */
  lemma {:induction false} TokenWrites(v: Value)
    requires ScalarOk(v) && ValueWrites(v) && (v.Text? ==> !Lines(v.text))
    ensures Token(v) != "" && Unbroken(Token(v)) && !IsSpace(Token(v)[|Token(v)| - 1])
  {
    hide ScalarOf, BlockHeader, IsInt, IsFloat, Split;
    if v.Text? {
      var s := v.text;
      if s != "" && ScalarOf(s) == v && !BlockHeader(s) {
        PlainText(s);
      } else {
        assert Token(v) == "'" + s + "'";
      }
    } else {
      NumberUnbroken(v);
    }
  }

  /** A text that stands for itself is trimmed. */
  lemma {:induction false} PlainText(s: string)
    requires ScalarOf(s) == Value.Text(s)
    ensures Strip(s) == s && Stripped(s)
  {
    hide Strip, IsInt, IsFloat;
  }

  lemma {:induction false} TokenEntryWrites(e: Entry, n: nat)
    requires KeyOk(e.key) && KeyWrites(e.key) && ScalarOk(e.value) && ValueWrites(e.value)
    requires e.value.Text? ==> !Lines(e.value.text)
    ensures AllWritable([Line(n, Pair(e.key, " " + Token(e.value)))])
  {
    hide Token, Writable, KeyOk, KeyWrites;
    TokenWrites(e.value);
    PairWrites(e.key, " " + Token(e.value));
    WritableOne(Line(n, Pair(e.key, " " + Token(e.value))));
  }

  lemma {:induction false} LiteralWrites(e: Entry, n: nat)
    requires KeyOk(e.key) && KeyWrites(e.key) && e.value.Text? && Lines(e.value.text) && TextWrites(e.value.text)
    ensures AllWritable([Line(n, Pair(e.key, " " + "|-"))] + At(n + 2, Split(e.value.text, '\n')))
  {
    hide Writable, KeyOk, KeyWrites;
    PairWrites(e.key, " " + "|-");
    var parts := Split(e.value.text, '\n');
    assert forall i :: 0 <= i < |parts| ==> parts[i] in parts;
    assert AllWritable(At(n + 2, parts));
    WritableOne(Line(n, Pair(e.key, " " + "|-")));
    WritableConcat([Line(n, Pair(e.key, " " + "|-"))], At(n + 2, parts));
  }

  lemma {:induction false} HeadWrites(key: string, n: nat, block: seq<Line>)
    requires KeyOk(key) && KeyWrites(key) && AllWritable(block)
    ensures AllWritable([Line(n, Pair(key, ""))] + block)
  {
    hide Writable, KeyOk, KeyWrites;
    PairWrites(key, "");
    WritableOne(Line(n, Pair(key, "")));
    WritableConcat([Line(n, Pair(key, ""))], block);
  }

  lemma {:induction false} NoneWritable()
    ensures AllWritable([])
  {
  }

  lemma {:induction false} EntriesWritable(es: seq<Entry>, n: nat)
    requires EntriesOk(es) && EntriesWrite(es)
    ensures AllWritable(LayoutEntries(es, n))
    decreases es
  {
    hide Writable, KeyOk, KeyWrites, LayoutEntry, EntryOk, ValueWrites;
    if es != [] {
      EntryWritable(es[0], n);
      EntriesWritable(es[1..], n);
      WritableConcat(LayoutEntry(es[0], n), LayoutEntries(es[1..], n));
    }
  }

  lemma {:induction false} EntryWritable(e: Entry, n: nat)
    requires EntryPairOk(e) && KeyWrites(e.key) && ValueWrites(e.value)
    ensures AllWritable(LayoutEntry(e, n))
    decreases e
  {
    hide Writable, KeyOk, KeyWrites, LayoutEntries, LayoutItems, Token, TextWrites, AllWritable;
    match e.value
    case Null =>
      NoneWritable();
      HeadWrites(e.key, n, []);
      assert [Line(n, Pair(e.key, ""))] + [] == [Line(n, Pair(e.key, ""))];
    case Sequence(items) =>
      ItemsWritable(items, n);
      HeadWrites(e.key, n, LayoutItems(items, n));
    case Mapping(es) =>
      EntriesWritable(es, n + 2);
      HeadWrites(e.key, n, LayoutEntries(es, n + 2));
    case Text(s) =>
      if Lines(s) { LiteralWrites(e, n); } else { TokenEntryWrites(e, n); }
    case Int(_) => TokenEntryWrites(e, n);
    case Float(_) => TokenEntryWrites(e, n);
  }

  lemma {:induction false} ItemsWritable(items: seq<Value>, n: nat)
    requires ItemsOk(items) && ItemsWrite(items)
    ensures AllWritable(LayoutItems(items, n))
    decreases items
  {
    hide Writable, LayoutItem, ItemOk, ValueWrites;
    if items != [] {
      ItemWritable(items[0], n);
      ItemsWritable(items[1..], n);
      WritableConcat(LayoutItem(items[0], n), LayoutItems(items[1..], n));
    }
  }

  lemma {:induction false} DashedWritable(block: seq<Line>, n: nat)
    requires AllWritable(block)
    ensures AllWritable(Dashed(block, n))
  {
    if block != [] {
      var content := block[0].content;
      assert Writable(content);
      DashWrites(content);
      hide Writable;
      WritableOne(Line(n, "- " + content));
      assert AllWritable(block[1..]);
      WritableConcat([Line(n, "- " + content)], block[1..]);
    }
  }

  lemma {:induction false} ItemWritable(v: Value, n: nat)
    requires ItemOk(v) && ValueWrites(v)
    ensures AllWritable(LayoutItem(v, n))
    decreases v
  {
    hide Writable, LayoutEntries, LayoutItems, Token, TextWrites, AllWritable, Dashed;
    match v
    case Sequence(items) =>
      ItemsWritable(items, n + 2);
      DashedWritable(LayoutItems(items, n + 2), n);
    case Mapping(es) =>
      EntriesWritable(es, n + 2);
      DashedWritable(LayoutEntries(es, n + 2), n);
    case Text(_) => TokenItemWritable(v, n);
    case Int(_) => TokenItemWritable(v, n);
    case Float(_) => TokenItemWritable(v, n);
  }

  lemma {:induction false} TokenItemWritable(v: Value, n: nat)
    requires ScalarOk(v) && ValueWrites(v) && (v.Text? ==> !Lines(v.text))
    ensures AllWritable([Line(n, "- " + Token(v))])
  {
    hide Token, Writable;
    TokenWrites(v);
    DashWrites(Token(v));
    WritableOne(Line(n, "- " + Token(v)));
  }

  /** Every supported mapping whose keys and texts can be written comes back from its text. */
  lemma {:induction false} TextRoundTrip(es: seq<Entry>)
    requires es != [] && EntriesOk(es) && EntriesWrite(es)
    ensures ParseDocument(Render(LayoutEntries(es, 0))) == Parsed(es)
  {
    hide ParseDocument, Render, LayoutEntries, EntriesOk, EntriesWrite, Writable;
    EntriesWritable(es, 0);
    forall l | l in LayoutEntries(es, 0) ensures Writable(l.content) {
      var i :| 0 <= i < |LayoutEntries(es, 0)| && LayoutEntries(es, 0)[i] == l;
    }
    DocumentRoundTrip(es);
  }
}
