// Source references of root-cause nodes, and the resolver that finds what they cite.
module CauseReferences {
  import opened Wrappers
  import opened Text
  import opened Numbers
  import opened CauseGraph

  /** What a record holds under `causes`: a list whose elements are texts or not, or no list. */
  datatype Causes = NoList | Listed(texts: seq<Option<string>>)

  /** A database by key; what is not an object has no entry. */
  type Table = map<string, Causes>

  /**
   * Both databases. `matrix` holds, for each SPN record, the failure modes whose cell has
   * a text; `decode` reads a quoted name as JSON does, or fails.
   */
  datatype Sources = Sources(
    dtc: Table, spns: Table, matrix: map<string, set<string>>, decode: string -> Option<string>)

  const DTC_HEAD := "dtc_database.json['"
  const SPN_HEAD := "j1939_spn_fmi_database.json['spns']['"
  const MIDDLE := "'].causes["
  const MATRIX_MIDDLE := "'].fault_matrix["
  const MATRIX_END := "]['causes']"

  function ListRef(head: string, key: string, i: nat): string { head + key + MIDDLE + Decimal(i) + "]" }

  datatype Cited = Cited(key: string, index: nat)

  /** The characters before the first quote. */
  function BeforeQuote(s: string): (n: nat)
    ensures n <= |s| && '\'' !in s[..n] && (n < |s| ==> s[n] == '\'')
  {
    if s == "" || s[0] == '\'' then 0 else 1 + BeforeQuote(s[1..])
  }

  function Matched(part: string, head: string): Option<Cited> {
    if !StartsWith(part, head) then None
    else
      var rest := part[|head|..];
      var n := BeforeQuote(rest);
      var tail := rest[n..];
      if n == 0 || !StartsWith(tail, MIDDLE) || |tail| < |MIDDLE| + 2 || tail[|tail| - 1] != ']' then None
      else
        var digits := tail[|MIDDLE|..|tail| - 1];
        if AllDigits(digits) then Some(Cited(rest[..n], Value(digits))) else None
  }

  /** A cell of a fault matrix: the record and the quoted failure mode. */
  datatype Cell = Cell(key: string, quoted: string)

  predicate EndsWith(s: string, suffix: string) { |suffix| <= |s| && s[|s| - |suffix|..] == suffix }

  /** A name between two equal quotes that does not hold them. */
  predicate QuotedName(q: string) {
    |q| >= 3 && q[0] in {'"', '\''} && q[|q| - 1] == q[0] && q[0] !in q[1..|q| - 1]
  }

  function MatchedCell(part: string): Option<Cell> {
    if !StartsWith(part, SPN_HEAD) then None
    else
      var rest := part[|SPN_HEAD|..];
      var n := BeforeQuote(rest);
      var tail := rest[n..];
      if n == 0 || !StartsWith(tail, MATRIX_MIDDLE) || !EndsWith(tail, MATRIX_END)
         || |tail| < |MATRIX_MIDDLE| + |MATRIX_END| then None
      else
        var q := tail[|MATRIX_MIDDLE|..|tail| - |MATRIX_END|];
        if QuotedName(q) then Some(Cell(rest[..n], q)) else None
  }

  predicate CitesCell(s: Sources, c: Cell) {
    c.key in s.matrix && s.decode(c.quoted).Some? && s.decode(c.quoted).value in s.matrix[c.key]
  }

  predicate Cites(table: Table, c: Cited) {
    && c.key in table && table[c.key].Listed?
    && c.index < |table[c.key].texts| && table[c.key].texts[c.index].Some?
  }

  predicate PartResolves(s: Sources, part: string) {
    if Matched(part, DTC_HEAD).Some? then Cites(s.dtc, Matched(part, DTC_HEAD).value)
    else if Matched(part, SPN_HEAD).Some? then Cites(s.spns, Matched(part, SPN_HEAD).value)
    else MatchedCell(part).Some? && CitesCell(s, MatchedCell(part).value)
  }

  predicate AllResolve(s: Sources, parts: seq<string>) {
    forall i :: 0 <= i < |parts| ==> PartResolves(s, Strip(parts[i]))
  }

  predicate Resolves(s: Sources, ref: string) { AllResolve(s, Split(ref, ';')) }

  method Resolve(s: Sources, ref: string) returns (ok: bool)
    ensures ok == Resolves(s, ref)
  {
    hide PartResolves, Split, Strip;
    var parts := Split(ref, ';');
    for i := 0 to |parts|
      invariant AllResolve(s, parts[..i])
    {
      var part := Strip(parts[i]);
      if !PartResolves(s, part) { return false; }
      assert parts[..i + 1] == parts[..i] + [parts[i]];
    }
    assert parts[..|parts|] == parts;
    return true;
  }

  // ---------------------------------------------------------- joined references

  lemma {:induction false} SplitAfterSpace(b: string)
    ensures Split(" " + b, ';') == [" " + Split(b, ';')[0]] + Split(b, ';')[1..]
  {
    assert (" " + b)[1..] == b;
  }

  lemma {:induction false} StripAfterSpace(b: string)
    ensures Strip(" " + b) == Strip(b)
  {
    assert (" " + b)[1..] == b;
  }

  lemma {:induction false} AllResolveConcat(s: Sources, a: seq<string>, b: seq<string>)
    ensures AllResolve(s, a + b) <==> AllResolve(s, a) && AllResolve(s, b)
  {
    hide PartResolves, Strip;
    assert forall i :: 0 <= i < |a| ==> (a + b)[i] == a[i];
    assert forall i :: 0 <= i < |b| ==> (a + b)[|a| + i] == b[i];
  }

  lemma {:induction false} PairResolves(s: Sources, a: string, b: string)
    ensures Resolves(s, a + "; " + b) <==> Resolves(s, a) && Resolves(s, b)
  {
    hide PartResolves, Split, Strip;
    assert a + "; " + b == a + [';'] + (" " + b);
    SplitConcat(a, " " + b, ';');
    SplitAfterSpace(b);
    StripAfterSpace(Split(b, ';')[0]);
    AllResolveConcat(s, Split(a, ';'), Split(" " + b, ';'));
    var first, rest := Split(b, ';')[0], Split(b, ';')[1..];
    assert Split(b, ';') == [first] + rest;
    AllResolveConcat(s, [first], rest);
    AllResolveConcat(s, [" " + first], rest);
    OneResolves(s, first);
    OneResolves(s, " " + first);
  }

  lemma {:induction false} OneResolves(s: Sources, part: string)
    ensures AllResolve(s, [part]) <==> PartResolves(s, Strip(part))
  {
    hide PartResolves, Strip;
    assert [part][0] == part;
  }

  /** A joined reference resolves if and only if each of the references joined does. */
  lemma {:induction false} JoinedResolvesIff(s: Sources, refs: seq<string>)
    requires refs != []
    ensures Resolves(s, Join(refs, "; ")) <==> forall i :: 0 <= i < |refs| ==> Resolves(s, refs[i])
  {
    hide Resolves;
    if |refs| > 1 {
      JoinedResolvesIff(s, refs[1..]);
      PairResolves(s, refs[0], Join(refs[1..], "; "));
      assert forall i :: 0 <= i < |refs| - 1 ==> refs[1..][i] == refs[i + 1];
      assert forall i :: 1 <= i < |refs| ==> refs[i] == refs[1..][i - 1];
    }
  }

  /** The gate before writing: when every node's reference resolves, so does every merged node's. */
  lemma {:induction false} MergedNodesResolve(s: Sources, nodes: seq<Node>, key: string)
    requires forall i :: 0 <= i < |nodes| ==> Resolves(s, nodes[i].ref)
    requires key in GroupedBy(nodes).groups
    ensures Resolves(s, Closed(GroupedBy(nodes).groups[key]).ref)
  {
    hide Resolves, GroupedBy, OfTitle;
    GroupsAreTitles(nodes, key);
    var mine := OfTitle(nodes, key);
    forall i | 0 <= i < |mine| ensures Resolves(s, mine[i].ref) {
      TitledIn(nodes, key, i);
    }
    JoinedResolvesIff(s, RefsOf(mine));
  }

  lemma {:induction false} TitledIn(nodes: seq<Node>, key: string, i: nat)
    requires i < |OfTitle(nodes, key)|
    ensures exists k :: 0 <= k < |nodes| && nodes[k] == OfTitle(nodes, key)[i]
  {
    hide TitleKey;
    var n := |nodes| - 1;
    if i < |OfTitle(nodes[..n], key)| {
      TitledIn(nodes[..n], key, i);
      var k :| 0 <= k < n && nodes[..n][k] == OfTitle(nodes[..n], key)[i];
      assert nodes[k] == OfTitle(nodes, key)[i];
    } else {
      assert nodes[n] == OfTitle(nodes, key)[i];
    }
  }

  // ---------------------------------------------------------- emitted references

  const HEADS: set<string> := {DTC_HEAD, SPN_HEAD}

  function TableOf(s: Sources, head: string): Table { if head == DTC_HEAD then s.dtc else s.spns }

  /** A key that a reference can name. */
  predicate Name(key: string) { key != "" && '\'' !in key }

  /** A key that breaks neither the quoting nor the list of references. */
  predicate Plain(key: string) { Name(key) && ';' !in key }

  function Tail(i: nat): string { MIDDLE + Decimal(i) + "]" }

  function ListEnd(digits: string): string { MIDDLE + digits + "]" }

  /** One quote ends the key, and digits follow it. */
  lemma {:induction false} ListMatches(head: string, key: string, digits: string)
    requires Name(key) && digits != "" && AllDigits(digits)
    ensures Matched(head + (key + ListEnd(digits)), head) == Some(Cited(key, Value(digits)))
  {
    hide Value;
    var tail := ListEnd(digits);
    var part := head + (key + tail);
    assert part[..|head|] == head && part[|head|..] == key + tail;
    QuoteEnds(key, tail);
    var rest := key + tail;
    assert rest[|key|..] == tail && rest[..|key|] == key;
    assert tail[..|MIDDLE|] == MIDDLE && tail[|MIDDLE|..|tail| - 1] == digits;
  }

  lemma {:induction false} RefMatches(head: string, key: string, i: nat)
    requires Name(key)
    ensures Matched(head + (key + Tail(i)), head) == Some(Cited(key, i))
  {
    hide Decimal, Value, Matched;
    ListMatches(head, key, Decimal(i));
    ValueOfDecimal(i);
  }

  lemma {:induction false} QuoteEnds(key: string, tail: string)
    requires '\'' !in key && tail != "" && tail[0] == '\''
    ensures BeforeQuote(key + tail) == |key|
  {
    if key == "" {
      assert key + tail == tail;
    } else {
      assert (key + tail)[1..] == key[1..] + tail;
      QuoteEnds(key[1..], tail);
    }
  }

  lemma {:induction false} QuotedKeyFails(head: string, key: string, i: nat)
    requires key == "" || '\'' in key
    ensures Matched(head + (key + Tail(i)), head) == None
  {
    hide Decimal, Value, BeforeQuote;
    var end := Tail(i);
    var part := head + (key + end);
    assert part[|head|..] == key + end;
    assert end[0] == '\'';
    if key == "" {
      NoKey(end);
    } else {
      FirstQuote(key, end);
      BadTail(key, end, BeforeQuote(key + end));
    }
  }

  lemma {:induction false} NoKey(end: string)
    requires end != "" && end[0] == '\''
    ensures BeforeQuote("" + end) == 0
  {
    assert "" + end == end;
  }

  /** After the first of two quotes the text cannot close a reference. */
  lemma {:induction false} BadTail(key: string, end: string, n: nat)
    requires n < |key| && |end| >= 2 && end[0] == '\''
    ensures var tail := (key + end)[n..];
      StartsWith(tail, MIDDLE) && |tail| >= |MIDDLE| + 2 ==> !AllDigits(tail[|MIDDLE|..|tail| - 1])
  {
    var tail := (key + end)[n..];
    assert tail == key[n..] + end;
    assert tail[|key| - n] == '\'';
    if StartsWith(tail, MIDDLE) && |tail| >= |MIDDLE| + 2 {
      SecondQuote(tail, |key| - n);
    }
  }

  lemma {:induction false} FirstQuote(key: string, end: string)
    requires '\'' in key
    ensures BeforeQuote(key + end) < |key|
  {
    assert (key + end)[0] == key[0];
    if key[0] != '\'' {
      assert (key + end)[1..] == key[1..] + end;
      FirstQuote(key[1..], end);
    }
  }

  lemma {:induction false} SecondQuote(tail: string, k: nat)
    requires 0 < k < |tail| - 1 && tail[k] == '\'' && StartsWith(tail, MIDDLE) && |tail| >= |MIDDLE| + 2
    ensures !AllDigits(tail[|MIDDLE|..|tail| - 1])
  {
    if k < |MIDDLE| {
      assert tail[..|MIDDLE|][k] == MIDDLE[k];
      MiddleHasOneQuote(k);
    } else {
      assert tail[|MIDDLE|..|tail| - 1][k - |MIDDLE|] == '\'';
    }
  }

  lemma {:induction false} MiddleHasOneQuote(k: nat)
    requires 0 < k < |MIDDLE|
    ensures MIDDLE[k] != '\''
  {
  }

  /** A reference is trimmed, does not end like a matrix cell, and holds no semicolon of its own. */
  lemma {:induction false} RefShape(head: string, key: string, i: nat)
    requires head in HEADS
    ensures var ref := head + (key + Tail(i));
      && ref == ListRef(head, key, i) && Strip(ref) == ref && StartsWith(ref, head) && MatchedCell(ref) == None
    ensures ';' !in head && ';' !in Tail(i) && '\'' in Tail(i)
  {
    hide Decimal, BeforeQuote, Strip, MatchedCell, Tail, ListRef;
    var ref := head + (key + Tail(i));
    RefIs(head, key, i);
    HeadEnds(head);
    TailShape(i);
    assert ref[..|head|] == head;
    assert ref[0] == head[0] && ref[|ref| - 1] == Tail(i)[|Tail(i)| - 1];
    StripId(ref);
    EndsInDigit(head, key, i);
  }

  lemma {:induction false} RefIs(head: string, key: string, i: nat)
    ensures head + (key + Tail(i)) == ListRef(head, key, i)
  {
    hide Decimal;
  }

  lemma {:induction false} TailShape(i: nat)
    ensures '\'' in Tail(i) && ';' !in Tail(i) && |Tail(i)| >= 2 && !IsSpace(Tail(i)[|Tail(i)| - 1])
    ensures IsDigit(Tail(i)[|Tail(i)| - 2])
  {
    hide Decimal;
    assert Tail(i)[0] == '\'';
    assert Tail(i)[|Tail(i)| - 2] == Decimal(i)[|Decimal(i)| - 1];
  }

  lemma {:induction false} EndsInDigit(head: string, key: string, i: nat)
    ensures MatchedCell(head + (key + Tail(i))) == None
  {
    hide Tail, BeforeQuote;
    TailShape(i);
    var ref := head + (key + Tail(i));
    assert ref[|ref| - 2] == Tail(i)[|Tail(i)| - 2];
    NoCellEnd(ref);
  }

  lemma {:induction false} NoCellEnd(ref: string)
    requires |ref| >= 2 && IsDigit(ref[|ref| - 2])
    ensures MatchedCell(ref) == None
  {
    hide BeforeQuote;
    if StartsWith(ref, SPN_HEAD) {
      var rest := ref[|SPN_HEAD|..];
      QuoteBeforeEnd(rest[BeforeQuote(rest)..]);
    }
  }

  lemma {:induction false} QuoteBeforeEnd(tail: string)
    ensures EndsWith(tail, MATRIX_END) ==> |tail| >= 2 && tail[|tail| - 2] == '\''
  {
    if EndsWith(tail, MATRIX_END) {
      assert tail[|tail| - |MATRIX_END|..][|MATRIX_END| - 2] == tail[|tail| - 2];
    }
  }

  /** Nothing that begins with one head matches the other. */
  lemma {:induction false} OtherHead(part: string, head: string)
    requires head in HEADS && StartsWith(part, head)
    ensures Matched(part, if head == DTC_HEAD then SPN_HEAD else DTC_HEAD) == None
    ensures head == DTC_HEAD ==> MatchedCell(part) == None
  {
    hide BeforeQuote, StartsWith, AllDigits, Value, EndsWith, QuotedName;
    OneHead(part);
  }

  lemma {:induction false} OneHead(part: string)
    ensures !(StartsWith(part, DTC_HEAD) && StartsWith(part, SPN_HEAD))
  {
    if StartsWith(part, DTC_HEAD) { assert part[..|DTC_HEAD|][0] == 'd' == part[0]; }
    if StartsWith(part, SPN_HEAD) { assert part[..|SPN_HEAD|][0] == 'j' == part[0]; }
  }

  /** A part that begins with a head and has no quote after it resolves to nothing. */
  lemma {:induction false} UnclosedFails(s: Sources, part: string, head: string)
    requires head in HEADS && StartsWith(part, head) && '\'' !in part[|head|..]
    ensures !PartResolves(s, part)
  {
    hide BeforeQuote;
    OtherHead(part, head);
    var rest := part[|head|..];
    assert BeforeQuote(rest) == |rest|;
    assert rest[|rest|..] == "";
  }

  lemma {:induction false} TrimmedHead(head: string, key: string)
    requires head in HEADS
    ensures var cut := Strip(head + key);
      StartsWith(cut, head) && |cut| <= |head + key| && cut[|head|..] == key[..|cut| - |head|]
  {
    hide Lstrip, Rstrip;
    var part := head + key;
    HeadEnds(head);
    LstripKeeps(head, key);
    RstripHead(head, key);
    var cut := Strip(part);
    assert cut == part[..|cut|];
    assert cut[|head|..] == key[..|cut| - |head|];
    assert cut[..|head|] == head;
  }

  lemma {:induction false} HeadEnds(head: string)
    requires head in HEADS
    ensures head != "" && !IsSpace(head[0]) && !IsSpace(head[|head| - 1])
  {
  }

  lemma {:induction false} RstripHead(head: string, key: string)
    requires head != "" && !IsSpace(head[|head| - 1])
    ensures |Rstrip(head + key)| >= |head|
  {
    var s := head + key;
    if key != "" && IsSpace(key[|key| - 1]) {
      assert s[..|s| - 1] == head + key[..|key| - 1];
      RstripHead(head, key[..|key| - 1]);
    } else if key == "" {
      assert s == head;
    }
  }

  // ------------------------------------------------------------- cut references

  lemma {:induction false} SplitAfter(head: string, x: string)
    requires ';' !in head
    ensures Split(head + x, ';') == [head + Split(x, ';')[0]] + Split(x, ';')[1..]
  {
    if head == "" {
      var q := Split(x, ';');
      assert head + x == x && "" + q[0] == q[0] && q == [q[0]] + q[1..];
    } else {
      assert (head + x)[1..] == head[1..] + x;
      SplitAfter(head[1..], x);
      assert [head[0]] + (head[1..] + Split(x, ';')[0]) == head + Split(x, ';')[0];
    }
  }

  lemma {:induction false} SplitBefore(x: string, tail: string)
    requires ';' !in tail
    ensures var p := Split(x, ';'); Split(x + tail, ';') == p[..|p| - 1] + [p[|p| - 1] + tail]
  {
    if x == "" {
      assert x + tail == tail;
      SplitPiece(tail, ';');
    } else {
      assert (x + tail)[1..] == x[1..] + tail && (x + tail)[0] == x[0];
      SplitBefore(x[1..], tail);
      Extended(x[0], Split(x[1..], ';'), tail);
    }
  }

  /** One more character in front of the pieces does not touch what stands behind them. */
  lemma {:induction false} Extended(c: char, q: seq<string>, tail: string)
    requires q != []
    ensures var r := q[..|q| - 1] + [q[|q| - 1] + tail];
      && (var p := [""] + q; [""] + r == p[..|p| - 1] + [p[|p| - 1] + tail])
      && (var p := [[c] + q[0]] + q[1..]; [[c] + r[0]] + r[1..] == p[..|p| - 1] + [p[|p| - 1] + tail])
  {
    if |q| == 1 {
      assert [c] + (q[0] + tail) == ([c] + q[0]) + tail;
    }
  }

  lemma {:induction false} PiecesOf(key: string)
    ensures |Split(key, ';')| > 1 <==> ';' in key
  {
    if key != "" {
      PiecesOf(key[1..]);
      assert key == [key[0]] + key[1..];
      assert forall c :: c in key <==> c == key[0] || c in key[1..];
    }
  }

  lemma {:induction false} Wrapped(head: string, p: seq<string>, tail: string)
    requires |p| > 1
    ensures var q := p[..|p| - 1] + [p[|p| - 1] + tail];
      [head + q[0]] + q[1..] == [head + p[0]] + p[1..|p| - 1] + [p[|p| - 1] + tail]
  {
  }

  /** The parts of a reference whose key holds semicolons. */
  lemma {:induction false} CutReference(head: string, key: string, i: nat)
    requires head in HEADS && ';' in key
    ensures var p := Split(key, ';');
      && |p| > 1
      && Split(ListRef(head, key, i), ';') == [head + p[0]] + p[1..|p| - 1] + [p[|p| - 1] + Tail(i)]
  {
    hide Split, Tail, ListRef, Strip, MatchedCell;
    RefShape(head, key, i);
    PiecesOf(key);
    var p := Split(key, ';');
    SplitBefore(key, Tail(i));
    SplitAfter(head, key + Tail(i));
    Wrapped(head, p, Tail(i));
  }

  lemma {:induction false} UncutReference(s: Sources, head: string, key: string, i: nat)
    requires head in HEADS && Cites(TableOf(s, head), Cited(key, i)) && ';' !in key
    ensures Resolves(s, ListRef(head, key, i)) <==> key != "" && '\'' !in key
  {
    hide Matched, MatchedCell, Split, Strip, Decimal, Tail;
    var ref := ListRef(head, key, i);
    RefShape(head, key, i);
    OtherHead(ref, head);
    SplitPiece(ref, ';');
    OneResolves(s, ref);
    if key != "" && '\'' !in key { RefMatches(head, key, i); } else { QuotedKeyFails(head, key, i); }
  }

  /**
   * Forged keys exist: one that closes its own reference and opens another makes a
   * reference that resolves by citing two other records.
   */
  lemma {:induction false} ForgedKeyResolves(s: Sources, a: string, k: nat, b: string, i: nat)
    requires Plain(a) && Plain(b) && Cites(s.dtc, Cited(a, k)) && Cites(s.dtc, Cited(b, i))
    ensures var key := a + Tail(k) + ("; " + (DTC_HEAD + b));
      !Plain(key) && Resolves(s, ListRef(DTC_HEAD, key, i))
  {
    hide Matched, MatchedCell, Split, Strip, Decimal, Tail, PartResolves, Cites;
    var key := a + Tail(k) + ("; " + (DTC_HEAD + b));
    UncutReference(s, DTC_HEAD, a, k);
    UncutReference(s, DTC_HEAD, b, i);
    RefShape(DTC_HEAD, a, k);
    RefShape(DTC_HEAD, b, i);
    PairResolves(s, ListRef(DTC_HEAD, a, k), ListRef(DTC_HEAD, b, i));
    RefShape(DTC_HEAD, key, i);
    TwoReferences(a, k, b, i);
    assert key[|a + Tail(k)|] == ';';
  }

  lemma {:induction false} TwoReferences(a: string, k: nat, b: string, i: nat)
    ensures DTC_HEAD + ((a + Tail(k) + ("; " + (DTC_HEAD + b))) + Tail(i)) ==
      (DTC_HEAD + (a + Tail(k))) + "; " + (DTC_HEAD + (b + Tail(i)))
  {
    hide Tail;
    var x, y := Tail(k), Tail(i);
    assert (a + x + ("; " + (DTC_HEAD + b))) + y == a + x + ("; " + (DTC_HEAD + (b + y)));
    assert DTC_HEAD + (a + x + ("; " + (DTC_HEAD + (b + y)))) == (DTC_HEAD + (a + x)) + "; " + (DTC_HEAD + (b + y));
  }

  // ------------------------------------------------------ emitted matrix cells

  function CellEnd(q: string): string { MATRIX_MIDDLE + q + MATRIX_END }

  /** The reference to a cell of a fault matrix: the key, and the failure mode as a quoted name. */
  function CellRef(key: string, q: string): string { SPN_HEAD + (key + CellEnd(q)) }

  lemma {:induction false} CellMatches(key: string, q: string)
    requires Name(key)
    ensures MatchedCell(CellRef(key, q)) == if QuotedName(q) then Some(Cell(key, q)) else None
  {
    var tail := CellEnd(q);
    var rest := key + tail;
    assert CellRef(key, q)[..|SPN_HEAD|] == SPN_HEAD && CellRef(key, q)[|SPN_HEAD|..] == rest;
    QuoteEnds(key, tail);
    assert rest[|key|..] == tail && rest[..|key|] == key;
    assert tail[..|MATRIX_MIDDLE|] == MATRIX_MIDDLE && tail[|tail| - |MATRIX_END|..] == MATRIX_END;
    assert tail[|MATRIX_MIDDLE|..|tail| - |MATRIX_END|] == q;
  }

  lemma {:induction false} CellIsNoList(key: string, q: string)
    requires Name(key)
    ensures Matched(CellRef(key, q), SPN_HEAD) == None
  {
    var tail := CellEnd(q);
    var rest := key + tail;
    assert CellRef(key, q)[|SPN_HEAD|..] == rest;
    QuoteEnds(key, tail);
    assert rest[|key|..] == tail;
    assert tail[3] == 'f';
    PrefixAt(tail, MIDDLE, 3);
  }

  lemma {:induction false} PrefixAt(s: string, prefix: string, k: nat)
    requires k < |prefix| <= |s|
    ensures StartsWith(s, prefix) ==> s[k] == prefix[k]
  {
    assert s[..|prefix|][k] == s[k];
  }

  lemma {:induction false} CellShape(key: string, q: string)
    requires Plain(key) && ';' !in q
    ensures var ref := CellRef(key, q);
      StartsWith(ref, SPN_HEAD) && Strip(ref) == ref && ';' !in ref
  {
    hide Strip;
    var ref := CellRef(key, q);
    assert ref[..|SPN_HEAD|] == SPN_HEAD && ref[0] == 'j' && ref[|ref| - 1] == ']';
    StripId(ref);
  }

  /**
   * The reference to a cell with a text, under a plain key and a name without semicolons,
   * resolves if and only if the quoted name is not empty and holds no quote of its own.
   */
  lemma {:induction false} CellResolvesIff(s: Sources, key: string, q: string)
    requires Plain(key) && ';' !in q && CitesCell(s, Cell(key, q))
    ensures Resolves(s, CellRef(key, q)) <==> QuotedName(q)
  {
    hide Matched, MatchedCell, QuotedName, CellRef, Strip, StartsWith, Name;
    var ref := CellRef(key, q);
    CellShape(key, q);
    OtherHead(ref, SPN_HEAD);
    CellIsNoList(key, q);
    CellMatches(key, q);
    SplitPiece(ref, ';');
    OneResolves(s, ref);
  }
}
