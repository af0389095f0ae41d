// What a source reference is, as a grammar rather than as the resolver's matching: the
// parts that resolve, and the keys whose emitted reference does.
module CauseGrammar {
  import opened Text
  import opened Numbers
  import opened CauseReferences

  // -------------------------------------------------------------- one reference

  /** The text names an element of a record's list of causes; its number may have leading zeros. */
  predicate NamesCause(s: Sources, head: string, text: string, key: string, digits: string) {
    && Name(key) && digits != "" && AllDigits(digits) && text == key + ListEnd(digits)
    && Cites(TableOf(s, head), Cited(key, Value(digits)))
  }

  predicate NamesCell(s: Sources, text: string, key: string, q: string) {
    Name(key) && QuotedName(q) && text == key + CellEnd(q) && CitesCell(s, Cell(key, q))
  }

  /** Behind this head the text completes a reference to a cause that is there. */
  ghost predicate Completes(s: Sources, head: string, text: string) {
    || (exists key, digits :: NamesCause(s, head, text, key, digits))
    || (head == SPN_HEAD && exists key, q :: NamesCell(s, text, key, q))
  }

  ghost predicate IsReference(s: Sources, part: string) {
    exists head :: head in HEADS && StartsWith(part, head) && Completes(s, head, part[|head|..])
  }

  /** What is matched behind a head is a key, and the number in its digits. */
  lemma {:induction false} MatchedNames(head: string, text: string) returns (digits: string)
    requires Matched(head + text, head).Some?
    ensures var c := Matched(head + text, head).value;
      && Name(c.key) && digits != "" && AllDigits(digits)
      && text == c.key + ListEnd(digits) && c.index == Value(digits)
  {
    hide Value, BeforeQuote;
    assert (head + text)[|head|..] == text;
    var n := BeforeQuote(text);
    var tail := text[n..];
    digits := tail[|MIDDLE|..|tail| - 1];
    assert tail[..|MIDDLE|] == MIDDLE;
    assert tail == ListEnd(digits);
    assert text == text[..n] + tail;
  }

  lemma {:induction false} MatchedNamesCell(text: string)
    requires MatchedCell(SPN_HEAD + text).Some?
    ensures var c := MatchedCell(SPN_HEAD + text).value;
      Name(c.key) && QuotedName(c.quoted) && text == c.key + CellEnd(c.quoted)
  {
    hide BeforeQuote, QuotedName;
    assert (SPN_HEAD + text)[|SPN_HEAD|..] == text;
    var n := BeforeQuote(text);
    var tail := text[n..];
    var q := tail[|MATRIX_MIDDLE|..|tail| - |MATRIX_END|];
    assert tail[..|MATRIX_MIDDLE|] == MATRIX_MIDDLE && tail[|tail| - |MATRIX_END|..] == MATRIX_END;
    assert tail == CellEnd(q);
    assert text == text[..n] + tail;
  }

  /** Behind a head, what resolves is what completes a reference. */
  lemma {:induction false} BehindHead(s: Sources, head: string, text: string)
    requires head in HEADS
    ensures PartResolves(s, head + text) <==> Completes(s, head, text)
  {
    hide Matched, MatchedCell, Cites, CitesCell, QuotedName, Name, AllDigits, Value, StartsWith;
    var part := head + text;
    HeadStarts(head, text);
    OtherHead(part, head);
    if PartResolves(s, part) {
      if Matched(part, head).Some? {
        var digits := MatchedNames(head, text);
        assert NamesCause(s, head, text, Matched(part, head).value.key, digits);
      } else {
        MatchedNamesCell(text);
        var c := MatchedCell(part).value;
        assert NamesCell(s, text, c.key, c.quoted);
      }
    }
    if key, digits :| NamesCause(s, head, text, key, digits) {
      ListMatches(head, key, digits);
    } else if key, q :| head == SPN_HEAD && NamesCell(s, text, key, q) {
      CellIsNoList(key, q);
      CellMatches(key, q);
    }
  }

  lemma {:induction false} HeadStarts(head: string, text: string)
    ensures StartsWith(head + text, head)
  {
  }

  /** The parts that resolve are exactly the references. */
  lemma {:induction false} PartResolvesIff(s: Sources, part: string)
    ensures PartResolves(s, part) <==> IsReference(s, part)
  {
    hide Completes, Matched, MatchedCell;
    forall head | head in HEADS && StartsWith(part, head)
      ensures PartResolves(s, part) <==> Completes(s, head, part[|head|..])
    {
      assert part == head + part[|head|..];
      BehindHead(s, head, part[|head|..]);
    }
    if PartResolves(s, part) { HasHead(s, part); }
  }

  lemma {:induction false} HasHead(s: Sources, part: string)
    requires PartResolves(s, part)
    ensures exists head :: head in HEADS && StartsWith(part, head)
  {
    hide BeforeQuote, QuotedName, StartsWith;
    assert DTC_HEAD in HEADS && SPN_HEAD in HEADS;
  }

  // --------------------------------------------------------- emitted references

  /** The text begins a reference that the ending of the `i`-th cause completes. */
  ghost predicate Begins(s: Sources, text: string, i: nat) {
    exists head :: head in HEADS && StartsWith(text, head) && BeginsAt(s, head, text[|head|..], i)
  }

  predicate BeginsAt(s: Sources, head: string, key: string, i: nat) {
    Name(key) && Cites(TableOf(s, head), Cited(key, i))
  }

  /**
   * The key forges its reference: up to its first semicolon it completes a reference behind
   * the head, between semicolons it holds whole references, and behind the last it begins one.
   */
  ghost predicate Forged(s: Sources, head: string, key: string, i: nat) {
    var pieces := Split(key, ';');
    && |pieces| > 1
    && Completes(s, head, Rstrip(pieces[0]))
    && (forall k :: 0 < k < |pieces| - 1 ==> IsReference(s, Strip(pieces[k])))
    && Begins(s, Lstrip(pieces[|pieces| - 1]), i)
  }

  lemma {:induction false} FirstPart(s: Sources, head: string, piece: string)
    requires head in HEADS
    ensures PartResolves(s, Strip(head + piece)) <==> Completes(s, head, Rstrip(piece))
  {
    hide Completes, PartResolves, Lstrip, Rstrip;
    HeadEnds(head);
    LstripKeeps(head, piece);
    RstripBehind(head, piece);
    BehindHead(s, head, Rstrip(piece));
  }

  lemma {:induction false} RstripBehind(head: string, piece: string)
    requires head != "" && !IsSpace(head[|head| - 1])
    ensures Rstrip(head + piece) == head + Rstrip(piece)
  {
    var all := head + piece;
    if piece == "" {
      assert all == head;
    } else if IsSpace(piece[|piece| - 1]) {
      assert all[..|all| - 1] == head + piece[..|piece| - 1];
      RstripBehind(head, piece[..|piece| - 1]);
    }
  }

  lemma {:induction false} LastPart(s: Sources, piece: string, i: nat)
    ensures PartResolves(s, Strip(piece + Tail(i))) <==> Begins(s, Lstrip(piece), i)
  {
    hide PartResolves, Lstrip, Rstrip, Tail, BeginsAt;
    TailShape(i);
    QuoteFirst(i);
    LstripBefore(piece, Tail(i));
    var text := Lstrip(piece);
    var part := text + Tail(i);
    RstripEnd(text, Tail(i));
    forall head | head in HEADS && StartsWith(text, head)
      ensures PartResolves(s, part) <==> BeginsAt(s, head, text[|head|..], i)
    {
      Behind(text, head, Tail(i));
      TailCompletes(s, head, text[|head|..], i);
    }
    if PartResolves(s, part) && !Begins(s, text, i) {
      HasHead(s, part);
      var head :| head in HEADS && StartsWith(part, head);
      assert !StartsWith(text, head);
      OnlyTail(text, head, i);
      UnclosedFails(s, part, head);
      assert false;
    }
  }

  lemma {:induction false} Behind(text: string, head: string, tail: string)
    requires StartsWith(text, head)
    ensures text + tail == head + (text[|head|..] + tail)
  {
  }

  /** A key behind a head, with the ending of a cause: it resolves if the key is a name and cited. */
  lemma {:induction false} TailCompletes(s: Sources, head: string, key: string, i: nat)
    requires head in HEADS
    ensures PartResolves(s, head + (key + Tail(i))) <==> BeginsAt(s, head, key, i)
  {
    hide Matched, MatchedCell, Tail, StartsWith;
    HeadStarts(head, key + Tail(i));
    OtherHead(head + (key + Tail(i)), head);
    EndsInDigit(head, key, i);
    if Name(key) { RefMatches(head, key, i); } else { QuotedKeyFails(head, key, i); }
  }

  /** Where the head reaches into the ending, no quote is left behind it. */
  lemma {:induction false} OnlyTail(text: string, head: string, i: nat)
    requires StartsWith(text + Tail(i), head) && !StartsWith(text, head)
    ensures '\'' !in (text + Tail(i))[|head|..]
  {
    hide Tail;
    var part := text + Tail(i);
    if |head| <= |text| { HeadWithin(text, Tail(i), head); }
    forall k | |head| <= k < |part| ensures part[k] != '\'' {
      NoQuoteInside(i, k - |text|);
      assert part[k] == Tail(i)[k - |text|];
    }
  }

  lemma {:induction false} HeadWithin(text: string, tail: string, head: string)
    requires |head| <= |text|
    ensures StartsWith(text + tail, head) <==> StartsWith(text, head)
  {
    assert (text + tail)[..|head|] == text[..|head|];
  }

  lemma {:induction false} QuoteFirst(i: nat)
    ensures Tail(i) != "" && Tail(i)[0] == '\''
  {
  }

  lemma {:induction false} NoQuoteInside(i: nat, k: nat)
    requires 0 < k < |Tail(i)|
    ensures Tail(i)[k] != '\''
  {
    hide Decimal;
    if |MIDDLE| <= k < |Tail(i)| - 1 {
      assert Tail(i)[k] == Decimal(i)[k - |MIDDLE|];
    } else if k < |MIDDLE| {
      assert Tail(i)[k] == MIDDLE[k];
    }
  }

  lemma {:induction false} LstripBefore(piece: string, tail: string)
    requires tail != "" && !IsSpace(tail[0])
    ensures Lstrip(piece + tail) == Lstrip(piece) + tail
  {
    if piece == "" {
      assert piece + tail == tail;
    } else {
      assert (piece + tail)[1..] == piece[1..] + tail;
      LstripBefore(piece[1..], tail);
    }
  }

  lemma {:induction false} RstripEnd(text: string, tail: string)
    requires tail != "" && !IsSpace(tail[|tail| - 1])
    ensures Rstrip(text + tail) == text + tail
  {
    assert (text + tail)[|text + tail| - 1] == tail[|tail| - 1];
  }

  /** The parts of a cut reference resolve if and only if the key forges it. */
  lemma {:induction false} CutResolvesIff(s: Sources, head: string, key: string, i: nat)
    requires head in HEADS && ';' in key
    ensures Resolves(s, ListRef(head, key, i)) <==> Forged(s, head, key, i)
  {
    hide Split, ListRef, Tail, Strip, PartResolves, Completes, IsReference, Begins;
    CutReference(head, key, i);
    var p := Split(key, ';');
    var n := |p| - 1;
    var parts := [head + p[0]] + p[1..n] + [p[n] + Tail(i)];
    FirstPart(s, head, p[0]);
    LastPart(s, p[n], i);
    forall k | 0 < k < n ensures PartResolves(s, Strip(parts[k])) <==> IsReference(s, Strip(p[k])) {
      assert parts[k] == p[k];
      PartResolvesIff(s, Strip(p[k]));
    }
    assert parts[0] == head + p[0] && parts[n] == p[n] + Tail(i) && |parts| == n + 1;
  }

  /**
   * The reference of a citable cause, in either database, resolves if and only if its key
   * is plain or forges the reference.
   */
  lemma {:induction false} EmittedResolvesIff(s: Sources, head: string, key: string, i: nat)
    requires head in HEADS && Cites(TableOf(s, head), Cited(key, i))
    ensures Resolves(s, ListRef(head, key, i)) <==> Plain(key) || Forged(s, head, key, i)
  {
    hide Split, ListRef, Resolves, Completes, Begins, Strip, Rstrip, Lstrip;
    if ';' in key {
      CutResolvesIff(s, head, key, i);
    } else {
      UncutReference(s, head, key, i);
      SplitPiece(key, ';');
    }
  }
}
