// What the harvest compares and cuts, spelled out: the order of the rows, the texts that
// count as empty, the offers, the phrase of the repair, and the mark a merge leaves.
module HarvestMeaning {
  import opened Wrappers
  import opened Text
  import opened Sorting
  import opened Harvest
  import MergeValues
  import ValueLaws

  // ------------------------------------------------------------------------ rows

  /** A row stands before another by its code, then its source, then its URL. */
  predicate Before(a: Row, b: Row) {
    if a.code != b.code then StrLe(a.code, b.code)
    else if a.source != b.source then StrLe(a.source, b.source)
    else StrLe(a.url, b.url)
  }

  lemma {:induction false} TripleOrders(a: Row, b: Row)
    ensures KeyLe(Triple(a), Triple(b)) <==> Before(a, b)
  {
    hide StrLe;
    StrTotal(a.url, b.url);
    KeyOfTwo([a.code, a.source, a.url], [b.code, b.source, b.url]);
    KeyOfTwo([a.source, a.url], [b.source, b.url]);
    KeyOfTwo([a.url], [b.url]);
    KeyOfTwo([], []);
    assert [a.code, a.source, a.url][1..] == [a.source, a.url] && [a.source, a.url][1..] == [a.url];
    assert [b.code, b.source, b.url][1..] == [b.source, b.url] && [b.source, b.url][1..] == [b.url];
    assert [a.url][1..] == [] && [b.url][1..] == [];
  }

  lemma {:induction false} KeyOfTwo(a: Key, b: Key)
    requires |a| == |b|
    ensures KeyLe(a, b) <==> a == [] || if a[0] != b[0] then StrLe(a[0], b[0]) else KeyLe(a[1..], b[1..])
  {
    hide StrLe;
  }

  /** All rows of the first harvest stand before those of the second, and each harvest in its order. */
  lemma {:induction false} RowsAre(first: seq<Row>, second: seq<Row>)
    ensures var rows := Rows(first, second);
      && |rows| == |first| + |second|
      && multiset(rows[..|first|]) == multiset(first) && multiset(rows[|first|..]) == multiset(second)
      && (forall i, j :: 0 <= i < j < |first| ==> Before(rows[i], rows[j]))
      && (forall i, j :: |first| <= i < j < |rows| ==> Before(rows[i], rows[j]))
  {
    hide Sorted, Before, KeyLe;
    var rows := Rows(first, second);
    SortedIs(first, Triple);
    SortedIs(second, Triple);
    SortedSize(first);
    SortedSize(second);
    assert rows[..|first|] == Sorted(first, Triple) && rows[|first|..] == Sorted(second, Triple);
    forall i, j | 0 <= i < j < |first| ensures Before(rows[i], rows[j]) {
      TripleOrders(rows[i], rows[j]);
    }
    forall i, j | |first| <= i < j < |rows| ensures Before(rows[i], rows[j]) {
      TripleOrders(rows[i], rows[j]);
      var k, m := i - |first|, j - |first|;
      assert rows[|first|..][k] == rows[i] && rows[|first|..][m] == rows[j];
    }
  }

  lemma {:induction false} SortedSize(rows: seq<Row>)
    ensures |Sorted(rows, Triple)| == |rows|
  {
    hide Sorted, Ordered;
    SortedIs(rows, Triple);
    assert |multiset(Sorted(rows, Triple))| == |multiset(rows)|;
  }

  // ---------------------------------------------------------------------- offers

  /** A field is empty where it is missing or all white space. */
  lemma {:induction false} EmptyIff(e: Entry, f: Field)
    ensures IsEmpty(e, f) <==> f !in e.english || AllSpace(e.english[f])
  {
    hide Strip, AllSpace;
    if f in e.english {
      var text := e.english[f];
      var left, right := ValueLaws.StripIs(text);
      if AllSpace(text) { ValueLaws.Blank(text); }
      if Strip(text) == "" { TwoSpaces(text, left, right); }
    }
  }

  lemma {:induction false} TwoSpaces(text: string, left: string, right: string)
    requires text == left + "" + right && AllSpace(left) && AllSpace(right)
    ensures AllSpace(text)
  {
  }

  /** A row offers the text it has for the field, under a usable URL; what is offered is text and URL. */
  lemma {:induction false} OfferIs(rows: seq<Row>, code: string, f: Field, usable: string -> bool)
    ensures match FirstFor(rows, code, f, usable)
      case None =>
        forall i :: 0 <= i < |rows| && rows[i].code == code && usable(rows[i].url) && f in rows[i].texts ==>
          rows[i].texts[f] == ""
      case Some(p) =>
        exists k: nat ::
          && k < |rows| && rows[k].code == code && usable(rows[k].url) && f in rows[k].texts
          && rows[k].texts[f] != "" && p.text == rows[k].texts[f] && p.url == rows[k].url
          && (forall i :: 0 <= i < k && rows[i].code == code && usable(rows[i].url) && f in rows[i].texts ==>
                rows[i].texts[f] == "")
  {
    hide FirstFor;
    FirstIs(rows, code, f, usable);
    if p :| FirstFor(rows, code, f, usable) == Some(p) {
      var k: nat :| FirstAt(rows, k, code, f, usable) && p == Patch(TextOf(rows[k], f), rows[k].url);
      assert forall i :: 0 <= i < k ==> !Offers(rows[i], code, f, usable);
    }
  }

  // ------------------------------------------------------------------- the repair

  /** The phrase stands in front of the text, in any case, behind white space at most. */
  ghost predicate BeginsWithPhrase(v: string) {
    exists pad, spelled, after ::
      v == pad + spelled + after && AllSpace(pad) && Lower(spelled) == "the most common cause of"
  }

  lemma {:induction false} PrefixIff(v: string)
    ensures HasPrefix(v) <==> BeginsWithPhrase(v)
  {
    hide HasPrefix, BeginsWithPhrase;
    if HasPrefix(v) { PrefixSpelled(v); }
    if BeginsWithPhrase(v) { SpelledPrefixes(v); }
  }

  lemma {:induction false} PrefixSpelled(v: string)
    requires HasPrefix(v)
    ensures BeginsWithPhrase(v)
  {
    hide Lower, Lstrip, AllSpace, PREFIX;
    var t := Lstrip(v);
    var n := |PREFIX|;
    ValueLaws.LowerLength(t);
    var pad := ValueLaws.LstripIs(v);
    ValueLaws.LowerSlice(t, 0, n);
    var spelled, after := t[0..n], t[n..];
    assert t == spelled + after;
    assert v == pad + spelled + after;
    PhraseIs();
    assert Lower(spelled) == "the most common cause of";
  }

  lemma {:induction false} PhraseIs()
    ensures PREFIX == "the most common cause of"
  {
  }

  lemma {:induction false} SpelledPrefixes(v: string)
    requires BeginsWithPhrase(v)
    ensures HasPrefix(v)
  {
    hide Lower, Lstrip, AllSpace, IsSpace, PREFIX;
    PhraseIs();
    var pad, spelled, after :|
      v == pad + spelled + after && AllSpace(pad) && Lower(spelled) == "the most common cause of";
    ValueLaws.LowerLength(spelled);
    PhraseIsText(spelled);
    assert v == pad + (spelled + after);
    ValueLaws.LstripBehindSpace(pad, spelled + after);
    LstripKeeps(spelled, after);
    ValueLaws.LowerConcat(spelled, after);
    assert Lower(spelled + after)[..|PREFIX|] == Lower(spelled);
  }

  lemma {:induction false} PhraseIsText(spelled: string)
    requires Lower(spelled) == "the most common cause of"
    ensures spelled != "" && !IsSpace(spelled[0])
  {
    ValueLaws.LowerLength(spelled);
    assert Lower(spelled)[0] == 't';
  }

  /** What is cut is what stands behind the phrase of the text on one line, trimmed. */
  lemma {:induction false} CutIs(words: seq<string>, pads: seq<string>, end: string, rest: Rest)
    requires ValueLaws.Separated(words, pads, end)
    ensures Cut(ValueLaws.Spread(words, pads, end), rest) == Strip(rest(Join(words, " ")))
  {
    hide Strip, Join, MergeValues.WordsOf;
    ValueLaws.CollapseIs(words, pads, end);
  }

  // ----------------------------------------------------------------- other fields

  /** A merge marks exactly the entries it fills, and cuts the phrase off their other texts too. */
  lemma {:induction false} MarkedIff(db: Entries, c: Candidates, rest: Rest, code: string)
    requires code in db
    ensures Merged(db, c, rest).Keys == db.Keys
    ensures var e, a := db[code], Merged(db, c, rest)[code];
      && (a.marked <==> e.marked || (code in c && c[code] != map[]))
      && a.others.Keys == e.others.Keys
      && forall name :: name in e.others ==> a.others[name] == RepairedText(e.others[name], rest)
  {
    hide RepairedText;
  }
}
