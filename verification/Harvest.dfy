// Folding two harvests into the empty English fields of the trouble-code database: rows
// in a fixed order, the first usable one wins, and then a site's phrase is cut off the
// front of every English text that begins with it.
module Harvest {
  import opened Wrappers
  import opened Text
  import opened Sorting
  import MergeValues

  datatype Field = Symptoms | Causes | Description | Title

  const FIELDS: seq<Field> := [Symptoms, Causes, Description, Title]

  /** A cleaned harvest row; "" stands for a text the harvest does not have. */
  datatype Row = Row(code: string, source: string, url: string, texts: map<Field, string>)

  /**
   * A record: its English fields with their sources, whether a merge has marked it, and
   * its further English texts, which a merge does not fill.
   */
  datatype Entry = Entry(
    english: map<Field, string>, origins: map<Field, string>, marked: bool, others: map<string, string>)

  type Entries = map<string, Entry>

  datatype Patch = Patch(text: string, url: string)

  /** Patches by code and field. */
  type Candidates = map<string, map<Field, Patch>>

  // --------------------------------------------------------------- the order

  /** Rows are ordered by code, then source, then URL. */
  function Triple(r: Row): Key { [r.code, r.source, r.url] }

  /** The rows of a merge: the first harvest before the second, each in order. */
  function Rows(first: seq<Row>, second: seq<Row>): seq<Row> {
    Sorted(first, Triple) + Sorted(second, Triple)
  }

  // ------------------------------------------------------------------- the fold

  function TextOf(r: Row, f: Field): string { if f in r.texts then r.texts[f] else "" }

  predicate IsEmpty(e: Entry, f: Field) { f in e.english ==> Strip(e.english[f]) == "" }

  /** This row offers a text for this code's field. */
  predicate Offers(r: Row, code: string, f: Field, usable: string -> bool) {
    r.code == code && usable(r.url) && TextOf(r, f) != ""
  }

  /** The first row that offers one. */
  function FirstFor(rows: seq<Row>, code: string, f: Field, usable: string -> bool): Option<Patch> {
    if rows == [] then None
    else
      var n := |rows| - 1;
      var before := FirstFor(rows[..n], code, f, usable);
      if before.Some? then before
      else if Offers(rows[n], code, f, usable) then Some(Patch(TextOf(rows[n], f), rows[n].url))
      else None
  }

  function At(c: Candidates, code: string, f: Field): Option<Patch> {
    if code in c && f in c[code] then Some(c[code][f]) else None
  }

  /** The candidates are the first offers for the empty fields of known codes. */
  ghost predicate FirstWins(c: Candidates, rows: seq<Row>, db: Entries, usable: string -> bool) {
    && (forall code :: code in c ==> code in db)
    && forall code, f :: At(c, code, f) ==
         if code in db && IsEmpty(db[code], f) then FirstFor(rows, code, f, usable) else None
  }

  method CollectCandidates(rows: seq<Row>, db: Entries, usable: string -> bool) returns (candidates: Candidates)
    ensures FirstWins(candidates, rows, db, usable)
  {
    hide FirstFor, Offers, IsEmpty, At, Strip;
    candidates := map[];
    NothingCollected(db, usable);
    for i := 0 to |rows|
      invariant FirstWins(candidates, rows[..i], db, usable)
    {
      var row := rows[i];
      if row.code !in db || !usable(row.url) {
        RowSkipped(candidates, rows, i, db, usable);
        continue;
      }
      var patch := if row.code in candidates then candidates[row.code] else map[];
      ghost var before := patch;
      for k := 0 to |FIELDS|
        invariant Patched(patch, before, row, db[row.code], FIELDS[..k])
      {
        var f := FIELDS[k];
        PatchNext(patch, before, row, db[row.code], k);
        if f in patch { continue; }
        var text := TextOf(row, f);
        if text == "" { continue; }
        if !IsEmpty(db[row.code], f) { continue; }
        patch := patch[f := Patch(text, row.url)];
      }
      assert FIELDS[..|FIELDS|] == FIELDS;
      RowFolded(candidates, rows, i, db, usable, before, patch);
      candidates := candidates[row.code := patch];
    }
    assert rows[..|rows|] == rows;
  }

  /** A row fills the empty fields its code has no patch for yet. */
  ghost predicate Patched(after: map<Field, Patch>, before: map<Field, Patch>, row: Row, e: Entry, fields: seq<Field>) {
    forall f: Field ::
      && (f in after <==> f in before || (f in fields && TextOf(row, f) != "" && IsEmpty(e, f)))
      && (f in before ==> f in after && after[f] == before[f])
      && (f in after && f !in before ==> after[f] == Patch(TextOf(row, f), row.url))
  }

  lemma {:induction false} PatchNext(after: map<Field, Patch>, before: map<Field, Patch>, row: Row, e: Entry, k: nat)
    requires k < |FIELDS| && Patched(after, before, row, e, FIELDS[..k])
    ensures var f := FIELDS[k];
      Patched(
        if f !in after && TextOf(row, f) != "" && IsEmpty(e, f)
        then after[f := Patch(TextOf(row, f), row.url)] else after,
        before, row, e, FIELDS[..k + 1])
  {
    hide IsEmpty, TextOf;
    assert FIELDS[..k + 1] == FIELDS[..k] + [FIELDS[k]];
    assert FIELDS[k] !in FIELDS[..k];
  }

  lemma {:induction false} NothingCollected(db: Entries, usable: string -> bool)
    ensures FirstWins(map[], [], db, usable)
  {
  }

  lemma {:induction false} FirstForNext(rows: seq<Row>, i: nat, code: string, f: Field, usable: string -> bool)
    requires i < |rows|
    ensures FirstFor(rows[..i + 1], code, f, usable) ==
      if FirstFor(rows[..i], code, f, usable).Some? then FirstFor(rows[..i], code, f, usable)
      else if Offers(rows[i], code, f, usable) then Some(Patch(TextOf(rows[i], f), rows[i].url))
      else None
  {
    hide Offers;
    assert rows[..i + 1][..i] == rows[..i];
  }

  lemma {:induction false} RowSkipped(c: Candidates, rows: seq<Row>, i: nat, db: Entries, usable: string -> bool)
    requires i < |rows| && FirstWins(c, rows[..i], db, usable)
    requires rows[i].code !in db || !usable(rows[i].url)
    ensures FirstWins(c, rows[..i + 1], db, usable)
  {
    hide FirstFor, IsEmpty, At, TextOf;
    forall code, f
      ensures At(c, code, f) ==
        if code in db && IsEmpty(db[code], f) then FirstFor(rows[..i + 1], code, f, usable) else None
    {
      FirstForNext(rows, i, code, f, usable);
    }
  }

  lemma {:induction false} FieldListed(f: Field)
    ensures f in FIELDS
  {
    assert FIELDS[0] == Symptoms && FIELDS[1] == Causes && FIELDS[2] == Description && FIELDS[3] == Title;
  }

  lemma {:induction false} RowFolded(
      c: Candidates, rows: seq<Row>, i: nat, db: Entries, usable: string -> bool,
      before: map<Field, Patch>, after: map<Field, Patch>)
    requires i < |rows| && FirstWins(c, rows[..i], db, usable)
    requires rows[i].code in db && usable(rows[i].url)
    requires before == if rows[i].code in c then c[rows[i].code] else map[]
    requires Patched(after, before, rows[i], db[rows[i].code], FIELDS)
    ensures FirstWins(c[rows[i].code := after], rows[..i + 1], db, usable)
  {
    hide FirstFor, IsEmpty, TextOf;
    var row := rows[i];
    var d := c[row.code := after];
    forall code, f
      ensures At(d, code, f) ==
        if code in db && IsEmpty(db[code], f) then FirstFor(rows[..i + 1], code, f, usable) else None
    {
      FirstForNext(rows, i, code, f, usable);
      FieldListed(f);
      assert At(c, code, f) ==
        if code in db && IsEmpty(db[code], f) then FirstFor(rows[..i], code, f, usable) else None;
    }
  }

  // ------------------------------------------------------------------ the merge

  /** What the patches make of one entry. */
  function PatchedEntry(e: Entry, patch: map<Field, Patch>): Entry {
    if patch == map[] then e
    else Entry(
      e.english + map f | f in patch :: patch[f].text,
      e.origins + map f | f in patch :: patch[f].url,
      true,
      e.others)
  }

  function Applied(db: Entries, c: Candidates): Entries {
    map code | code in db :: if code in c then PatchedEntry(db[code], c[code]) else db[code]
  }

  // ----------------------------------------------------------------- the repair

  const PREFIX := "the most common cause of"

  predicate HasPrefix(v: string) { StartsWith(Lower(Lstrip(v)), PREFIX) }

  /** What stands behind the phrase in a text on one line. */
  type Rest = string -> string

  function Cut(v: string, rest: Rest): string { Strip(rest(MergeValues.Collapse(v))) }

  /** The guard of the repair: the text begins with the phrase, and something else is left of it. */
  predicate Cuts(v: string, rest: Rest) { HasPrefix(v) && Cut(v, rest) != "" && Cut(v, rest) != v }

  function RepairedText(v: string, rest: Rest): string { if Cuts(v, rest) then Cut(v, rest) else v }

  function Repaired(e: Entry, rest: Rest): Entry {
    e.(english := RepairedTexts(e.english, rest), others := RepairedTexts(e.others, rest))
  }

  function RepairedAll(db: Entries, rest: Rest): Entries { map code | code in db :: Repaired(db[code], rest) }

  /** What a whole merge leaves. */
  function Merged(db: Entries, c: Candidates, rest: Rest): Entries { RepairedAll(Applied(db, c), rest) }

  function RepairedTexts<K>(texts: map<K, string>, rest: Rest): map<K, string> {
    map k | k in texts :: RepairedText(texts[k], rest)
  }

  method RepairTexts<K(==)>(texts: map<K, string>, rest: Rest) returns (r: map<K, string>, changed: nat)
    ensures r == RepairedTexts(texts, rest)
    ensures changed == 0 <==> r == texts
  {
    hide Cut;
    r, changed := texts, 0;
    var todo := texts.Keys;
    while todo != {}
      invariant todo <= texts.Keys == r.Keys
      invariant forall k :: k in texts ==> r[k] == if k in todo then texts[k] else RepairedText(texts[k], rest)
      invariant changed == 0 <==> r == texts
      decreases todo
    {
      var k :| k in todo;
      if HasPrefix(texts[k]) {
        var cut := Cut(texts[k], rest);
        if cut != "" && cut != texts[k] {
          r, changed := r[k := cut], changed + 1;
          assert r[k] != texts[k];
        }
      }
      todo := todo - {k};
    }
  }

  class Database {
    var entries: Entries

    constructor (entries: Entries)
      ensures this.entries == entries
    {
      this.entries := entries;
    }

    method Fold(first: seq<Row>, second: seq<Row>, usable: string -> bool) returns (candidates: Candidates)
      modifies this
      ensures FirstWins(candidates, Rows(first, second), old(entries), usable)
      ensures entries == Applied(old(entries), candidates)
    {
      hide FirstWins, PatchedEntry, Rows;
      candidates := CollectCandidates(Rows(first, second), entries, usable);
      KnownCodes(candidates, Rows(first, second), entries, usable);
      var todo := candidates.Keys;
      while todo != {}
        invariant todo <= candidates.Keys && entries.Keys == old(entries).Keys
        invariant forall code :: code in entries ==>
          entries[code] ==
            if code in candidates && code !in todo
            then PatchedEntry(old(entries)[code], candidates[code]) else old(entries)[code]
        decreases todo
      {
        var code :| code in todo;
        entries := entries[code := PatchedEntry(entries[code], candidates[code])];
        todo := todo - {code};
      }
    }

    /** The repair of every record; the count says whether anything changed. */
    method RepairBoilerplate(rest: Rest) returns (changed: nat)
      modifies this
      ensures entries == RepairedAll(old(entries), rest)
      ensures changed == 0 <==> entries == old(entries)
    {
      hide RepairedTexts;
      changed := 0;
      var todo := entries.Keys;
      while todo != {}
        invariant todo <= entries.Keys == old(entries).Keys
        invariant forall code :: code in entries ==>
          entries[code] == if code in todo then old(entries)[code] else Repaired(old(entries)[code], rest)
        invariant changed == 0 <==> entries == old(entries)
        decreases todo
      {
        var code :| code in todo;
        var e := entries[code];
        var english, m := RepairTexts(e.english, rest);
        var others, n := RepairTexts(e.others, rest);
        SomethingChanged(old(entries)[code], english, others);
        entries, changed := entries[code := e.(english := english, others := others)], changed + m + n;
        todo := todo - {code};
      }
    }

    method Merge(first: seq<Row>, second: seq<Row>, usable: string -> bool, rest: Rest)
      returns (candidates: Candidates, repaired: nat)
      modifies this
      ensures FirstWins(candidates, Rows(first, second), old(entries), usable)
      ensures entries == Merged(old(entries), candidates, rest)
      ensures repaired == 0 <==> entries == Applied(old(entries), candidates)
    {
      hide FirstWins, Applied, RepairedAll, Rows;
      candidates := Fold(first, second, usable);
      repaired := RepairBoilerplate(rest);
    }
  }

  lemma {:induction false} SomethingChanged(e: Entry, english: map<Field, string>, others: map<string, string>)
    ensures e.(english := english, others := others) == e <==> english == e.english && others == e.others
  {
  }

  lemma {:induction false} KnownCodes(c: Candidates, rows: seq<Row>, db: Entries, usable: string -> bool)
    requires FirstWins(c, rows, db, usable)
    ensures c.Keys <= db.Keys
  {
  }

  // ------------------------------------------------------------------- the laws

  /** The field holds this text with this source, up to the repair of its text. */
  predicate FieldIs(e: Entry, f: Field, p: Patch, rest: Rest) {
    && f in e.english && e.english[f] == RepairedText(p.text, rest)
    && f in e.origins && e.origins[f] == p.url
  }

  predicate FieldSame(a: Entry, b: Entry, f: Field, rest: Rest) {
    && (f in a.english <==> f in b.english)
    && (f in b.english ==> a.english[f] == RepairedText(b.english[f], rest))
    && (f in a.origins <==> f in b.origins)
    && (f in b.origins ==> a.origins[f] == b.origins[f])
  }

  /** Each field of each entry after the fold: unchanged where it was populated, else the first offer with its URL. */
  lemma {:induction false} FoldedField(
      db: Entries, c: Candidates, rows: seq<Row>, usable: string -> bool, code: string, f: Field)
    requires FirstWins(c, rows, db, usable) && code in db
    ensures var e, a := db[code], Applied(db, c)[code];
      if IsEmpty(e, f) && FirstFor(rows, code, f, usable).Some?
      then
        var p := FirstFor(rows, code, f, usable).value;
        f in a.english && a.english[f] == p.text && f in a.origins && a.origins[f] == p.url
      else
        && (f in a.english <==> f in e.english) && (f in e.english ==> a.english[f] == e.english[f])
        && (f in a.origins <==> f in e.origins) && (f in e.origins ==> a.origins[f] == e.origins[f])
  {
    hide FirstFor, IsEmpty;
    var at := At(c, code, f);
    assert at == if IsEmpty(db[code], f) then FirstFor(rows, code, f, usable) else None;
  }

  /**
   * Each field of each entry after a merge, up to the repair of its text: what it was if
   * it was populated, else the first offer with its URL.
   */
  lemma {:induction false} MergedField(
      db: Entries, c: Candidates, rows: seq<Row>, usable: string -> bool, rest: Rest, code: string, f: Field)
    requires FirstWins(c, rows, db, usable) && code in db
    ensures var e, a := db[code], Merged(db, c, rest)[code];
      if IsEmpty(e, f) && FirstFor(rows, code, f, usable).Some?
      then FieldIs(a, f, FirstFor(rows, code, f, usable).value, rest)
      else FieldSame(a, e, f, rest)
  {
    hide FirstFor, IsEmpty, RepairedText, FirstWins, Applied;
    AppliedKeys(db, c);
    FoldedField(db, c, rows, usable, code, f);
  }

  /** The repair leaves a text as it is unless its guard holds, and then it never leaves it blank. */
  lemma {:induction false} RepairedTextIs(v: string, rest: Rest)
    ensures RepairedText(v, rest) == v <==> !Cuts(v, rest)
    ensures Strip(RepairedText(v, rest)) == "" <==> Strip(v) == ""
  {
    hide MergeValues.Collapse, Lower;
    if Cuts(v, rest) {
      StripId(Cut(v, rest));
      PrefixIsText(v);
    }
  }

  lemma {:induction false} PrefixIsText(v: string)
    requires HasPrefix(v)
    ensures Strip(v) != ""
  {
    assert Lstrip(v) != "";
    LstripIsText(v);
  }

  lemma {:induction false} LstripIsText(v: string)
    requires Lstrip(v) != ""
    ensures Strip(v) != ""
  {
    var t := Lstrip(v);
    RstripKeepsFirst(t);
  }

  lemma {:induction false} RstripKeepsFirst(t: string)
    requires t != "" && !IsSpace(t[0])
    ensures Rstrip(t) != ""
  {
    if |t| > 1 && IsSpace(t[|t| - 1]) { RstripKeepsFirst(t[..|t| - 1]); }
  }

  predicate FirstAt(rows: seq<Row>, k: nat, code: string, f: Field, usable: string -> bool) {
    k < |rows| && Offers(rows[k], code, f, usable) && forall i :: 0 <= i < k ==> !Offers(rows[i], code, f, usable)
  }

  /** The first offer is that of the first row that offers, and no earlier row offers. */
  lemma {:induction false} FirstIs(rows: seq<Row>, code: string, f: Field, usable: string -> bool)
    ensures match FirstFor(rows, code, f, usable)
      case None => forall i :: 0 <= i < |rows| ==> !Offers(rows[i], code, f, usable)
      case Some(p) => exists k: nat :: FirstAt(rows, k, code, f, usable) && p == Patch(TextOf(rows[k], f), rows[k].url)
  {
    hide Offers, TextOf, FirstFor;
    if rows == [] {
      NoRows(code, f, usable);
    } else {
      var n := |rows| - 1;
      FirstIs(rows[..n], code, f, usable);
      FirstForNext(rows, n, code, f, usable);
      assert rows[..n + 1] == rows;
      assert forall i :: 0 <= i < n ==> rows[i] == rows[..n][i];
      var before := FirstFor(rows[..n], code, f, usable);
      if before.Some? {
        var k: nat :| FirstAt(rows[..n], k, code, f, usable)
          && before.value == Patch(TextOf(rows[..n][k], f), rows[..n][k].url);
        assert FirstAt(rows, k, code, f, usable);
      } else {
        assert Offers(rows[n], code, f, usable) ==> FirstAt(rows, n, code, f, usable);
      }
    }
  }

  lemma {:induction false} NoRows(code: string, f: Field, usable: string -> bool)
    ensures FirstFor([], code, f, usable) == None
  {
  }

  /** Texts come out of the cleaning trimmed. */
  predicate Trimmed(rows: seq<Row>) {
    forall i, f :: 0 <= i < |rows| && f in rows[i].texts ==> Text.Stripped(rows[i].texts[f])
  }

  lemma {:induction false} NoPatch(e: Entry)
    ensures PatchedEntry(e, map[]) == e
  {
  }

  lemma {:induction false} NoSecondPatch(
      db: Entries, c: Candidates, rows: seq<Row>, usable: string -> bool, rest: Rest, code: string, f: Field)
    requires Trimmed(rows) && FirstWins(c, rows, db, usable) && code in db
    ensures IsEmpty(Merged(db, c, rest)[code], f) ==> FirstFor(rows, code, f, usable) == None
  {
    hide FirstFor, FirstWins, Merged, Strip, RepairedText;
    MergedField(db, c, rows, usable, rest, code, f);
    FirstIs(rows, code, f, usable);
    if f in db[code].english { RepairedTextIs(db[code].english[f], rest); }
    if FirstFor(rows, code, f, usable).Some? {
      var p := FirstFor(rows, code, f, usable).value;
      var k: nat :| FirstAt(rows, k, code, f, usable) && p == Patch(TextOf(rows[k], f), rows[k].url);
      StripId(p.text);
      RepairedTextIs(p.text, rest);
    }
  }

  /** The second fold has nothing to give: what is left is the repair of what was repaired. */
  lemma {:induction false} SecondFoldGivesNothing(
      db: Entries, c: Candidates, d: Candidates, rows: seq<Row>, usable: string -> bool, rest: Rest)
    requires Trimmed(rows) && FirstWins(c, rows, db, usable) && FirstWins(d, rows, Merged(db, c, rest), usable)
    ensures Applied(Merged(db, c, rest), d) == Merged(db, c, rest)
  {
    hide FirstFor, IsEmpty, PatchedEntry, Repaired;
    var once := Merged(db, c, rest);
    forall code | code in once ensures Applied(once, d)[code] == once[code] {
      if code in d {
        forall f | f in d[code] ensures false {
          assert At(d, code, f) == if IsEmpty(once[code], f) then FirstFor(rows, code, f, usable) else None;
          NoSecondPatch(db, c, rows, usable, rest, code, f);
        }
        assert d[code] == map[];
        NoPatch(once[code]);
      }
    }
  }

  /** One repair is enough for this text: no second phrase stands behind the first. */
  predicate CleanAtOnce(v: string, rest: Rest) { !Cuts(RepairedText(v, rest), rest) }

  /** One repair is enough for every English text of the entry. */
  predicate EntryCleanAtOnce(e: Entry, rest: Rest) {
    && (forall f :: f in e.english ==> CleanAtOnce(e.english[f], rest))
    && (forall name :: name in e.others ==> CleanAtOnce(e.others[name], rest))
  }

  lemma {:induction false} RepairTwiceIff(e: Entry, rest: Rest)
    ensures Repaired(Repaired(e, rest), rest) == Repaired(e, rest) <==> EntryCleanAtOnce(e, rest)
  {
    hide Cuts, RepairedText;
    var once := Repaired(e, rest);
    var twice := Repaired(once, rest);
    forall f | f in e.english ensures twice.english[f] == once.english[f] <==> CleanAtOnce(e.english[f], rest) {
      RepairedTextIs(once.english[f], rest);
    }
    forall n | n in e.others ensures twice.others[n] == once.others[n] <==> CleanAtOnce(e.others[n], rest) {
      RepairedTextIs(once.others[n], rest);
    }
    assert EntryCleanAtOnce(e, rest) ==> twice.english == once.english && twice.others == once.others;
  }

  /** What an entry's texts are before the repair: populated ones as they were, else the first offers. */
  predicate SourcesCleanAtOnce(
      db: Entries, rows: seq<Row>, usable: string -> bool, rest: Rest, code: string)
    requires code in db
  {
    && (forall f ::
          if IsEmpty(db[code], f) && FirstFor(rows, code, f, usable).Some?
          then CleanAtOnce(FirstFor(rows, code, f, usable).value.text, rest)
          else f in db[code].english ==> CleanAtOnce(db[code].english[f], rest))
    && (forall name :: name in db[code].others ==> CleanAtOnce(db[code].others[name], rest))
  }

  lemma {:induction false} FoldedCleanIff(
      db: Entries, c: Candidates, rows: seq<Row>, usable: string -> bool, rest: Rest, code: string)
    requires FirstWins(c, rows, db, usable) && code in db
    ensures EntryCleanAtOnce(Applied(db, c)[code], rest) <==> SourcesCleanAtOnce(db, rows, usable, rest, code)
  {
    hide CleanAtOnce, FirstFor, IsEmpty, FirstWins;
    var e, a := db[code], Applied(db, c)[code];
    assert a.others == e.others;
    forall f ensures (f in a.english ==> CleanAtOnce(a.english[f], rest)) <==>
      if IsEmpty(e, f) && FirstFor(rows, code, f, usable).Some?
      then CleanAtOnce(FirstFor(rows, code, f, usable).value.text, rest)
      else f in e.english ==> CleanAtOnce(e.english[f], rest)
    {
      FoldedField(db, c, rows, usable, code, f);
    }
  }

  /**
   * A second merge of the same harvests changes nothing if and only if one repair is
   * enough for every English text that the first merge found or filled in.
   */
  lemma {:induction false} SecondMergeIff(
      db: Entries, c: Candidates, d: Candidates, rows: seq<Row>, usable: string -> bool, rest: Rest)
    requires Trimmed(rows) && FirstWins(c, rows, db, usable) && FirstWins(d, rows, Merged(db, c, rest), usable)
    ensures Merged(Merged(db, c, rest), d, rest) == Merged(db, c, rest) <==>
      forall code :: code in db ==> SourcesCleanAtOnce(db, rows, usable, rest, code)
  {
    hide SourcesCleanAtOnce, FirstWins, Applied, EntryCleanAtOnce, Repaired;
    SecondFoldGivesNothing(db, c, d, rows, usable, rest);
    var folded := Applied(db, c);
    var once := Merged(db, c, rest);
    AppliedKeys(db, c);
    forall code | code in db
      ensures RepairedAll(once, rest)[code] == once[code] <==> SourcesCleanAtOnce(db, rows, usable, rest, code)
    {
      RepairTwiceIff(folded[code], rest);
      FoldedCleanIff(db, c, rows, usable, rest, code);
    }
    if forall code :: code in db ==> SourcesCleanAtOnce(db, rows, usable, rest, code) {
      assert RepairedAll(once, rest) == once;
    }
  }

  const OPENING := "The most common cause of"
  const ONCE := OPENING + " P0102 is: dirt"
  const TWICE := OPENING + (" P0101 is: " + ONCE)

  lemma {:induction false} BothPrefixed()
    ensures HasPrefix(TWICE) && HasPrefix(ONCE)
  {
    hide HasPrefix;
    OpeningIsPrefix();
    FrontOf(OPENING, " P0102 is: dirt");
    FrontOf(OPENING, " P0101 is: " + ONCE);
  }

  lemma {:induction false} OpeningIsPrefix()
    ensures Lower(OPENING) == PREFIX && !IsSpace(OPENING[0])
  {
  }

  lemma {:induction false} FrontOf(front: string, tail: string)
    requires front != "" && !IsSpace(front[0]) && Lower(front) == PREFIX
    ensures HasPrefix(front + tail)
  {
    assert Lower(front + tail)[..|front|] == Lower(front);
  }

  lemma {:induction false} RepairedAlone(v: string, rest: Rest)
    ensures Merged(map["P0101" := Entry(map[Causes := v], map[], false, map[])], map[], rest)
      == map["P0101" := Entry(map[Causes := RepairedText(v, rest)], map[], false, map[])]
  {
    hide RepairedText;
    var e := Entry(map[Causes := v], map[], false, map[]);
    assert RepairedTexts(e.others, rest) == map[];
    assert RepairedTexts(e.english, rest) == map[Causes := RepairedText(v, rest)];
  }

  /**
   * Such an input: the phrase stands twice, and a repair takes off one. The text changes on
   * the first merge and again on the second, although no row is harvested at all.
   */
  lemma {:induction false} NestedPhraseChangesTwice(rest: Rest)
    requires Cut(TWICE, rest) == ONCE && Cut(ONCE, rest) == "dirt"
    ensures var before := map["P0101" := Entry(map[Causes := TWICE], map[], false, map[])];
      var once := map["P0101" := Entry(map[Causes := ONCE], map[], false, map[])];
      && Merged(before, map[], rest) == once
      && Merged(once, map[], rest) == map["P0101" := Entry(map[Causes := "dirt"], map[], false, map[])]
  {
    hide Cut, HasPrefix;
    BothPrefixed();
    assert |ONCE| != |"dirt"| && |TWICE| != |ONCE|;
    RepairedAlone(TWICE, rest);
    RepairedAlone(ONCE, rest);
  }

  lemma {:induction false} AppliedKeys(db: Entries, c: Candidates)
    ensures Applied(db, c).Keys == db.Keys
  {
  }

  /** With distinct keys in each harvest the merged database does not depend on the order of the rows. */
  lemma {:induction false} MergeOrderFree(
      db: Entries, c: Candidates, d: Candidates, a1: seq<Row>, a2: seq<Row>, b1: seq<Row>, b2: seq<Row>,
      usable: string -> bool, rest: Rest)
    requires multiset(a1) == multiset(b1) && multiset(a2) == multiset(b2)
    requires DistinctKeys(a1, Triple) && DistinctKeys(a2, Triple)
    requires FirstWins(c, Rows(a1, a2), db, usable) && FirstWins(d, Rows(b1, b2), db, usable)
    ensures Merged(db, c, rest) == Merged(db, d, rest)
  {
    hide Sorted, FirstFor, IsEmpty, PatchedEntry, DistinctKeys, RepairedAll;
    SortedOrderFree(a1, b1, Triple);
    SortedOrderFree(a2, b2, Triple);
    forall code | code in db ensures Applied(db, c)[code] == Applied(db, d)[code] {
      var p := if code in c then c[code] else map[];
      var q := if code in d then d[code] else map[];
      forall f ensures (f in p <==> f in q) && (f in p ==> p[f] == q[f]) {
        assert At(c, code, f) == At(d, code, f);
      }
      assert p == q;
      NoPatch(db[code]);
    }
    assert Applied(db, c) == Applied(db, d);
  }
}
