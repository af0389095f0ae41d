// What one harvested record means for the J1939 database: which entry its key reaches,
// and what the flat fields, the bundles, the defaults and the report hold afterwards.
module J1939Meaning {
  import opened Wrappers
  import opened Text
  import opened Numbers
  import opened MergeValues
  import opened J1939Merge

  // ------------------------------------------------------------ the entry it reaches

  predicate Digits(s: string) { s != "" && AllDigits(s) }

  lemma {:induction false} DigitsEnd(front: string, digits: string, rest: string)
    requires AllDigits(digits) && (rest != "" ==> !IsDigit(rest[0]))
    ensures DigitsAt(front + (digits + rest), |front|) == |digits|
    decreases |digits|
  {
    var s := front + (digits + rest);
    if digits == "" {
      assert s == front + rest;
    } else {
      assert s == (front + [digits[0]]) + (digits[1..] + rest);
      DigitsEnd(front + [digits[0]], digits[1..], rest);
    }
  }

  /** What may stand behind the number of an SPN: nothing, or a failure mode, and a line feed. */
  function FmiTail(fmi: Option<string>, end: string): string {
    (if fmi.Some? then "_FMI_" + fmi.value else "") + end
  }

  predicate TailOk(fmi: Option<string>, end: string) {
    (fmi.Some? ==> Digits(fmi.value)) && end in {"", "\n"}
  }

  lemma {:induction false} TailIsEnd(fmi: Option<string>, end: string)
    requires TailOk(fmi, end)
    ensures FmiOrEnd(FmiTail(fmi, end))
    ensures FmiTail(fmi, end) != "" ==> !IsDigit(FmiTail(fmi, end)[0])
  {
    if fmi.Some? {
      var tail := "_FMI_" + (fmi.value + end);
      assert FmiTail(fmi, end) == tail && tail[..5] == "_FMI_";
      DigitsEnd("_FMI_", fmi.value, end);
      assert tail[5 + |fmi.value|..] == end;
    }
  }

  /** A key of an SPN, with a failure mode or without, reaches the entry of the SPN. */
  lemma {:induction false} SpnKeyReaches(rec: Record, spn: string, fmi: Option<string>, end: string)
    requires Digits(spn) && TailOk(fmi, end) && rec.key == "SPN_" + (spn + FmiTail(fmi, end))
    ensures KeyFor(rec) == Some("SPN_" + spn)
  {
    hide FmiOrEnd, FmiTail;
    var tail := FmiTail(fmi, end);
    TailIsEnd(fmi, end);
    DigitsEnd("SPN_", spn, tail);
    assert rec.key[..4] == "SPN_" && rec.key[4 + |spn|..] == tail && rec.key[..4 + |spn|] == "SPN_" + spn;
  }

  lemma {:induction false} DigitsThere(s: string, i: nat)
    requires i <= |s|
    ensures AllDigits(s[i..i + DigitsAt(s, i)])
    decreases |s| - i
  {
    if i < |s| && IsDigit(s[i]) {
      DigitsThere(s, i + 1);
      var n := DigitsAt(s, i);
      assert s[i..i + n] == [s[i]] + s[i + 1..i + n];
    }
  }

  lemma {:induction false} EndIsTail(tail: string) returns (fmi: Option<string>, end: string)
    requires FmiOrEnd(tail)
    ensures TailOk(fmi, end) && tail == FmiTail(fmi, end)
  {
    if tail == "" || tail == "\n" {
      fmi, end := None, tail;
    } else {
      var n := DigitsAt(tail, 5);
      DigitsThere(tail, 5);
      fmi, end := Some(tail[5..5 + n]), tail[5 + n..];
      assert tail[..5] == "_FMI_";
      assert tail == "_FMI_" + (tail[5..5 + n] + end);
    }
  }

  ghost predicate SpnKey(key: string) {
    exists spn, fmi, end :: Digits(spn) && TailOk(fmi, end) && key == "SPN_" + (spn + FmiTail(fmi, end))
  }

  /** Every other key names its own entry; without a key the SPN does. */
  lemma {:induction false} OtherKeyReaches(rec: Record)
    ensures |rec.key| > 0 && !SpnKey(rec.key) ==> KeyFor(rec) == Some(rec.key)
    ensures rec.key == "" && rec.spn == None ==> KeyFor(rec) == None
    ensures rec.key == "" && rec.spn.Some? && rec.spn.value >= 0 ==>
      KeyFor(rec) == Some("SPN_" + Decimal(rec.spn.value))
    ensures rec.key == "" && rec.spn.Some? && rec.spn.value < 0 ==>
      KeyFor(rec) == Some("SPN_-" + Decimal(0 - rec.spn.value))
  {
    hide FmiOrEnd, Decimal, FmiTail, TailOk;
    if rec.key != "" {
      var n := DigitsAt(rec.key, 4);
      if StartsWith(rec.key, "SPN_") && n > 0 && FmiOrEnd(rec.key[4 + n..]) {
        var fmi, end := EndIsTail(rec.key[4 + n..]);
        DigitsThere(rec.key, 4);
        var spn := rec.key[4..4 + n];
        assert rec.key == rec.key[..4] + (spn + rec.key[4 + n..]);
        assert Digits(spn) && TailOk(fmi, end) && rec.key == "SPN_" + (spn + FmiTail(fmi, end));
      }
    } else if rec.spn.Some? && rec.spn.value < 0 {
      assert "SPN_" + ("-" + Decimal(-rec.spn.value)) == "SPN_-" + Decimal(0 - rec.spn.value);
    }
  }

  /** A record changes the entry it reaches, if that is there, and no other. */
  lemma {:induction false} MergeReaches(entries: Entries, rec: Record, spn: string, fmi: Option<string>)
    requires Digits(spn) && TailOk(fmi, "") && rec.key == "SPN_" + (spn + FmiTail(fmi, ""))
    ensures var key := "SPN_" + spn;
      MergeOne(entries, rec) ==
        if key in entries then entries[key := EntryAfter(entries[key], rec)] else entries
  {
    hide KeyFor, EntryAfter;
    SpnKeyReaches(rec, spn, fmi, "");
  }

  // ----------------------------------------------------------------- the flat fields

  /** The page of a record: its own URL, else that of its evidence. */
  function PageOf(rec: Record): string { Url(if |rec.url| > 0 then rec.url else rec.evidenceUrl) }

  lemma {:induction false} PageIs(rec: Record)
    ensures UrlOf(rec) == PageOf(rec)
  {
    hide Url;
  }

  function Given(rec: Record, f: Field): seq<string> { if f in rec.flats then NormList(rec.flats[f]) else [] }

  predicate Vacant(e: Entry, f: Field) { f in e.flats ==> IsEmpty(e.flats[f]) }

  lemma {:induction false} FlatStep(e: Entry, rec: Record, k: nat)
    requires k < |FIELDS|
    ensures var f, before := FIELDS[k], FlatsAfter(e, rec, FIELDS[..k]);
      && FlatsAfter(e, rec, FIELDS[..k + 1]) ==
         (if Fills(e, rec, f) then before[f := AsItems(NormList(Get(rec.flats, f)))] else before)
      && Filled(e, rec, FIELDS[..k + 1]) == Filled(e, rec, FIELDS[..k]) + (if Fills(e, rec, f) then [f] else [])
      && Refused(e, rec, FIELDS[..k + 1]) == Refused(e, rec, FIELDS[..k]) + if Refuses(e, rec, f) then 1 else 0
  {
    hide Fills, Refuses, NormList;
    assert FIELDS[..k + 1][..k] == FIELDS[..k];
  }

  lemma {:induction false} NoFields(e: Entry, rec: Record)
    ensures FlatsAfter(e, rec, []) == e.flats && Filled(e, rec, []) == [] && Refused(e, rec, []) == 0
  {
  }

  lemma {:induction false} FillsIs(e: Entry, rec: Record, f: Field)
    ensures Fills(e, rec, f) <==> |Given(rec, f)| > 0 && Vacant(e, f)
    ensures Refuses(e, rec, f) <==> |Given(rec, f)| > 0 && !Vacant(e, f)
    ensures |Given(rec, f)| > 0 ==> Given(rec, f) == NormList(Get(rec.flats, f))
  {
    hide Texts;
  }

  lemma {:induction false} FlatAt(e: Entry, rec: Record, k: nat, f: Field)
    requires k <= |FIELDS|
    ensures var a := FlatsAfter(e, rec, FIELDS[..k]);
      if f in FIELDS[..k] && Fills(e, rec, f) then f in a && a[f] == AsItems(NormList(Get(rec.flats, f)))
      else (f in a <==> f in e.flats) && (f in a ==> a[f] == e.flats[f])
  {
    hide Fills, Refuses, NormList, FlatsAfter, Filled, Refused;
    if k == 0 {
      NoFields(e, rec);
      assert FIELDS[..0] == [];
    } else {
      FlatAt(e, rec, k - 1, f);
      FlatStep(e, rec, k - 1);
      assert FIELDS[..k] == FIELDS[..k - 1] + [FIELDS[k - 1]];
    }
  }

  /** Each flat field after a record: the normal list of what it gives where there was nothing, else what it was. */
  lemma {:induction false} FlatField(e: Entry, rec: Record, f: Field)
    ensures var a := EntryAfter(e, rec).flats;
      if |Given(rec, f)| > 0 && Vacant(e, f) then f in a && a[f] == AsItems(Given(rec, f))
      else (f in a <==> f in e.flats) && (f in a ==> a[f] == e.flats[f])
  {
    hide Fills, Vacant, Given, NormList, FlatsAfter, Appends, ExtrasAfter;
    FlatAt(e, rec, |FIELDS|, f);
    assert FIELDS[..|FIELDS|] == FIELDS && f in FIELDS by { Listed(f); }
    FillsIs(e, rec, f);
  }

  lemma {:induction false} Listed(f: Field)
    ensures f in FIELDS
  {
    assert FIELDS[0] == Symptoms && FIELDS[1] == DiagnosticSteps && FIELDS[2] == Causes;
  }

  // -------------------------------------------------------------------- the bundles

  /** The record carries a bundle under a page that no stored bundle names. */
  predicate Appending(e: Entry, rec: Record) {
    && rec.append.Some? && PageOf(rec) != ""
    && (e.isList ==> forall slot :: slot in e.bundles && slot.Kept? ==> slot.bundle.url != PageOf(rec))
  }

  lemma {:induction false} AppendsIs(e: Entry, rec: Record)
    ensures Appends(e, rec) <==> Appending(e, rec)
  {
    hide PageOf, UrlOf, Seen;
    PageIs(rec);
    SeenIs(e, PageOf(rec));
  }

  lemma {:induction false} SeenIs(e: Entry, url: string)
    ensures Seen(e, url) <==> e.isList && exists slot :: slot in e.bundles && slot.Kept? && slot.bundle.url == url
  {
    if Seen(e, url) {
      var j :| 0 <= j < |Existing(e)| && Existing(e)[j].Kept? && Existing(e)[j].bundle.url == url;
      assert Existing(e)[j] in e.bundles;
    }
    if slot :| e.isList && slot in e.bundles && slot.Kept? && slot.bundle.url == url {
      var j :| 0 <= j < |e.bundles| && e.bundles[j] == slot;
      assert Existing(e)[j] == slot;
    }
  }

  /** A bundle is appended as it is given; what was not a list becomes one; nothing else changes. */
  lemma {:induction false} BundlesAfter(e: Entry, rec: Record)
    ensures var a := EntryAfter(e, rec);
      if Appending(e, rec) then
        && a.isList
        && a.bundles == (if e.isList then e.bundles else []) + [Kept(rec.append.value)]
      else a.isList == e.isList && a.bundles == e.bundles
  {
    hide Appending, Appends, FlatsAfter, ExtrasAfter;
    AppendsIs(e, rec);
    if Appending(e, rec) { AppendingHas(e, rec); }
  }

  lemma {:induction false} AppendingHas(e: Entry, rec: Record)
    requires Appending(e, rec)
    ensures rec.append.Some?
  {
  }

  // ------------------------------------------------------------ what goes with them

  ghost predicate Gives(e: Entry, rec: Record) {
    Appending(e, rec) || exists f :: |Given(rec, f)| > 0 && Vacant(e, f)
  }

  function Listing(b: bool, f: Field): seq<Field> { if b then [f] else [] }

  function One(b: bool): nat { if b then 1 else 0 }

  lemma {:induction false} FilledStep(e: Entry, rec: Record, k: nat)
    requires k < |FIELDS|
    ensures Filled(e, rec, FIELDS[..k + 1]) ==
      Filled(e, rec, FIELDS[..k]) + Listing(|Given(rec, FIELDS[k])| > 0 && Vacant(e, FIELDS[k]), FIELDS[k])
    ensures Refused(e, rec, FIELDS[..k + 1]) ==
      Refused(e, rec, FIELDS[..k]) + One(|Given(rec, FIELDS[k])| > 0 && !Vacant(e, FIELDS[k]))
  {
    hide Fills, Refuses, Given, Vacant, FlatsAfter, Filled, Refused;
    FlatStep(e, rec, k);
    FillsIs(e, rec, FIELDS[k]);
  }

  /** The fields filled, in their order, and how many were refused. */
  lemma {:induction false} ThreeFields(e: Entry, rec: Record)
    ensures Filled(e, rec, FIELDS) ==
      Listing(|Given(rec, Symptoms)| > 0 && Vacant(e, Symptoms), Symptoms)
      + Listing(|Given(rec, DiagnosticSteps)| > 0 && Vacant(e, DiagnosticSteps), DiagnosticSteps)
      + Listing(|Given(rec, Causes)| > 0 && Vacant(e, Causes), Causes)
    ensures Refused(e, rec, FIELDS) ==
      One(|Given(rec, Symptoms)| > 0 && !Vacant(e, Symptoms))
      + One(|Given(rec, DiagnosticSteps)| > 0 && !Vacant(e, DiagnosticSteps))
      + One(|Given(rec, Causes)| > 0 && !Vacant(e, Causes))
  {
    hide Given, Vacant, Filled, Refused, Listing, One;
    NoFields(e, rec);
    assert FIELDS[..0] == [] && FIELDS[..3] == FIELDS;
    FilledStep(e, rec, 0);
    FilledStep(e, rec, 1);
    FilledStep(e, rec, 2);
    var first := Listing(|Given(rec, Symptoms)| > 0 && Vacant(e, Symptoms), Symptoms);
    assert [] + first == first;
  }

  lemma {:induction false} FilledSome(e: Entry, rec: Record)
    ensures Filled(e, rec, FIELDS) != [] <==> exists f :: |Given(rec, f)| > 0 && Vacant(e, f)
  {
    hide Given, Vacant, Filled;
    ThreeFields(e, rec);
    if f :| |Given(rec, f)| > 0 && Vacant(e, f) {
      match f case Symptoms => case DiagnosticSteps => case Causes =>
    }
  }

  /** One of the names under which a record is kept, with what it sets where the entry has nothing. */
  function DefaultFor(e: Entry, rec: Record, name: string): Option<string> {
    var fills := |Filled(e, rec, FIELDS)| > 0;
    if name in {"procedures_source", "procedures_license", "procedures_match_key"} then
      if !Appending(e, rec) then None
      else if name == "procedures_source" then Some(rec.source)
      else if name == "procedures_license" then Some("belirsiz")
      else Some("spn_fmi")
    else if name == "evidence_url" && fills then Some(PageOf(rec))
    else if !fills && !Appending(e, rec) then None
    else
      var chain := EvidenceOf(rec.evidence, rec.provenance, PageOf(rec));
      if name in chain then Some(chain[name]) else None
  }

  /** What is there stays; what is not takes its default, if the record gives the entry something. */
  lemma {:induction false} ExtraAfter(e: Entry, rec: Record, name: string)
    ensures var a, d := EntryAfter(e, rec).extras, DefaultFor(e, rec, name);
      if name in e.extras then name in a && a[name] == e.extras[name]
      else if d.Some? then name in a && a[name] == d.value
      else name !in a
  {
    hide Appending, Appends, FlatsAfter, Filled, UrlOf, PageOf, EvidenceOf;
    AppendsIs(e, rec);
    PageIs(rec);
    NoProcedures(rec.evidence, rec.provenance, UrlOf(rec));
  }

  lemma {:induction false} NoProcedures(evidence: string, p: Provenance, url: string)
    ensures forall name :: name in {"procedures_source", "procedures_license", "procedures_match_key"} ==>
      name !in EvidenceOf(evidence, p, url)
  {
    hide TextPart, UrlPart, HarvestPart, StatusPart;
  }

  /** The report on a record that reaches an entry. */
  lemma {:induction false} ReportMeans(r: Report, e: Entry, rec: Record, key: string)
    ensures var after := ReportAfter(r, e, rec, key);
      && after.applied == r.applied + (if Gives(e, rec)
           then [Applied(key, Filled(e, rec, FIELDS), PageOf(rec), Appending(e, rec))] else [])
      && after.skipped[NoFillable] == r.skipped[NoFillable] + One(!Gives(e, rec))
      && after.skipped[AlreadyFull] == r.skipped[AlreadyFull]
         + One(|Given(rec, Symptoms)| > 0 && !Vacant(e, Symptoms))
         + One(|Given(rec, DiagnosticSteps)| > 0 && !Vacant(e, DiagnosticSteps))
         + One(|Given(rec, Causes)| > 0 && !Vacant(e, Causes))
      && after.skipped[UnknownKey] == r.skipped[UnknownKey]
  {
    hide Appending, Appends, Filled, Refused, UrlOf, PageOf, Given, Vacant;
    AppendsIs(e, rec);
    PageIs(rec);
    FilledSome(e, rec);
    ThreeFields(e, rec);
    assert r.applied + [] == r.applied;
  }

  /** A record that reaches an entry changes that entry and is reported on it. */
  lemma {:induction false} KnownIsMerged(r: Report, entries: Entries, rec: Record, key: string)
    requires KeyFor(rec) == Some(key) && key in entries
    ensures ReportOne(r, entries, rec) == ReportAfter(r, entries[key], rec, key)
    ensures MergeOne(entries, rec) == entries[key := EntryAfter(entries[key], rec)]
  {
    hide KeyFor, ReportAfter, EntryAfter;
  }

  /** A record that reaches no entry is counted, and changes nothing. */
  lemma {:induction false} UnknownIsCounted(r: Report, entries: Entries, rec: Record)
    requires KeyFor(rec) == None || KeyFor(rec).value !in entries
    ensures ReportOne(r, entries, rec) == r.(skipped := r.skipped + multiset{UnknownKey})
    ensures MergeOne(entries, rec) == entries
  {
    hide KeyFor;
  }
}
