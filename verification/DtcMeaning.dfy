// What one harvested record means for the trouble-code database, said of the record and
// the entry alone: which code it reaches, what the gates stop, and what each field, the
// steps, the bundles and the report hold afterwards.
module DtcMeaning {
  import opened Wrappers
  import opened Text
  import opened MergeValues
  import opened DtcMerge
  import opened DtcMergeLaws

  // ------------------------------------------------------------- the code it reaches

  const CODE_LETTERS := "pbcuPBCU"
  const HEX_DIGITS := "0123456789abcdefABCDEF"

  /** Five characters that spell a trouble code. */
  predicate Spells(c: string) {
    |c| == 5 && c[0] in CODE_LETTERS && forall k :: 1 <= k < 5 ==> c[k] in HEX_DIGITS
  }

  predicate SpellsAt(s: string, i: nat) { i + 5 <= |s| && Spells(s[i..i + 5]) }

  lemma {:induction false} LetterIs(c: char)
    ensures c in CODE_LETTERS <==> LowerChar(c) in {'p', 'b', 'c', 'u'}
  {
    assert CODE_LETTERS[0] == 'p' && CODE_LETTERS[1] == 'b' && CODE_LETTERS[2] == 'c' && CODE_LETTERS[3] == 'u';
    assert CODE_LETTERS[4] == 'P' && CODE_LETTERS[5] == 'B' && CODE_LETTERS[6] == 'C' && CODE_LETTERS[7] == 'U';
  }

  lemma {:induction false} HexIs(c: char)
    ensures c in HEX_DIGITS <==> '0' <= c <= '9' || 'a' <= LowerChar(c) <= 'f'
  {
    assert forall k :: 0 <= k < 10 ==> HEX_DIGITS[k] as int == 48 + k;
    assert forall k :: 10 <= k < 16 ==> HEX_DIGITS[k] as int == 87 + k;
    assert forall k :: 16 <= k < 22 ==> HEX_DIGITS[k] as int == 49 + k;
    if '0' <= c <= '9' { assert HEX_DIGITS[c as int - 48] == c; }
    if 'a' <= c <= 'f' { assert HEX_DIGITS[c as int - 87] == c; }
    if 'A' <= c <= 'F' { assert HEX_DIGITS[c as int - 49] == c; }
  }

  lemma {:induction false} CodeAtIs(s: string, i: nat)
    ensures CodeAt(s, i) <==> SpellsAt(s, i)
  {
    hide LowerChar;
    if i + 5 <= |s| {
      var c := s[i..i + 5];
      LetterIs(c[0]);
      forall k | 1 <= k < 5
        ensures c[k] in HEX_DIGITS <==> '0' <= s[i + k] <= '9' || 'a' <= LowerChar(s[i + k]) <= 'f'
      {
        HexIs(c[k]);
      }
      assert forall j :: i < j < i + 5 ==> s[j] == c[j - i];
    }
  }

  lemma {:induction false} CodeInFrom(s: string, k: nat, i: nat)
    requires k <= i && SpellsAt(s, i) && forall j :: k <= j < i ==> !SpellsAt(s, j)
    ensures CodeIn(s, k) == Some(Upper(s[i..i + 5]))
    decreases i - k
  {
    hide CodeAt, Spells, Upper;
    CodeAtIs(s, k);
    if k < i { CodeInFrom(s, k + 1, i); }
  }

  lemma {:induction false} NoCodeFrom(s: string, k: nat)
    requires forall j :: k <= j < |s| ==> !SpellsAt(s, j)
    ensures CodeIn(s, k) == None
    decreases |s| - k
  {
    hide CodeAt, SpellsAt, Upper;
    if k < |s| {
      CodeAtIs(s, k);
      NoCodeFrom(s, k + 1);
    }
  }

  /** The first code that the URL spells decides; without one the key does, else the code. */
  lemma {:induction false} ReachedCode(rec: Record, i: nat)
    ensures SpellsAt(rec.url, i) && (forall j :: 0 <= j < i ==> !SpellsAt(rec.url, j)) ==>
      KeyFor(rec) == Some(Upper(rec.url[i..i + 5]))
    ensures (forall j :: 0 <= j < |rec.url| ==> !SpellsAt(rec.url, j)) ==>
      KeyFor(rec) ==
        (if |rec.key| > 0 then Some(Upper(rec.key)) else if |rec.code| > 0 then Some(Upper(rec.code)) else None)
  {
    hide SpellsAt, CodeIn, Upper;
    if SpellsAt(rec.url, i) && forall j :: 0 <= j < i ==> !SpellsAt(rec.url, j) { CodeInFrom(rec.url, 0, i); }
    if forall j :: 0 <= j < |rec.url| ==> !SpellsAt(rec.url, j) { NoCodeFrom(rec.url, 0); }
  }

  // -------------------------------------------------------------------- the gates

  /** A candidate is foreign where another code carries it as its title, and this code does not. */
  lemma {:induction false} ForeignIff(entries: Entries, candidate: string, code: string)
    requires code in entries
    ensures Foreign(candidate, entries[code].title, TitleIndex(entries), code) <==>
      && TitleKey(candidate) != "" && TitleKey(entries[code].title) != TitleKey(candidate)
      && exists c :: c in entries && TitleKey(entries[c].title) == TitleKey(candidate) && StrCode(c) != StrCode(code)
  {
    hide TitleKey, StrCode, IndexOver;
    var key := TitleKey(candidate);
    var index := TitleIndex(entries);
    IndexAt(entries, entries.Keys, key);
    if c :| c in entries && TitleKey(entries[c].title) == key && StrCode(c) != StrCode(code) {
      assert StrCode(c) in Owners(entries, entries.Keys, key);
    }
  }

  /** The two gates: an English title that belongs to another code, and a page about another subject. */
  lemma {:induction false} GatesAre(entries: Entries, rec: Record, code: string, anchor: Anchor)
    requires code in entries
    ensures var gate := GateOf(entries[code], rec, TitleIndex(entries), code, anchor);
      && (gate.shifted <==>
            && TitleEn in rec.english && !IsEmpty(rec.english[TitleEn])
            && Foreign(NormStr(rec.english[TitleEn]), entries[code].title, TitleIndex(entries), code))
      && (gate.conflict <==> !IsEmpty(rec.claim) && anchor(entries[code].title, rec.claim))
  {
    hide Foreign, NormStr;
  }

  // ------------------------------------------------------------- the English fields

  /** The URL under which a record is kept: its own, else that of its evidence. */
  function PageOf(rec: Record): string { Url(if |rec.url| > 0 then rec.url else rec.evidenceUrl) }

  lemma {:induction false} PageIs(rec: Record)
    ensures UrlOf(rec) == PageOf(rec)
  {
    hide Url;
  }

  /** What the gates leave of a field. */
  predicate Lets(g: Gated, f: Field) {
    f in g.rec.english && !IsEmpty(g.rec.english[f]) && !g.gate.conflict && (g.gate.shifted ==> f != TitleEn)
  }

  predicate Vacant(e: Entry, f: Field) { f in e.english ==> IsEmpty(e.english[f]) }

  /** Symptoms are kept as a list, the other fields as one text. */
  function NormalForm(f: Field, v: Value): Value {
    match f
    case SymptomsEn => AsItems(NormList(v))
    case CausesEn => Words(NormStr(v))
    case DescriptionEn => Words(NormStr(v))
    case TitleEn => Words(NormStr(v))
  }

  predicate Fills(e: Entry, g: Gated, f: Field) {
    Lets(g, f) && Vacant(e, f) && PageOf(g.rec) != "" && !IsEmpty(NormalForm(f, g.rec.english[f]))
  }

  lemma {:induction false} TakeIs(e: Entry, g: Gated, f: Field)
    ensures TakeOf(e, g, f).Fill? <==> Fills(e, g, f)
    ensures Fills(e, g, f) ==> TakeOf(e, g, f).value == NormalForm(f, g.rec.english[f])
    ensures TakeOf(e, g, f) == Refuse(AlreadyFull) <==> Lets(g, f) && !Vacant(e, f)
    ensures TakeOf(e, g, f) == Refuse(NoSourceUrl) <==> Lets(g, f) && Vacant(e, f) && PageOf(g.rec) == ""
    ensures TakeOf(e, g, f).Refuse? ==> TakeOf(e, g, f).skip in {AlreadyFull, NoSourceUrl}
  {
    hide PageOf, UrlOf, NormStr, NormList;
    PageIs(g.rec);
  }

  lemma {:induction false} OriginAt(e: Entry, g: Gated, k: nat, f: Field)
    requires k <= |FIELDS|
    ensures var a := EnglishAfter(e, g, FIELDS[..k]);
      if f in FIELDS[..k] && TakeOf(e, g, f).Fill? then f in a.origin && a.origin[f] == UrlOf(g.rec)
      else (f in a.origin <==> f in e.origin) && (f in e.origin ==> a.origin[f] == e.origin[f])
  {
    hide TakeOf, UrlOf, EnglishAfter, EnglishFilled, EnglishSkipped;
    if k == 0 {
      EnglishNone(e, g);
    } else {
      OriginAt(e, g, k - 1, f);
      EnglishNext(e, g, k - 1);
      assert FIELDS[..k] == FIELDS[..k - 1] + [FIELDS[k - 1]];
    }
  }

  lemma {:induction false} Listed(f: Field)
    ensures f in FIELDS
  {
    assert FIELDS[0] == SymptomsEn && FIELDS[1] == CausesEn && FIELDS[2] == DescriptionEn && FIELDS[3] == TitleEn;
  }

  lemma {:induction false} OriginAfter(e: Entry, g: Gated)
    ensures EntryAfter(e, g).origin == EnglishAfter(e, g, FIELDS).origin
  {
    hide EnglishAfter, MultiAfter, FilledBy, FillsSteps, StepSource, EvidenceOf;
  }

  /** Each English field after a record: the normal form of what it gives, with its page, or what it was. */
  lemma {:induction false} EnglishField(e: Entry, g: Gated, f: Field)
    ensures var a := EntryAfter(e, g);
      if Fills(e, g, f) then
        && Get(a.english, f) == NormalForm(f, g.rec.english[f])
        && f in a.origin && a.origin[f] == PageOf(g.rec)
      else
        && Get(a.english, f) == Get(e.english, f)
        && (f in a.origin <==> f in e.origin) && (f in e.origin ==> a.origin[f] == e.origin[f])
  {
    hide TakeOf, UrlOf, PageOf, EntryAfter, Fills, NormalForm;
    PartsAfter(e, g, f);
    OriginAfter(e, g);
    OriginAt(e, g, |FIELDS|, f);
    assert FIELDS[..|FIELDS|] == FIELDS;
    Listed(f);
    TakeIs(e, g, f);
    PageIs(g.rec);
  }

  // ---------------------------------------------------------------------- the steps

  predicate OnlyTexts(v: Value) {
    v.Items? && |v.items| > 0 && forall item :: item in v.items ==> item.Plain?
  }

  lemma {:induction false} OnlyTextsIs(v: Value)
    ensures FlatStrings(v) <==> OnlyTexts(v)
  {
    if v.Items? { assert forall item :: item in v.items <==> exists i :: 0 <= i < |v.items| && v.items[i] == item; }
  }

  /** The flat steps of a record: those of the first of its two step fields that has any, else a flat list of texts. */
  function StepsGiven(rec: Record): seq<string> {
    if Truthy(rec.proceduresSteps) then NormList(rec.proceduresSteps)
    else if rec.steps != Null then NormList(rec.steps)
    else if OnlyTexts(rec.proceduresFull) then NormList(rec.proceduresFull)
    else []
  }

  /** The record becomes the one source of the flat steps where the entry has none. */
  lemma {:induction false} StepsField(e: Entry, g: Gated)
    ensures var a, steps := EntryAfter(e, g), StepsGiven(g.rec);
      if |steps| > 0 && IsEmpty(e.steps) then
        && a.steps == AsItems(steps)
        && a.owner == (if e.owner.Some? then e.owner else Some(PageOf(g.rec)))
        && a.stepsSource == (if e.stepsSource.Some? then e.stepsSource else Some(g.rec.source))
      else a.steps == e.steps && a.owner == e.owner && a.stepsSource == e.stepsSource
    ensures FillsSteps(e, g.rec) <==> |StepsGiven(g.rec)| > 0 && IsEmpty(e.steps)
  {
    hide EnglishAfter, MultiAfter, FilledBy, UrlOf, PageOf, NormList, EvidenceOf, FlatStrings, OnlyTexts;
    OnlyTextsIs(g.rec.proceduresFull);
    PageIs(g.rec);
    StepsAre(g.rec);
    EnglishKeepsSteps(e, g);
  }

  lemma {:induction false} EnglishKeepsSteps(e: Entry, g: Gated)
    ensures var a := EnglishAfter(e, g, FIELDS);
      && a.steps == e.steps && a.owner == e.owner && a.stepsSource == e.stepsSource
      && a.source == e.source && a.evidence == e.evidence && a.marks == e.marks
  {
    hide EnglishAfter;
    var a := EnglishAfter(e, g, FIELDS);
  }

  lemma {:induction false} StepsAre(rec: Record)
    ensures NormList(StepSource(rec)) == StepsGiven(rec)
  {
    hide FlatStrings, OnlyTexts, Texts;
    OnlyTextsIs(rec.proceduresFull);
  }

  // -------------------------------------------------------------------- the bundles

  /** What a record offers under its page: its own bundle, or one made of a flat list of texts. */
  function Offering(rec: Record): Option<Offer> {
    if rec.append != None then rec.append
    else if OnlyTexts(rec.proceduresFull) && |NormList(rec.proceduresFull)| > 0
    then Some(Offer(rec.source, AsItems(NormList(rec.proceduresFull)), Null, Null, "unverified", "free"))
    else None
  }

  /** The record offers steps under a page, is not about to own them, and the page is not the owner's. */
  predicate Places(e: Entry, rec: Record) {
    && Offering(rec).Some? && |NormList(Offering(rec).value.steps)| > 0 && PageOf(rec) != ""
    && !(|StepsGiven(rec)| > 0 && IsEmpty(e.steps))
    && e.owner != Some(PageOf(rec))
  }

  predicate Richer(e: Entry, rec: Record)
    requires Offering(rec).Some?
  {
    Held(e, PageOf(rec)).Some? ==>
      |NormList(Offering(rec).value.steps)| > |NormList(Held(e, PageOf(rec)).value.steps)|
  }

  /** A stored bundle holds what was offered, field by field, under its page. */
  predicate Stores(b: Bundle, o: Offer, rec: Record) {
    && b.url == PageOf(rec)
    && b.site == (if |o.site| > 0 then o.site else rec.source)
    && NormList(b.steps) == NormList(o.steps)
    && NormList(b.causes) == NormList(o.causes)
    && NormList(b.symptoms) == NormList(o.symptoms)
    && b.quality == (if |o.quality| > 0 then o.quality else "unverified")
    && b.method_ == (if |o.method_| > 0 then o.method_ else "free")
  }

  lemma {:induction false} OfferingIs(rec: Record)
    ensures OfferOf(rec) == Offering(rec)
  {
    hide NormList, FlatStrings, OnlyTexts;
    OnlyTextsIs(rec.proceduresFull);
  }

  lemma {:induction false} BundleIs(rec: Record)
    ensures BundleOf(rec).Some? <==>
      Offering(rec).Some? && |NormList(Offering(rec).value.steps)| > 0 && PageOf(rec) != ""
    ensures BundleOf(rec).Some? ==> Stores(BundleOf(rec).value, Offering(rec).value, rec)
  {
    hide NormList, PageOf, UrlOf, OfferOf, Offering, AsItems;
    OfferingIs(rec);
    PageIs(rec);
    if Offering(rec).Some? {
      var o := Offering(rec).value;
      NormStored(NormList(o.steps));
      NormStored(NormList(o.causes));
      NormStored(NormList(o.symptoms));
    }
  }

  /**
   * What a page holds after a record: the offer, if the record places one and it is the
   * first or a strictly richer one, and else what it held. No other page changes.
   */
  lemma {:induction false} HeldMeans(e: Entry, g: Gated, url: string)
    ensures var a := EntryAfter(e, g);
      if url == PageOf(g.rec) && Places(e, g.rec) && Richer(e, g.rec)
      then Held(a, url).Some? && Stores(Held(a, url).value, Offering(g.rec).value, g.rec)
      else Held(a, url) == Held(e, url)
  {
    hide EntryAfter, BundleOf, Offering, UrlOf, PageOf, MoveOf, FillsSteps, StepsGiven, NormList, Held;
    PageIs(g.rec);
    BundleIs(g.rec);
    BundleUrl(g.rec);
    StepsField(e, g);
    MoveByHeld(e, g.rec);
    HeldAfter(e, g, url);
  }

  /** The list only grows at its end, or changes at one place; strangers in it are left alone. */
  lemma {:induction false} ListMeans(e: Entry, g: Gated)
    ensures var before, after := SlotsOf(e.multi), SlotsOf(EntryAfter(e, g).multi);
      if !Places(e, g.rec) || !Richer(e, g.rec) then EntryAfter(e, g).multi == e.multi
      else if Held(e, PageOf(g.rec)).None? then |after| == |before| + 1 && after[..|before|] == before
      else |after| == |before| && exists k :: OneChanged(before, after, PageOf(g.rec), k)
  {
    hide EntryAfter, BundleOf, Offering, UrlOf, PageOf, FillsSteps, StepsGiven, NormList, SlotAt;
    PageIs(g.rec);
    BundleIs(g.rec);
    StepsField(e, g);
    MoveByHeld(e, g.rec);
    PartsAfter(e, g, TitleEn);
    var m := MoveOf(e, g.rec);
    if m.Replace? { assert OneChanged(SlotsOf(e.multi), SlotsOf(EntryAfter(e, g).multi), PageOf(g.rec), m.at); }
  }

  /** The lists differ at most at a bundle of this page. */
  predicate OneChanged(before: seq<Slot>, after: seq<Slot>, url: string, k: int)
    requires |after| == |before|
  {
    && 0 <= k < |before| && SlotFor(before[k], url)
    && forall j :: 0 <= j < |before| && j != k ==> after[j] == before[j]
  }

  // ------------------------------------------------------------ what goes with it

  /** The record gives the entry something. */
  ghost predicate Gives(e: Entry, g: Gated) {
    || (exists f :: Fills(e, g, f))
    || (|StepsGiven(g.rec)| > 0 && IsEmpty(e.steps))
    || (Places(e, g.rec) && Richer(e, g.rec))
  }

  lemma {:induction false} FilledEnglish(e: Entry, g: Gated, k: nat)
    requires k <= |FIELDS|
    ensures forall f :: English(f) in EnglishFilled(e, g, FIELDS[..k]) <==> f in FIELDS[..k] && TakeOf(e, g, f).Fill?
    ensures forall x :: x in EnglishFilled(e, g, FIELDS[..k]) ==> x.English?
  {
    hide TakeOf, EnglishFilled, EnglishAfter, EnglishSkipped;
    if k == 0 {
      EnglishNone(e, g);
    } else {
      FilledEnglish(e, g, k - 1);
      EnglishNext(e, g, k - 1);
      assert FIELDS[..k] == FIELDS[..k - 1] + [FIELDS[k - 1]];
    }
  }

  /** The list of what was filled names each field, the steps and the bundle, each if it was filled. */
  lemma {:induction false} FilledIs(e: Entry, g: Gated, f: Field)
    ensures var filled := FilledBy(e, g);
      && (English(f) in filled <==> Fills(e, g, f))
      && (Procedures in filled <==> |StepsGiven(g.rec)| > 0 && IsEmpty(e.steps))
      && (ProceduresMulti in filled <==> Places(e, g.rec) && Richer(e, g.rec))
  {
    hide TakeOf, EnglishFilled, Fills, FillsSteps, StepsGiven, MoveOf, Places, Richer, FilledBy;
    FilledEnglish(e, g, |FIELDS|);
    assert FIELDS[..|FIELDS|] == FIELDS;
    Listed(f);
    TakeIs(e, g, f);
    StepsField(e, g);
    PlacedIs(e, g.rec);
    FilledParts(e, g, English(f));
    FilledParts(e, g, Procedures);
    FilledParts(e, g, ProceduresMulti);
  }

  lemma {:induction false} FilledParts(e: Entry, g: Gated, x: Filled)
    ensures x in FilledBy(e, g) <==>
      || x in EnglishFilled(e, g, FIELDS)
      || (x == Procedures && FillsSteps(e, g.rec))
      || (x == ProceduresMulti && (MoveOf(e, g.rec).Append? || MoveOf(e, g.rec).Replace?))
  {
    hide EnglishFilled, FillsSteps, MoveOf;
  }

  function Listing(b: bool, x: Filled): seq<Filled> { if b then [x] else [] }

  /** And in this order. */
  lemma {:induction false} FilledInOrder(e: Entry, g: Gated)
    ensures FilledBy(e, g) ==
      Listing(Fills(e, g, SymptomsEn), English(SymptomsEn)) + Listing(Fills(e, g, CausesEn), English(CausesEn))
      + Listing(Fills(e, g, DescriptionEn), English(DescriptionEn)) + Listing(Fills(e, g, TitleEn), English(TitleEn))
      + Listing(|StepsGiven(g.rec)| > 0 && IsEmpty(e.steps), Procedures)
      + Listing(Places(e, g.rec) && Richer(e, g.rec), ProceduresMulti)
  {
    hide TakeOf, Fills, EnglishSkipped, EnglishAfter, EnglishFilled, FillsSteps, StepsGiven, MoveOf, Places, Richer;
    hide FilledBy;
    FilledInParts(e, g);
    FilledFour(e, g);
    TakeIs(e, g, SymptomsEn);
    TakeIs(e, g, CausesEn);
    TakeIs(e, g, DescriptionEn);
    TakeIs(e, g, TitleEn);
    StepsField(e, g);
    PlacedIs(e, g.rec);
  }

  lemma {:induction false} FilledInParts(e: Entry, g: Gated)
    ensures FilledBy(e, g) == EnglishFilled(e, g, FIELDS)
      + Listing(FillsSteps(e, g.rec), Procedures)
      + Listing(MoveOf(e, g.rec).Append? || MoveOf(e, g.rec).Replace?, ProceduresMulti)
  {
    hide EnglishFilled, FillsSteps, MoveOf;
  }

  lemma {:induction false} FilledFour(e: Entry, g: Gated)
    ensures EnglishFilled(e, g, FIELDS) ==
      Listing(TakeOf(e, g, SymptomsEn).Fill?, English(SymptomsEn))
      + Listing(TakeOf(e, g, CausesEn).Fill?, English(CausesEn))
      + Listing(TakeOf(e, g, DescriptionEn).Fill?, English(DescriptionEn))
      + Listing(TakeOf(e, g, TitleEn).Fill?, English(TitleEn))
  {
    hide TakeOf, EnglishSkipped, EnglishAfter, EnglishFilled, Listing;
    EnglishNone(e, g);
    assert FIELDS[..0] == [] && FIELDS[..4] == FIELDS;
    FilledStep(e, g, 0);
    FilledStep(e, g, 1);
    FilledStep(e, g, 2);
    FilledStep(e, g, 3);
    var first := Listing(TakeOf(e, g, SymptomsEn).Fill?, English(SymptomsEn));
    assert [] + first == first;
  }

  lemma {:induction false} FilledStep(e: Entry, g: Gated, k: nat)
    requires k < |FIELDS|
    ensures EnglishFilled(e, g, FIELDS[..k + 1]) ==
      EnglishFilled(e, g, FIELDS[..k]) + Listing(TakeOf(e, g, FIELDS[k]).Fill?, English(FIELDS[k]))
  {
    hide TakeOf, EnglishSkipped, EnglishAfter, EnglishFilled;
    EnglishNext(e, g, k);
  }

  lemma {:induction false} PlacedIs(e: Entry, rec: Record)
    ensures MoveOf(e, rec).Append? || MoveOf(e, rec).Replace? <==> Places(e, rec) && Richer(e, rec)
  {
    hide BundleOf, Offering, UrlOf, PageOf, MoveOf, FillsSteps, StepsGiven, NormList, Held;
    PageIs(rec);
    BundleIs(rec);
    StepsField(e, Gated(rec, Gate(false, false)));
    MoveByHeld(e, rec);
  }

  /** Source and evidence go with a record that gives something, and never replace what is there. */
  lemma {:induction false} KeptFields(e: Entry, g: Gated)
    ensures var a := EntryAfter(e, g);
      if Gives(e, g) then
        && a.source == (if e.source.Some? then e.source else Some(g.rec.source))
        && a.evidence == EvidenceOf(g.rec.evidence, g.rec.provenance, PageOf(g.rec)) + e.evidence
      else a.source == e.source && a.evidence == e.evidence
    ensures EntryAfter(e, g).marks == e.marks && EntryAfter(e, g).title == e.title
  {
    hide EnglishAfter, MultiAfter, FillsSteps, UrlOf, PageOf, EvidenceOf, Fills, Places, Richer, StepsGiven, FilledBy;
    PageIs(g.rec);
    EnglishKeepsSteps(e, g);
    GivesIff(e, g);
  }

  lemma {:induction false} GivesIff(e: Entry, g: Gated)
    ensures FilledBy(e, g) != [] <==> Gives(e, g)
  {
    hide Fills, Places, Richer, StepsGiven, FilledBy;
    forall f ensures English(f) in FilledBy(e, g) <==> Fills(e, g, f) { FilledIs(e, g, f); }
    FilledIs(e, g, TitleEn);
    if FilledBy(e, g) != [] {
      var x := FilledBy(e, g)[0];
      assert x in FilledBy(e, g);
      match x {
        case English(f) => assert Fills(e, g, f);
        case Procedures =>
        case ProceduresMulti =>
      }
    }
  }

  // --------------------------------------------------------------------- the report

  function One(b: bool): nat { if b then 1 else 0 }

  /** How many of the four fields satisfy a test. */
  function Four(test: Field -> bool): nat {
    One(test(SymptomsEn)) + One(test(CausesEn)) + One(test(DescriptionEn)) + One(test(TitleEn))
  }

  lemma {:induction false} SkippedFour(e: Entry, g: Gated)
    ensures EnglishSkipped(e, g, FIELDS) ==
      Refused(TakeOf(e, g, SymptomsEn)) + Refused(TakeOf(e, g, CausesEn))
      + Refused(TakeOf(e, g, DescriptionEn)) + Refused(TakeOf(e, g, TitleEn))
  {
    hide TakeOf, Refused, EnglishSkipped, EnglishAfter, EnglishFilled;
    EnglishNone(e, g);
    assert FIELDS[..0] == [] && FIELDS[..4] == FIELDS;
    EnglishNext(e, g, 0);
    EnglishNext(e, g, 1);
    EnglishNext(e, g, 2);
    EnglishNext(e, g, 3);
  }

  lemma {:induction false} RefusedCounts(e: Entry, g: Gated, f: Field)
    ensures var m := Refused(TakeOf(e, g, f));
      && m[AlreadyFull] == One(Lets(g, f) && !Vacant(e, f))
      && m[NoSourceUrl] == One(Lets(g, f) && Vacant(e, f) && PageOf(g.rec) == "")
      && forall s :: s !in {AlreadyFull, NoSourceUrl} ==> m[s] == 0
  {
    hide TakeOf, Lets, Vacant, PageOf;
    TakeIs(e, g, f);
  }

  lemma {:induction false} EnglishCounts(e: Entry, g: Gated)
    ensures var m := EnglishSkipped(e, g, FIELDS);
      && m[AlreadyFull] == Four(f => Lets(g, f) && !Vacant(e, f))
      && m[NoSourceUrl] == Four(f => Lets(g, f) && Vacant(e, f) && PageOf(g.rec) == "")
      && forall s :: s !in {AlreadyFull, NoSourceUrl} ==> m[s] == 0
  {
    hide EnglishSkipped, TakeOf, Refused, Lets, Vacant, PageOf;
    SkippedFour(e, g);
    RefusedCounts(e, g, SymptomsEn);
    RefusedCounts(e, g, CausesEn);
    RefusedCounts(e, g, DescriptionEn);
    RefusedCounts(e, g, TitleEn);
  }

  lemma {:induction false} WhenCounts(c: bool, skip: Skip, other: Skip)
    ensures When(c, skip)[other] == One(c && other == skip)
  {
  }

  lemma {:induction false} SkipsOf(e: Entry, g: Gated, s: Skip)
    ensures SkippedBy(e, g)[s] == EnglishSkipped(e, g, FIELDS)[s]
      + One(g.gate.shifted && s == TitleShift) + One(g.gate.conflict && s == SubjectConflict)
      + One(Places(e, g.rec) && !Richer(e, g.rec) && s == PoorerReharvest) + One(!Gives(e, g) && s == NoFillable)
  {
    hide EnglishSkipped, Places, Richer, Gives, MoveOf, FilledBy, When;
    GivesIff(e, g);
    PoorerIs(e, g.rec);
    WhenCounts(g.gate.shifted, TitleShift, s);
    WhenCounts(g.gate.conflict, SubjectConflict, s);
    WhenCounts(MoveOf(e, g.rec).Poorer?, PoorerReharvest, s);
    WhenCounts(FilledBy(e, g) == [], NoFillable, s);
  }

  /** Every counter of the report, for a record that reaches a code. */
  lemma {:induction false} CountersAre(e: Entry, g: Gated)
    ensures var m := SkippedBy(e, g);
      && m[TitleShift] == One(g.gate.shifted) && m[SubjectConflict] == One(g.gate.conflict)
      && m[AlreadyFull] == Four(f => Lets(g, f) && !Vacant(e, f))
      && m[NoSourceUrl] == Four(f => Lets(g, f) && Vacant(e, f) && PageOf(g.rec) == "")
      && m[PoorerReharvest] == One(Places(e, g.rec) && !Richer(e, g.rec))
      && m[NoFillable] == One(!Gives(e, g))
      && m[UnknownKey] == 0
  {
    hide EnglishSkipped, SkippedBy, Lets, Vacant, PageOf, Places, Richer, Gives, Four;
    EnglishCounts(e, g);
    SkipsOf(e, g, TitleShift);
    SkipsOf(e, g, SubjectConflict);
    SkipsOf(e, g, AlreadyFull);
    SkipsOf(e, g, NoSourceUrl);
    SkipsOf(e, g, PoorerReharvest);
    SkipsOf(e, g, NoFillable);
    SkipsOf(e, g, UnknownKey);
  }

  lemma {:induction false} PoorerIs(e: Entry, rec: Record)
    ensures MoveOf(e, rec).Poorer? <==> Places(e, rec) && !Richer(e, rec)
  {
    hide BundleOf, Offering, UrlOf, PageOf, MoveOf, FillsSteps, StepsGiven, NormList, Held;
    PageIs(rec);
    BundleIs(rec);
    StepsField(e, Gated(rec, Gate(false, false)));
    MoveByHeld(e, rec);
  }

  /** The lines of the report: one for a record that gives something, one for a bundle replaced by a richer one. */
  lemma {:induction false} LinesAre(r: Report, e: Entry, g: Gated, code: string)
    ensures var after := ReportAfter(r, e, g, code);
      && after.applied == r.applied + (if Gives(e, g)
           then [Applied(code, FilledBy(e, g), PageOf(g.rec), Places(e, g.rec) && Richer(e, g.rec))] else [])
      && after.upgraded == r.upgraded +
           if Places(e, g.rec) && Richer(e, g.rec) && Held(e, PageOf(g.rec)).Some?
           then [Upgrade(code, PageOf(g.rec), |NormList(Held(e, PageOf(g.rec)).value.steps)|,
                         |NormList(Offering(g.rec).value.steps)|)]
           else []
  {
    hide BundleOf, Offering, UrlOf, PageOf, FillsSteps, StepsGiven, NormList, FilledBy, Gives, SkippedBy, SlotAt;
    PageIs(g.rec);
    GivesIff(e, g);
    PlacedIs(e, g.rec);
    BundleIs(g.rec);
    MoveByHeld(e, g.rec);
    UpgradeIs(e, g.rec);
  }

  lemma {:induction false} UpgradeIs(e: Entry, rec: Record)
    ensures MoveOf(e, rec).Replace? ==>
      Held(e, UrlOf(rec)).Some? && MoveOf(e, rec).before == Count(Held(e, UrlOf(rec)).value)
  {
    hide BundleOf, UrlOf, FillsSteps, NormList, SlotAt;
  }

  // ------------------------------------------------------------------- the database

  /** A record changes the entry it reaches, behind the gates on that entry, and is reported on it. */
  lemma {:induction false} KnownIsMerged(
      r: Report, entries: Entries, rec: Record, index: Index, anchor: Anchor, code: string)
    requires KeyFor(rec) == Some(code) && code in entries
    ensures var g := Gated(rec, GateOf(entries[code], rec, index, code, anchor));
      && MergeOne(entries, rec, index, anchor) == entries[code := EntryAfter(entries[code], g)]
      && ReportOne(r, entries, rec, index, anchor) == ReportAfter(r, entries[code], g, code)
  {
    hide KeyFor, GateOf, EntryAfter, ReportAfter;
  }

  /** A record that reaches none is counted, and changes nothing. */
  lemma {:induction false} UnknownIsCounted(
      r: Report, entries: Entries, rec: Record, index: Index, anchor: Anchor)
    requires KeyFor(rec) == None || KeyFor(rec).value !in entries
    ensures MergeOne(entries, rec, index, anchor) == entries
    ensures ReportOne(r, entries, rec, index, anchor) == r.(skipped := r.skipped + multiset{UnknownKey})
  {
    hide KeyFor;
  }
}
