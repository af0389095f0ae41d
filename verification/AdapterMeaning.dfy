// What the adapter makes of a harvested record, and where its texts stand after the
// merge: from the harvest's fields to the fields of the databases.
module AdapterMeaning {
  import opened Wrappers
  import opened Text
  import opened Numbers
  import opened MergeValues
  import opened Adapter
  import D = DtcMerge
  import DL = DtcMergeLaws
  import DM = DtcMeaning
  import J = J1939Merge
  import JM = J1939Meaning

  // ------------------------------------------------------------------- the evidence

  /** The text stands in a field, as its text or as one of a list. */
  predicate StandsIn(v: MergeValues.Value, t: string) {
    v == Words(t) || (v.Items? && Plain(t) in v.items)
  }

  const NAMES: set<string> := {"steps", "causes", "symptoms", "description", "title"}

  ghost predicate Carries(raw: Raw, t: string) {
    (exists name :: name in NAMES && StandsIn(FieldOf(raw, name), t)) || raw.evidence == Words(t)
  }

  lemma {:induction false} PlainTextsIs(items: seq<Item>, t: string)
    ensures t in PlainTexts(items) <==> Plain(t) in items
  {
    if items != [] {
      PlainTextsIs(items[1..], t);
      assert items == [items[0]] + items[1..];
    }
  }

  lemma {:induction false} StringsIs(v: MergeValues.Value, t: string)
    ensures t in Strings(v) <==> StandsIn(v, t)
  {
    if v.Items? { PlainTextsIs(v.items, t); }
  }

  lemma {:induction false} LongEnoughIs(texts: seq<string>, r: string)
    ensures r in LongEnough(texts) <==> exists t :: t in texts && Strip(t) == r && |r| >= 40
  {
    hide Strip;
    if texts != [] {
      LongEnoughIs(texts[1..], r);
      assert forall t :: t in texts <==> t == texts[0] || t in texts[1..];
    }
  }

  /** The candidates for the evidence, in the order in which they are looked at. */
  function CandidatesOf(raw: Raw): seq<string> {
    Strings(FieldOf(raw, "steps")) + Strings(FieldOf(raw, "causes")) + Strings(FieldOf(raw, "symptoms"))
    + Strings(FieldOf(raw, "description")) + Strings(FieldOf(raw, "title"))
    + if raw.evidence.Words? then [raw.evidence.text] else []
  }

  lemma {:induction false} CandidatesAre(raw: Raw, t: string)
    ensures t in CandidatesOf(raw) <==> Carries(raw, t)
  {
    hide Strings, FieldOf, StandsIn;
    StringsIs(FieldOf(raw, "steps"), t);
    StringsIs(FieldOf(raw, "causes"), t);
    StringsIs(FieldOf(raw, "symptoms"), t);
    StringsIs(FieldOf(raw, "description"), t);
    StringsIs(FieldOf(raw, "title"), t);
    assert "steps" in NAMES && "causes" in NAMES && "symptoms" in NAMES && "description" in NAMES && "title" in NAMES;
    SixParts(raw, t);
  }

  lemma {:induction false} SixParts(raw: Raw, t: string)
    ensures t in CandidatesOf(raw) <==>
      || t in Strings(FieldOf(raw, "steps")) || t in Strings(FieldOf(raw, "causes"))
      || t in Strings(FieldOf(raw, "symptoms")) || t in Strings(FieldOf(raw, "description"))
      || t in Strings(FieldOf(raw, "title")) || raw.evidence == Words(t)
  {
    hide Strings, FieldOf;
  }

  /** The evidence is a longest trimmed text of at least forty characters among those the record carries. */
  lemma {:induction false} EvidenceIs(raw: Raw)
    ensures var picked := PickEvidence(raw);
      && (picked != "" ==> |picked| >= 40 && exists t :: Carries(raw, t) && Strip(t) == picked)
      && forall t :: Carries(raw, t) && |Strip(t)| >= 40 ==> |Strip(t)| <= |picked|
  {
    hide Strings, FieldOf, Strip, LongEnough, CandidatesOf, Carries;
    PickedFrom(raw);
    var long := LongEnough(CandidatesOf(raw));
    var picked := PickEvidence(raw);
    if long != [] {
      LongEnoughIs(CandidatesOf(raw), picked);
      var t :| t in CandidatesOf(raw) && Strip(t) == picked && |picked| >= 40;
      CandidatesAre(raw, t);
    }
    forall t | Carries(raw, t) && |Strip(t)| >= 40 ensures |Strip(t)| <= |picked| {
      CandidatesAre(raw, t);
      LongEnoughIs(CandidatesOf(raw), Strip(t));
    }
  }

  lemma {:induction false} PickedFrom(raw: Raw)
    ensures PickEvidence(raw) == Longest(LongEnough(CandidatesOf(raw)))
    ensures LongEnough(CandidatesOf(raw)) == [] ==> PickEvidence(raw) == ""
  {
    hide Strings, FieldOf, LongEnough;
  }

  /** Of several longest texts the first is taken. */
  lemma {:induction false} LongestIsFirst(texts: seq<string>, k: nat)
    requires k < |texts| && (forall j :: 0 <= j < |texts| ==> |texts[j]| <= |texts[k]|)
    requires forall j :: 0 <= j < k ==> |texts[j]| < |texts[k]|
    ensures Longest(texts) == texts[k]
  {
    if |texts| > 1 {
      var rest := Longest(texts[1..]);
      assert forall t :: t in texts[1..] ==> exists j :: 1 <= j < |texts| && texts[j] == t;
      if k > 0 {
        LongestIsFirst(texts[1..], k - 1);
      }
    }
  }

  // ------------------------------------------------------------------ a DTC record

  /** Both spellings of a field; the plain one wins. */
  lemma {:induction false} FieldIs(raw: Raw, name: string)
    ensures name in raw.fields ==> FieldOf(raw, name) == raw.fields[name]
    ensures name !in raw.fields && name + "_en" in raw.fields ==> FieldOf(raw, name) == raw.fields[name + "_en"]
    ensures name !in raw.fields && name + "_en" !in raw.fields ==> FieldOf(raw, name) == Null
  {
  }

  lemma {:induction false} StrippedIs(v: MergeValues.Value)
    ensures NormList(Adapter.Stripped(v)) == Texts(Visited(v))
  {
    hide Texts;
    NormStored(Texts(Visited(v)));
  }

  /** A harvested record is adapted exactly if it has a code and evidence enough; then it says where it comes from. */
  lemma {:induction false} AdaptedIff(raw: Raw, evidenceMin: nat)
    ensures AdaptDtc(raw, evidenceMin).Some? <==>
      StrCode(raw.code) != "" && |PickEvidence(raw)| > 0 && |PickEvidence(raw)| >= evidenceMin
    ensures AdaptDtc(raw, evidenceMin).Some? ==>
      var rec := AdaptDtc(raw, evidenceMin).value;
      && rec.url == raw.url && rec.source == raw.source && rec.key == rec.code == StrCode(raw.code)
      && rec.evidence == PickEvidence(raw) && rec.provenance == raw.provenance
      && rec.claim == Null && rec.proceduresFull == Null
  {
    hide PickEvidence, EnglishOf, StrCode, FieldOf, Adapter.Stripped;
  }

  lemma {:induction false} EnglishParts(raw: Raw)
    ensures var english, symptoms, causes := EnglishOf(raw), FieldOf(raw, "symptoms"), FieldOf(raw, "causes");
      && (D.SymptomsEn in english <==> symptoms.Items? && |symptoms.items| > 0)
      && (D.SymptomsEn in english ==> english[D.SymptomsEn] == Adapter.Stripped(symptoms))
      && (D.CausesEn in english <==> NonEmptyList(causes) && Texts(causes.items) != [])
      && (D.CausesEn in english ==> english[D.CausesEn] == Words(Join(Texts(causes.items), " | ")))
    ensures var english, description, title := EnglishOf(raw), FieldOf(raw, "description"), FieldOf(raw, "title");
      && (D.DescriptionEn in english <==> description.Words? && Strip(description.text) != "")
      && (D.DescriptionEn in english ==> english[D.DescriptionEn] == Words(Strip(description.text)))
      && (D.TitleEn in english <==> title.Words? && Strip(title.text) != "")
      && (D.TitleEn in english ==> english[D.TitleEn] == Words(Strip(title.text)))
  {
    hide FieldOf, Texts, Strip, Join, Adapter.Stripped;
  }

  /** Where each English field of an adapted record comes from, and when it is there. */
  lemma {:induction false} AdaptedEnglish(raw: Raw, evidenceMin: nat)
    requires AdaptDtc(raw, evidenceMin).Some?
    ensures var english := AdaptDtc(raw, evidenceMin).value.english;
      var symptoms, causes := FieldOf(raw, "symptoms"), FieldOf(raw, "causes");
      var description, title := FieldOf(raw, "description"), FieldOf(raw, "title");
      && (D.SymptomsEn in english <==> symptoms.Items? && |symptoms.items| > 0)
      && (D.SymptomsEn in english ==> NormList(english[D.SymptomsEn]) == Texts(symptoms.items))
      && (D.CausesEn in english <==> causes.Items? && |Texts(causes.items)| > 0)
      && (D.CausesEn in english ==> english[D.CausesEn] == Words(Join(Texts(causes.items), " | ")))
      && (D.DescriptionEn in english <==> description.Words? && Strip(description.text) != "")
      && (D.DescriptionEn in english ==> english[D.DescriptionEn] == Words(Strip(description.text)))
      && (D.TitleEn in english <==> title.Words? && Strip(title.text) != "")
      && (D.TitleEn in english ==> english[D.TitleEn] == Words(Strip(title.text)))
  {
    hide PickEvidence, StrCode, FieldOf, Texts, Strip, Join, Adapter.Stripped, EnglishOf, NormList;
    EnglishParts(raw);
    var symptoms, causes := FieldOf(raw, "symptoms"), FieldOf(raw, "causes");
    StrippedIs(symptoms);
    if causes.Items? { NoTexts(causes.items); }
  }

  lemma {:induction false} NoTexts(items: seq<Item>)
    ensures items == [] ==> Texts(items) == []
  {
  }

  /** The steps of an adapted record, and the bundle it offers with them. */
  lemma {:induction false} AdaptedSteps(raw: Raw, evidenceMin: nat)
    requires AdaptDtc(raw, evidenceMin).Some?
    ensures var rec, steps := AdaptDtc(raw, evidenceMin).value, FieldOf(raw, "steps");
      if steps.Items? && |steps.items| > 0 then
        && NormList(rec.proceduresSteps) == Texts(steps.items)
        && rec.append.Some?
        && var o := rec.append.value;
           && o.site == raw.source && NormList(o.steps) == Texts(steps.items)
           && NormList(o.causes) == Texts(Visited(FieldOf(raw, "causes")))
           && NormList(o.symptoms) == Texts(Visited(FieldOf(raw, "symptoms")))
           && o.quality == "unverified" && o.method_ == (if raw.viaBrightdata then "brightdata" else "free")
      else rec.proceduresSteps == Null && rec.append == None
    ensures AdaptDtc(raw, evidenceMin).value.steps == Null
  {
    hide PickEvidence, StrCode, FieldOf, Texts, Visited, Adapter.Stripped, EnglishOf;
    VisitedList(FieldOf(raw, "steps"));
    StrippedIs(FieldOf(raw, "steps"));
    StrippedIs(FieldOf(raw, "causes"));
    StrippedIs(FieldOf(raw, "symptoms"));
  }

  lemma {:induction false} VisitedList(v: MergeValues.Value)
    ensures v.Items? ==> Visited(v) == v.items
  {
  }

  /**
   * A harvested list of steps for a code that has steps already, from a page that does not
   * own them and holds fewer: after the merge the page holds what was harvested, each
   * field under its own name.
   */
  lemma {:induction false} HarvestIsStored(raw: Raw, evidenceMin: nat, e: D.Entry, gate: D.Gate, items: seq<Item>)
    requires AdaptDtc(raw, evidenceMin).Some? && FieldOf(raw, "steps") == Items(items) && |Texts(items)| > 0
    requires Url(raw.url) != "" && !IsEmpty(e.steps) && e.owner != Some(Url(raw.url))
    requires DL.Held(e, Url(raw.url)).Some? ==>
      |NormList(DL.Held(e, Url(raw.url)).value.steps)| < |Texts(items)|
    ensures var rec := AdaptDtc(raw, evidenceMin).value;
      var held := DL.Held(D.EntryAfter(e, D.Gated(rec, gate)), Url(raw.url));
      && held.Some?
      && held.value.site == raw.source
      && NormList(held.value.steps) == Texts(items)
      && NormList(held.value.causes) == Texts(Visited(FieldOf(raw, "causes")))
      && NormList(held.value.symptoms) == Texts(Visited(FieldOf(raw, "symptoms")))
      && held.value.quality == "unverified"
      && held.value.method_ == if raw.viaBrightdata then "brightdata" else "free"
  {
    hide D.EntryAfter, DL.Held, FieldOf, Texts, Visited, Url, AdaptDtc, DM.StepsGiven, IsEmpty;
    var rec := AdaptDtc(raw, evidenceMin).value;
    AdaptedIff(raw, evidenceMin);
    AdaptedSteps(raw, evidenceMin);
    NoTexts(items);
    SamePage(rec);
    DM.HeldMeans(e, D.Gated(rec, gate), Url(raw.url));
  }

  lemma {:induction false} SamePage(rec: D.Record)
    ensures rec.url != "" || Url(rec.url) != "" ==> DM.PageOf(rec) == Url(rec.url)
  {
    UrlOfEmpty();
  }

  /** And where the code has no steps, the harvested ones become its own, under the page. */
  lemma {:induction false} HarvestIsOwned(raw: Raw, evidenceMin: nat, e: D.Entry, gate: D.Gate, items: seq<Item>)
    requires AdaptDtc(raw, evidenceMin).Some? && FieldOf(raw, "steps") == Items(items) && |Texts(items)| > 0
    requires Url(raw.url) != "" && IsEmpty(e.steps) && e.owner == None
    ensures var a := D.EntryAfter(e, D.Gated(AdaptDtc(raw, evidenceMin).value, gate));
      NormList(a.steps) == Texts(items) && a.owner == Some(Url(raw.url))
  {
    hide D.EntryAfter, FieldOf, Texts, Visited, Url, AdaptDtc, IsEmpty;
    var rec := AdaptDtc(raw, evidenceMin).value;
    AdaptedIff(raw, evidenceMin);
    AdaptedSteps(raw, evidenceMin);
    NoTexts(items);
    SamePage(rec);
    DM.StepsField(e, D.Gated(rec, gate));
    OwnSteps(rec);
    NormStored(DM.StepsGiven(rec));
  }

  lemma {:induction false} OwnSteps(rec: D.Record)
    requires |NormList(rec.proceduresSteps)| > 0
    ensures DM.StepsGiven(rec) == NormList(rec.proceduresSteps)
  {
    hide Strip;
  }

  // ----------------------------------------------------------------- a J1939 record

  lemma {:induction false} SignedIs(n: int)
    ensures n >= 0 ==> Signed(n) == Decimal(n)
    ensures n < 0 ==> Signed(n) == "-" + Decimal(0 - n)
  {
  }

  /** A harvest without a key of its own reaches the entry of its SPN, whatever its failure mode. */
  lemma {:induction false} HarvestReachesSpn(
      raw: Raw, evidenceMin: nat, render: Raw -> string, entries: J.Entries, spn: nat)
    requires AdaptJ1939(raw, evidenceMin, render).Some? && raw.key == "" && raw.spn == Some(spn)
    requires raw.fmi.Some? ==> raw.fmi.value >= 0
    ensures var rec, key := AdaptJ1939(raw, evidenceMin, render).value, "SPN_" + Decimal(spn);
      J.MergeOne(entries, rec) == if key in entries then entries[key := J.EntryAfter(entries[key], rec)] else entries
  {
    hide PickEvidence, Texts, J.EntryAfter, J.MergeOne, Decimal, Signed;
    var rec := AdaptJ1939(raw, evidenceMin, render).value;
    SignedIs(spn);
    var fmi := if raw.fmi.Some? then Some(Decimal(raw.fmi.value)) else None;
    if raw.fmi.Some? { SignedIs(raw.fmi.value); }
    TailText(fmi);
    assert rec.key == "SPN_" + (Decimal(spn) + JM.FmiTail(fmi, ""));
    JM.MergeReaches(entries, rec, Decimal(spn), fmi);
  }

  lemma {:induction false} TailText(fmi: Option<string>)
    ensures JM.FmiTail(fmi, "") == if fmi.Some? then "_FMI_" + fmi.value else ""
  {
  }

  /** The first of two values that says something: that of the record, else that of its bundle. */
  function FirstOf(raw: Raw, name: string): MergeValues.Value {
    if name in raw.fields && Truthy(raw.fields[name]) then raw.fields[name]
    else if name in raw.bundle then raw.bundle[name]
    else Null
  }

  /** Where the parts of an adapted J1939 record come from, and when it is adapted at all. */
  lemma {:induction false} AdaptedJ1939Is(raw: Raw, evidenceMin: nat, render: Raw -> string)
    ensures AdaptJ1939(raw, evidenceMin, render).Some? <==>
      && raw.spn.Some?
      && (Truthy(FirstOf(raw, "steps")) || Truthy(FirstOf(raw, "causes")) || Truthy(FirstOf(raw, "symptoms")))
      && |PickEvidence(raw)| > 0 && |PickEvidence(raw)| >= evidenceMin
    ensures AdaptJ1939(raw, evidenceMin, render).Some? ==>
      var rec := AdaptJ1939(raw, evidenceMin, render).value;
      var steps, symptoms := FirstOf(raw, "steps"), FirstOf(raw, "symptoms");
      && rec.url == raw.url && rec.evidenceUrl == "" && rec.source == raw.source && rec.spn == raw.spn
      && (|raw.key| > 0 ==> rec.key == raw.key)
      && rec.append == Some(J.Bundle(raw.url, render(raw)))
      && JM.Given(rec, J.Symptoms) == (if symptoms.Items? then Texts(symptoms.items) else [])
      && JM.Given(rec, J.DiagnosticSteps) == (if steps.Items? then Texts(steps.items) else [])
      && JM.Given(rec, J.Causes) == []
      && rec.evidence == PickEvidence(raw) && rec.provenance == raw.provenance
  {
    hide PickEvidence, Texts, Adapter.Stripped, Signed;
    var steps, symptoms := FirstOf(raw, "steps"), FirstOf(raw, "symptoms");
    StrippedIs(steps);
    StrippedIs(symptoms);
    NoTexts([]);
  }
}
