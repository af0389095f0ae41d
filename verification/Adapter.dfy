// The adapter between harvested scans and the merges: it fixes the shape of the records
// the merges rely on.
module Adapter {
  import opened Wrappers
  import opened Text
  import opened Numbers
  import opened MergeValues
  import D = DtcMerge
  import DtcMergeBatch
  import J = J1939Merge
  import JL = J1939MergeLaws

  /** One harvested record; "" stands for a missing text. */
  datatype Raw = Raw(
    code: string,
    key: string,
    spn: Option<int>,
    fmi: Option<int>,
    source: string,
    url: string,
    viaBrightdata: bool,
    fields: map<string, MergeValues.Value>,
    bundle: map<string, MergeValues.Value>,
    evidence: MergeValues.Value,
    provenance: Provenance)

  function At(m: map<string, MergeValues.Value>, name: string): MergeValues.Value {
    if name in m then m[name] else Null
  }

  /** Both harvest spellings of a field: the plain name, else the name with `_en`. */
  function FieldOf(raw: Raw, name: string): MergeValues.Value {
    if name in raw.fields then raw.fields[name] else At(raw.fields, name + "_en")
  }

  predicate NonEmptyList(v: MergeValues.Value) { v.Items? && v.items != [] }

  /** What a loop over the value visits: the elements of a list, the characters of a string. */
  function Visited(v: MergeValues.Value): seq<Item> {
    match v
    case Items(items) => items
    case Words(t) => seq(|t|, i requires 0 <= i < |t| => Plain([t[i]]))
    case Null => []
    case Thing(_) => []
  }

  function Stripped(v: MergeValues.Value): MergeValues.Value { AsItems(Texts(Visited(v))) }

  // ---------------------------------------------------------------- evidence

  function PlainTexts(items: seq<Item>): seq<string> {
    if items == [] then []
    else (if items[0].Plain? then [items[0].text] else []) + PlainTexts(items[1..])
  }

  function Strings(v: MergeValues.Value): seq<string> {
    match v
    case Items(items) => PlainTexts(items)
    case Words(t) => [t]
    case Null => []
    case Thing(_) => []
  }

  function LongEnough(texts: seq<string>): seq<string> {
    if texts == [] then []
    else (if |Strip(texts[0])| >= 40 then [Strip(texts[0])] else []) + LongEnough(texts[1..])
  }

  function Longest(texts: seq<string>): (r: string)
    ensures texts != [] ==> r in texts
    ensures forall t :: t in texts ==> |t| <= |r|
  {
    if texts == [] then ""
    else
      var rest := Longest(texts[1..]);
      assert texts == [texts[0]] + texts[1..];
      if |texts| == 1 || |texts[0]| >= |rest| then texts[0] else rest
  }

  /** The longest text of at least 40 characters that the record carries, or "". */
  function PickEvidence(raw: Raw): string {
    Longest(LongEnough(
      Strings(FieldOf(raw, "steps")) + Strings(FieldOf(raw, "causes")) + Strings(FieldOf(raw, "symptoms"))
      + Strings(FieldOf(raw, "description")) + Strings(FieldOf(raw, "title"))
      + if raw.evidence.Words? then [raw.evidence.text] else []))
  }

  // --------------------------------------------------------------------- DTC

  function EnglishOf(raw: Raw): map<D.Field, MergeValues.Value> {
    var symptoms, causes := FieldOf(raw, "symptoms"), FieldOf(raw, "causes");
    var description, title := FieldOf(raw, "description"), FieldOf(raw, "title");
    (if NonEmptyList(symptoms) then map[D.SymptomsEn := Stripped(symptoms)] else map[])
    + (if NonEmptyList(causes) && Texts(causes.items) != []
       then map[D.CausesEn := Words(Join(Texts(causes.items), " | "))] else map[])
    + (if description.Words? && Strip(description.text) != ""
       then map[D.DescriptionEn := Words(Strip(description.text))] else map[])
    + (if title.Words? && Strip(title.text) != "" then map[D.TitleEn := Words(Strip(title.text))] else map[])
  }

  function AdaptDtc(raw: Raw, evidenceMin: nat): Option<D.Record> {
    var code := StrCode(raw.code);
    var steps := FieldOf(raw, "steps");
    var evidence := PickEvidence(raw);
    if code == "" || evidence == "" || |evidence| < evidenceMin then None
    else Some(D.Record(
      raw.url, "", code, code, raw.source, EnglishOf(raw), Null,
      if NonEmptyList(steps) then Stripped(steps) else Null, Null, Null,
      if NonEmptyList(steps) then Some(D.Offer(
        raw.source, Stripped(steps), Stripped(FieldOf(raw, "causes")), Stripped(FieldOf(raw, "symptoms")),
        "unverified", if raw.viaBrightdata then "brightdata" else "free"))
      else None,
      evidence, raw.provenance))
  }

  /** Every adapted record that offers a bundle also offers the same steps to own. */
  lemma {:induction false} AdaptedDtcIsShaped(raw: Raw, evidenceMin: nat)
    requires AdaptDtc(raw, evidenceMin).Some?
    ensures var rec := AdaptDtc(raw, evidenceMin).value;
      && DtcMergeBatch.Shaped(rec)
      && (D.BundleOf(rec).Some? ==> D.BundleOf(rec).value.steps == AsItems(NormList(D.StepSource(rec))))
  {
    hide PickEvidence, EnglishOf, StrCode, FieldOf, Texts, Url;
  }

  // ------------------------------------------------------------------- J1939

  function Signed(n: int): string { if n < 0 then "-" + Decimal(0 - n) else Decimal(n) }

  /** `a or b` on values. */
  function OrElse(a: MergeValues.Value, b: MergeValues.Value): MergeValues.Value { if Truthy(a) then a else b }

  function AdaptJ1939(raw: Raw, evidenceMin: nat, render: Raw -> string): Option<J.Record> {
    if raw.spn.None? then None
    else
      var spn := Signed(raw.spn.value);
      var key := if raw.key != "" then raw.key
        else if raw.fmi.Some? then "SPN_" + spn + "_FMI_" + Signed(raw.fmi.value) else "SPN_" + spn;
      var steps := OrElse(At(raw.fields, "steps"), At(raw.bundle, "steps"));
      var causes := OrElse(At(raw.fields, "causes"), At(raw.bundle, "causes"));
      var symptoms := OrElse(At(raw.fields, "symptoms"), At(raw.bundle, "symptoms"));
      var evidence := PickEvidence(raw);
      if !Truthy(steps) && !Truthy(causes) && !Truthy(symptoms) then None
      else if evidence == "" || |evidence| < evidenceMin then None
      else Some(J.Record(
        key, raw.spn, raw.url, "", raw.source, Some(J.Bundle(raw.url, render(raw))),
        (if NonEmptyList(symptoms) then map[J.Symptoms := Stripped(symptoms)] else map[])
        + (if NonEmptyList(steps) then map[J.DiagnosticSteps := Stripped(steps)] else map[]),
        evidence, raw.provenance))
  }

  /** The adapter stores the URL as harvested: its bundles name their URL exactly when that is already normal. */
  lemma {:induction false} AdaptedJ1939CanonicalIff(raw: Raw, evidenceMin: nat, render: Raw -> string)
    requires AdaptJ1939(raw, evidenceMin, render).Some?
    ensures var rec := AdaptJ1939(raw, evidenceMin, render).value;
      J.Offers(rec) ==> (JL.Canonical(rec) <==> Url(raw.url) == raw.url)
  {
    hide PickEvidence, Signed, Texts;
  }

  /**
   * So a harvested URL with a trailing slash is appended to a fresh entry on every pass:
   * the stored bundle names the slash, the lookup never does.
   */
  lemma {:induction false} SlashedUrlRepeats(raw: Raw, evidenceMin: nat, render: Raw -> string, e: J.Entry)
    requires AdaptJ1939(raw, evidenceMin, render).Some?
    requires Url(raw.url) != "" && Url(raw.url) != raw.url && !J.Seen(e, Url(raw.url))
    ensures var rec := AdaptJ1939(raw, evidenceMin, render).value;
      J.EntryAfter(J.EntryAfter(e, rec), rec) != J.EntryAfter(e, rec)
  {
    hide PickEvidence, Signed, Texts, J.Seen, J.EntryAfter;
    var rec := AdaptJ1939(raw, evidenceMin, render).value;
    UrlOfEmpty();
    AdaptedJ1939CanonicalIff(raw, evidenceMin, render);
    JL.TwiceIsOnceIff(e, rec);
  }

  lemma {:induction false} UrlOfEmpty()
    ensures Url("") == ""
  {
  }
}
