// Merging harvested records into the trouble-code database: fill-if-empty English
// fields behind two gates, a single-source owner of the flat steps, and a per-URL list
// of further sources in which only a strictly richer harvest replaces an older one.
module DtcMerge {
  import opened Wrappers
  import opened Text
  import opened MergeValues

  // ------------------------------------------------------------------ entries

  datatype Field = SymptomsEn | CausesEn | DescriptionEn | TitleEn

  const FIELDS: seq<Field> := [SymptomsEn, CausesEn, DescriptionEn, TitleEn]

  datatype Bundle = Bundle(
    url: string, site: string, steps: Value, causes: Value, symptoms: Value, quality: string, method_: string)

  /** An element of `procedures_full_multi`; what is not an object is left alone. */
  datatype Slot = Kept(bundle: Bundle) | Stray

  datatype Multi = NoList | Slots(slots: seq<Slot>)

  datatype Entry = Entry(
    title: string,
    english: map<Field, Value>,
    origin: map<Field, string>,
    steps: Value,
    stepsSource: Option<string>,
    owner: Option<string>,
    multi: Multi,
    source: Option<string>,
    evidence: map<string, string>,
    marks: Marks)

  /** What title repairs leave on an entry. */
  datatype Marks = Marks(
    repaired: bool, skippedAsPlaceholder: bool, unverified: bool, previous: Value, previousOrigin: string,
    votes: seq<string>)

  type Entries = map<string, Entry>

  // ------------------------------------------------------------------ records

  datatype Offer = Offer(
    site: string, steps: Value, causes: Value, symptoms: Value, quality: string, method_: string)

  datatype Record = Record(
    url: string,
    evidenceUrl: string,
    key: string,
    code: string,
    source: string,
    english: map<Field, Value>,
    claim: Value,
    proceduresSteps: Value,
    steps: Value,
    proceduresFull: Value,
    append: Option<Offer>,
    evidence: string,
    provenance: Provenance)

  /** The verdicts of the two gates on one record: a foreign title, a page about another subject. */
  datatype Gate = Gate(shifted: bool, conflict: bool)

  datatype Gated = Gated(rec: Record, gate: Gate)

  /** The subject-anchor verdict "block" on a title and a page's own claim. */
  type Anchor = (string, Value) -> bool

  type Index = map<string, set<string>>

  // ------------------------------------------------------------------ reports

  datatype Skip =
    | UnknownKey | AlreadyFull | NoSourceUrl | NoFillable | TitleShift | SubjectConflict | PoorerReharvest

  datatype Filled = English(field: Field) | Procedures | ProceduresMulti

  datatype Applied = Applied(key: string, fields: seq<Filled>, url: string, appended: bool)

  datatype Upgrade = Upgrade(key: string, url: string, stepsBefore: nat, stepsAfter: nat)

  datatype Report = Report(skipped: multiset<Skip>, applied: seq<Applied>, upgraded: seq<Upgrade>)

  // --------------------------------------------------------------------- keys

  predicate CodeAt(s: string, i: nat) {
    i + 5 <= |s| && LowerChar(s[i]) in {'p', 'b', 'c', 'u'}
    && forall j :: i < j < i + 5 ==> '0' <= s[j] <= '9' || 'a' <= LowerChar(s[j]) <= 'f'
  }

  function CodeIn(s: string, i: nat): Option<string>
    decreases |s| - i
  {
    if i >= |s| then None else if CodeAt(s, i) then Some(Upper(s[i..i + 5])) else CodeIn(s, i + 1)
  }

  /** The code a URL spells wins over the record's own key. */
  function KeyFor(rec: Record): Option<string> {
    var spelled := CodeIn(rec.url, 0);
    if spelled.Some? then spelled
    else
      var code := if rec.key != "" then rec.key else rec.code;
      if code != "" then Some(Upper(code)) else None
  }

  // -------------------------------------------------------------- title gate

  function Owners(entries: Entries, codes: set<string>, key: string): set<string>
    requires codes <= entries.Keys
  {
    set c | c in codes && TitleKey(entries[c].title) == key :: StrCode(c)
  }

  /** Normalised title -> those of the codes that carry it. */
  function IndexOver(entries: Entries, codes: set<string>): Index
    requires codes <= entries.Keys
  {
    map key | key in (set c | c in codes && TitleKey(entries[c].title) != "" :: TitleKey(entries[c].title))
      :: Owners(entries, codes, key)
  }

  function TitleIndex(entries: Entries): Index { IndexOver(entries, entries.Keys) }

  /** The candidate is the title of another code, and not a rewording of this code's own title. */
  predicate Foreign(candidate: string, own: string, index: Index, code: string) {
    var key := TitleKey(candidate);
    && key != ""
    && !(TitleKey(own) != "" && key == TitleKey(own))
    && key in index && exists o :: o in index[key] && o != StrCode(code)
  }

  function GateOf(e: Entry, rec: Record, index: Index, code: string, anchor: Anchor): Gate {
    var te := Get(rec.english, TitleEn);
    Gate(
      !IsEmpty(te) && Foreign(NormStr(te), e.title, index, code),
      !IsEmpty(rec.claim) && anchor(e.title, rec.claim))
  }

  // ----------------------------------------------------------- the English part

  function Get(m: map<Field, Value>, f: Field): Value { if f in m then m[f] else Null }

  function UrlOf(rec: Record): string { Url(if rec.url != "" then rec.url else rec.evidenceUrl) }

  function Offered(g: Gated, f: Field): Value {
    if g.gate.conflict || (f.TitleEn? && g.gate.shifted) then Null else Get(g.rec.english, f)
  }

  datatype Take = Pass | Refuse(skip: Skip) | Fill(value: Value)

  function TakeOf(e: Entry, g: Gated, f: Field): Take {
    if IsEmpty(Offered(g, f)) then Pass
    else if !IsEmpty(Get(e.english, f)) then Refuse(AlreadyFull)
    else if UrlOf(g.rec) == "" then Refuse(NoSourceUrl)
    else
      var norm := Normal(f.SymptomsEn?, Offered(g, f));
      if IsEmpty(norm) then Pass else Fill(norm)
  }

  function EnglishFilled(e: Entry, g: Gated, fields: seq<Field>): seq<Filled> {
    if fields == [] then []
    else
      var n := |fields| - 1;
      EnglishFilled(e, g, fields[..n]) + if TakeOf(e, g, fields[n]).Fill? then [English(fields[n])] else []
  }

  function EnglishSkipped(e: Entry, g: Gated, fields: seq<Field>): multiset<Skip> {
    if fields == [] then multiset{}
    else
      var n := |fields| - 1;
      EnglishSkipped(e, g, fields[..n]) + Refused(TakeOf(e, g, fields[n]))
  }

  function Refused(t: Take): multiset<Skip> { if t.Refuse? then multiset{t.skip} else multiset{} }

  function EnglishAfter(e: Entry, g: Gated, fields: seq<Field>): (r: Entry)
    ensures r == e.(english := r.english, origin := r.origin)
  {
    if fields == [] then e
    else
      var n := |fields| - 1;
      var before := EnglishAfter(e, g, fields[..n]);
      match TakeOf(e, g, fields[n])
      case Fill(v) =>
        before.(english := before.english[fields[n] := v], origin := before.origin[fields[n] := UrlOf(g.rec)])
      case Pass => before
      case Refuse(_) => before
  }

  // ------------------------------------------------------------- the step part

  predicate FlatStrings(v: Value) {
    v.Items? && v.items != [] && forall i :: 0 <= i < |v.items| ==> v.items[i].Plain?
  }

  function StepSource(rec: Record): Value {
    var s := if Truthy(rec.proceduresSteps) then rec.proceduresSteps else rec.steps;
    if s.Null? && FlatStrings(rec.proceduresFull) then rec.proceduresFull else s
  }

  /** The record becomes the single source of the flat steps. */
  predicate FillsSteps(e: Entry, rec: Record) {
    NormList(StepSource(rec)) != [] && IsEmpty(e.steps)
  }

  // ----------------------------------------------------------- the bundle part

  function OfferOf(rec: Record): Option<Offer> {
    if rec.append.Some? then rec.append
    else if FlatStrings(rec.proceduresFull) && NormList(rec.proceduresFull) != [] then
      Some(Offer(rec.source, AsItems(NormList(rec.proceduresFull)), Null, Null, "unverified", "free"))
    else None
  }

  /** The bundle a record offers under its own URL, if it has steps and a usable URL. */
  function BundleOf(rec: Record): Option<Bundle> {
    var offer := OfferOf(rec);
    if offer.None? || UrlOf(rec) == "" || NormList(offer.value.steps) == [] then None
    else
      var o := offer.value;
      Some(Bundle(
        UrlOf(rec), Or(o.site, rec.source), AsItems(NormList(o.steps)), AsItems(NormList(o.causes)),
        AsItems(NormList(o.symptoms)), Or(o.quality, "unverified"), Or(o.method_, "free")))
  }

  function Count(b: Bundle): nat { |NormList(b.steps)| }

  function SlotsOf(m: Multi): seq<Slot> { if m.Slots? then m.slots else [] }

  predicate SlotFor(s: Slot, url: string) { s.Kept? && s.bundle.url == url }

  /** The first slot with this URL, or -1. */
  function SlotAt(slots: seq<Slot>, url: string): (r: int)
    ensures -1 <= r < |slots|
    ensures r >= 0 ==> SlotFor(slots[r], url) && forall j :: 0 <= j < r ==> !SlotFor(slots[j], url)
    ensures r < 0 ==> forall j :: 0 <= j < |slots| ==> !SlotFor(slots[j], url)
  {
    if slots == [] then -1
    else
      var r := SlotAt(slots[..|slots| - 1], url);
      if r >= 0 then r else if SlotFor(slots[|slots| - 1], url) then |slots| - 1 else -1
  }

  datatype Move = Stay | Append(bundle: Bundle) | Replace(at: nat, bundle: Bundle, before: nat) | Poorer

  predicate Owns(e: Entry, url: string) { e.owner == Some(url) }

  function MoveOf(e: Entry, rec: Record): (m: Move)
    ensures m.Replace? ==> m.at < |SlotsOf(e.multi)|
  {
    var b := BundleOf(rec);
    if b.None? || FillsSteps(e, rec) || Owns(e, UrlOf(rec)) then Stay
    else
      var i := SlotAt(SlotsOf(e.multi), UrlOf(rec));
      if i < 0 then Append(b.value)
      else
        var before := Count(SlotsOf(e.multi)[i].bundle);
        if Count(b.value) > before then Replace(i, b.value, before) else Poorer
  }

  function MultiAfter(e: Entry, rec: Record): Multi {
    match MoveOf(e, rec)
    case Append(b) => Slots(SlotsOf(e.multi) + [Kept(b)])
    case Replace(i, b, _) => Slots(SlotsOf(e.multi)[i := Kept(b)])
    case Stay => e.multi
    case Poorer => e.multi
  }

  // ------------------------------------------------- one record, one entry

  function FilledBy(e: Entry, g: Gated): seq<Filled> {
    EnglishFilled(e, g, FIELDS)
    + (if FillsSteps(e, g.rec) then [Procedures] else [])
    + if MoveOf(e, g.rec).Append? || MoveOf(e, g.rec).Replace? then [ProceduresMulti] else []
  }

  function StepsAfter(e: Entry, rec: Record): (r: Entry)
    ensures r.multi == e.multi && r.title == e.title && r.english == e.english
  {
    e.(
      steps := AsItems(NormList(StepSource(rec))),
      stepsSource := Default(e.stepsSource, rec.source),
      owner := Default(e.owner, UrlOf(rec)))
  }

  function KeptAfter(e: Entry, rec: Record): (r: Entry)
    ensures r == e.(source := r.source, evidence := r.evidence)
  {
    e.(
      source := Default(e.source, rec.source),
      evidence := EvidenceOf(rec.evidence, rec.provenance, UrlOf(rec)) + e.evidence)
  }

  function EntryAfter(e: Entry, g: Gated): Entry {
    var english := EnglishAfter(e, g, FIELDS);
    var steps := if FillsSteps(e, g.rec) then StepsAfter(english, g.rec) else english;
    var multi := steps.(multi := MultiAfter(e, g.rec));
    if FilledBy(e, g) != [] then KeptAfter(multi, g.rec) else multi
  }

  function GateSkips(gate: Gate): multiset<Skip> {
    When(gate.shifted, TitleShift) + When(gate.conflict, SubjectConflict)
  }

  function SkippedBy(e: Entry, g: Gated): multiset<Skip> { GateSkips(g.gate) + EntrySkips(e, g) }

  function When(c: bool, skip: Skip): multiset<Skip> { if c then multiset{skip} else multiset{} }

  function EntrySkips(e: Entry, g: Gated): multiset<Skip> {
    EnglishSkipped(e, g, FIELDS)
    + When(MoveOf(e, g.rec).Poorer?, PoorerReharvest)
    + When(FilledBy(e, g) == [], NoFillable)
  }

  function UpgradesBy(e: Entry, g: Gated, code: string): seq<Upgrade> {
    match MoveOf(e, g.rec)
    case Replace(_, b, before) => [Upgrade(code, UrlOf(g.rec), before, Count(b))]
    case Append(_) => []
    case Stay => []
    case Poorer => []
  }

  function ReportAfter(r: Report, e: Entry, g: Gated, code: string): Report {
    var filled := FilledBy(e, g);
    Report(
      r.skipped + SkippedBy(e, g),
      r.applied + if filled == [] then []
        else [Applied(code, filled, UrlOf(g.rec), MoveOf(e, g.rec).Append? || MoveOf(e, g.rec).Replace?)],
      r.upgraded + UpgradesBy(e, g, code))
  }

  // ------------------------------------------------------- the whole database

  predicate Known(entries: Entries, rec: Record) {
    KeyFor(rec).Some? && KeyFor(rec).value in entries
  }

  function GatedFor(entries: Entries, rec: Record, index: Index, anchor: Anchor): Gated
    requires Known(entries, rec)
  {
    Gated(rec, GateOf(entries[KeyFor(rec).value], rec, index, KeyFor(rec).value, anchor))
  }

  function MergeOne(entries: Entries, rec: Record, index: Index, anchor: Anchor): Entries {
    if !Known(entries, rec) then entries
    else
      var code := KeyFor(rec).value;
      entries[code := EntryAfter(entries[code], GatedFor(entries, rec, index, anchor))]
  }

  function ReportOne(r: Report, entries: Entries, rec: Record, index: Index, anchor: Anchor): Report {
    if !Known(entries, rec) then r.(skipped := r.skipped + multiset{UnknownKey})
    else ReportAfter(r, entries[KeyFor(rec).value], GatedFor(entries, rec, index, anchor), KeyFor(rec).value)
  }

  function MergeAll(entries: Entries, recs: seq<Record>, index: Index, anchor: Anchor): Entries {
    if recs == [] then entries
    else
      var n := |recs| - 1;
      MergeOne(MergeAll(entries, recs[..n], index, anchor), recs[n], index, anchor)
  }

  /** The report of a batch; a dry run reads the same database for every record. */
  function ReportAll(
      r: Report, entries: Entries, recs: seq<Record>, index: Index, anchor: Anchor, apply: bool): Report
  {
    if recs == [] then r
    else
      var n := |recs| - 1;
      ReportOne(
        ReportAll(r, entries, recs[..n], index, anchor, apply),
        if apply then MergeAll(entries, recs[..n], index, anchor) else entries, recs[n], index, anchor)
  }

  /** Merges never touch a title, so the index of titles outlives them. */
  predicate SameTitles(a: Entries, b: Entries) {
    a.Keys == b.Keys && forall c :: c in a ==> a[c].title == b[c].title
  }

  lemma {:induction false} IndexStable(a: Entries, b: Entries)
    requires SameTitles(a, b)
    ensures TitleIndex(a) == TitleIndex(b)
  {
    hide TitleKey, StrCode;
    assert forall key :: Owners(a, a.Keys, key) == Owners(b, b.Keys, key);
  }

  lemma {:induction false} IndexAt(entries: Entries, codes: set<string>, key: string)
    requires codes <= entries.Keys
    ensures key in IndexOver(entries, codes) <==> key != "" && Owners(entries, codes, key) != {}
    ensures key in IndexOver(entries, codes) ==> IndexOver(entries, codes)[key] == Owners(entries, codes, key)
  {
    hide TitleKey, StrCode;
    if key in IndexOver(entries, codes) {
      var c :| c in codes && TitleKey(entries[c].title) == key;
      assert StrCode(c) in Owners(entries, codes, key);
    }
  }

  lemma {:induction false} IndexNext(entries: Entries, codes: set<string>, code: string)
    requires codes <= entries.Keys && code in entries && code !in codes
    ensures var key := TitleKey(entries[code].title);
      var index := IndexOver(entries, codes);
      IndexOver(entries, codes + {code}) ==
        if key == "" then index
        else index[key := (if key in index then index[key] else {}) + {StrCode(code)}]
  {
    hide TitleKey, StrCode, IndexOver;
    var key := TitleKey(entries[code].title);
    var index := IndexOver(entries, codes);
    var next := if key == "" then index else index[key := (if key in index then index[key] else {}) + {StrCode(code)}];
    forall k ensures k in IndexOver(entries, codes + {code}) <==> k in next
      ensures k in next ==> IndexOver(entries, codes + {code})[k] == next[k]
    {
      IndexAt(entries, codes, k);
      IndexAt(entries, codes + {code}, k);
      assert Owners(entries, codes + {code}, k) == Owners(entries, codes, k) + if key == k then {StrCode(code)} else {};
    }
  }

  // ------------------------------------------------------------------ the class

  class Database {
    var entries: Entries
    var report: Report
    var cache: Option<Index>

    /** A cached index is the one a fresh scan would build. */
    ghost predicate Valid()
      reads this
    {
      cache.Some? ==> cache.value == TitleIndex(entries)
    }

    constructor (entries: Entries)
      ensures Valid() && this.entries == entries && report == Report(multiset{}, [], [])
    {
      this.entries, report, cache := entries, Report(multiset{}, [], []), None;
    }

    method BuildIndex() returns (index: Index)
      ensures index == TitleIndex(entries)
    {
      hide TitleKey, StrCode, IndexOver;
      index := map[];
      IndexNone(entries);
      var todo := entries.Keys;
      assert entries.Keys - todo == {};
      while todo != {}
        invariant todo <= entries.Keys && index == IndexOver(entries, entries.Keys - todo)
        decreases todo
      {
        var code :| code in todo;
        IndexNext(entries, entries.Keys - todo, code);
        assert entries.Keys - (todo - {code}) == entries.Keys - todo + {code};
        var key := TitleKey(entries[code].title);
        if key != "" {
          index := index[key := (if key in index then index[key] else {}) + {StrCode(code)}];
        }
        todo := todo - {code};
      }
      assert entries.Keys - todo == entries.Keys;
    }

    method CachedIndex() returns (index: Index)
      requires Valid()
      modifies this`cache
      ensures Valid() && index == TitleIndex(entries)
    {
      if cache.None? {
        index := BuildIndex();
        cache := Some(index);
      }
      index := cache.value;
    }

    method Note(counts: bool, skip: Skip)
      modifies this`report
      ensures report == old(report).(skipped := old(report).skipped + When(counts, skip))
    {
      if counts {
        report := report.(skipped := report.skipped + multiset{skip});
      }
    }

    method PassGates(rec: Record, code: string, anchor: Anchor) returns (gate: Gate)
      requires Valid() && code in entries
      modifies this`cache, this`report
      ensures Valid() && gate == GateOf(entries[code], rec, TitleIndex(entries), code, anchor)
      ensures report == old(report).(skipped := old(report).skipped + GateSkips(gate))
    {
      hide TitleKey, NormStr, Strip, Foreign, TitleIndex, IsEmpty, When;
      var title := entries[code].title;
      var te := Get(rec.english, TitleEn);
      var shifted, conflict := false, false;
      if !IsEmpty(te) {
        var index := CachedIndex();
        shifted := Foreign(NormStr(te), title, index, code);
      }
      Note(shifted, TitleShift);
      if !IsEmpty(rec.claim) {
        conflict := anchor(title, rec.claim);
      }
      Note(conflict, SubjectConflict);
      gate := Gate(shifted, conflict);
    }

    method FillField(e: Entry, entry: Entry, g: Gated, f: Field, apply: bool) returns (after: Entry, filled: bool)
      requires Get(entry.english, f) == Get(e.english, f)
      modifies this`report
      ensures var t := TakeOf(e, g, f);
        && report == old(report).(skipped := old(report).skipped + Refused(t))
        && filled == t.Fill?
        && after == if apply && t.Fill?
          then entry.(english := entry.english[f := t.value], origin := entry.origin[f := UrlOf(g.rec)]) else entry
    {
      hide NormStr, NormList, UrlOf, Strip, Normal;
      after, filled := entry, false;
      var url := UrlOf(g.rec);
      var v := Offered(g, f);
      if !IsEmpty(v) {
        if !IsEmpty(Get(entry.english, f)) {
          report := report.(skipped := report.skipped + multiset{AlreadyFull});
        } else if url == "" {
          report := report.(skipped := report.skipped + multiset{NoSourceUrl});
        } else {
          var norm := Normal(f.SymptomsEn?, v);
          if !IsEmpty(norm) {
            if apply {
              after := entry.(english := entry.english[f := norm], origin := entry.origin[f := url]);
            }
            filled := true;
          }
        }
      }
    }

    method FillEnglish(e: Entry, g: Gated, apply: bool) returns (entry: Entry, filled: seq<Filled>)
      modifies this`report
      ensures report == old(report).(skipped := old(report).skipped + EnglishSkipped(e, g, FIELDS))
      ensures filled == EnglishFilled(e, g, FIELDS)
      ensures entry == if apply then EnglishAfter(e, g, FIELDS) else e
    {
      hide EnglishFilled, EnglishSkipped, EnglishAfter, TakeOf, UrlOf, Refused;
      entry, filled := e, [];
      EnglishNone(e, g);
      for k := 0 to |FIELDS|
        invariant report == old(report).(skipped := old(report).skipped + EnglishSkipped(e, g, FIELDS[..k]))
        invariant filled == EnglishFilled(e, g, FIELDS[..k])
        invariant entry == if apply then EnglishAfter(e, g, FIELDS[..k]) else e
      {
        EnglishNext(e, g, k);
        NotYetFilled(e, g, k, FIELDS[k]);
        SumOfTwo(old(report).skipped, EnglishSkipped(e, g, FIELDS[..k]), Refused(TakeOf(e, g, FIELDS[k])));
        var took;
        entry, took := FillField(e, entry, g, FIELDS[k], apply);
        if took {
          filled := filled + [English(FIELDS[k])];
        }
      }
      assert FIELDS[..|FIELDS|] == FIELDS;
    }

    method FindSlot(slots: seq<Slot>, url: string) returns (at: int)
      ensures at == SlotAt(slots, url)
    {
      hide SlotAt;
      at := -1;
      for i := 0 to |slots|
        invariant at == -1 && forall j :: 0 <= j < i ==> !SlotFor(slots[j], url)
      {
        if SlotFor(slots[i], url) {
          return i;
        }
      }
    }

    /** The bundle a record offers goes to its URL's slot, unless this record or its URL owns the flat steps. */
    method PlaceBundle(e: Entry, current: Entry, g: Gated, code: string, tookSteps: bool, apply: bool)
      returns (entry: Entry, placed: bool)
      requires tookSteps == FillsSteps(e, g.rec)
      requires current.multi == e.multi && (!tookSteps ==> current.owner == e.owner)
      modifies this`report
      ensures placed == (MoveOf(e, g.rec).Append? || MoveOf(e, g.rec).Replace?)
      ensures entry == if apply then current.(multi := MultiAfter(e, g.rec)) else current
      ensures report == old(report).(
          skipped := old(report).skipped + When(MoveOf(e, g.rec).Poorer?, PoorerReharvest),
          upgraded := old(report).upgraded + UpgradesBy(e, g, code))
    {
      hide BundleOf, NormList, SlotAt, UrlOf, FillsSteps;
      entry, placed := current, false;
      var url := UrlOf(g.rec);
      var b := BundleOf(g.rec);
      if b.Some? && !tookSteps && !Owns(current, url) {
        var existing := SlotsOf(current.multi);
        var at := FindSlot(existing, url);
        if at < 0 {
          if apply { entry := entry.(multi := Slots(existing + [Kept(b.value)])); }
          placed := true;
        } else {
          var before := Count(existing[at].bundle);
          if Count(b.value) > before {
            if apply { entry := entry.(multi := Slots(existing[at := Kept(b.value)])); }
            report := report.(upgraded := report.upgraded + [Upgrade(code, url, before, Count(b.value))]);
            placed := true;
          } else {
            report := report.(skipped := report.skipped + multiset{PoorerReharvest});
          }
        }
      }
    }

    method Conclude(e: Entry, rec: Record, code: string, filled: seq<Filled>, placed: bool, apply: bool)
      returns (entry: Entry)
      modifies this`report
      ensures entry == if apply && filled != [] then KeptAfter(e, rec) else e
      ensures report == old(report).(
          skipped := old(report).skipped + When(filled == [], NoFillable),
          applied := old(report).applied + if filled == [] then [] else [Applied(code, filled, UrlOf(rec), placed)])
    {
      hide KeptAfter, UrlOf;
      entry := e;
      if filled != [] {
        if apply {
          entry := KeptAfter(entry, rec);
        }
        report := report.(applied := report.applied + [Applied(code, filled, UrlOf(rec), placed)]);
      } else {
        report := report.(skipped := report.skipped + multiset{NoFillable});
      }
    }

    /** Fields, then steps, then bundle: what a record that passed the gates does to its entry. */
    method MergeInto(e: Entry, g: Gated, code: string, apply: bool) returns (entry: Entry, merged: bool)
      modifies this`report
      ensures entry == if apply then EntryAfter(e, g) else e
      ensures merged == (FilledBy(e, g) != [])
      ensures report.applied == ReportAfter(old(report), e, g, code).applied
      ensures report.upgraded == ReportAfter(old(report), e, g, code).upgraded
      ensures report.skipped == old(report).skipped + EntrySkips(e, g)
    {
      hide FillsSteps, MoveOf, EnglishFilled, EnglishAfter, EnglishSkipped, When,
        NormList, StepSource, UrlOf, EvidenceOf, MultiAfter, UpgradesBy, GateSkips, StepsAfter, KeptAfter;
      SumOfSkips(
        report.skipped, EnglishSkipped(e, g, FIELDS), When(MoveOf(e, g.rec).Poorer?, PoorerReharvest),
        When(FilledBy(e, g) == [], NoFillable));
      var filled;
      entry, filled := FillEnglish(e, g, apply);
      var tookSteps := FillsSteps(e, g.rec);
      if tookSteps {
        if apply {
          entry := StepsAfter(entry, g.rec);
        }
        filled := filled + [Procedures];
      }
      var placed;
      entry, placed := PlaceBundle(e, entry, g, code, tookSteps, apply);
      if placed {
        filled := filled + [ProceduresMulti];
      }
      assert filled == FilledBy(e, g);
      entry := Conclude(entry, g.rec, code, filled, placed, apply);
      merged := filled != [];
    }

    method MergeDtc(rec: Record, anchor: Anchor, apply: bool) returns (merged: bool)
      requires Valid()
      modifies this
      ensures Valid()
      ensures entries == if apply then MergeOne(old(entries), rec, TitleIndex(old(entries)), anchor) else old(entries)
      ensures report == ReportOne(old(report), old(entries), rec, TitleIndex(old(entries)), anchor)
      ensures merged <==> |report.applied| > |old(report).applied|
    {
      hide TitleIndex, GateOf, EntryAfter, FilledBy, EntrySkips, UpgradesBy, MoveOf, KeyFor, GateSkips, UrlOf;
      var key := KeyFor(rec);
      if key.None? || key.value !in entries {
        report := report.(skipped := report.skipped + multiset{UnknownKey});
        return false;
      }
      var code, e := key.value, entries[key.value];
      var gate := PassGates(rec, code, anchor);
      var entry;
      entry, merged := MergeInto(e, Gated(rec, gate), code, apply);
      assert report.skipped == old(report).skipped + SkippedBy(e, Gated(rec, gate));
      if apply {
        SameTitle(e, Gated(rec, gate));
        entries := entries[code := entry];
        IndexStable(old(entries), entries);
      }
    }

    method MergeBatch(recs: seq<Record>, anchor: Anchor, apply: bool)
      requires Valid()
      modifies this
      ensures Valid()
      ensures entries == if apply then MergeAll(old(entries), recs, TitleIndex(old(entries)), anchor) else old(entries)
      ensures report == ReportAll(old(report), old(entries), recs, TitleIndex(old(entries)), anchor, apply)
    {
      hide TitleIndex, MergeOne, ReportOne, MergeAll, ReportAll;
      ghost var index := TitleIndex(entries);
      BatchNone(report, entries, index, anchor, apply);
      for i := 0 to |recs|
        invariant Valid() && TitleIndex(entries) == index
        invariant entries == if apply then MergeAll(old(entries), recs[..i], index, anchor) else old(entries)
        invariant report == ReportAll(old(report), old(entries), recs[..i], index, anchor, apply)
      {
        BatchNext(old(report), old(entries), recs, i, index, anchor, apply);
        TitlesStay(entries, recs[i], index, anchor);
        var _ := MergeDtc(recs[i], anchor, apply);
      }
      assert recs[..|recs|] == recs;
    }
  }

  lemma {:induction false} SumOfTwo(a: multiset<Skip>, b: multiset<Skip>, c: multiset<Skip>)
    ensures a + (b + c) == a + b + c
  {
  }

  lemma {:induction false} SumOfSkips(a: multiset<Skip>, b: multiset<Skip>, c: multiset<Skip>, d: multiset<Skip>)
    ensures a + (b + c + d) == a + b + c + d
  {
  }

  lemma {:induction false} IndexNone(entries: Entries)
    ensures IndexOver(entries, {}) == map[]
  {
  }

  lemma {:induction false} EnglishNone(e: Entry, g: Gated)
    ensures EnglishFilled(e, g, []) == [] && EnglishSkipped(e, g, []) == multiset{}
    ensures EnglishAfter(e, g, []) == e
  {
  }

  lemma {:induction false} EnglishNext(e: Entry, g: Gated, k: nat)
    requires k < |FIELDS|
    ensures var t, f := TakeOf(e, g, FIELDS[k]), FIELDS[k];
      var before := EnglishAfter(e, g, FIELDS[..k]);
      && EnglishFilled(e, g, FIELDS[..k + 1]) ==
         EnglishFilled(e, g, FIELDS[..k]) + (if t.Fill? then [English(f)] else [])
      && EnglishSkipped(e, g, FIELDS[..k + 1]) ==
         EnglishSkipped(e, g, FIELDS[..k]) + Refused(t)
      && EnglishAfter(e, g, FIELDS[..k + 1]) ==
         if t.Fill? then before.(english := before.english[f := t.value], origin := before.origin[f := UrlOf(g.rec)])
         else before
  {
    hide TakeOf, UrlOf;
    assert FIELDS[..k + 1][..k] == FIELDS[..k];
  }

  lemma {:induction false} NotYetFilled(e: Entry, g: Gated, k: nat, f: Field)
    requires k <= |FIELDS| && f !in FIELDS[..k]
    ensures Get(EnglishAfter(e, g, FIELDS[..k]).english, f) == Get(e.english, f)
  {
    hide TakeOf, UrlOf;
    if k > 0 {
      NotYetFilled(e, g, k - 1, f);
      EnglishNext(e, g, k - 1);
    }
  }

  lemma {:induction false} BatchNone(r: Report, entries: Entries, index: Index, anchor: Anchor, apply: bool)
    ensures MergeAll(entries, [], index, anchor) == entries
    ensures ReportAll(r, entries, [], index, anchor, apply) == r
  {
  }

  lemma {:induction false} BatchNext(
      r: Report, entries: Entries, recs: seq<Record>, i: nat, index: Index, anchor: Anchor, apply: bool)
    requires i < |recs|
    ensures MergeAll(entries, recs[..i + 1], index, anchor) ==
      MergeOne(MergeAll(entries, recs[..i], index, anchor), recs[i], index, anchor)
    ensures ReportAll(r, entries, recs[..i + 1], index, anchor, apply) ==
      ReportOne(
        ReportAll(r, entries, recs[..i], index, anchor, apply),
        if apply then MergeAll(entries, recs[..i], index, anchor) else entries, recs[i], index, anchor)
  {
    hide MergeOne, ReportOne;
    assert recs[..i + 1][..i] == recs[..i];
  }

  lemma {:induction false} SameTitle(e: Entry, g: Gated)
    ensures EntryAfter(e, g).title == e.title
  {
  }

  lemma {:induction false} TitlesStay(entries: Entries, rec: Record, index: Index, anchor: Anchor)
    ensures SameTitles(entries, MergeOne(entries, rec, index, anchor))
    ensures TitleIndex(MergeOne(entries, rec, index, anchor)) == TitleIndex(entries)
  {
    hide TitleIndex, GateOf, FilledBy, FillsSteps, MoveOf, EnglishAfter, KeyFor, MultiAfter;
    IndexStable(entries, MergeOne(entries, rec, index, anchor));
  }
}
