// Merging harvested records into the J1939 database: structured bundles appended once
// per URL, and flat fields filled only while empty.
module J1939Merge {
  import opened Wrappers
  import opened Text
  import opened Numbers
  import opened MergeValues

  datatype Field = Symptoms | DiagnosticSteps | Causes

  const FIELDS: seq<Field> := [Symptoms, DiagnosticSteps, Causes]

  /** A bundle is stored as it is given, under the URL it names itself. */
  datatype Bundle = Bundle(url: string, body: string)

  datatype Slot = Kept(bundle: Bundle) | Stray

  datatype Entry = Entry(
    flats: map<Field, MergeValues.Value>, isList: bool, bundles: seq<Slot>, extras: map<string, string>)

  type Entries = map<string, Entry>

  datatype Record = Record(
    key: string,
    spn: Option<int>,
    url: string,
    evidenceUrl: string,
    source: string,
    append: Option<Bundle>,
    flats: map<Field, MergeValues.Value>,
    evidence: string,
    provenance: Provenance)

  datatype Skip = UnknownKey | AlreadyFull | NoFillable

  datatype Applied = Applied(key: string, fields: seq<Field>, url: string, appended: bool)

  datatype Report = Report(skipped: multiset<Skip>, applied: seq<Applied>)

  // --------------------------------------------------------------------- keys

  function DigitsAt(s: string, i: nat): (n: nat)
    ensures i <= |s| ==> i + n <= |s|
    decreases |s| - i
  {
    if i < |s| && IsDigit(s[i]) then 1 + DigitsAt(s, i + 1) else 0
  }

  /** `SPN_<n>` and `SPN_<n>_FMI_<m>` name the record of the SPN; any other key names itself. */
  function KeyFor(rec: Record): Option<string> {
    if rec.key != "" then
      var n := DigitsAt(rec.key, 4);
      if StartsWith(rec.key, "SPN_") && n > 0 && FmiOrEnd(rec.key[4 + n..])
      then Some(rec.key[..4 + n]) else Some(rec.key)
    else
      match rec.spn
      case None => None
      case Some(spn) => Some("SPN_" + if spn < 0 then "-" + Decimal(-spn) else Decimal(spn))
  }

  predicate FmiOrEnd(tail: string) {
    || tail == "" || tail == "\n"
    || (StartsWith(tail, "_FMI_") && DigitsAt(tail, 5) > 0 && tail[5 + DigitsAt(tail, 5)..] in {"", "\n"})
  }

  // ------------------------------------------------------- one record, one entry

  function UrlOf(rec: Record): string { Url(if rec.url != "" then rec.url else rec.evidenceUrl) }

  function Get(m: map<Field, MergeValues.Value>, f: Field): MergeValues.Value { if f in m then m[f] else Null }

  function Existing(e: Entry): seq<Slot> { if e.isList then e.bundles else [] }

  predicate Seen(e: Entry, url: string) {
    exists j :: 0 <= j < |Existing(e)| && Existing(e)[j].Kept? && Existing(e)[j].bundle.url == url
  }

  predicate Offers(rec: Record) { rec.append.Some? && UrlOf(rec) != "" }

  /** The dedup compares the normalised URL of the record with the URLs the stored bundles name. */
  predicate Appends(e: Entry, rec: Record) { Offers(rec) && !Seen(e, UrlOf(rec)) }

  predicate Fills(e: Entry, rec: Record, f: Field) {
    NormList(Get(rec.flats, f)) != [] && IsEmpty(Get(e.flats, f))
  }

  predicate Refuses(e: Entry, rec: Record, f: Field) {
    NormList(Get(rec.flats, f)) != [] && !IsEmpty(Get(e.flats, f))
  }

  function Filled(e: Entry, rec: Record, fields: seq<Field>): seq<Field> {
    if fields == [] then []
    else
      var n := |fields| - 1;
      Filled(e, rec, fields[..n]) + if Fills(e, rec, fields[n]) then [fields[n]] else []
  }

  function Refused(e: Entry, rec: Record, fields: seq<Field>): nat {
    if fields == [] then 0
    else
      var n := |fields| - 1;
      Refused(e, rec, fields[..n]) + if Refuses(e, rec, fields[n]) then 1 else 0
  }

  function FlatsAfter(e: Entry, rec: Record, fields: seq<Field>): map<Field, MergeValues.Value> {
    if fields == [] then e.flats
    else
      var n := |fields| - 1;
      var before := FlatsAfter(e, rec, fields[..n]);
      if Fills(e, rec, fields[n]) then before[fields[n] := AsItems(NormList(Get(rec.flats, fields[n])))] else before
  }

  function SetDefault(m: map<string, string>, key: string, v: string): (r: map<string, string>)
    ensures key in r
    ensures key in m ==> r == m
  {
    if key in m then m else m[key := v]
  }

  function AppendDefaults(rec: Record): map<string, string> {
    map["procedures_source" := rec.source, "procedures_license" := "belirsiz", "procedures_match_key" := "spn_fmi"]
  }

  /** What a record sets by default: nothing in it replaces what the entry has. */
  function ExtrasAfter(e: Entry, rec: Record): map<string, string> {
    var appends, fills := Appends(e, rec), Filled(e, rec, FIELDS) != [];
    var a := if appends then AppendDefaults(rec) + e.extras else e.extras;
    var b := if fills then SetDefault(a, "evidence_url", UrlOf(rec)) else a;
    if appends || fills then EvidenceOf(rec.evidence, rec.provenance, UrlOf(rec)) + b else b
  }

  function EntryAfter(e: Entry, rec: Record): Entry {
    Entry(
      FlatsAfter(e, rec, FIELDS),
      e.isList || Appends(e, rec),
      if Appends(e, rec) then Existing(e) + [Kept(rec.append.value)] else e.bundles,
      ExtrasAfter(e, rec))
  }

  function ReportAfter(r: Report, e: Entry, rec: Record, key: string): Report {
    var filled := Filled(e, rec, FIELDS);
    var merged := filled != [] || Appends(e, rec);
    Report(
      r.skipped
      + multiset{}[AlreadyFull := Refused(e, rec, FIELDS)]
      + if merged then multiset{} else multiset{NoFillable},
      if merged then r.applied + [Applied(key, filled, UrlOf(rec), Appends(e, rec))] else r.applied)
  }

  // ------------------------------------------------------- the whole database

  predicate Known(entries: Entries, rec: Record) { KeyFor(rec).Some? && KeyFor(rec).value in entries }

  function MergeOne(entries: Entries, rec: Record): Entries {
    if !Known(entries, rec) then entries
    else entries[KeyFor(rec).value := EntryAfter(entries[KeyFor(rec).value], rec)]
  }

  function ReportOne(r: Report, entries: Entries, rec: Record): Report {
    if !Known(entries, rec) then r.(skipped := r.skipped + multiset{UnknownKey})
    else ReportAfter(r, entries[KeyFor(rec).value], rec, KeyFor(rec).value)
  }

  function MergeAll(entries: Entries, recs: seq<Record>): Entries {
    if recs == [] then entries else MergeOne(MergeAll(entries, recs[..|recs| - 1]), recs[|recs| - 1])
  }

  function ReportAll(r: Report, entries: Entries, recs: seq<Record>, apply: bool): Report {
    if recs == [] then r
    else
      var n := |recs| - 1;
      ReportOne(
        ReportAll(r, entries, recs[..n], apply), if apply then MergeAll(entries, recs[..n]) else entries, recs[n])
  }

  // ------------------------------------------------------------------- the class

  class Database {
    var entries: Entries
    var report: Report

    constructor (entries: Entries)
      ensures this.entries == entries && report == Report(multiset{}, [])
    {
      this.entries, report := entries, Report(multiset{}, []);
    }

    /** The bundle is appended unless its record's URL is among those the stored bundles name. */
    method AppendBundle(e: Entry, rec: Record, apply: bool) returns (entry: Entry, appended: bool)
      ensures appended == Appends(e, rec)
      ensures entry == if apply && appended then
          Entry(e.flats, true, Existing(e) + [Kept(rec.append.value)],
            AppendDefaults(rec) + e.extras)
        else e
    {
      hide UrlOf;
      entry, appended := e, false;
      var url := UrlOf(rec);
      if rec.append.Some? && url != "" {
        var existing := Existing(e);
        var seen: set<string> := {};
        for i := 0 to |existing|
          invariant forall u ::
            u in seen <==> exists j :: 0 <= j < i && existing[j].Kept? && existing[j].bundle.url == u
        {
          if existing[i].Kept? { seen := seen + {existing[i].bundle.url}; }
        }
        if url !in seen {
          if apply {
            entry := Entry(e.flats, true, existing + [Kept(rec.append.value)],
              AppendDefaults(rec) + e.extras);
          }
          appended := true;
        }
      }
    }

    method FillFlats(e: Entry, current: Entry, rec: Record, apply: bool) returns (entry: Entry, filled: seq<Field>)
      requires current.flats == e.flats
      modifies this`report
      ensures filled == Filled(e, rec, FIELDS)
      ensures report ==
        old(report).(skipped := old(report).skipped + multiset{}[AlreadyFull := Refused(e, rec, FIELDS)])
      ensures entry == if apply && filled != [] then
          current.(
            flats := FlatsAfter(e, rec, FIELDS),
            extras := SetDefault(current.extras, "evidence_url", UrlOf(rec)))
        else current
    {
      hide UrlOf, NormList, IsEmpty, Filled, Refused, FlatsAfter, SetDefault;
      entry, filled := current, [];
      FlatsNone(e, rec);
      assert multiset{}[AlreadyFull := 0] == multiset{};
      for k := 0 to |FIELDS|
        invariant filled == Filled(e, rec, FIELDS[..k])
        invariant report ==
          old(report).(skipped := old(report).skipped + multiset{}[AlreadyFull := Refused(e, rec, FIELDS[..k])])
        invariant filled == [] ==> FlatsAfter(e, rec, FIELDS[..k]) == e.flats
        invariant entry == if apply && filled != [] then
            current.(
              flats := FlatsAfter(e, rec, FIELDS[..k]),
              extras := SetDefault(current.extras, "evidence_url", UrlOf(rec)))
          else current
      {
        FlatsNext(e, rec, k);
        var f := FIELDS[k];
        var val := NormList(Get(rec.flats, f));
        if val != [] {
          if !IsEmpty(Get(entry.flats, f)) {
            report := report.(skipped := report.skipped + multiset{AlreadyFull});
          } else {
            if apply {
              entry := entry.(
                flats := entry.flats[f := AsItems(val)],
                extras := SetDefault(entry.extras, "evidence_url", UrlOf(rec)));
            }
            filled := filled + [f];
          }
        }
      }
      assert FIELDS[..|FIELDS|] == FIELDS;
    }

    method MergeJ1939(rec: Record, apply: bool) returns (merged: bool)
      modifies this
      ensures entries == if apply then MergeOne(old(entries), rec) else old(entries)
      ensures report == ReportOne(old(report), old(entries), rec)
      ensures merged <==> |report.applied| > |old(report).applied|
    {
      hide UrlOf, KeyFor, Filled, Refused, FlatsAfter, Appends, EvidenceOf, AppendDefaults;
      var key := KeyFor(rec);
      if key.None? || key.value !in entries {
        report := report.(skipped := report.skipped + multiset{UnknownKey});
        return false;
      }
      var e := entries[key.value];
      var entry, appended := AppendBundle(e, rec, apply);
      var filled;
      entry, filled := FillFlats(e, entry, rec, apply);
      merged := filled != [] || appended;
      if merged {
        report := report.(applied := report.applied + [Applied(key.value, filled, UrlOf(rec), appended)]);
        if apply {
          entry := entry.(extras := EvidenceOf(rec.evidence, rec.provenance, UrlOf(rec)) + entry.extras);
        }
      } else {
        report := report.(skipped := report.skipped + multiset{NoFillable});
      }
      if apply {
        NoFlats(e, rec, |FIELDS|);
        assert FIELDS[..|FIELDS|] == FIELDS;
        assert entry == EntryAfter(e, rec);
        entries := entries[key.value := entry];
      }
    }

    method MergeBatch(recs: seq<Record>, apply: bool)
      modifies this
      ensures entries == if apply then MergeAll(old(entries), recs) else old(entries)
      ensures report == ReportAll(old(report), old(entries), recs, apply)
    {
      hide MergeOne, ReportOne, MergeAll, ReportAll;
      BatchNone(report, entries, apply);
      for i := 0 to |recs|
        invariant entries == if apply then MergeAll(old(entries), recs[..i]) else old(entries)
        invariant report == ReportAll(old(report), old(entries), recs[..i], apply)
      {
        BatchNext(old(report), old(entries), recs, i, apply);
        var _ := MergeJ1939(recs[i], apply);
      }
      assert recs[..|recs|] == recs;
    }
  }

  lemma {:induction false} NoFlats(e: Entry, rec: Record, k: nat)
    requires k <= |FIELDS|
    ensures Filled(e, rec, FIELDS[..k]) == [] ==> FlatsAfter(e, rec, FIELDS[..k]) == e.flats
  {
    hide Fills, Refuses, NormList;
    if k == 0 {
      FlatsNone(e, rec);
    } else {
      NoFlats(e, rec, k - 1);
      FlatsNext(e, rec, k - 1);
    }
  }

  lemma {:induction false} BatchNone(r: Report, entries: Entries, apply: bool)
    ensures MergeAll(entries, []) == entries && ReportAll(r, entries, [], apply) == r
  {
  }

  lemma {:induction false} BatchNext(r: Report, entries: Entries, recs: seq<Record>, i: nat, apply: bool)
    requires i < |recs|
    ensures MergeAll(entries, recs[..i + 1]) == MergeOne(MergeAll(entries, recs[..i]), recs[i])
    ensures ReportAll(r, entries, recs[..i + 1], apply) ==
      ReportOne(
        ReportAll(r, entries, recs[..i], apply), if apply then MergeAll(entries, recs[..i]) else entries, recs[i])
  {
    hide MergeOne, ReportOne;
    assert recs[..i + 1][..i] == recs[..i];
  }

  lemma {:induction false} FlatsNone(e: Entry, rec: Record)
    ensures Filled(e, rec, []) == [] && Refused(e, rec, []) == 0 && FlatsAfter(e, rec, []) == e.flats
  {
  }

  lemma {:induction false} FlatsNext(e: Entry, rec: Record, k: nat)
    requires k < |FIELDS|
    ensures var f := FIELDS[k];
      && Filled(e, rec, FIELDS[..k + 1]) == Filled(e, rec, FIELDS[..k]) + (if Fills(e, rec, f) then [f] else [])
      && Refused(e, rec, FIELDS[..k + 1]) == Refused(e, rec, FIELDS[..k]) + (if Refuses(e, rec, f) then 1 else 0)
      && FlatsAfter(e, rec, FIELDS[..k + 1]) ==
         (if Fills(e, rec, f) then FlatsAfter(e, rec, FIELDS[..k])[f := AsItems(NormList(Get(rec.flats, f)))]
          else FlatsAfter(e, rec, FIELDS[..k]))
      && Get(FlatsAfter(e, rec, FIELDS[..k]), f) == Get(e.flats, f)
  {
    hide Fills, Refuses, NormList;
    assert FIELDS[..k + 1][..k] == FIELDS[..k];
    FlatsAt(e, rec, k, FIELDS[k]);
  }

  lemma {:induction false} FlatsAt(e: Entry, rec: Record, k: nat, f: Field)
    requires k <= |FIELDS|
    ensures Get(FlatsAfter(e, rec, FIELDS[..k]), f) ==
      if f in FIELDS[..k] && Fills(e, rec, f) then AsItems(NormList(Get(rec.flats, f))) else Get(e.flats, f)
  {
    hide Fills, NormList;
    if k > 0 {
      FlatsAt(e, rec, k - 1, f);
      assert FIELDS[..k][..k - 1] == FIELDS[..k - 1] && FIELDS[..k] == FIELDS[..k - 1] + [FIELDS[k - 1]];
    }
  }
}
