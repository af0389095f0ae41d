// When a J1939 batch may be merged twice: exactly when every URL it offers is named by
// one of the bundles it offers under that URL.
module J1939MergeLaws {
  import opened Wrappers
  import opened MergeValues
  import opened J1939Merge

  // --------------------------------------------------- one record on one entry

  lemma {:induction false} FlatAfter(e: Entry, rec: Record, f: Field)
    ensures Get(EntryAfter(e, rec).flats, f) ==
      if Fills(e, rec, f) then AsItems(NormList(Get(rec.flats, f))) else Get(e.flats, f)
  {
    hide Fills, NormList, FlatsAfter, Appends, ExtrasAfter;
    FlatsAt(e, rec, |FIELDS|, f);
    assert FIELDS[..|FIELDS|] == FIELDS && f in FIELDS;
  }

  lemma {:induction false} FilledNone(e: Entry, rec: Record, k: nat)
    requires k <= |FIELDS|
    ensures Filled(e, rec, FIELDS[..k]) == [] <==> forall f :: f in FIELDS[..k] ==> !Fills(e, rec, f)
    ensures Filled(e, rec, FIELDS[..k]) == [] ==> FlatsAfter(e, rec, FIELDS[..k]) == e.flats
  {
    hide Fills, NormList, Filled, FlatsAfter, Refused;
    if k == 0 {
      FlatsNone(e, rec);
    } else {
      FilledNone(e, rec, k - 1);
      FlatsNext(e, rec, k - 1);
      assert FIELDS[..k] == FIELDS[..k - 1] + [FIELDS[k - 1]];
    }
  }

  ghost predicate Settled(e: Entry, rec: Record) {
    !Appends(e, rec) && forall f :: !Fills(e, rec, f)
  }

  /** An entry is left unchanged exactly by the records it is settled for. */
  lemma {:induction false} SettledIff(e: Entry, rec: Record)
    ensures Settled(e, rec) <==> EntryAfter(e, rec) == e
  {
    hide Fills, NormList, Filled, FlatsAfter, Refused, Appends, IsEmpty;
    FilledNone(e, rec, |FIELDS|);
    assert FIELDS[..|FIELDS|] == FIELDS;
    forall f: Field ensures f in FIELDS { FieldListed(f); }
    if Appends(e, rec) {
      LongerBundles(e, rec);
    } else if f :| Fills(e, rec, f) {
      FlatAfter(e, rec, f);
      FillChanges(e, rec, f);
    }
  }

  lemma {:induction false} FieldListed(f: Field)
    ensures f in FIELDS
  {
    assert FIELDS[0] == Symptoms && FIELDS[1] == DiagnosticSteps && FIELDS[2] == Causes;
  }

  lemma {:induction false} LongerBundles(e: Entry, rec: Record)
    requires Appends(e, rec)
    ensures EntryAfter(e, rec) != e
  {
    hide Seen, UrlOf, FlatsAfter, ExtrasAfter;
    assert Existing(EntryAfter(e, rec)) == Existing(e) + [Kept(rec.append.value)];
  }

  lemma {:induction false} FillChanges(e: Entry, rec: Record, f: Field)
    requires Fills(e, rec, f)
    ensures IsEmpty(Get(e.flats, f)) && !IsEmpty(AsItems(NormList(Get(rec.flats, f))))
  {
    hide NormList;
  }

  lemma {:induction false} SeenAfter(e: Entry, rec: Record, url: string)
    ensures Seen(EntryAfter(e, rec), url) <==> Seen(e, url) || (Appends(e, rec) && rec.append.value.url == url)
  {
    hide UrlOf, FlatsAfter, ExtrasAfter;
    var before, after := Existing(e), Existing(EntryAfter(e, rec));
    if Appends(e, rec) {
      assert after == before + [Kept(rec.append.value)];
      assert after[|before|] == Kept(rec.append.value);
      assert forall j :: 0 <= j < |before| ==> after[j] == before[j];
    } else {
      assert after == before;
    }
  }

  lemma {:induction false} FlatStays(e: Entry, rec: Record, other: Record, f: Field)
    ensures Fills(EntryAfter(e, other), rec, f) ==> Fills(e, rec, f) && !Fills(e, other, f)
  {
    hide EntryAfter, NormList, IsEmpty;
    FlatAfter(e, other, f);
    if Fills(e, other, f) { FillChanges(e, other, f); }
  }

  /** The bundle names the URL under which its record is looked up. */
  predicate Canonical(rec: Record) { rec.append.Some? && rec.append.value.url == UrlOf(rec) }

  /** One record merged twice is one record merged once, unless it appends a bundle under another URL. */
  lemma {:induction false} TwiceIsOnceIff(e: Entry, rec: Record)
    ensures EntryAfter(EntryAfter(e, rec), rec) == EntryAfter(e, rec) <==> !Appends(e, rec) || Canonical(rec)
  {
    hide EntryAfter, Fills, Seen, UrlOf;
    SettledIff(EntryAfter(e, rec), rec);
    SeenAfter(e, rec, UrlOf(rec));
    forall f ensures !Fills(EntryAfter(e, rec), rec, f) { FlatStays(e, rec, rec, f); }
  }

  // --------------------------------------------------------------- whole batches

  function After(e: Entry, recs: seq<Record>): Entry {
    if recs == [] then e else EntryAfter(After(e, recs[..|recs| - 1]), recs[|recs| - 1])
  }

  /** Some record of the batch offers, under this URL, a bundle that names it. */
  ghost predicate Named(recs: seq<Record>, url: string) {
    exists r :: r in recs && Offers(r) && UrlOf(r) == url && Canonical(r)
  }

  ghost predicate AllNamed(recs: seq<Record>) {
    forall r :: r in recs && Offers(r) ==> Named(recs, UrlOf(r))
  }

  lemma {:induction false} SeenByBatch(e: Entry, recs: seq<Record>, rec: Record)
    requires rec in recs && Offers(rec) && Canonical(rec)
    ensures Seen(After(e, recs), UrlOf(rec))
  {
    hide EntryAfter, Seen, UrlOf;
    var n := |recs| - 1;
    var before := After(e, recs[..n]);
    SeenAfter(before, recs[n], UrlOf(rec));
    if recs[n] != rec { SeenByBatch(e, recs[..n], rec); }
  }

  lemma {:induction false} FlatsSettle(e: Entry, recs: seq<Record>, rec: Record, f: Field)
    requires rec in recs
    ensures !Fills(After(e, recs), rec, f)
  {
    hide EntryAfter, Fills;
    var n := |recs| - 1;
    FlatStays(After(e, recs[..n]), rec, recs[n], f);
    if recs[n] != rec { FlatsSettle(e, recs[..n], rec, f); }
  }

  lemma {:induction false} SettledFor(e: Entry, recs: seq<Record>)
    requires forall r :: r in recs ==> Settled(e, r)
    ensures After(e, recs) == e
  {
    hide EntryAfter, Settled;
    if recs != [] {
      var n := |recs| - 1;
      SettledFor(e, recs[..n]);
      assert recs[n] in recs;
      SettledIff(e, recs[n]);
    }
  }

  lemma {:induction false} NamedBatchSettles(e: Entry, recs: seq<Record>)
    requires AllNamed(recs)
    ensures After(After(e, recs), recs) == After(e, recs)
  {
    hide EntryAfter, Fills, Seen, UrlOf, After;
    forall rec | rec in recs ensures Settled(After(e, recs), rec) {
      forall f ensures !Fills(After(e, recs), rec, f) { FlatsSettle(e, recs, rec, f); }
      if Offers(rec) {
        assert Named(recs, UrlOf(rec));
        var r :| r in recs && Offers(r) && UrlOf(r) == UrlOf(rec) && Canonical(r);
        SeenByBatch(e, recs, r);
      }
    }
    SettledFor(After(e, recs), recs);
  }

  /** An entry that has seen every URL of the batch but one. */
  function AllSeenBut(recs: seq<Record>, url: string): Entry {
    Entry(map[], true, SlotsBut(recs, url), map[])
  }

  function SlotsBut(recs: seq<Record>, url: string): (r: seq<Slot>)
    ensures forall j :: 0 <= j < |r| ==> r[j].Kept? && r[j].bundle.url != url
    ensures forall rec :: rec in recs && UrlOf(rec) != url ==> Kept(Bundle(UrlOf(rec), "")) in r
  {
    if recs == [] then []
    else
      var n := |recs| - 1;
      assert recs == recs[..n] + [recs[n]];
      SlotsBut(recs[..n], url) + if UrlOf(recs[n]) == url then [] else [Kept(Bundle(UrlOf(recs[n]), ""))]
  }

  lemma {:induction false} SeenBut(recs: seq<Record>, url: string, rec: Record)
    ensures !Seen(AllSeenBut(recs, url), url)
    ensures rec in recs && UrlOf(rec) != url ==> Seen(AllSeenBut(recs, url), UrlOf(rec))
  {
    hide UrlOf, SlotsBut;
    var e := AllSeenBut(recs, url);
    if rec in recs && UrlOf(rec) != url {
      var j :| 0 <= j < |e.bundles| && e.bundles[j] == Kept(Bundle(UrlOf(rec), ""));
      assert Existing(e)[j].bundle.url == UrlOf(rec);
    }
  }

  lemma {:induction false} NeverSeen(recs: seq<Record>, done: seq<Record>, url: string)
    requires !Named(recs, url) && forall r :: r in done ==> r in recs
    ensures var e := After(AllSeenBut(recs, url), done);
      !Seen(e, url) && forall r :: r in recs && UrlOf(r) != url ==> Seen(e, UrlOf(r))
  {
    hide EntryAfter, Seen, UrlOf, AllSeenBut;
    if done == [] {
      forall r | r in recs && UrlOf(r) != url ensures Seen(AllSeenBut(recs, url), UrlOf(r)) { SeenBut(recs, url, r); }
      if recs != [] { SeenBut(recs, url, recs[0]); } else { NotSeen(url); }
    } else {
      var n := |done| - 1;
      NeverSeen(recs, done[..n], url);
      assert done[n] in done;
      var before := After(AllSeenBut(recs, url), done[..n]);
      SeenAfter(before, done[n], url);
      forall r | r in recs && UrlOf(r) != url ensures Seen(After(AllSeenBut(recs, url), done), UrlOf(r)) {
        SeenAfter(before, done[n], UrlOf(r));
      }
    }
  }

  lemma {:induction false} NotSeen(url: string)
    ensures !Seen(AllSeenBut([], url), url)
  {
  }

  lemma {:induction false} UnnamedBatchGrows(recs: seq<Record>, rec: Record)
    requires rec in recs && Offers(rec) && !Named(recs, UrlOf(rec))
    ensures var once := After(AllSeenBut(recs, UrlOf(rec)), recs); After(once, recs) != once
  {
    hide EntryAfter, Seen, UrlOf, AllSeenBut, Named;
    var once := After(AllSeenBut(recs, UrlOf(rec)), recs);
    NeverSeen(recs, recs, UrlOf(rec));
    assert Appends(once, rec);
    AppendedLengthens(once, recs, rec);
  }

  /** Bundles are only ever added; a record that appends now makes the batch add one. */
  lemma {:induction false} AppendedLengthens(e: Entry, recs: seq<Record>, rec: Record)
    requires rec in recs && Appends(e, rec)
    ensures |Existing(After(e, recs))| > |Existing(e)|
  {
    hide EntryAfter, Seen, UrlOf;
    var n := |recs| - 1;
    var before := After(e, recs[..n]);
    Lengthens(before, recs[n]);
    if rec in recs[..n] {
      AppendedLengthens(e, recs[..n], rec);
    } else {
      NeverShorter(e, recs[..n]);
      if |Existing(before)| == |Existing(e)| {
        assert Existing(before) == Existing(e);
        SameSeen(e, before, UrlOf(rec));
      }
    }
  }

  lemma {:induction false} SameSeen(e: Entry, d: Entry, url: string)
    requires Existing(e) == Existing(d)
    ensures Seen(e, url) == Seen(d, url)
  {
  }

  lemma {:induction false} Lengthens(e: Entry, rec: Record)
    ensures |Existing(EntryAfter(e, rec))| == |Existing(e)| + if Appends(e, rec) then 1 else 0
    ensures Existing(e) <= Existing(EntryAfter(e, rec))
  {
    hide Appends, FlatsAfter, ExtrasAfter;
  }

  lemma {:induction false} NeverShorter(e: Entry, recs: seq<Record>)
    ensures Existing(e) <= Existing(After(e, recs))
  {
    hide EntryAfter;
    if recs != [] {
      NeverShorter(e, recs[..|recs| - 1]);
      Lengthens(After(e, recs[..|recs| - 1]), recs[|recs| - 1]);
    }
  }

  /** A batch may be merged twice into every entry if and only if each URL it offers is named by one of its bundles. */
  lemma {:induction false} BatchTwiceIff(recs: seq<Record>)
    ensures AllNamed(recs) <==> forall e :: After(After(e, recs), recs) == After(e, recs)
  {
    hide EntryAfter, UrlOf, Named, After;
    forall e | AllNamed(recs) ensures After(After(e, recs), recs) == After(e, recs) {
      NamedBatchSettles(e, recs);
    }
    if !AllNamed(recs) {
      var rec :| rec in recs && Offers(rec) && !Named(recs, UrlOf(rec));
      UnnamedBatchGrows(recs, rec);
    }
  }

  // ------------------------------------------------------------ the database

  function For(recs: seq<Record>, key: string): seq<Record> {
    if recs == [] then []
    else
      var n := |recs| - 1;
      For(recs[..n], key) + if KeyFor(recs[n]) == Some(key) then [recs[n]] else []
  }

  lemma {:induction false} KeyByKey(entries: Entries, recs: seq<Record>, key: string)
    ensures MergeAll(entries, recs).Keys == entries.Keys
    ensures key in entries ==> MergeAll(entries, recs)[key] == After(entries[key], For(recs, key))
  {
    hide KeyFor, EntryAfter;
    if recs != [] {
      var n := |recs| - 1;
      KeyByKey(entries, recs[..n], key);
      var mine := For(recs[..n], key);
      if KeyFor(recs[n]) == Some(key) {
        assert (mine + [recs[n]])[..|mine|] == mine;
      } else {
        assert For(recs, key) == mine;
      }
    }
  }

  /** A second pass changes no record of the database when every key's own batch names its URLs. */
  lemma {:induction false} SecondPassChangesNothing(entries: Entries, recs: seq<Record>)
    requires forall key :: key in entries ==> AllNamed(For(recs, key))
    ensures var once := MergeAll(entries, recs); MergeAll(once, recs) == once
  {
    hide MergeAll, For, After, AllNamed;
    var once := MergeAll(entries, recs);
    KeyByKey(entries, recs, "");
    KeyByKey(once, recs, "");
    forall key | key in entries ensures MergeAll(once, recs)[key] == once[key] {
      KeyByKey(entries, recs, key);
      KeyByKey(once, recs, key);
      NamedBatchSettles(entries[key], For(recs, key));
    }
  }
}
