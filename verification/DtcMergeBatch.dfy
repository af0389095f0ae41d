// Whole batches: the bundle each URL ends with, the owner kept apart from the list, the
// second pass over a database, and the dry run that reports what an apply reports.
module DtcMergeBatch {
  import opened Wrappers
  import opened MergeValues
  import opened DtcMerge
  import opened DtcMergeLaws

  // ------------------------------------------------ the earliest richest bundle

  /** The bundles a batch offers under one URL, in order. */
  function Offers(gs: seq<Gated>, url: string): seq<Bundle> {
    if gs == [] then []
    else
      var n := |gs| - 1;
      var b := BundleOf(gs[n].rec);
      Offers(gs[..n], url) + if b.Some? && b.value.url == url then [b.value] else []
  }

  function Candidates(e: Entry, gs: seq<Gated>, url: string): seq<Bundle> {
    (if Held(e, url).Some? then [Held(e, url).value] else []) + Offers(gs, url)
  }

  function Best(candidates: seq<Bundle>): Option<Bundle> {
    if candidates == [] then None
    else
      var n := |candidates| - 1;
      var best := Best(candidates[..n]);
      if best.Some? && Count(candidates[n]) <= Count(best.value) then best else Some(candidates[n])
  }

  /** `k` is the earliest position with the greatest step count. */
  predicate EarliestRichest(candidates: seq<Bundle>, k: nat) {
    && k < |candidates|
    && (forall j :: 0 <= j < k ==> Count(candidates[j]) < Count(candidates[k]))
    && (forall j :: 0 <= j < |candidates| ==> Count(candidates[j]) <= Count(candidates[k]))
  }

  lemma {:induction false} BestIs(candidates: seq<Bundle>) returns (k: nat)
    requires candidates != []
    ensures EarliestRichest(candidates, k) && Best(candidates) == Some(candidates[k])
  {
    hide Count;
    var n := |candidates| - 1;
    if n == 0 {
      k := 0;
      assert Best(candidates[..0]) == None;
    } else {
      var front := candidates[..n];
      k := BestIs(front);
      assert forall j :: 0 <= j < n ==> Count(front[j]) == Count(candidates[j]);
      if Count(candidates[n]) > Count(candidates[k]) { k := n; }
    }
  }

  lemma {:induction false} PopulatedStays(e: Entry, g: Gated)
    requires !IsEmpty(e.steps)
    ensures EntryAfter(e, g).steps == e.steps && EntryAfter(e, g).owner == e.owner
  {
    hide EntryAfter, IsEmpty, UrlOf, StepSource, NormList;
    PartsAfter(e, g, TitleEn);
  }

  lemma {:induction false} CandidatesNext(e: Entry, gs: seq<Gated>, url: string)
    requires gs != []
    ensures var n := |gs| - 1;
      var b := BundleOf(gs[n].rec);
      var before := Candidates(e, gs[..n], url);
      if b.Some? && b.value.url == url then
        && Candidates(e, gs, url) == before + [b.value]
        && Best(Candidates(e, gs, url)) ==
           (if Best(before).Some? && Count(b.value) <= Count(Best(before).value) then Best(before) else Some(b.value))
      else Candidates(e, gs, url) == before
  {
    hide BundleOf, Held, Count;
    var n := |gs| - 1;
    var b := BundleOf(gs[n].rec);
    var before := Candidates(e, gs[..n], url);
    if b.Some? && b.value.url == url {
      assert Candidates(e, gs, url) == before + [b.value];
      assert (before + [b.value])[..|before|] == before;
    }
  }

  /**
   * On a code whose steps are populated, every URL but the owner's ends with the earliest
   * bundle of the greatest step count among what it held and all it was offered.
   */
  lemma {:induction false} HeldIsBest(e: Entry, gs: seq<Gated>, url: string)
    requires !IsEmpty(e.steps) && !Owns(e, url)
    ensures After(e, gs).steps == e.steps && After(e, gs).owner == e.owner
    ensures Held(After(e, gs), url) == Best(Candidates(e, gs, url))
  {
    hide EntryAfter, IsEmpty, Held, BundleOf, UrlOf, Count, StepSource, NormList, Candidates, MoveOf;
    if gs == [] {
      NoOffers(e, url);
    } else {
      var n := |gs| - 1;
      var before := After(e, gs[..n]);
      HeldIsBest(e, gs[..n], url);
      PopulatedStays(before, gs[n]);
      CandidatesNext(e, gs, url);
      HeldAfter(before, gs[n], url);
      MoveByHeld(before, gs[n].rec);
      BundleUrl(gs[n].rec);
    }
  }

  lemma {:induction false} NoOffers(e: Entry, url: string)
    ensures Best(Candidates(e, [], url)) == Held(e, url)
  {
    hide Held;
    var c := Candidates(e, [], url);
    if Held(e, url).Some? {
      assert c == [Held(e, url).value] && c[..0] == [];
      assert Best([]) == None;
    }
  }

  lemma {:induction false} CountStays(e: Entry, g: Gated, url: string)
    requires Held(e, url).Some?
    ensures Held(EntryAfter(e, g), url).Some?
    ensures Count(Held(EntryAfter(e, g), url).value) >= Count(Held(e, url).value)
  {
    hide EntryAfter, Held, BundleOf, UrlOf, Count, FillsSteps, MoveOf;
    HeldAfter(e, g, url);
    MoveByHeld(e, g.rec);
    BundleUrl(g.rec);
  }

  /** For any entry and batch: no URL loses its bundle, none gets fewer steps. */
  lemma {:induction false} CountsNeverShrink(e: Entry, gs: seq<Gated>, url: string)
    requires Held(e, url).Some?
    ensures Held(After(e, gs), url).Some?
    ensures Count(Held(After(e, gs), url).value) >= Count(Held(e, url).value)
  {
    hide EntryAfter, Held, Count;
    if gs != [] {
      var n := |gs| - 1;
      CountsNeverShrink(e, gs[..n], url);
      CountStays(After(e, gs[..n]), gs[n], url);
    }
  }

  predicate DistinctUrls(slots: seq<Slot>) {
    forall i, j :: 0 <= i < j < |slots| && slots[i].Kept? && slots[j].Kept? ==>
      slots[i].bundle.url != slots[j].bundle.url
  }

  lemma {:induction false} DistinctStep(e: Entry, g: Gated)
    requires DistinctUrls(SlotsOf(e.multi))
    ensures DistinctUrls(SlotsOf(EntryAfter(e, g).multi))
  {
    hide EntryAfter, BundleOf, UrlOf, FillsSteps, NormList, SlotAt;
    PartsAfter(e, g, TitleEn);
    BundleUrl(g.rec);
    var i := SlotAt(SlotsOf(e.multi), UrlOf(g.rec));
    if i >= 0 { assert SlotFor(SlotsOf(e.multi)[i], UrlOf(g.rec)); }
  }

  /** URLs that are pairwise distinct in a list stay so through any batch. */
  lemma {:induction false} DistinctStays(e: Entry, gs: seq<Gated>)
    requires DistinctUrls(SlotsOf(e.multi))
    ensures DistinctUrls(SlotsOf(After(e, gs).multi))
  {
    hide EntryAfter, DistinctUrls;
    if gs != [] {
      var n := |gs| - 1;
      DistinctStays(e, gs[..n]);
      DistinctStep(After(e, gs[..n]), gs[n]);
    }
  }

  lemma {:induction false} OfferedBy(gs: seq<Gated>, url: string, b: Bundle)
    ensures b in Offers(gs, url) <==> exists g :: g in gs && BundleOf(g.rec) == Some(b) && b.url == url
  {
    hide BundleOf;
    if gs != [] {
      var n := |gs| - 1;
      OfferedBy(gs[..n], url, b);
      assert gs == gs[..n] + [gs[n]];
    }
  }

  /** The step count each URL ends with does not depend on the order of the batch. */
  lemma {:induction false} OrderFree(e: Entry, gs: seq<Gated>, hs: seq<Gated>, url: string)
    requires !IsEmpty(e.steps) && !Owns(e, url) && multiset(gs) == multiset(hs)
    ensures var a, b := Held(After(e, gs), url), Held(After(e, hs), url);
      (a.Some? <==> b.Some?) && (a.Some? ==> Count(a.value) == Count(b.value))
  {
    hide Held, BundleOf, Count, Best, Offers, After, IsEmpty;
    HeldIsBest(e, gs, url);
    HeldIsBest(e, hs, url);
    var c, d := Candidates(e, gs, url), Candidates(e, hs, url);
    forall b ensures b in c <==> b in d {
      OfferedBy(gs, url, b);
      OfferedBy(hs, url, b);
      assert forall g :: g in gs <==> g in hs by {
        assert forall g :: g in gs <==> g in multiset(gs);
      }
    }
    assert (c != [] ==> c[0] in c) && (d != [] ==> d[0] in d);
    if c != [] && d != [] {
      var k := BestIs(c);
      var l := BestIs(d);
      assert c[k] in d && d[l] in c;
    }
  }

  // ------------------------------------------------- the order of a batch

  predicate RichestOffer(offers: seq<Bundle>, b: Bundle) {
    b in offers && forall o :: o in offers ==> Count(o) <= Count(b)
  }

  /** No offer is richer than what the URL holds, or all the richest offers are the same bundle. */
  ghost predicate OneRichest(e: Entry, gs: seq<Gated>, url: string) {
    || (Held(e, url).Some? && forall o :: o in Offers(gs, url) ==> Count(o) <= Count(Held(e, url).value))
    || (forall b, c :: RichestOffer(Offers(gs, url), b) && RichestOffer(Offers(gs, url), c) ==> b == c)
  }

  ghost predicate AnyOrder(e: Entry, gs: seq<Gated>, url: string) {
    forall hs :: multiset(hs) == multiset(gs) ==> Held(After(e, hs), url) == Held(After(e, gs), url)
  }

  lemma {:induction false} SameOffers(gs: seq<Gated>, hs: seq<Gated>, url: string)
    requires multiset(gs) == multiset(hs)
    ensures forall b :: b in Offers(gs, url) <==> b in Offers(hs, url)
  {
    hide BundleOf, Offers;
    assert forall g :: g in gs <==> g in hs by {
      assert forall g :: g in gs <==> g in multiset(gs);
    }
    forall b ensures b in Offers(gs, url) <==> b in Offers(hs, url) {
      OfferedBy(gs, url, b);
      OfferedBy(hs, url, b);
    }
  }

  /** What the best candidate is: the held bundle if no offer is richer, else a richest offer. */
  lemma {:induction false} BestOf(e: Entry, gs: seq<Gated>, url: string)
    ensures var held, offers, best := Held(e, url), Offers(gs, url), Best(Candidates(e, gs, url));
      if held.Some? && (forall o :: o in offers ==> Count(o) <= Count(held.value)) then best == held
      else if offers == [] then best == None
      else best.Some? && RichestOffer(offers, best.value)
  {
    hide Held, Offers, Best, Count;
    var c := Candidates(e, gs, url);
    var offers := Offers(gs, url);
    if c == [] {
      NoBest();
    } else {
      var k := BestIs(c);
      forall o | o in offers ensures Count(o) <= Count(c[k]) {
        assert o in c;
      }
      if Held(e, url).Some? { assert c[0] == Held(e, url).value; }
    }
  }

  lemma {:induction false} NoBest()
    ensures Best([]) == None
  {
  }

  lemma {:induction false} FirstOffer(g: Gated, gs: seq<Gated>, url: string)
    requires BundleOf(g.rec).Some? && BundleOf(g.rec).value.url == url
    ensures Offers([g] + gs, url) == [BundleOf(g.rec).value] + Offers(gs, url)
  {
    hide BundleOf;
    if gs == [] {
      assert [g] + gs == [g] && [g][..0] == [];
      assert Offers([], url) == [];
    } else {
      var n := |gs| - 1;
      FirstOffer(g, gs[..n], url);
      assert ([g] + gs)[..n + 1] == [g] + gs[..n];
    }
  }

  /** A batch whose first record carries a richest offer, richer than what is held, ends with that offer. */
  lemma {:induction false} FirstWins(e: Entry, g: Gated, gs: seq<Gated>, url: string)
    requires BundleOf(g.rec).Some? && BundleOf(g.rec).value.url == url
    requires RichestOffer(Offers([g] + gs, url), BundleOf(g.rec).value)
    requires Held(e, url).Some? ==> Count(Held(e, url).value) < Count(BundleOf(g.rec).value)
    ensures Best(Candidates(e, [g] + gs, url)) == Some(BundleOf(g.rec).value)
  {
    hide Held, Offers, Best, Count, BundleOf;
    FirstOffer(g, gs, url);
    var c := Candidates(e, [g] + gs, url);
    var k := BestIs(c);
    var first := if Held(e, url).Some? then 1 else 0;
    assert c[first] == BundleOf(g.rec).value;
    assert k >= first;
    assert forall j :: first <= j < |c| ==> c[j] in Offers([g] + gs, url);
  }

  /** On a populated code a URL ends with the same bundle in every order exactly when there is one richest. */
  lemma {:induction false} OrderFreeIff(e: Entry, gs: seq<Gated>, url: string)
    requires !IsEmpty(e.steps) && !Owns(e, url)
    ensures AnyOrder(e, gs, url) <==> OneRichest(e, gs, url)
  {
    hide Held, Offers, Best, Count, BundleOf, After, IsEmpty, Candidates;
    if OneRichest(e, gs, url) {
      forall hs | multiset(hs) == multiset(gs) ensures Held(After(e, hs), url) == Held(After(e, gs), url) {
        SameRichest(e, gs, hs, url);
      }
    } else {
      var b, c :| RichestOffer(Offers(gs, url), b) && RichestOffer(Offers(gs, url), c) && b != c;
      OrderMatters(e, gs, url, if Held(After(e, gs), url) == Some(b) then c else b);
    }
  }

  lemma {:induction false} SameRichest(e: Entry, gs: seq<Gated>, hs: seq<Gated>, url: string)
    requires !IsEmpty(e.steps) && !Owns(e, url)
    requires OneRichest(e, gs, url) && multiset(hs) == multiset(gs)
    ensures Held(After(e, hs), url) == Held(After(e, gs), url)
  {
    hide Held, Offers, Best, Count, BundleOf, After, IsEmpty, Candidates;
    HeldIsBest(e, gs, url);
    HeldIsBest(e, hs, url);
    SameOffers(gs, hs, url);
    BestOf(e, gs, url);
    BestOf(e, hs, url);
    assert Offers(gs, url) == [] <==> Offers(hs, url) == [] by {
      assert Offers(gs, url) != [] ==> Offers(gs, url)[0] in Offers(hs, url);
      assert Offers(hs, url) != [] ==> Offers(hs, url)[0] in Offers(gs, url);
    }
    var best := Best(Candidates(e, hs, url));
    if best.Some? && RichestOffer(Offers(hs, url), best.value) {
      assert RichestOffer(Offers(gs, url), best.value);
    }
  }

  lemma {:induction false} OrderMatters(e: Entry, gs: seq<Gated>, url: string, b: Bundle)
    requires !IsEmpty(e.steps) && !Owns(e, url)
    requires !OneRichest(e, gs, url) && RichestOffer(Offers(gs, url), b) && Held(After(e, gs), url) != Some(b)
    ensures !AnyOrder(e, gs, url)
  {
    hide Held, Offers, Best, Count, BundleOf, After, IsEmpty, Candidates;
    OfferedBy(gs, url, b);
    var g :| g in gs && BundleOf(g.rec) == Some(b) && b.url == url;
    var j :| 0 <= j < |gs| && gs[j] == g;
    var rest := gs[..j] + gs[j + 1..];
    var hs := [g] + rest;
    assert multiset(hs) == multiset(gs) by {
      assert gs == gs[..j] + [g] + gs[j + 1..];
    }
    SameOffers(gs, hs, url);
    FirstWins(e, g, rest, url);
    HeldIsBest(e, hs, url);
  }

  // ------------------------------------------------- the owner and the list

  /** The owner's URL is in no bundle of the list; without steps there is neither owner nor bundle. */
  predicate Apart(e: Entry) {
    && (forall j :: 0 <= j < |SlotsOf(e.multi)| && SlotsOf(e.multi)[j].Kept? ==>
          !Owns(e, SlotsOf(e.multi)[j].bundle.url) && !IsEmpty(e.steps))
    && (IsEmpty(e.steps) ==> e.owner.None?)
  }

  /** Whoever offers a bundle also offers steps to own. */
  predicate Shaped(rec: Record) { BundleOf(rec).Some? ==> NormList(StepSource(rec)) != [] }

  lemma {:induction false} ApartStays(e: Entry, g: Gated)
    requires Apart(e) && Shaped(g.rec)
    ensures Apart(EntryAfter(e, g))
  {
    hide EntryAfter, BundleOf, UrlOf, NormList, SlotAt, IsEmpty, StepSource;
    PartsAfter(e, g, TitleEn);
    BundleUrl(g.rec);
    if FillsSteps(e, g.rec) { FilledIsFull(e, g.rec); }
    var slots := SlotsOf(EntryAfter(e, g).multi);
    forall j | 0 <= j < |slots| && slots[j].Kept?
      ensures !Owns(EntryAfter(e, g), slots[j].bundle.url) && !IsEmpty(EntryAfter(e, g).steps)
    {
      if j < |SlotsOf(e.multi)| && slots[j] == SlotsOf(e.multi)[j] {
        assert !Owns(e, slots[j].bundle.url);
      } else {
        assert slots[j].bundle == BundleOf(g.rec).value;
      }
    }
  }

  /** Over any batch of shaped records no bundle ever carries the owner's URL. */
  lemma {:induction false} OwnerStaysApart(e: Entry, gs: seq<Gated>)
    requires Apart(e) && forall g :: g in gs ==> Shaped(g.rec)
    ensures Apart(After(e, gs))
  {
    hide Apart, Shaped, EntryAfter;
    if gs != [] {
      var n := |gs| - 1;
      OwnerStaysApart(e, gs[..n]);
      assert gs[n] in gs;
      ApartStays(After(e, gs[..n]), gs[n]);
    }
  }

  /** The shape is needed: a bundle without own steps, then its page's steps, and the owner is in the list. */
  lemma {:induction false} UnshapedBreaksApart(e: Entry, g: Gated, h: Gated)
    requires IsEmpty(e.steps) && e.owner.None? && Held(e, UrlOf(g.rec)).None?
    requires BundleOf(g.rec).Some? && NormList(StepSource(g.rec)) == []
    requires UrlOf(h.rec) == UrlOf(g.rec) && NormList(StepSource(h.rec)) != []
    ensures var a := After(e, [g, h]); Owns(a, UrlOf(g.rec)) && Held(a, UrlOf(g.rec)).Some? && !Apart(a)
  {
    hide EntryAfter, BundleOf, UrlOf, NormList, StepSource, Held, IsEmpty;
    var b := EntryAfter(e, g);
    var a := EntryAfter(b, h);
    assert [g, h][..1] == [g];
    AfterOne(e, g);
    MoveByHeld(e, g.rec);
    HeldAfter(e, g, UrlOf(g.rec));
    PartsAfter(e, g, TitleEn);
    MoveByHeld(b, h.rec);
    HeldAfter(b, h, UrlOf(g.rec));
    PartsAfter(b, h, TitleEn);
    BundleUrl(g.rec);
    HeldSlot(a, UrlOf(g.rec));
  }

  lemma {:induction false} HeldSlot(e: Entry, url: string)
    requires Held(e, url).Some?
    ensures exists j ::
      0 <= j < |SlotsOf(e.multi)| && SlotsOf(e.multi)[j].Kept? && SlotsOf(e.multi)[j].bundle.url == url
  {
    hide SlotAt;
    var i := SlotAt(SlotsOf(e.multi), url);
    assert SlotFor(SlotsOf(e.multi)[i], url);
  }

  // ------------------------------------------------------ the whole database

  /** The records of a batch that go to one code, with the gates' verdicts on them. */
  function For(entries: Entries, recs: seq<Record>, code: string, index: Index, anchor: Anchor): seq<Gated>
    requires code in entries
  {
    if recs == [] then []
    else
      var n := |recs| - 1;
      For(entries, recs[..n], code, index, anchor)
      + if KeyFor(recs[n]) == Some(code)
        then [Gated(recs[n], GateOf(entries[code], recs[n], index, code, anchor))] else []
  }

  lemma {:induction false} ForSameTitle(
      a: Entries, b: Entries, recs: seq<Record>, code: string, index: Index, anchor: Anchor)
    requires code in a && code in b && a[code].title == b[code].title
    ensures For(a, recs, code, index, anchor) == For(b, recs, code, index, anchor)
  {
    hide KeyFor, Foreign, NormStr;
    if recs != [] {
      ForSameTitle(a, b, recs[..|recs| - 1], code, index, anchor);
    }
  }

  /** A batch treats every code by itself: its entry sees its own records, in order. */
  lemma {:induction false} CodeByCode(entries: Entries, recs: seq<Record>, code: string, index: Index, anchor: Anchor)
    ensures SameTitles(entries, MergeAll(entries, recs, index, anchor))
    ensures code in entries ==>
      MergeAll(entries, recs, index, anchor)[code] == After(entries[code], For(entries, recs, code, index, anchor))
  {
    hide KeyFor, GateOf, EntryAfter, TitleIndex;
    if recs != [] {
      var n := |recs| - 1;
      var before := MergeAll(entries, recs[..n], index, anchor);
      CodeByCode(entries, recs[..n], code, index, anchor);
      TitlesStay(before, recs[n], index, anchor);
      if code in entries && KeyFor(recs[n]) == Some(code) {
        SameGate(before[code], entries[code], recs[n], index, code, anchor);
        var gs := For(entries, recs[..n], code, index, anchor);
        var g := Gated(recs[n], GateOf(entries[code], recs[n], index, code, anchor));
        assert (gs + [g])[..|gs|] == gs;
      } else if code in entries {
        assert For(entries, recs, code, index, anchor) == For(entries, recs[..n], code, index, anchor);
      }
    }
  }

  lemma {:induction false} SameGate(a: Entry, b: Entry, rec: Record, index: Index, code: string, anchor: Anchor)
    requires a.title == b.title
    ensures GateOf(a, rec, index, code, anchor) == GateOf(b, rec, index, code, anchor)
  {
  }

  /** Merging the same batch a second time changes no entry of a sound database. */
  lemma {:induction false} SecondPassChangesNothing(entries: Entries, recs: seq<Record>, index: Index, anchor: Anchor)
    requires forall c :: c in entries ==> Sound(entries[c])
    ensures var once := MergeAll(entries, recs, index, anchor); MergeAll(once, recs, index, anchor) == once
  {
    hide MergeAll, For, After, Sound;
    var once := MergeAll(entries, recs, index, anchor);
    var twice := MergeAll(once, recs, index, anchor);
    CodeByCode(entries, recs, "", index, anchor);
    CodeByCode(once, recs, "", index, anchor);
    forall c | c in entries ensures twice[c] == once[c] {
      CodeByCode(entries, recs, c, index, anchor);
      CodeByCode(once, recs, c, index, anchor);
      ForSameTitle(entries, once, recs, c, index, anchor);
      SecondPass(entries[c], For(entries, recs, c, index, anchor));
    }
  }

  // ------------------------------------------------------------- the dry run

  /** No two records of the batch resolve to the same key of the database. */
  ghost predicate DistinctKeys(entries: Entries, recs: seq<Record>) {
    forall i, j :: 0 <= i < j < |recs| && Known(entries, recs[i]) ==> KeyFor(recs[i]) != KeyFor(recs[j])
  }

  lemma {:induction false} Untouched(entries: Entries, recs: seq<Record>, code: string, index: Index, anchor: Anchor)
    requires code in entries && forall i :: 0 <= i < |recs| ==> KeyFor(recs[i]) != Some(code)
    ensures code in MergeAll(entries, recs, index, anchor)
    ensures MergeAll(entries, recs, index, anchor)[code] == entries[code]
  {
    hide KeyFor, GateOf, EntryAfter;
    if recs != [] {
      Untouched(entries, recs[..|recs| - 1], code, index, anchor);
    }
  }

  /** On a batch of distinct keys the dry run reports exactly what the apply reports. */
  lemma {:induction false} DryRunAgrees(r: Report, entries: Entries, recs: seq<Record>, index: Index, anchor: Anchor)
    requires DistinctKeys(entries, recs)
    ensures ReportAll(r, entries, recs, index, anchor, true) == ReportAll(r, entries, recs, index, anchor, false)
  {
    hide KeyFor, GateOf, ReportAfter, MergeAll;
    if recs != [] {
      var n := |recs| - 1;
      DryRunAgrees(r, entries, recs[..n], index, anchor);
      CodeByCode(entries, recs[..n], "", index, anchor);
      if Known(entries, recs[n]) {
        Untouched(entries, recs[..n], KeyFor(recs[n]).value, index, anchor);
      }
    }
  }

  /** Distinct keys are needed: a record given twice is applied once, and twice in the dry run. */
  lemma {:induction false} DryRunCountsTwice(r: Report, entries: Entries, rec: Record, index: Index, anchor: Anchor)
    requires Known(entries, rec)
    requires var g := GatedFor(entries, rec, index, anchor);
      FilledBy(entries[KeyFor(rec).value], g) != [] && !Unsettling(entries[KeyFor(rec).value], rec)
    ensures |ReportAll(r, entries, [rec, rec], index, anchor, true).applied| == |r.applied| + 1
    ensures |ReportAll(r, entries, [rec, rec], index, anchor, false).applied| == |r.applied| + 2
  {
    hide KeyFor, GateOf, EntryAfter, FilledBy, Unsettling;
    assert [rec, rec][..1] == [rec] && [rec][..0] == [];
    var code := KeyFor(rec).value;
    var e, g := entries[code], GatedFor(entries, rec, index, anchor);
    var once := MergeOne(entries, rec, index, anchor);
    BatchNone(r, entries, index, anchor, true);
    BatchNone(r, entries, index, anchor, false);
    assert MergeAll(entries, [rec], index, anchor) == once;
    assert EntryAfter(e, g).title == e.title by { PartsAfter(e, g, TitleEn); }
    SameGate(EntryAfter(e, g), e, rec, index, code, anchor);
    TwiceIsOnceIff(e, g);
    SettledIff(EntryAfter(e, g), g);
    NothingFilled(EntryAfter(e, g), g);
  }

  lemma {:induction false} NothingFilled(e: Entry, g: Gated)
    requires Settled(e, g)
    ensures FilledBy(e, g) == []
  {
    hide TakeOf, FillsSteps, MoveOf, EnglishFilled;
    NoEnglish(e, g, |FIELDS|);
    assert FIELDS[..|FIELDS|] == FIELDS;
  }
}
