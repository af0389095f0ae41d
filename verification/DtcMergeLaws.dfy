// What repeated and reordered merges keep: a settled entry stays settled, a batch merged
// twice is a batch merged once, and each URL ends with its earliest richest bundle.
module DtcMergeLaws {
  import opened Wrappers
  import opened MergeValues
  import opened DtcMerge

  // --------------------------------------------------- one record on one entry

  lemma {:induction false} EnglishAt(e: Entry, g: Gated, k: nat, f: Field)
    requires k <= |FIELDS|
    ensures Get(EnglishAfter(e, g, FIELDS[..k]).english, f) ==
      if f in FIELDS[..k] && TakeOf(e, g, f).Fill? then TakeOf(e, g, f).value else Get(e.english, f)
  {
    hide TakeOf, UrlOf, EnglishAfter, EnglishFilled, EnglishSkipped;
    if k == 0 {
      EnglishNone(e, g);
    } else {
      EnglishAt(e, g, k - 1, f);
      EnglishNext(e, g, k - 1);
      assert FIELDS[..k] == FIELDS[..k - 1] + [FIELDS[k - 1]];
    }
  }

  /** The parts of an entry after a record, one by one. */
  lemma {:induction false} PartsAfter(e: Entry, g: Gated, f: Field)
    ensures var a := EntryAfter(e, g);
      && a.title == e.title
      && a.multi == MultiAfter(e, g.rec)
      && (FillsSteps(e, g.rec) ==>
        a.steps == AsItems(NormList(StepSource(g.rec))) && a.owner == Default(e.owner, UrlOf(g.rec)))
      && (!FillsSteps(e, g.rec) ==> a.steps == e.steps && a.owner == e.owner)
      && Get(a.english, f) == (if TakeOf(e, g, f).Fill? then TakeOf(e, g, f).value else Get(e.english, f))
  {
    hide TakeOf, UrlOf, MultiAfter, FillsSteps, NormList, StepSource, FilledBy, EnglishAfter, EvidenceOf;
    EnglishAt(e, g, |FIELDS|, f);
    assert FIELDS[..|FIELDS|] == FIELDS && f in FIELDS;
  }

  /** The record has nothing to give this entry. */
  ghost predicate Settled(e: Entry, g: Gated) {
    && (forall f :: !TakeOf(e, g, f).Fill?)
    && !FillsSteps(e, g.rec)
    && !MoveOf(e, g.rec).Append? && !MoveOf(e, g.rec).Replace?
  }

  lemma {:induction false} NoEnglish(e: Entry, g: Gated, k: nat)
    requires k <= |FIELDS| && forall f :: !TakeOf(e, g, f).Fill?
    ensures EnglishAfter(e, g, FIELDS[..k]) == e && EnglishFilled(e, g, FIELDS[..k]) == []
  {
    hide TakeOf, UrlOf;
    if k == 0 {
      EnglishNone(e, g);
    } else {
      NoEnglish(e, g, k - 1);
      EnglishNext(e, g, k - 1);
    }
  }

  /** An entry is left unchanged exactly by the records it is settled for. */
  lemma {:induction false} SettledIff(e: Entry, g: Gated)
    ensures Settled(e, g) <==> EntryAfter(e, g) == e
  {
    hide TakeOf, UrlOf, FillsSteps, NormList, StepSource, MoveOf, EnglishAfter, EnglishFilled;
    if Settled(e, g) {
      NoEnglish(e, g, |FIELDS|);
      assert FIELDS[..|FIELDS|] == FIELDS;
    } else if FillsSteps(e, g.rec) {
      PartsAfter(e, g, TitleEn);
      FilledIsFull(e, g.rec);
    } else if MoveOf(e, g.rec).Append? || MoveOf(e, g.rec).Replace? {
      PartsAfter(e, g, TitleEn);
      MoveChanges(e, g.rec);
    } else {
      var f :| TakeOf(e, g, f).Fill?;
      PartsAfter(e, g, f);
      TakeChanges(e, g, f);
    }
  }

  lemma {:induction false} FilledIsFull(e: Entry, rec: Record)
    requires FillsSteps(e, rec)
    ensures !IsEmpty(AsItems(NormList(StepSource(rec)))) && IsEmpty(e.steps)
  {
    hide NormList, StepSource;
  }

  lemma {:induction false} TakeChanges(e: Entry, g: Gated, f: Field)
    requires TakeOf(e, g, f).Fill?
    ensures !IsEmpty(TakeOf(e, g, f).value) && IsEmpty(Get(e.english, f))
  {
    hide UrlOf, Normal, IsEmpty;
  }

  lemma {:induction false} MoveChanges(e: Entry, rec: Record)
    requires MoveOf(e, rec).Append? || MoveOf(e, rec).Replace?
    ensures MultiAfter(e, rec) != e.multi
  {
    hide BundleOf, UrlOf, SlotAt, NormList, FillsSteps;
    if MoveOf(e, rec).Replace? {
      var i := SlotAt(SlotsOf(e.multi), UrlOf(rec));
      assert SlotsOf(MultiAfter(e, rec))[i] == Kept(BundleOf(rec).value);
    }
  }

  // ---------------------------------------------------------- slots only grow

  function Held(e: Entry, url: string): Option<Bundle> {
    var i := SlotAt(SlotsOf(e.multi), url);
    if i >= 0 then Some(SlotsOf(e.multi)[i].bundle) else None
  }

  lemma {:induction false} BundleUrl(rec: Record)
    ensures BundleOf(rec).Some? ==> BundleOf(rec).value.url == UrlOf(rec) && UrlOf(rec) != ""
  {
    hide NormList, UrlOf, OfferOf;
  }

  lemma {:induction false} SlotAtIs(slots: seq<Slot>, url: string, i: nat)
    requires i < |slots| && SlotFor(slots[i], url) && forall j :: 0 <= j < i ==> !SlotFor(slots[j], url)
    ensures SlotAt(slots, url) == i
  {
    hide SlotAt;
  }

  /** A record changes what one URL holds, its own, and only to a richer bundle. */
  lemma {:induction false} HeldAfter(e: Entry, g: Gated, url: string)
    ensures Held(EntryAfter(e, g), url) ==
      match MoveOf(e, g.rec)
      case Append(b) => if b.url == url then Some(b) else Held(e, url)
      case Replace(_, b, _) => if b.url == url then Some(b) else Held(e, url)
      case Stay => Held(e, url)
      case Poorer => Held(e, url)
  {
    hide EntryAfter, BundleOf, UrlOf, SlotAt, FillsSteps, NormList;
    PartsAfter(e, g, TitleEn);
    BundleUrl(g.rec);
    var before, after := SlotsOf(e.multi), SlotsOf(MultiAfter(e, g.rec));
    var i := SlotAt(before, url);
    match MoveOf(e, g.rec)
    case Append(b) =>
      assert forall j :: 0 <= j < |before| ==> after[j] == before[j];
      if b.url == url {
        SlotAtIs(after, url, |before|);
      } else if i >= 0 {
        SlotAtIs(after, url, i);
      } else {
        NoSlot(after, url);
      }
    case Replace(at, b, _) =>
      assert SlotFor(before[at], b.url) && SlotFor(after[at], b.url);
      assert forall j :: 0 <= j < |before| && j != at ==> after[j] == before[j];
      if i >= 0 { SlotAtIs(after, url, i); } else { NoSlot(after, url); }
    case Stay =>
    case Poorer =>
  }

  lemma {:induction false} NoSlot(slots: seq<Slot>, url: string)
    requires forall j :: 0 <= j < |slots| ==> !SlotFor(slots[j], url)
    ensures SlotAt(slots, url) == -1
  {
    hide SlotAt;
  }

  /** The move in terms of what the URL holds. */
  lemma {:induction false} MoveByHeld(e: Entry, rec: Record)
    ensures var b, m, held := BundleOf(rec), MoveOf(e, rec), Held(e, UrlOf(rec));
      if b.None? || FillsSteps(e, rec) || Owns(e, UrlOf(rec)) then m == Stay
      else if held.None? then m == Append(b.value)
      else if Count(b.value) > Count(held.value) then m.Replace? && m.bundle == b.value
      else m == Poorer
  {
    hide BundleOf, UrlOf, SlotAt, FillsSteps, NormList;
  }

  // ------------------------------------------------------------ staying settled

  lemma {:induction false} SettledStays(e: Entry, g: Gated, h: Gated)
    requires Settled(e, g)
    ensures Settled(EntryAfter(e, h), g)
  {
    hide EntryAfter, TakeOf, MoveOf, FillsSteps, BundleOf, UrlOf, Held, NormList, StepSource;
    var a := EntryAfter(e, h);
    forall f ensures !TakeOf(a, g, f).Fill? { TakeStays(e, g, h, f); }
    StepsStay(e, g.rec, h);
    MoveByHeld(e, g.rec);
    MoveByHeld(a, g.rec);
    MoveByHeld(e, h.rec);
    HeldAfter(e, h, UrlOf(g.rec));
    BundleUrl(h.rec);
    PartsAfter(e, h, TitleEn);
  }

  lemma {:induction false} TakeStays(e: Entry, g: Gated, h: Gated, f: Field)
    requires !TakeOf(e, g, f).Fill?
    ensures !TakeOf(EntryAfter(e, h), g, f).Fill?
  {
    hide EntryAfter, IsEmpty, Normal, UrlOf, FillsSteps, StepSource, NormList;
    PartsAfter(e, h, f);
    if TakeOf(e, h, f).Fill? { TakeChanges(e, h, f); }
  }

  lemma {:induction false} StepsStay(e: Entry, rec: Record, h: Gated)
    ensures FillsSteps(EntryAfter(e, h), rec) ==> FillsSteps(e, rec)
    ensures FillsSteps(e, h.rec) ==> !FillsSteps(EntryAfter(e, h), rec)
  {
    hide EntryAfter, IsEmpty, UrlOf, StepSource, NormList;
    PartsAfter(e, h, TitleEn);
    if FillsSteps(e, h.rec) { FilledIsFull(e, h.rec); }
  }

  // ---------------------------------------------------------- merging twice

  /** Steps and their owner come together: an entry without steps has no owner yet. */
  predicate Sound(e: Entry) { IsEmpty(e.steps) ==> e.owner.None? }

  /** What makes a second pass see the record anew: it fills the steps, but another URL keeps the ownership. */
  predicate Unsettling(e: Entry, rec: Record) {
    var b := BundleOf(rec);
    && FillsSteps(e, rec) && e.owner.Some? && !Owns(e, UrlOf(rec)) && b.Some?
    && (Held(e, UrlOf(rec)).Some? ==> Count(b.value) > Count(Held(e, UrlOf(rec)).value))
  }

  /** One record merged twice is one record merged once, exactly unless it is unsettling. */
  lemma {:induction false} TwiceIsOnceIff(e: Entry, g: Gated)
    ensures EntryAfter(EntryAfter(e, g), g) == EntryAfter(e, g) <==> !Unsettling(e, g.rec)
  {
    hide EntryAfter, TakeOf, MoveOf, FillsSteps, BundleOf, UrlOf, Held, NormList, StepSource;
    var a := EntryAfter(e, g);
    SettledIff(a, g);
    forall f ensures !TakeOf(a, g, f).Fill? { TakeOnce(e, g, f); }
    StepsStay(e, g.rec, g);
    MoveByHeld(e, g.rec);
    MoveByHeld(a, g.rec);
    HeldAfter(e, g, UrlOf(g.rec));
    BundleUrl(g.rec);
    PartsAfter(e, g, TitleEn);
  }

  lemma {:induction false} TakeOnce(e: Entry, g: Gated, f: Field)
    ensures !TakeOf(EntryAfter(e, g), g, f).Fill?
  {
    hide EntryAfter, IsEmpty, Normal, UrlOf, FillsSteps, StepSource, NormList;
    PartsAfter(e, g, f);
    if TakeOf(e, g, f).Fill? { TakeChanges(e, g, f); }
  }

  lemma {:induction false} SoundStays(e: Entry, g: Gated)
    requires Sound(e)
    ensures Sound(EntryAfter(e, g))
  {
    hide EntryAfter, IsEmpty, UrlOf, StepSource, NormList;
    PartsAfter(e, g, TitleEn);
    if FillsSteps(e, g.rec) { FilledIsFull(e, g.rec); }
  }

  function After(e: Entry, gs: seq<Gated>): Entry {
    if gs == [] then e else EntryAfter(After(e, gs[..|gs| - 1]), gs[|gs| - 1])
  }

  lemma {:induction false} AllSettled(e: Entry, gs: seq<Gated>)
    requires Sound(e)
    ensures Sound(After(e, gs)) && forall g :: g in gs ==> Settled(After(e, gs), g)
  {
    hide EntryAfter, Settled, Sound;
    if gs != [] {
      var n := |gs| - 1;
      var before := After(e, gs[..n]);
      AllSettled(e, gs[..n]);
      SoundStays(before, gs[n]);
      forall g | g in gs ensures Settled(After(e, gs), g) {
        if g in gs[..n] {
          SettledStays(before, g, gs[n]);
        } else {
          SettlesAtOnce(before, g);
        }
      }
    }
  }

  lemma {:induction false} SettlesAtOnce(e: Entry, g: Gated)
    requires Sound(e)
    ensures Settled(EntryAfter(e, g), g)
  {
    hide EntryAfter, Settled, UrlOf, BundleOf, Held;
    TwiceIsOnceIff(e, g);
    SettledIff(EntryAfter(e, g), g);
  }

  lemma {:induction false} SettledFor(e: Entry, gs: seq<Gated>)
    requires forall g :: g in gs ==> Settled(e, g)
    ensures After(e, gs) == e
  {
    hide EntryAfter, Settled;
    if gs != [] {
      var n := |gs| - 1;
      SettledFor(e, gs[..n]);
      assert gs[n] in gs;
      SettledIff(e, gs[n]);
    }
  }

  /** A second pass of any batch over a sound entry changes nothing. */
  lemma {:induction false} SecondPass(e: Entry, gs: seq<Gated>)
    requires Sound(e)
    ensures After(After(e, gs), gs) == After(e, gs)
  {
    hide Settled, EntryAfter;
    AllSettled(e, gs);
    SettledFor(After(e, gs), gs);
  }

  /** A record whose second pass would replace or append, for an entry that is not sound. */
  function Intruder(url: string, count: nat): Record {
    var steps := Items(seq(count, i => Plain("s")));
    Record(url, "", "", "", "", map[], Null, steps, Null, Null, Some(Offer("", steps, Null, Null, "", "")), "",
      Provenance("", "", "", "", ""))
  }

  lemma {:induction false} IntruderSteps(count: nat)
    ensures |NormList(Items(seq(count, i => Plain("s"))))| == count
  {
    if count > 0 {
      IntruderSteps(count - 1);
      var items := seq(count, i => Plain("s"));
      assert items[0].text == "s" && items[1..] == seq(count - 1, i => Plain("s"));
      assert Text.Strip("s") == "s";
    }
  }

  lemma {:induction false} PlainUrls()
    ensures Url("http://a") == "http://a" && Url("http://b") == "http://b"
  {
    assert Text.Strip("http://a") == "http://a" && Text.Strip("http://b") == "http://b";
  }

  /** Every batch may be merged twice into an entry if and only if the entry is sound. */
  lemma {:induction false} SoundIff(e: Entry)
    ensures Sound(e) <==> forall gs :: After(After(e, gs), gs) == After(e, gs)
  {
    hide EntryAfter, IsEmpty;
    forall gs | Sound(e) ensures After(After(e, gs), gs) == After(e, gs) {
      SecondPass(e, gs);
    }
    if !Sound(e) {
      var url := if e.owner == Some("http://a") then "http://b" else "http://a";
      var held := Held(e, url);
      var n := 1 + if held.Some? then Count(held.value) else 0;
      var g := Gated(Intruder(url, n), Gate(false, false));
      PlainUrls();
      IntruderIsUnsettling(e, url, n);
      TwiceIsOnceIff(e, g);
      AfterOne(e, g);
      AfterOne(EntryAfter(e, g), g);
      assert After(After(e, [g]), [g]) != After(e, [g]);
    }
  }

  lemma {:induction false} AfterOne(e: Entry, g: Gated)
    ensures After(e, [g]) == EntryAfter(e, g)
  {
    hide EntryAfter;
    assert [g][..0] == [];
    assert After(e, []) == e;
  }

  lemma {:induction false} IntruderIsUnsettling(e: Entry, url: string, n: nat)
    requires !Sound(e) && Url(url) == url != "" && e.owner != Some(url) && n > 0
    requires Held(e, url).Some? ==> n > Count(Held(e, url).value)
    ensures Unsettling(e, Intruder(url, n))
  {
    hide Held, NormList, IsEmpty, Url;
    IntruderSteps(n);
    var rec := Intruder(url, n);
    NormStored(NormList(rec.proceduresSteps));
  }
}
