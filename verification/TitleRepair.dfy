// The title repairs that share the trouble-code database with the merges: the plan built
// from audit and live evidence, its application, and what both writers together keep true
// of titles that belong to another code.
module TitleRepair {
  import opened Text
  import opened MergeValues
  import opened DtcMerge
  import opened DtcMergeLaws

  const PLACEHOLDER_PHRASES: seq<string> := [
    "generic (sae", "reserved", "manufacturer-specific", "body dtc code", "iso/sae reserved"]

  predicate IsPlaceholder(title: string) { MentionsAny(title, PLACEHOLDER_PHRASES) }

  // ------------------------------------------------------------------ the plan

  datatype AuditRow = AuditRow(code: string, class_: string, votes: seq<string>, title: string)

  datatype LiveRow = LiveRow(code: string, verdict: string, url: string)

  datatype Evidence = Audit | Live

  datatype Repair = Repair(code: string, evidence: Evidence, votes: seq<string>)

  datatype Flag = Flag(code: string, votes: seq<string>)

  datatype Reason = NotInDatabase | TitleChanged | PlaceholderTitle | SkippedBefore | NoTitle | AlreadyEqual

  datatype Warning = Warning(code: string, reason: Reason)

  datatype Plan = Plan(repairs: seq<Repair>, flags: seq<Flag>, warnings: seq<Warning>, seen: set<string>)

  const ENGLISH_LAYER := "DB error (EN layer)"
  const TURKISH_LAYER := "DB error (TR layer)"

  /** The audit row speaks for this code: right layer, same title as now, and that title means something. */
  predicate Qualifies(row: AuditRow, entries: Entries) {
    && row.code != "" && row.code in entries && row.class_ == ENGLISH_LAYER
    && entries[row.code].title == row.title && !IsPlaceholder(row.title)
  }

  predicate LiveQualifies(row: LiveRow, entries: Entries) {
    row.code != "" && row.code in entries && row.verdict in {"source_shifted", "db_title_correct"}
  }

  function AuditStep(plan: Plan, row: AuditRow, entries: Entries): Plan {
    if row.code == "" || row.code in plan.seen then plan
    else if row.code !in entries then plan.(warnings := plan.warnings + [Warning(row.code, NotInDatabase)])
    else if row.class_ != ENGLISH_LAYER then plan
    else if entries[row.code].title != row.title
      then plan.(warnings := plan.warnings + [Warning(row.code, TitleChanged)])
    else if IsPlaceholder(row.title) then plan.(warnings := plan.warnings + [Warning(row.code, PlaceholderTitle)])
    else if |row.votes| >= 2 then
      plan.(repairs := plan.repairs + [Repair(row.code, Audit, row.votes)], seen := plan.seen + {row.code})
    else if |row.votes| == 1 then
      plan.(flags := plan.flags + [Flag(row.code, row.votes)], seen := plan.seen + {row.code})
    else plan
  }

  function LiveStep(plan: Plan, row: LiveRow, entries: Entries): Plan {
    if row.code == "" || row.code in plan.seen || row.verdict !in {"source_shifted", "db_title_correct"} then plan
    else if row.code !in entries then plan.(warnings := plan.warnings + [Warning(row.code, NotInDatabase)])
    else plan.(
      repairs := plan.repairs + [Repair(row.code, Live, ["live:" + row.url])], seen := plan.seen + {row.code})
  }

  function AuditPlan(rows: seq<AuditRow>, entries: Entries): Plan {
    if rows == [] then Plan([], [], [], {})
    else AuditStep(AuditPlan(rows[..|rows| - 1], entries), rows[|rows| - 1], entries)
  }

  function PlanOf(audit: seq<AuditRow>, live: seq<LiveRow>, entries: Entries): Plan {
    if live == [] then AuditPlan(audit, entries)
    else LiveStep(PlanOf(audit, live[..|live| - 1], entries), live[|live| - 1], entries)
  }

  method BuildRepairList(entries: Entries, audit: seq<AuditRow>, live: seq<LiveRow>)
    returns (repairs: seq<Repair>, flags: seq<Flag>, warnings: seq<Warning>)
    ensures var plan := PlanOf(audit, live, entries);
      repairs == plan.repairs && flags == plan.flags && warnings == plan.warnings
  {
    hide IsPlaceholder, AuditPlan, PlanOf;
    repairs, flags, warnings := [], [], [];
    var seen: set<string> := {};
    PlanNone(audit, entries);
    for i := 0 to |audit|
      invariant Plan(repairs, flags, warnings, seen) == AuditPlan(audit[..i], entries)
    {
      PlanNextAudit(audit, i, entries);
      var row := audit[i];
      if row.code == "" || row.code in seen { continue; }
      if row.code !in entries {
        warnings := warnings + [Warning(row.code, NotInDatabase)];
        continue;
      }
      if row.class_ == TURKISH_LAYER { continue; }
      if row.class_ != ENGLISH_LAYER { continue; }
      if entries[row.code].title != row.title {
        warnings := warnings + [Warning(row.code, TitleChanged)];
        continue;
      }
      if IsPlaceholder(entries[row.code].title) {
        warnings := warnings + [Warning(row.code, PlaceholderTitle)];
        continue;
      }
      if |row.votes| >= 2 {
        repairs, seen := repairs + [Repair(row.code, Audit, row.votes)], seen + {row.code};
      } else if |row.votes| == 1 {
        flags, seen := flags + [Flag(row.code, row.votes)], seen + {row.code};
      }
    }
    assert audit[..|audit|] == audit;
    for i := 0 to |live|
      invariant Plan(repairs, flags, warnings, seen) == PlanOf(audit, live[..i], entries)
    {
      PlanNextLive(audit, live, i, entries);
      var row := live[i];
      if row.code == "" || row.code in seen { continue; }
      if row.verdict !in {"source_shifted", "db_title_correct"} { continue; }
      if row.code !in entries {
        warnings := warnings + [Warning(row.code, NotInDatabase)];
        continue;
      }
      repairs, seen := repairs + [Repair(row.code, Live, ["live:" + row.url])], seen + {row.code};
    }
    assert live[..|live|] == live;
  }

  lemma {:induction false} PlanNone(audit: seq<AuditRow>, entries: Entries)
    ensures AuditPlan([], entries) == Plan([], [], [], {})
    ensures PlanOf(audit, [], entries) == AuditPlan(audit, entries)
  {
  }

  lemma {:induction false} PlanNextAudit(audit: seq<AuditRow>, i: nat, entries: Entries)
    requires i < |audit|
    ensures AuditPlan(audit[..i + 1], entries) == AuditStep(AuditPlan(audit[..i], entries), audit[i], entries)
  {
    hide AuditStep;
    assert audit[..i + 1][..i] == audit[..i];
  }

  lemma {:induction false} PlanNextLive(audit: seq<AuditRow>, live: seq<LiveRow>, i: nat, entries: Entries)
    requires i < |live|
    ensures PlanOf(audit, live[..i + 1], entries) == LiveStep(PlanOf(audit, live[..i], entries), live[i], entries)
  {
    hide LiveStep;
    assert live[..i + 1][..i] == live[..i];
  }

  /** Each code is planned once at most: repaired or flagged, and only on its own evidence. */
  ghost predicate Justified(plan: Plan, audit: seq<AuditRow>, live: seq<LiveRow>, entries: Entries) {
    && (forall c :: c in plan.seen <==>
          (exists r :: r in plan.repairs && r.code == c) || (exists f :: f in plan.flags && f.code == c))
    && (forall i, j :: 0 <= i < j < |plan.repairs| ==> plan.repairs[i].code != plan.repairs[j].code)
    && (forall i, j :: 0 <= i < j < |plan.flags| ==> plan.flags[i].code != plan.flags[j].code)
    && (forall r, f :: r in plan.repairs && f in plan.flags ==> r.code != f.code)
    && (forall r :: r in plan.repairs ==> r.code in entries && RepairBasis(r, audit, live, entries))
    && (forall f :: f in plan.flags ==> f.code in entries && |f.votes| == 1)
  }

  ghost predicate RepairBasis(r: Repair, audit: seq<AuditRow>, live: seq<LiveRow>, entries: Entries) {
    match r.evidence
    case Audit =>
      |r.votes| >= 2
      && exists row :: row in audit && row.code == r.code && row.votes == r.votes && Qualifies(row, entries)
    case Live => exists row :: row in live && row.code == r.code && LiveQualifies(row, entries)
  }

  lemma {:induction false} JustifiedAudit(
      plan: Plan, audit: seq<AuditRow>, row: AuditRow, live: seq<LiveRow>, entries: Entries)
    requires Justified(plan, audit, live, entries)
    ensures Justified(AuditStep(plan, row, entries), audit + [row], live, entries)
  {
    hide IsPlaceholder;
    var next := AuditStep(plan, row, entries);
    assert row in audit + [row];
    forall r | r in plan.repairs ensures RepairBasis(r, audit + [row], live, entries) {
      assert RepairBasis(r, audit, live, entries);
    }
    if next.repairs != plan.repairs {
      var r := Repair(row.code, Audit, row.votes);
      assert Qualifies(row, entries);
      assert RepairBasis(r, audit + [row], live, entries);
      assert r in next.repairs;
    }
    if next.flags != plan.flags {
      assert Flag(row.code, row.votes) in next.flags;
    }
    forall c ensures c in next.seen <==>
      (exists r :: r in next.repairs && r.code == c) || (exists f :: f in next.flags && f.code == c)
    {
      SeenGrows(plan, next, c);
    }
  }

  lemma {:induction false} SeenGrows(plan: Plan, next: Plan, c: string)
    requires c in plan.seen <==>
      (exists r :: r in plan.repairs && r.code == c) || (exists f :: f in plan.flags && f.code == c)
    requires
      || (next.repairs == plan.repairs && next.flags == plan.flags && next.seen == plan.seen)
      || (exists r: Repair ::
            next.repairs == plan.repairs + [r] && next.flags == plan.flags && next.seen == plan.seen + {r.code})
      || (exists f: Flag ::
            next.repairs == plan.repairs && next.flags == plan.flags + [f] && next.seen == plan.seen + {f.code})
    ensures c in next.seen <==>
      (exists r :: r in next.repairs && r.code == c) || (exists f :: f in next.flags && f.code == c)
  {
    if r: Repair :| next.repairs == plan.repairs + [r] && next.seen == plan.seen + {r.code} {
      assert r in next.repairs;
      assert forall q :: q in next.repairs <==> q in plan.repairs || q == r;
    } else if f: Flag :| next.flags == plan.flags + [f] && next.seen == plan.seen + {f.code} {
      assert f in next.flags;
      assert forall q :: q in next.flags <==> q in plan.flags || q == f;
    }
  }

  lemma {:induction false} JustifiedLive(
      plan: Plan, audit: seq<AuditRow>, live: seq<LiveRow>, row: LiveRow, entries: Entries)
    requires Justified(plan, audit, live, entries)
    ensures Justified(LiveStep(plan, row, entries), audit, live + [row], entries)
  {
    var next := LiveStep(plan, row, entries);
    assert row in live + [row];
    forall r | r in plan.repairs ensures RepairBasis(r, audit, live + [row], entries) {
      assert RepairBasis(r, audit, live, entries);
    }
    if next.repairs != plan.repairs {
      var r := Repair(row.code, Live, ["live:" + row.url]);
      assert LiveQualifies(row, entries);
      assert RepairBasis(r, audit, live + [row], entries);
      assert r in next.repairs;
    }
    forall c ensures c in next.seen <==>
      (exists r :: r in next.repairs && r.code == c) || (exists f :: f in next.flags && f.code == c)
    {
      SeenGrows(plan, next, c);
    }
  }

  /** The plan is justified: no code twice, every code in the database, every repair on its own evidence. */
  lemma {:induction false} PlanIsJustified(audit: seq<AuditRow>, live: seq<LiveRow>, entries: Entries)
    ensures Justified(PlanOf(audit, live, entries), audit, live, entries)
    decreases |live|, |audit|
  {
    hide Justified, AuditStep, LiveStep;
    if live != [] {
      var n := |live| - 1;
      PlanIsJustified(audit, live[..n], entries);
      JustifiedLive(PlanOf(audit, live[..n], entries), audit, live[..n], live[n], entries);
      assert live[..n] + [live[n]] == live;
    } else if audit != [] {
      var n := |audit| - 1;
      PlanIsJustified(audit[..n], [], entries);
      JustifiedAudit(PlanOf(audit[..n], [], entries), audit[..n], audit[n], [], entries);
      assert audit[..n] + [audit[n]] == audit;
      assert live == [];
    } else {
      NothingPlanned(live, entries);
    }
  }

  lemma {:induction false} NothingPlanned(live: seq<LiveRow>, entries: Entries)
    requires live == []
    ensures Justified(PlanOf([], live, entries), [], live, entries)
  {
    var plan := PlanOf([], live, entries);
    assert plan == Plan([], [], [], {});
  }

  /** Nothing that qualifies is left out of the plan. */
  lemma {:induction false} PlanIsComplete(audit: seq<AuditRow>, live: seq<LiveRow>, entries: Entries)
    ensures forall row :: row in audit && Qualifies(row, entries) && row.votes != [] ==>
      row.code in PlanOf(audit, live, entries).seen
    ensures forall row :: row in live && LiveQualifies(row, entries) ==> row.code in PlanOf(audit, live, entries).seen
    decreases |live|, |audit|
  {
    hide IsPlaceholder;
    if live != [] {
      var n := |live| - 1;
      PlanIsComplete(audit, live[..n], entries);
      assert live == live[..n] + [live[n]];
    } else if audit != [] {
      var n := |audit| - 1;
      PlanIsComplete(audit[..n], [], entries);
      assert audit == audit[..n] + [audit[n]];
      assert PlanOf(audit[..n], [], entries) == AuditPlan(audit[..n], entries);
    }
  }

  // ----------------------------------------------------------- the application

  /** What the apply loop decides on one entry. */
  datatype Verdict = Go | Already | Refused(reason: Reason)

  function VerdictOn(e: Entry): Verdict {
    var prev := Get(e.english, TitleEn);
    if e.marks.repaired then Already
    else if e.marks.skippedAsPlaceholder then Refused(SkippedBefore)
    else if e.title == "" then Refused(NoTitle)
    else if IsPlaceholder(e.title) then Refused(PlaceholderTitle)
    else if prev.Words? && Strip(prev.text) == Strip(e.title) then Refused(AlreadyEqual)
    else Go
  }

  function Repaired(e: Entry, votes: seq<string>): Entry {
    e.(
      english := e.english[TitleEn := Words(e.title)],
      marks := e.marks.(
        repaired := true,
        previous := Get(e.english, TitleEn),
        previousOrigin := if TitleEn in e.origin then e.origin[TitleEn] else "",
        votes := votes))
  }

  function RepairOne(entries: Entries, r: Repair): Entries {
    if r.code in entries && VerdictOn(entries[r.code]).Go?
    then entries[r.code := Repaired(entries[r.code], r.votes)] else entries
  }

  function RepairAll(entries: Entries, repairs: seq<Repair>): Entries {
    if repairs == [] then entries
    else RepairOne(RepairAll(entries, repairs[..|repairs| - 1]), repairs[|repairs| - 1])
  }

  predicate Applies(entries: Entries, r: Repair) { r.code in entries && VerdictOn(entries[r.code]).Go? }

  /** The repairs a run applies; a dry run decides every one on the same database. */
  function AppliedBy(entries: Entries, repairs: seq<Repair>, apply: bool): seq<Repair> {
    if repairs == [] then []
    else
      var n := |repairs| - 1;
      AppliedBy(entries, repairs[..n], apply)
      + if Applies(if apply then RepairAll(entries, repairs[..n]) else entries, repairs[n]) then [repairs[n]] else []
  }

  /** The codes a run lists as repaired before. */
  function AlreadyBy(entries: Entries, repairs: seq<Repair>, apply: bool): seq<string> {
    if repairs == [] then []
    else
      var n := |repairs| - 1;
      AlreadyBy(entries, repairs[..n], apply)
      + if IsAlready(if apply then RepairAll(entries, repairs[..n]) else entries, repairs[n])
        then [repairs[n].code] else []
  }

  predicate IsAlready(entries: Entries, r: Repair) { r.code in entries && VerdictOn(entries[r.code]).Already? }

  /** The warnings a run adds to those of its plan. */
  function WarnedBy(entries: Entries, repairs: seq<Repair>, apply: bool): seq<Warning> {
    if repairs == [] then []
    else
      var n := |repairs| - 1;
      WarnedBy(entries, repairs[..n], apply)
      + WarningOn(if apply then RepairAll(entries, repairs[..n]) else entries, repairs[n])
  }

  function WarningOn(entries: Entries, r: Repair): seq<Warning> {
    if r.code in entries && VerdictOn(entries[r.code]).Refused?
    then [Warning(r.code, VerdictOn(entries[r.code]).reason)] else []
  }

  function FlagOne(entries: Entries, f: Flag): Entries {
    if f.code in entries
      then entries[f.code := entries[f.code].(marks := entries[f.code].marks.(unverified := true))] else entries
  }

  function FlagAll(entries: Entries, flags: seq<Flag>): Entries {
    if flags == [] then entries
    else FlagOne(FlagAll(entries, flags[..|flags| - 1]), flags[|flags| - 1])
  }

  /** The flags a run reports: those not set yet, and in an apply not set by an earlier flag either. */
  function FlaggedBy(entries: Entries, flags: seq<Flag>, apply: bool): seq<string> {
    if flags == [] then []
    else
      var n := |flags| - 1;
      FlaggedBy(entries, flags[..n], apply)
      + if Flags(if apply then FlagAll(entries, flags[..n]) else entries, flags[n]) then [flags[n].code] else []
  }

  predicate Flags(entries: Entries, f: Flag) { f.code in entries && !entries[f.code].marks.unverified }

  class Repairer {
    var entries: Entries

    constructor (entries: Entries)
      ensures this.entries == entries
    {
      this.entries := entries;
    }

    method ApplyRepairs(repairs: seq<Repair>, apply: bool)
      returns (applied: seq<Repair>, already: seq<string>, warnings: seq<Warning>)
      requires forall i :: 0 <= i < |repairs| ==> repairs[i].code in entries
      modifies this
      ensures entries == if apply then RepairAll(old(entries), repairs) else old(entries)
      ensures applied == AppliedBy(old(entries), repairs, apply)
      ensures already == AlreadyBy(old(entries), repairs, apply)
      ensures warnings == WarnedBy(old(entries), repairs, apply)
    {
      hide VerdictOn, Repaired, RepairAll, AppliedBy, AlreadyBy, WarnedBy;
      applied, already, warnings := [], [], [];
      RepairNone(entries, apply);
      for i := 0 to |repairs|
        invariant entries.Keys == old(entries).Keys
        invariant entries == if apply then RepairAll(old(entries), repairs[..i]) else old(entries)
        invariant applied == AppliedBy(old(entries), repairs[..i], apply)
        invariant already == AlreadyBy(old(entries), repairs[..i], apply)
        invariant warnings == WarnedBy(old(entries), repairs[..i], apply)
      {
        RepairNext(old(entries), repairs, i, apply);
        var r := repairs[i];
        var e := entries[r.code];
        match VerdictOn(e) {
          case Already => already := already + [r.code];
          case Refused(reason) => warnings := warnings + [Warning(r.code, reason)];
          case Go =>
            if apply {
              entries := entries[r.code := Repaired(e, r.votes)];
            }
            applied := applied + [r];
        }
      }
      assert repairs[..|repairs|] == repairs;
    }

    method ApplyFlags(flags: seq<Flag>, apply: bool) returns (flagged: seq<string>)
      requires forall i :: 0 <= i < |flags| ==> flags[i].code in entries
      modifies this
      ensures entries == if apply then FlagAll(old(entries), flags) else old(entries)
      ensures flagged == FlaggedBy(old(entries), flags, apply)
    {
      hide FlagAll, FlaggedBy;
      flagged := [];
      FlagNone(entries, apply);
      for i := 0 to |flags|
        invariant entries.Keys == old(entries).Keys
        invariant entries == if apply then FlagAll(old(entries), flags[..i]) else old(entries)
        invariant flagged == FlaggedBy(old(entries), flags[..i], apply)
      {
        FlagNext(old(entries), flags, i, apply);
        var e := entries[flags[i].code];
        if e.marks.unverified {
          assert e.(marks := e.marks.(unverified := true)) == e;
          assert entries[flags[i].code := e] == entries;
          continue;
        }
        if apply {
          entries := entries[flags[i].code := e.(marks := e.marks.(unverified := true))];
        }
        flagged := flagged + [flags[i].code];
      }
      assert flags[..|flags|] == flags;
    }
  }

  lemma {:induction false} RepairNone(entries: Entries, apply: bool)
    ensures RepairAll(entries, []) == entries && AppliedBy(entries, [], apply) == []
    ensures AlreadyBy(entries, [], apply) == [] && WarnedBy(entries, [], apply) == []
  {
  }

  lemma {:induction false} RepairNext(entries: Entries, repairs: seq<Repair>, i: nat, apply: bool)
    requires i < |repairs|
    ensures RepairAll(entries, repairs[..i + 1]) == RepairOne(RepairAll(entries, repairs[..i]), repairs[i])
    ensures AppliedBy(entries, repairs[..i + 1], apply) ==
      AppliedBy(entries, repairs[..i], apply)
      + if Applies(if apply then RepairAll(entries, repairs[..i]) else entries, repairs[i]) then [repairs[i]] else []
    ensures AlreadyBy(entries, repairs[..i + 1], apply) ==
      AlreadyBy(entries, repairs[..i], apply)
      + if IsAlready(if apply then RepairAll(entries, repairs[..i]) else entries, repairs[i])
        then [repairs[i].code] else []
    ensures WarnedBy(entries, repairs[..i + 1], apply) ==
      WarnedBy(entries, repairs[..i], apply)
      + WarningOn(if apply then RepairAll(entries, repairs[..i]) else entries, repairs[i])
  {
    hide VerdictOn, RepairOne, Applies, IsAlready, WarningOn;
    assert repairs[..i + 1][..i] == repairs[..i];
  }

  lemma {:induction false} FlagNone(entries: Entries, apply: bool)
    ensures FlagAll(entries, []) == entries && FlaggedBy(entries, [], apply) == []
  {
  }

  lemma {:induction false} FlagNext(entries: Entries, flags: seq<Flag>, i: nat, apply: bool)
    requires i < |flags|
    ensures FlagAll(entries, flags[..i + 1]) == FlagOne(FlagAll(entries, flags[..i]), flags[i])
    ensures FlaggedBy(entries, flags[..i + 1], apply) ==
      FlaggedBy(entries, flags[..i], apply)
      + if Flags(if apply then FlagAll(entries, flags[..i]) else entries, flags[i]) then [flags[i].code] else []
  {
    hide FlagOne, Flags;
    assert flags[..i + 1][..i] == flags[..i];
  }

  // ------------------------------------------------------------- repairing twice

  /** A repair that does not apply never comes to apply through other repairs. */
  lemma {:induction false} RefusedStays(entries: Entries, r: Repair, other: Repair)
    requires !Applies(entries, r)
    ensures !Applies(RepairOne(entries, other), r)
  {
    hide IsPlaceholder, Strip;
  }

  lemma {:induction false} AppliesOnce(entries: Entries, repairs: seq<Repair>)
    ensures forall r :: r in repairs ==> !Applies(RepairAll(entries, repairs), r)
  {
    hide VerdictOn;
    if repairs != [] {
      var n := |repairs| - 1;
      var before := RepairAll(entries, repairs[..n]);
      AppliesOnce(entries, repairs[..n]);
      assert repairs == repairs[..n] + [repairs[n]];
      forall r | r in repairs ensures !Applies(RepairOne(before, repairs[n]), r) {
        if r in repairs[..n] { RefusedStays(before, r, repairs[n]); } else { RepairedRefuses(before, r); }
      }
    }
  }

  lemma {:induction false} RepairedRefuses(entries: Entries, r: Repair)
    ensures !Applies(RepairOne(entries, r), r)
  {
    hide IsPlaceholder, Strip;
  }

  lemma {:induction false} NothingApplies(entries: Entries, repairs: seq<Repair>, apply: bool)
    requires forall r :: r in repairs ==> !Applies(entries, r)
    ensures RepairAll(entries, repairs) == entries && AppliedBy(entries, repairs, apply) == []
  {
    hide VerdictOn;
    if repairs != [] {
      var n := |repairs| - 1;
      NothingApplies(entries, repairs[..n], apply);
      assert repairs[n] in repairs;
    }
  }

  /** A second run of the same repairs applies nothing and changes nothing. */
  lemma {:induction false} SecondRunAppliesNothing(entries: Entries, repairs: seq<Repair>)
    ensures var once := RepairAll(entries, repairs);
      RepairAll(once, repairs) == once && AppliedBy(once, repairs, true) == []
  {
    hide Applies, RepairAll;
    AppliesOnce(entries, repairs);
    NothingApplies(RepairAll(entries, repairs), repairs, true);
  }

  /** The plan reads titles only, so it is the same after any writes that keep them. */
  lemma {:induction false} PlanSameTitles(audit: seq<AuditRow>, live: seq<LiveRow>, a: Entries, b: Entries)
    requires SameTitles(a, b)
    ensures PlanOf(audit, live, a) == PlanOf(audit, live, b)
    decreases |live|, |audit|
  {
    hide IsPlaceholder;
    if live != [] {
      PlanSameTitles(audit, live[..|live| - 1], a, b);
    } else if audit != [] {
      PlanSameTitles(audit[..|audit| - 1], [], a, b);
      assert PlanOf(audit[..|audit| - 1], [], a) == AuditPlan(audit[..|audit| - 1], a);
      assert PlanOf(audit[..|audit| - 1], [], b) == AuditPlan(audit[..|audit| - 1], b);
    }
  }

  lemma {:induction false} RepairsKeepTitles(entries: Entries, repairs: seq<Repair>)
    ensures SameTitles(entries, RepairAll(entries, repairs))
  {
    hide VerdictOn;
    if repairs != [] { RepairsKeepTitles(entries, repairs[..|repairs| - 1]); }
  }

  /** What flags do to one entry: the mark, if any of them names it. */
  lemma {:induction false} FlagsAt(entries: Entries, flags: seq<Flag>, code: string)
    requires code in entries
    ensures FlagAll(entries, flags).Keys == entries.Keys
    ensures var e, after := entries[code], FlagAll(entries, flags)[code];
      && after == e.(marks := e.marks.(unverified := after.marks.unverified))
      && (after.marks.unverified <==> e.marks.unverified || exists f :: f in flags && f.code == code)
  {
    if flags != [] {
      var n := |flags| - 1;
      FlagsAt(entries, flags[..n], code);
      assert flags == flags[..n] + [flags[n]];
    }
  }

  function RunOf(entries: Entries, plan: Plan): Entries { FlagAll(RepairAll(entries, plan.repairs), plan.flags) }

  /** A whole run on the same evidence, done again, plans the same and writes nothing. */
  lemma {:induction false} SecondRunWritesNothing(entries: Entries, audit: seq<AuditRow>, live: seq<LiveRow>)
    ensures var plan := PlanOf(audit, live, entries);
      var once := RunOf(entries, plan);
      && PlanOf(audit, live, once) == plan
      && AppliedBy(once, plan.repairs, true) == []
      && RunOf(once, plan) == once
  {
    hide VerdictOn, RepairAll, FlagAll, AppliedBy, PlanOf, Applies;
    var plan := PlanOf(audit, live, entries);
    var repaired := RepairAll(entries, plan.repairs);
    var once := FlagAll(repaired, plan.flags);
    RepairsKeepTitles(entries, plan.repairs);
    FlagsKeepKeys(repaired, plan.flags);
    forall c | c in entries ensures once[c].title == entries[c].title {
      FlagsAt(repaired, plan.flags, c);
    }
    PlanSameTitles(audit, live, entries, once);
    AppliesOnce(entries, plan.repairs);
    forall r | r in plan.repairs ensures !Applies(once, r) {
      FlagsKeepRefusal(repaired, plan.flags, r);
    }
    NothingApplies(once, plan.repairs, true);
    FlagsKeepKeys(once, plan.flags);
    forall c | c in once ensures FlagAll(once, plan.flags)[c] == once[c] {
      FlagsAt(repaired, plan.flags, c);
      FlagsAt(once, plan.flags, c);
    }
    assert FlagAll(once, plan.flags) == once;
  }

  lemma {:induction false} FlagsKeepKeys(entries: Entries, flags: seq<Flag>)
    ensures FlagAll(entries, flags).Keys == entries.Keys
  {
    if flags != [] { FlagsKeepKeys(entries, flags[..|flags| - 1]); }
  }

  lemma {:induction false} FlagsKeepRefusal(entries: Entries, flags: seq<Flag>, r: Repair)
    requires !Applies(entries, r)
    ensures !Applies(FlagAll(entries, flags), r)
  {
    hide FlagAll, IsPlaceholder, Strip;
    FlagsKeepKeys(entries, flags);
    if r.code in entries { FlagsAt(entries, flags, r.code); }
  }

  lemma {:induction false} OtherCode(entries: Entries, repairs: seq<Repair>, code: string)
    requires code in entries && forall i :: 0 <= i < |repairs| ==> repairs[i].code != code
    ensures code in RepairAll(entries, repairs) && RepairAll(entries, repairs)[code] == entries[code]
  {
    hide VerdictOn;
    if repairs != [] { OtherCode(entries, repairs[..|repairs| - 1], code); }
  }

  predicate Distinct(repairs: seq<Repair>) {
    forall i, j :: 0 <= i < j < |repairs| ==> repairs[i].code != repairs[j].code
  }

  /** With distinct codes the last repair is decided on its entry as it was at the start. */
  lemma {:induction false} LastListed(entries: Entries, repairs: seq<Repair>, apply: bool)
    requires repairs != [] && Distinct(repairs) && repairs[|repairs| - 1].code in entries
    ensures var n := |repairs| - 1;
      && AppliedBy(entries, repairs, apply)
         == AppliedBy(entries, repairs[..n], apply) + (if Applies(entries, repairs[n]) then [repairs[n]] else [])
      && AlreadyBy(entries, repairs, apply)
         == AlreadyBy(entries, repairs[..n], apply)
            + (if IsAlready(entries, repairs[n]) then [repairs[n].code] else [])
      && WarnedBy(entries, repairs, apply)
         == WarnedBy(entries, repairs[..n], apply) + WarningOn(entries, repairs[n])
      && |WarningOn(entries, repairs[n])|
         == if Applies(entries, repairs[n]) || IsAlready(entries, repairs[n]) then 0 else 1
  {
    hide VerdictOn, RepairAll;
    OtherCode(entries, repairs[..|repairs| - 1], repairs[|repairs| - 1].code);
  }

  /**
   * Of repairs with distinct codes each is listed once, by its entry's verdict at the start
   * of the run, whether the run applies or only reports.
   */
  lemma {:induction false} ListedByVerdict(entries: Entries, repairs: seq<Repair>, apply: bool)
    requires Distinct(repairs) && forall i :: 0 <= i < |repairs| ==> repairs[i].code in entries
    ensures forall r :: r in AppliedBy(entries, repairs, apply) <==> r in repairs && Applies(entries, r)
    ensures forall c :: c in AlreadyBy(entries, repairs, apply) <==>
      exists r :: r in repairs && IsAlready(entries, r) && r.code == c
    ensures forall w :: w in WarnedBy(entries, repairs, apply) <==>
      exists r :: r in repairs && w in WarningOn(entries, r)
    ensures |AppliedBy(entries, repairs, apply)| + |AlreadyBy(entries, repairs, apply)|
      + |WarnedBy(entries, repairs, apply)| == |repairs|
  {
    hide Applies, IsAlready, WarningOn;
    if repairs == [] {
      RepairNone(entries, apply);
    } else {
      hide AppliedBy, AlreadyBy, WarnedBy;
      var n := |repairs| - 1;
      ListedByVerdict(entries, repairs[..n], apply);
      LastListed(entries, repairs, apply);
      OneVerdict(entries, repairs[n]);
      assert forall r :: r in repairs <==> r in repairs[..n] || r == repairs[n];
    }
  }

  /** The plan names no code twice, so its dry run lists exactly what an apply lists. */
  lemma {:induction false} DryRunListsTheRepairs(entries: Entries, repairs: seq<Repair>)
    requires Distinct(repairs) && forall i :: 0 <= i < |repairs| ==> repairs[i].code in entries
    ensures AppliedBy(entries, repairs, true) == AppliedBy(entries, repairs, false)
    ensures AlreadyBy(entries, repairs, true) == AlreadyBy(entries, repairs, false)
    ensures WarnedBy(entries, repairs, true) == WarnedBy(entries, repairs, false)
  {
    hide Applies, IsAlready, WarningOn;
    if repairs == [] {
      RepairNone(entries, true);
      RepairNone(entries, false);
    } else {
      hide AppliedBy, AlreadyBy, WarnedBy;
      DryRunListsTheRepairs(entries, repairs[..|repairs| - 1]);
      LastListed(entries, repairs, true);
      LastListed(entries, repairs, false);
    }
  }

  lemma {:induction false} OneVerdict(entries: Entries, r: Repair)
    ensures !(Applies(entries, r) && IsAlready(entries, r))
  {
    hide VerdictOn;
  }

  // ---------------------------------------------------------- foreign titles

  /** The text under which an entry's English title is compared. */
  function Shown(v: Value): string { if v.Words? then v.text else NormStr(v) }

  /** The codes whose English title is the title of another code. */
  function ForeignTitled(entries: Entries, index: Index): set<string> {
    set c | c in entries && Foreign(Shown(Get(entries[c].english, TitleEn)), entries[c].title, index, c)
  }

  datatype Write = Merging(rec: Record) | Repairing(repair: Repair) | Flagging(flag: Flag)

  function Wrote(entries: Entries, w: Write, index: Index, anchor: Anchor): Entries {
    match w
    case Merging(rec) => MergeOne(entries, rec, index, anchor)
    case Repairing(r) => RepairOne(entries, r)
    case Flagging(f) => FlagOne(entries, f)
  }

  function WroteAll(entries: Entries, ws: seq<Write>, index: Index, anchor: Anchor): Entries {
    if ws == [] then entries
    else Wrote(WroteAll(entries, ws[..|ws| - 1], index, anchor), ws[|ws| - 1], index, anchor)
  }

  lemma {:induction false} OwnTitleIsNotForeign(title: string, index: Index, code: string)
    ensures !Foreign(title, title, index, code)
  {
    hide TitleKey;
  }

  lemma {:induction false} MergedTitle(e: Entry, rec: Record, index: Index, code: string, anchor: Anchor)
    requires Foreign(Shown(Get(EntryAfter(e, Gated(rec, GateOf(e, rec, index, code, anchor))).english, TitleEn)),
      e.title, index, code)
    ensures Foreign(Shown(Get(e.english, TitleEn)), e.title, index, code)
  {
    hide EntryAfter, Foreign, NormStr, Strip, UrlOf;
    var g := Gated(rec, GateOf(e, rec, index, code, anchor));
    PartsAfter(e, g, TitleEn);
  }

  /** One write of either kind adds no foreign title, and keeps every title. */
  lemma {:induction false} NoNewForeignTitle(entries: Entries, w: Write, index: Index, anchor: Anchor)
    ensures SameTitles(entries, Wrote(entries, w, index, anchor))
    ensures ForeignTitled(Wrote(entries, w, index, anchor), index) <= ForeignTitled(entries, index)
  {
    hide EntryAfter, Foreign, Shown, GateOf, KeyFor, VerdictOn, TitleIndex;
    match w
    case Merging(rec) =>
      TitlesStay(entries, rec, index, anchor);
      if Known(entries, rec) {
        var code := KeyFor(rec).value;
        var after := MergeOne(entries, rec, index, anchor);
        forall c | c in ForeignTitled(after, index) ensures c in ForeignTitled(entries, index) {
          if c == code { MergedTitle(entries[code], rec, index, code, anchor); }
        }
      }
    case Repairing(r) =>
      if r.code in entries {
        OwnTitleIsNotForeign(entries[r.code].title, index, r.code);
        ShownTitle(entries[r.code].title);
      }
    case Flagging(f) =>
  }

  lemma {:induction false} ShownTitle(title: string)
    ensures Shown(Words(title)) == title
  {
  }

  /**
   * Over any sequence of merges, repairs and flags the title index is that of the start,
   * and the set of codes under another code's title never grows.
   */
  lemma {:induction false} ForeignTitlesNeverGrow(entries: Entries, ws: seq<Write>, anchor: Anchor)
    ensures var index := TitleIndex(entries);
      var after := WroteAll(entries, ws, index, anchor);
      && TitleIndex(after) == index
      && ForeignTitled(after, TitleIndex(after)) <= ForeignTitled(entries, index)
  {
    hide Wrote, TitleIndex, ForeignTitled;
    NeverGrows(entries, ws, TitleIndex(entries), anchor);
    IndexStable(entries, WroteAll(entries, ws, TitleIndex(entries), anchor));
  }

  lemma {:induction false} NeverGrows(entries: Entries, ws: seq<Write>, index: Index, anchor: Anchor)
    ensures SameTitles(entries, WroteAll(entries, ws, index, anchor))
    ensures ForeignTitled(WroteAll(entries, ws, index, anchor), index) <= ForeignTitled(entries, index)
  {
    hide Wrote, ForeignTitled;
    if ws != [] {
      var n := |ws| - 1;
      NeverGrows(entries, ws[..n], index, anchor);
      NoNewForeignTitle(WroteAll(entries, ws[..n], index, anchor), ws[n], index, anchor);
    }
  }

  lemma {:induction false} RepairedLeaves(entries: Entries, r: Repair, index: Index)
    requires Applies(entries, r)
    ensures r.code !in ForeignTitled(RepairOne(entries, r), index)
  {
    hide Foreign, VerdictOn;
    OwnTitleIsNotForeign(entries[r.code].title, index, r.code);
  }

  /** A code that a repair changes is out of the set, and stays out whatever is written later. */
  lemma {:induction false} RepairedStaysOut(entries: Entries, r: Repair, ws: seq<Write>, anchor: Anchor)
    requires Applies(entries, r)
    ensures var after := WroteAll(RepairOne(entries, r), ws, TitleIndex(entries), anchor);
      && TitleIndex(after) == TitleIndex(entries)
      && r.code !in ForeignTitled(after, TitleIndex(after))
  {
    hide Wrote, TitleIndex, ForeignTitled, Applies, RepairOne;
    var index := TitleIndex(entries);
    var repaired := RepairOne(entries, r);
    RepairedLeaves(entries, r, index);
    RepairsKeepTitles(entries, [r]);
    assert RepairAll(entries, [r]) == repaired by { assert [r][..0] == [] && RepairAll(entries, []) == entries; }
    IndexStable(entries, repaired);
    ForeignTitlesNeverGrow(repaired, ws, anchor);
  }
}
