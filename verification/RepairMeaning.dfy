// What a plan of title repairs holds, code by code, and what a repaired entry looks like.
module RepairMeaning {
  import opened Wrappers
  import opened Text
  import opened MergeValues
  import opened DtcMerge
  import opened TitleRepair
  import ValueLaws

  // ------------------------------------------------------------------ placeholders

  /** The title spells, in any case, that it names a class of codes and no fault. */
  ghost predicate NamesAClass(title: string) {
    exists before, spelled, after :: title == before + spelled + after && ClassPhrase(Lower(spelled))
  }

  predicate ClassPhrase(phrase: string) {
    || phrase == "generic (sae"
    || phrase == "reserved"
    || phrase == "manufacturer-specific"
    || phrase == "body dtc code"
    || phrase == "iso/sae reserved"
  }

  lemma {:induction false} PlaceholderIff(title: string)
    ensures IsPlaceholder(title) <==> NamesAClass(title)
  {
    hide MentionsAny, Lower;
    var phrases := PLACEHOLDER_PHRASES;
    assert phrases[0] == "generic (sae" && phrases[1] == "reserved" && phrases[2] == "manufacturer-specific";
    assert phrases[3] == "body dtc code" && phrases[4] == "iso/sae reserved";
    if IsPlaceholder(title) {
      var before, spelled, after := ValueLaws.MentionedIsSpelled(title, phrases);
      assert title == before + spelled + after && ClassPhrase(Lower(spelled));
    }
    if NamesAClass(title) {
      var before, spelled, after :| title == before + spelled + after && ClassPhrase(Lower(spelled));
      ValueLaws.LowerLength(spelled);
      ValueLaws.SpelledIsMentioned(before, spelled, after, phrases);
    }
  }

  // ---------------------------------------------------------------------- the plan

  /** A row of the audit that speaks for repairing or flagging the code. */
  ghost predicate Votes(row: AuditRow, c: string, entries: Entries) {
    && row.code == c != "" && c in entries && row.votes != []
    && Audited(row, entries[c].title) && !NamesAClass(row.title)
  }

  /** The audit put the fault in the English layer, and the title is still the one it saw. */
  predicate Audited(row: AuditRow, title: string) { row.class_ == "DB error (EN layer)" && row.title == title }

  /** A live check that speaks for repairing the code. */
  predicate Confirms(row: LiveRow, c: string, entries: Entries) {
    row.code == c != "" && c in entries && (row.verdict == "source_shifted" || row.verdict == "db_title_correct")
  }

  /** The first row that speaks for a code, if any does. */
  ghost function Vote(rows: seq<AuditRow>, c: string, entries: Entries): Option<AuditRow> {
    if rows == [] then None
    else
      var n := |rows| - 1;
      var before := Vote(rows[..n], c, entries);
      if before.None? && Votes(rows[n], c, entries) then Some(rows[n]) else before
  }

  ghost function Check(rows: seq<LiveRow>, c: string, entries: Entries): Option<LiveRow> {
    if rows == [] then None
    else
      var n := |rows| - 1;
      var before := Check(rows[..n], c, entries);
      if before.None? && Confirms(rows[n], c, entries) then Some(rows[n]) else before
  }

  lemma {:induction false} VoteIs(rows: seq<AuditRow>, c: string, entries: Entries)
    ensures match Vote(rows, c, entries)
      case None => forall k :: 0 <= k < |rows| ==> !Votes(rows[k], c, entries)
      case Some(row) =>
        (exists k ::
          0 <= k < |rows| && rows[k] == row && Votes(row, c, entries)
          && forall i :: 0 <= i < k ==> !Votes(rows[i], c, entries))
  {
    hide Votes;
    if rows != [] {
      var n := |rows| - 1;
      VoteIs(rows[..n], c, entries);
      if row :| Vote(rows[..n], c, entries) == Some(row) {
        var k :| 0 <= k < n && rows[..n][k] == row && forall i :: 0 <= i < k ==> !Votes(rows[..n][i], c, entries);
        assert rows[k] == row && forall i :: 0 <= i < k ==> rows[i] == rows[..n][i];
      } else {
        assert forall k :: 0 <= k < n ==> rows[k] == rows[..n][k];
      }
    }
  }

  lemma {:induction false} CheckIs(rows: seq<LiveRow>, c: string, entries: Entries)
    ensures match Check(rows, c, entries)
      case None => forall k :: 0 <= k < |rows| ==> !Confirms(rows[k], c, entries)
      case Some(row) =>
        (exists k ::
          0 <= k < |rows| && rows[k] == row && Confirms(row, c, entries)
          && forall i :: 0 <= i < k ==> !Confirms(rows[i], c, entries))
  {
    hide Confirms;
    if rows != [] {
      var n := |rows| - 1;
      CheckIs(rows[..n], c, entries);
      if row :| Check(rows[..n], c, entries) == Some(row) {
        var k :| 0 <= k < n && rows[..n][k] == row && forall i :: 0 <= i < k ==> !Confirms(rows[..n][i], c, entries);
        assert rows[k] == row && forall i :: 0 <= i < k ==> rows[i] == rows[..n][i];
      } else {
        assert forall k :: 0 <= k < n ==> rows[k] == rows[..n][k];
      }
    }
  }

  lemma {:induction false} VotesIff(row: AuditRow, entries: Entries)
    ensures Votes(row, row.code, entries) <==> Qualifies(row, entries) && row.votes != []
  {
    hide IsPlaceholder, NamesAClass;
    PlaceholderIff(row.title);
  }

  /**
   * What is planned for a code: the first row of the audit that speaks for it decides, a
   * repair on two votes or more and a flag on one; where none speaks, the first live check.
   */
  ghost predicate Planned(plan: Plan, vote: Option<AuditRow>, check: Option<LiveRow>, c: string) {
    && (c in plan.seen <==> vote.Some? || check.Some?)
    && (forall r :: r in plan.repairs && r.code == c <==>
          || (vote.Some? && |vote.value.votes| >= 2 && r == Repair(c, Audit, vote.value.votes))
          || (vote.None? && check.Some? && r == Repair(c, Live, ["live:" + check.value.url])))
    && (forall f :: f in plan.flags && f.code == c <==>
          vote.Some? && |vote.value.votes| == 1 && f == Flag(c, vote.value.votes))
  }

  lemma {:induction false} PlannedByAudit(rows: seq<AuditRow>, c: string, entries: Entries)
    ensures Planned(AuditPlan(rows, entries), Vote(rows, c, entries), None, c)
  {
    hide Planned, AuditStep, Votes;
    if rows == [] {
      NothingPlannedFor(c, entries);
    } else {
      var n := |rows| - 1;
      PlannedByAudit(rows[..n], c, entries);
      PlannedByRow(AuditPlan(rows[..n], entries), Vote(rows[..n], c, entries), rows[n], c, entries);
    }
  }

  lemma {:induction false} NothingPlannedFor(c: string, entries: Entries)
    ensures Planned(AuditPlan([], entries), None, None, c)
  {
  }

  lemma {:induction false} PlannedByRow(
      plan: Plan, vote: Option<AuditRow>, row: AuditRow, c: string, entries: Entries)
    requires Planned(plan, vote, None, c)
    ensures Planned(
      AuditStep(plan, row, entries), if vote.None? && Votes(row, c, entries) then Some(row) else vote, None, c)
  {
    hide IsPlaceholder, NamesAClass;
    VotesIff(row, entries);
  }

  lemma {:induction false} PlannedIs(audit: seq<AuditRow>, live: seq<LiveRow>, c: string, entries: Entries)
    ensures Planned(PlanOf(audit, live, entries), Vote(audit, c, entries), Check(live, c, entries), c)
  {
    hide Planned, LiveStep, Confirms;
    if live == [] {
      PlannedByAudit(audit, c, entries);
    } else {
      var n := |live| - 1;
      PlannedIs(audit, live[..n], c, entries);
      PlannedByCheck(
        PlanOf(audit, live[..n], entries), Vote(audit, c, entries), Check(live[..n], c, entries), live[n], c, entries);
    }
  }

  lemma {:induction false} PlannedByCheck(
      plan: Plan, vote: Option<AuditRow>, check: Option<LiveRow>, row: LiveRow, c: string, entries: Entries)
    requires Planned(plan, vote, check, c)
    ensures Planned(
      LiveStep(plan, row, entries), vote, if check.None? && Confirms(row, c, entries) then Some(row) else check, c)
  {
  }

  /** Later rows only add to a plan, behind what it holds. */
  lemma {:induction false} PlanGrows(audit: seq<AuditRow>, live: seq<LiveRow>, entries: Entries, i: nat, j: nat)
    requires i <= |audit| && j <= |live| && (j > 0 ==> i == |audit|)
    ensures var part, whole := PlanOf(audit[..i], live[..j], entries), PlanOf(audit, live, entries);
      part.repairs <= whole.repairs && part.flags <= whole.flags && part.warnings <= whole.warnings
    decreases |live| - j, |audit| - i
  {
    hide AuditStep, LiveStep;
    if j < |live| && i == |audit| {
      PlanGrows(audit, live, entries, i, j + 1);
      assert audit[..i] == audit && live[..j + 1][..j] == live[..j];
      StepGrows(PlanOf(audit, live[..j], entries), AuditRow("", "", [], ""), live[j], entries);
    } else if i < |audit| {
      PlanGrows(audit, live, entries, i + 1, 0);
      assert audit[..i + 1][..i] == audit[..i] && live[..0] == [];
      StepGrows(AuditPlan(audit[..i], entries), audit[i], LiveRow("", "", ""), entries);
    } else {
      assert audit[..i] == audit && live[..j] == live;
    }
  }

  lemma {:induction false} StepGrows(plan: Plan, row: AuditRow, check: LiveRow, entries: Entries)
    ensures var next := AuditStep(plan, row, entries);
      plan.repairs <= next.repairs && plan.flags <= next.flags && plan.warnings <= next.warnings
    ensures var next := LiveStep(plan, check, entries);
      plan.repairs <= next.repairs && plan.flags <= next.flags && plan.warnings <= next.warnings
  {
    hide IsPlaceholder;
  }

  // ------------------------------------------------------------------- the warnings

  /** Why a row of the audit is passed over with a warning, unless its code is planned already. */
  ghost predicate Passed(row: AuditRow, w: Warning, entries: Entries) {
    && row.code == w.code != ""
    && match w.reason
       case NotInDatabase => w.code !in entries
       case TitleChanged =>
         w.code in entries && row.class_ == "DB error (EN layer)" && row.title != entries[w.code].title
       case PlaceholderTitle => w.code in entries && Audited(row, entries[w.code].title) && NamesAClass(row.title)
       case _ => false
  }

  predicate CheckedInVain(row: LiveRow, w: Warning, entries: Entries) {
    && w.reason == NotInDatabase && row.code == w.code != "" && w.code !in entries
    && (row.verdict == "source_shifted" || row.verdict == "db_title_correct")
  }

  /** A code is warned of by each row that is passed over before a row speaks for it, and by vain live checks. */
  lemma {:induction false} WarnedIs(audit: seq<AuditRow>, live: seq<LiveRow>, w: Warning, entries: Entries)
    ensures w in PlanOf(audit, live, entries).warnings <==>
      || (exists k :: 0 <= k < |audit| && Passed(audit[k], w, entries) && Vote(audit[..k], w.code, entries) == None)
      || (exists k :: 0 <= k < |live| && CheckedInVain(live[k], w, entries))
  {
    hide Passed, CheckedInVain, LiveStep;
    if live == [] {
      WarnedByAudit(audit, w, entries);
    } else {
      var n := |live| - 1;
      WarnedIs(audit, live[..n], w, entries);
      PlannedIs(audit, live[..n], w.code, entries);
      if w.code !in entries { UnknownIsUnplanned(audit, live[..n], w.code, entries); }
      WarnedByCheck(
        PlanOf(audit, live[..n], entries), Vote(audit, w.code, entries), Check(live[..n], w.code, entries), live[n], w,
        entries);
      assert forall k :: 0 <= k < n ==> live[k] == live[..n][k];
    }
  }

  lemma {:induction false} WarnedByCheck(
      plan: Plan, vote: Option<AuditRow>, check: Option<LiveRow>, row: LiveRow, w: Warning, entries: Entries)
    requires Planned(plan, vote, check, w.code) && (w.code !in entries ==> vote.None? && check.None?)
    ensures w in LiveStep(plan, row, entries).warnings <==> w in plan.warnings || CheckedInVain(row, w, entries)
  {
  }

  lemma {:induction false} WarnedByAudit(rows: seq<AuditRow>, w: Warning, entries: Entries)
    ensures w in AuditPlan(rows, entries).warnings <==>
      exists k :: 0 <= k < |rows| && Passed(rows[k], w, entries) && Vote(rows[..k], w.code, entries) == None
  {
    hide Passed, AuditStep, Planned, Votes;
    if rows != [] {
      var n := |rows| - 1;
      WarnedByAudit(rows[..n], w, entries);
      PlannedByAudit(rows[..n], w.code, entries);
      WarnedByRow(AuditPlan(rows[..n], entries), Vote(rows[..n], w.code, entries), rows[n], w, entries);
      assert forall k :: 0 <= k < n ==> rows[k] == rows[..n][k] && rows[..k] == rows[..n][..k];
    }
  }

  lemma {:induction false} WarnedByRow(
      plan: Plan, vote: Option<AuditRow>, row: AuditRow, w: Warning, entries: Entries)
    requires Planned(plan, vote, None, w.code)
    ensures w in AuditStep(plan, row, entries).warnings <==>
      w in plan.warnings || (Passed(row, w, entries) && vote.None?)
  {
    hide IsPlaceholder, NamesAClass;
    PlaceholderIff(row.title);
  }

  lemma {:induction false} UnknownIsUnplanned(audit: seq<AuditRow>, live: seq<LiveRow>, c: string, entries: Entries)
    requires c !in entries
    ensures Vote(audit, c, entries) == None && Check(live, c, entries) == None
  {
    VoteIs(audit, c, entries);
    CheckIs(live, c, entries);
  }

  // --------------------------------------------------------------- the application

  /** The English title is the entry's own already, but for white space at its ends. */
  predicate SaysItsTitle(e: Entry) {
    TitleEn in e.english && e.english[TitleEn].Words? && Strip(e.english[TitleEn].text) == Strip(e.title)
  }

  /** An entry that a repair changes. */
  ghost predicate Ready(e: Entry) {
    !e.marks.repaired && !e.marks.skippedAsPlaceholder && e.title != "" && !NamesAClass(e.title) && !SaysItsTitle(e)
  }

  /** Each verdict, with the first reason that holds. */
  lemma {:induction false} VerdictIs(e: Entry)
    ensures VerdictOn(e) == Already <==> e.marks.repaired
    ensures VerdictOn(e) == Go <==> Ready(e)
    ensures VerdictOn(e) == Refused(SkippedBefore) <==> !e.marks.repaired && e.marks.skippedAsPlaceholder
    ensures VerdictOn(e) == Refused(NoTitle) <==>
      !e.marks.repaired && !e.marks.skippedAsPlaceholder && e.title == ""
    ensures VerdictOn(e) == Refused(PlaceholderTitle) <==>
      !e.marks.repaired && !e.marks.skippedAsPlaceholder && e.title != "" && NamesAClass(e.title)
    ensures VerdictOn(e) == Refused(AlreadyEqual) <==>
      && !e.marks.repaired && !e.marks.skippedAsPlaceholder && e.title != "" && !NamesAClass(e.title)
      && SaysItsTitle(e)
  {
    hide IsPlaceholder, NamesAClass, Strip;
    PlaceholderIff(e.title);
  }

  /** A repaired entry has its own title as its English one, keeps what was there, and nothing else changes. */
  predicate RepairedFrom(after: Entry, e: Entry, votes: seq<string>) {
    && after == e.(english := after.english, marks := after.marks)
    && after.english == e.english[TitleEn := Words(e.title)]
    && after.marks.repaired && after.marks.votes == votes
    && after.marks.skippedAsPlaceholder == e.marks.skippedAsPlaceholder
    && after.marks.unverified == e.marks.unverified
    && after.marks.previous == (if TitleEn in e.english then e.english[TitleEn] else Null)
    && after.marks.previousOrigin == (if TitleEn in e.origin then e.origin[TitleEn] else "")
  }

  /** What repairs with distinct codes leave of each entry. */
  lemma {:induction false} RepairsLeave(entries: Entries, repairs: seq<Repair>, c: string)
    requires Distinct(repairs) && c in entries
    ensures RepairAll(entries, repairs).Keys == entries.Keys
    ensures forall r :: r in repairs && r.code == c && Ready(entries[c]) ==>
      RepairedFrom(RepairAll(entries, repairs)[c], entries[c], r.votes)
    ensures !Ready(entries[c]) || (forall r :: r in repairs ==> r.code != c) ==>
      RepairAll(entries, repairs)[c] == entries[c]
  {
    hide RepairOne, RepairedFrom, Ready;
    if repairs != [] {
      var n := |repairs| - 1;
      RepairsLeave(entries, repairs[..n], c);
      assert repairs == repairs[..n] + [repairs[n]];
      RepairLeaves(RepairAll(entries, repairs[..n]), repairs[n], c);
      if repairs[n].code == c { OtherCode(entries, repairs[..n], c); }
    }
  }

  lemma {:induction false} RepairLeaves(entries: Entries, r: Repair, c: string)
    requires c in entries
    ensures var after := RepairOne(entries, r);
      && after.Keys == entries.Keys
      && (r.code == c && Ready(entries[c]) ==> RepairedFrom(after[c], entries[c], r.votes))
      && (r.code != c || !Ready(entries[c]) ==> after[c] == entries[c])
  {
    hide Ready, VerdictOn;
    VerdictIs(entries[c]);
  }

  /** Of flags with distinct codes a run reports those not set before, in their order. */
  lemma {:induction false} FlaggedIs(entries: Entries, flags: seq<Flag>, apply: bool)
    requires forall i, j :: 0 <= i < j < |flags| ==> flags[i].code != flags[j].code
    requires forall f :: f in flags ==> f.code in entries
    ensures FlaggedBy(entries, [], apply) == []
    ensures flags != [] ==>
      var n := |flags| - 1;
      FlaggedBy(entries, flags, apply) == FlaggedBy(entries, flags[..n], apply)
        + if entries[flags[n].code].marks.unverified then [] else [flags[n].code]
    ensures forall c :: c in FlaggedBy(entries, flags, apply) <==>
      c in entries && !entries[c].marks.unverified && exists f :: f in flags && f.code == c
  {
    if flags != [] {
      var n := |flags| - 1;
      FlaggedIs(entries, flags[..n], apply);
      assert flags == flags[..n] + [flags[n]];
      FlagsAt(entries, flags[..n], flags[n].code);
    }
  }
}
