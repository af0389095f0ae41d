// What a path text means: the printed form of a path reads back as its steps, and a row
// reads and writes exactly the element its path names.
module RecoveryPaths {
  import opened Wrappers
  import opened Text
  import opened Numbers
  import opened Recovery
  import opened RecoveryLaws
  import ValueLaws

  predicate Name(s: string) { s != "" && forall i :: 0 <= i < |s| ==> IsNameChar(s[i]) }

  function StepText(s: Step): string {
    match s.index
    case None => s.field
    case Some(i) => s.field + "[" + Decimal(i) + "]"
  }

  function StepTexts(steps: seq<Step>): seq<string> {
    if steps == [] then [] else [StepText(steps[0])] + StepTexts(steps[1..])
  }

  /** A path as the harvest writes it. */
  function PathText(steps: seq<Step>): string { Join(["SPN"] + StepTexts(steps), "/") }

  predicate Named(steps: seq<Step>) { forall i :: 0 <= i < |steps| ==> Name(steps[i].field) }

  /** A name is made of letters of either case and underscores. */
  lemma {:induction false} NameCharIs(c: char)
    ensures IsNameChar(c) <==> c in ValueLaws.LOWER || c in ValueLaws.UPPER || c == '_'
  {
    ValueLaws.CaseIs(c);
  }

  lemma {:induction false} NameEnds(name: string, rest: string)
    requires (forall i :: 0 <= i < |name| ==> IsNameChar(name[i])) && (rest != "" ==> !IsNameChar(rest[0]))
    ensures NameLength(name + rest) == |name|
  {
    if name == "" {
      assert name + rest == rest;
    } else {
      assert (name + rest)[1..] == name[1..] + rest;
      NameEnds(name[1..], rest);
    }
  }

  lemma {:induction false} StepReads(s: Step)
    requires Name(s.field)
    ensures ParseStep(StepText(s)) == Some(s)
  {
    hide Decimal, Value, ParseStep;
    var digits := if s.index.Some? then Decimal(s.index.value) else "";
    if s.index.Some? { ValueOfDecimal(s.index.value); }
    assert s.field + ("[" + digits + "]" + "") == s.field + "[" + digits + "]" && s.field + "" == s.field;
    SpelledStepReads(StepText(s), s, digits, "");
  }

  lemma {:induction false} NoSlash(s: Step)
    requires Name(s.field)
    ensures '/' !in StepText(s)
  {
    hide Decimal;
    if s.index.Some? { assert forall i :: 0 <= i < |Decimal(s.index.value)| ==> IsDigit(Decimal(s.index.value)[i]); }
  }

  lemma {:induction false} StepTextsAre(steps: seq<Step>)
    ensures |StepTexts(steps)| == |steps| && forall i :: 0 <= i < |steps| ==> StepTexts(steps)[i] == StepText(steps[i])
  {
    hide StepText;
    if steps != [] { StepTextsAre(steps[1..]); }
  }

  lemma {:induction false} StepsRead(steps: seq<Step>)
    requires Named(steps)
    ensures |StepTexts(steps)| == |steps| && forall i :: 0 <= i < |steps| ==> '/' !in StepTexts(steps)[i]
    ensures ParseSteps(StepTexts(steps)) == Some(steps)
  {
    hide StepText, StepTexts, ParseStep, Spelled, ParseSteps, Name;
    StepTextsAre(steps);
    forall i | 0 <= i < |steps| ensures '/' !in StepTexts(steps)[i] && Spelled(StepTexts(steps)[i], steps[i]) {
      NoSlash(steps[i]);
      StepReads(steps[i]);
      StepReadsIff(StepTexts(steps)[i], steps[i]);
    }
    StepsReadIff(StepTexts(steps), steps);
  }

  /** The printed form of a path reads back as its steps. */
  lemma {:induction false} PathReads(steps: seq<Step>)
    requires Named(steps)
    ensures ParsePath(PathText(steps)) == Some(steps)
  {
    hide Split, Join, ParseSteps, StepTexts;
    StepsRead(steps);
    var parts := ["SPN"] + StepTexts(steps);
    SplitJoin(parts, '/');
    assert parts[1..] == StepTexts(steps);
  }

  /** The text spells the step: leading zeros and a final line feed are let pass, and nothing else. */
  predicate SpellsStep(part: string, s: Step, digits: string, end: string) {
    && Name(s.field) && end in {"", "\n"}
    && match s.index
       case None => part == s.field + end
       case Some(i) =>
         digits != "" && AllDigits(digits) && Value(digits) == i && part == s.field + ("[" + digits + "]" + end)
  }

  lemma {:induction false} SpelledStepReads(part: string, s: Step, digits: string, end: string)
    requires SpellsStep(part, s, digits, end)
    ensures ParseStep(part) == Some(s)
  {
    hide Value, NameLength;
    match s.index {
      case None =>
        EndDropped(s.field, end);
        NameEnds(s.field, "");
        assert s.field + "" == s.field && s.field[|s.field|..] == "";
      case Some(i) =>
        var rest := "[" + digits + "]";
        var text := s.field + rest;
        assert part == text + end;
        EndDropped(text, end);
        NameEnds(s.field, rest);
        assert text[|s.field|..] == rest && text[..|s.field|] == s.field;
        assert rest[1..|rest| - 1] == digits;
    }
  }

  lemma {:induction false} EndDropped(text: string, end: string)
    requires end in {"", "\n"} && text != "" && text[|text| - 1] != '\n'
    ensures WithoutLineEnd(text + end) == text
  {
    if end == "" { assert text + end == text; }
  }

  lemma {:induction false} ReadStepIsSpelled(part: string) returns (digits: string, end: string)
    ensures ParseStep(part).Some? ==> SpellsStep(part, ParseStep(part).value, digits, end)
  {
    hide Value, AllDigits, NameLength;
    end := LineEndIs(part);
    var s := WithoutLineEnd(part);
    var name, rest := s[..NameLength(s)], s[NameLength(s)..];
    digits := if |rest| >= 2 then rest[1..|rest| - 1] else "";
    assert s == name + rest;
    if ParseStep(part).Some? && rest != "" {
      assert rest == "[" + digits + "]";
      assert part == name + ("[" + digits + "]" + end);
    }
  }

  lemma {:induction false} LineEndIs(part: string) returns (end: string)
    ensures part == WithoutLineEnd(part) + end && end in {"", "\n"}
  {
    end := part[|WithoutLineEnd(part)|..];
    if end != "" { assert end == [part[|part| - 1]]; }
  }

  ghost predicate Spelled(part: string, s: Step) { exists digits, end :: SpellsStep(part, s, digits, end) }

  lemma {:induction false} StepReadsIff(part: string, s: Step)
    ensures ParseStep(part) == Some(s) <==> Spelled(part, s)
  {
    hide ParseStep, SpellsStep;
    var digits, end := ReadStepIsSpelled(part);
    if Spelled(part, s) {
      var d, e :| SpellsStep(part, s, d, e);
      SpelledStepReads(part, s, d, e);
    }
  }

  lemma {:induction false} StepsReadIff(parts: seq<string>, steps: seq<Step>)
    ensures ParseSteps(parts) == Some(steps) <==>
      |parts| == |steps| && forall i :: 0 <= i < |parts| ==> Spelled(parts[i], steps[i])
  {
    hide ParseStep, Spelled;
    if parts != [] && steps != [] {
      StepsReadIff(parts[1..], steps[1..]);
      StepReadsIff(parts[0], steps[0]);
      assert forall i :: 1 <= i < |parts| ==> parts[i] == parts[1..][i - 1];
      assert forall i :: 1 <= i < |steps| ==> steps[i] == steps[1..][i - 1];
      assert forall i :: 0 <= i < |parts[1..]| ==> parts[1..][i] == parts[i + 1];
      assert forall i :: 0 <= i < |steps[1..]| ==> steps[1..][i] == steps[i + 1];
      assert steps == [steps[0]] + steps[1..];
    }
  }

  /** The steps of a path are those its parts spell, and a path with a part that spells none has none. */
  lemma {:induction false} PathReadsIff(path: string, steps: seq<Step>)
    ensures var parts := Split(path, '/');
      ParsePath(path) == Some(steps) <==>
        parts[0] == "SPN" && |parts[1..]| == |steps|
        && forall i :: 0 <= i < |steps| ==> Spelled(parts[1..][i], steps[i])
  {
    hide Split, ParseSteps, Spelled;
    StepsReadIff(Split(path, '/')[1..], steps);
  }

  // ------------------------------------------------------------ where a step leads

  /** Into a field, to an element of a list, or to a character of a text; nothing else is there to read. */
  lemma {:induction false} ReadsAt(fields: map<string, Json>, field: string, i: nat, items: seq<Json>, text: string)
    ensures field in fields ==> Resolve(Obj(fields), [Step(field, None)]) == Some(fields[field])
    ensures field !in fields ==>
      Resolve(Obj(fields), [Step(field, None)]) == None == Resolve(Obj(fields), [Step(field, Some(i))])
    ensures Resolve(Obj(fields[field := Arr(items)]), [Step(field, Some(i))]) ==
      if i < |items| then Some(items[i]) else None
    ensures Resolve(Obj(fields[field := Str(text)]), [Step(field, Some(i))]) ==
      if i < |text| then Some(Str([text[i]])) else None
    ensures field in fields && !fields[field].Arr? && !fields[field].Str? ==>
      Resolve(Obj(fields), [Step(field, Some(i))]) == None
  {
    OneHop(Obj(fields), Step(field, None));
    OneHop(Obj(fields), Step(field, Some(i)));
    OneHop(Obj(fields[field := Arr(items)]), Step(field, Some(i)));
    OneHop(Obj(fields[field := Str(text)]), Step(field, Some(i)));
  }

  lemma {:induction false} OneHop(j: Json, s: Step)
    ensures Resolve(j, [s]) == Hop(j, s)
  {
    hide Hop;
    assert [s][1..] == [];
    if Hop(j, s).Some? { assert Resolve(Hop(j, s).value, []) == Hop(j, s); }
  }

  /** A field is written whether it is there or not, an element of a list only where it is, and nothing else. */
  lemma {:induction false} WritesAt(
      fields: map<string, Json>, field: string, i: nat, items: seq<Json>, j: Json, v: string)
    ensures Set(Obj(fields), [Step(field, None)], v) == Some(Obj(fields[field := Str(v)]))
    ensures Set(Obj(fields[field := Arr(items)]), [Step(field, Some(i))], v) ==
      if i < |items| then Some(Obj(fields[field := Arr(items[i := Str(v)])])) else None
    ensures field !in fields || !fields[field].Arr? ==> Set(Obj(fields), [Step(field, Some(i))], v) == None
    ensures !j.Obj? ==> Set(j, [Step(field, None)], v) == None == Set(j, [Step(field, Some(i))], v)
  {
    if i < |items| {
      assert fields[field := Arr(items)][field := Arr(items[i := Str(v)])] == fields[field := Arr(items[i := Str(v)])];
    }
  }

  /** What a row needs of the text it aims at. */
  predicate Takes(row: Row, similar: Similar, text: string) {
    && row.oldClipped != "" && row.fullText != "" && similar(row.oldClipped, row.fullText)
    && Strip(text) == Strip(row.oldClipped) && |Strip(row.fullText)| > |text|
  }

  /**
   * A row whose path names an element of a list in a field: it is merged exactly when that
   * element is the stale, shorter text, and then that element alone is replaced.
   */
  lemma {:induction false} MergesElement(
      spns: Spns, row: Row, similar: Similar, field: string, i: nat, items: seq<Json>, text: string)
    requires Name(field) && row.path == PathText([Step(field, Some(i))]) && row.spn in spns
    requires spns[row.spn].Obj? && field in spns[row.spn].fields && spns[row.spn].fields[field] == Arr(items)
    requires i < |items| && items[i] == Str(text)
    ensures Judge(spns, row, similar) == Merged <==> Takes(row, similar, text)
    ensures Judge(spns, row, similar) == Merged ==>
      var after := After(spns, row, similar);
      && after.Keys == spns.Keys
      && (forall spn :: spn in spns && spn != row.spn ==> after[spn] == spns[spn])
      && after[row.spn].Obj?
      && after[row.spn].fields ==
         Marks(row, spns[row.spn].fields[field := Arr(items[i := Str(Strip(row.fullText))])])
  {
    hide Strip, ParsePath, PathText;
    var p := [Step(field, Some(i))];
    PathReads(p);
    OneStep(spns[row.spn], p[0]);
    MergedIffReady(spns, row, similar);
    if Judge(spns, row, similar) == Merged {
      var full := Strip(row.fullText);
      assert Set(spns[row.spn], p, full) ==
        Some(Obj(spns[row.spn].fields[field := Arr(items[i := Str(full)])]));
    }
  }

  /** The same for a path that names a field. */
  lemma {:induction false} MergesField(spns: Spns, row: Row, similar: Similar, field: string, text: string)
    requires Name(field) && row.path == PathText([Step(field, None)]) && row.spn in spns
    requires spns[row.spn].Obj? && field in spns[row.spn].fields && spns[row.spn].fields[field] == Str(text)
    ensures Judge(spns, row, similar) == Merged <==> Takes(row, similar, text)
    ensures Judge(spns, row, similar) == Merged ==>
      var after := After(spns, row, similar);
      && after.Keys == spns.Keys
      && (forall spn :: spn in spns && spn != row.spn ==> after[spn] == spns[spn])
      && after[row.spn].Obj?
      && after[row.spn].fields == Marks(row, spns[row.spn].fields[field := Str(Strip(row.fullText))])
  {
    hide Strip, ParsePath, PathText;
    var p := [Step(field, None)];
    PathReads(p);
    OneStep(spns[row.spn], p[0]);
    MergedIffReady(spns, row, similar);
  }

  /** The two fields in which a merge records itself; the source is recorded where the row has one. */
  function Marks(row: Row, fields: map<string, Json>): map<string, Json> {
    var marked := fields["_t48_t44_merge" := Str("t48a")];
    if row.url != "" then marked["_t48_t44_source" := Str(row.url)] else marked
  }

  lemma {:induction false} OneStep(j: Json, s: Step)
    requires Inner(j, s).Some? && Inner(j, s).value.Str?
    ensures Leaf(j, [s]) == Some(Inner(j, s).value.text)
  {
    assert [s][1..] == [];
    LeafOfText(Inner(j, s).value, []);
  }

  // ------------------------------------------------------------------ the counters

  /** Why a row whose path leads somewhere is not merged: the text is there already, is another, or is as long. */
  lemma {:induction false} StatusIs(spns: Spns, row: Row, similar: Similar, path: seq<Step>, current: Json)
    requires row.oldClipped != "" && row.fullText != "" && similar(row.oldClipped, row.fullText)
    requires row.spn in spns && !spns[row.spn].Null?
    requires ParsePath(row.path) == Some(path) && Resolve(spns[row.spn], path) == Some(current)
    ensures var full, judged := Strip(row.fullText), Judge(spns, row, similar);
      && (judged == NoChange <==> current == Str(full))
      && (judged == StaleTarget <==>
            current != Str(full) && !(current.Str? && Strip(current.text) == Strip(row.oldClipped)))
      && (judged == Gated <==>
            && current.Str? && Strip(current.text) == Strip(row.oldClipped)
            && current.text != full && |full| <= |current.text|)
      && judged !in {UnknownSpn, BadPath}
  {
    hide Strip, ParsePath, Resolve, Set;
  }

  /** And why another row is not: its gate, its record or its path. */
  lemma {:induction false} StatusWithoutText(spns: Spns, row: Row, similar: Similar)
    ensures var judged := Judge(spns, row, similar);
      && (row.oldClipped == "" || row.fullText == "" || !similar(row.oldClipped, row.fullText) ==> judged == Gated)
      && (judged == UnknownSpn <==> GateOk(row, similar) && (row.spn !in spns || spns[row.spn].Null?))
      && (judged == BadPath <==>
            && GateOk(row, similar) && row.spn in spns && !spns[row.spn].Null?
            && (ParsePath(row.path) == None || Resolve(spns[row.spn], ParsePath(row.path).value) == None))
  {
    hide Strip, ParsePath, Resolve, Set;
  }

  /** Every row is counted once, under its own status, until one raises. */
  lemma {:induction false} CountedIs(spns: Spns, rows: seq<Row>, row: Row, similar: Similar)
    ensures PassOf(spns, [], similar) == Pass(spns, multiset{}, false)
    ensures var before, after := PassOf(spns, rows, similar), PassOf(spns, rows + [row], similar);
      if before.raised then after == before
      else
        var judged := Judge(before.spns, row, similar);
        && (after.raised <==> judged == Raised)
        && after.statuses == before.statuses + (if judged == Raised then multiset{} else multiset{judged})
        && (judged != Merged ==> after.spns == before.spns)
  {
    hide Judge, After;
    assert (rows + [row])[..|rows|] == rows;
  }

  /** Wherever a path leads, the merged text is read there afterwards, and nowhere else did a text change. */
  lemma {:induction false} MergedTextStands(spns: Spns, row: Row, similar: Similar, steps: seq<Step>, other: seq<Step>)
    requires Named(steps) && row.path == PathText(steps) && Judge(spns, row, similar) == Merged
    requires other != [] && Named(other)
    ensures var after := After(spns, row, similar)[row.spn];
      Leaf(after, other) == if other == steps then Some(Strip(row.fullText)) else Leaf(spns[row.spn], other)
  {
    hide Strip, ParsePath, PathText, Judge, After, Leaf;
    PathReads(steps);
    PathReads(other);
    var t := Row(row.spn, PathText(other), "", "", "");
    TargetAfter(spns, row, similar, t);
    JudgedIsThere(spns, row, similar);
  }

  lemma {:induction false} JudgedIsThere(spns: Spns, row: Row, similar: Similar)
    requires Judge(spns, row, similar) == Merged
    ensures row.spn in spns && row.spn in After(spns, row, similar)
  {
    hide ParsePath, Resolve, Set, Strip;
  }
}
