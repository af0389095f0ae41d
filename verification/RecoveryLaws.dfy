// Why repeated recovery merges end: every merge lengthens its target for good, so each
// row is merged at most once, and the runs reach a fixed point.
module RecoveryLaws {
  import opened Wrappers
  import opened Text
  import opened Recovery

  /** The writable text a row aims at. */
  function Target(spns: Spns, row: Row): Option<string> {
    var path := ParsePath(row.path);
    if row.spn !in spns || path.None? || path.value == [] then None else Leaf(spns[row.spn], path.value)
  }

  /** The row does not aim at the fields in which the merge records itself. */
  predicate Ordinary(row: Row) {
    var path := ParsePath(row.path);
    path.Some? && path.value != [] ==> path.value[0].field !in {MARKER, SOURCE_FIELD}
  }

  /** No row can: the names of a path hold no digits, and the markers do. */
  lemma {:induction false} EveryRowIsOrdinary(row: Row)
    ensures Ordinary(row)
  {
    var path := ParsePath(row.path);
    if path.Some? && path.value != [] {
      var parts := Split(row.path, '/');
      assert path.value[0].field == ParseStep(parts[1]).value.field;
      assert MARKER[2] == '4' && SOURCE_FIELD[2] == '4';
    }
  }

  /** Which rows are merged can be read off their target texts. */
  predicate Ready(row: Row, similar: Similar, target: Option<string>) {
    && GateOk(row, similar) && target.Some?
    && Strip(target.value) == Strip(row.oldClipped) && |Strip(row.fullText)| > |target.value|
  }

  lemma {:induction false} MergedIffReady(spns: Spns, row: Row, similar: Similar)
    ensures Judge(spns, row, similar) == Merged <==> Ready(row, similar, Target(spns, row))
  {
    hide GateOk, ParsePath, Resolve, Set, Strip, Leaf;
    var path := ParsePath(row.path);
    if row.spn in spns && path.Some? && path.value != [] {
      var j, p, full := spns[row.spn], path.value, Strip(row.fullText);
      if Leaf(j, p).Some? {
        LeafResolves(j, p);
        SetLeaf(j, p, full, []);
        NotNull(j, p);
      } else if Resolve(j, p).Some? && Resolve(j, p).value.Str? {
        ResolvedText(j, p, full);
      }
    }
  }

  lemma {:induction false} NotNull(j: Json, p: seq<Step>)
    requires p != [] && Leaf(j, p).Some?
    ensures !j.Null?
  {
  }

  predicate SameTarget(a: Row, b: Row) {
    a.spn == b.spn && ParsePath(a.path) == ParsePath(b.path)
  }

  lemma {:induction false} MarkedLeaf(j: Json, url: string, q: seq<Step>)
    requires j.Obj? && q != [] && q[0].field !in {MARKER, SOURCE_FIELD}
    ensures Leaf(Marked(j, url), q) == Leaf(j, q)
  {
    assert Inner(Marked(j, url), q[0]) == Inner(j, q[0]);
  }

  /** A merge changes its own target, to the full text, and no other. */
  lemma {:induction false} TargetAfter(spns: Spns, row: Row, similar: Similar, other: Row)
    requires Judge(spns, row, similar) == Merged
    ensures Target(After(spns, row, similar), other) ==
      if SameTarget(row, other) then Some(Strip(row.fullText)) else Target(spns, other)
  {
    hide GateOk, ParsePath, Resolve, Set, Strip, Leaf, Marked;
    EveryRowIsOrdinary(other);
    MergedIffReady(spns, row, similar);
    var j, p, full := spns[row.spn], ParsePath(row.path).value, Strip(row.fullText);
    SetLeaf(j, p, full, []);
    var q := ParsePath(other.path);
    if other.spn == row.spn && q.Some? && q.value != [] {
      SetLeaf(j, p, full, q.value);
      MarkedLeaf(Set(j, p, full).value, row.url, q.value);
    }
  }

  /** The target has reached the length of the full text: the row is never merged again. */
  predicate Spent(spns: Spns, row: Row) {
    Target(spns, row).Some? && |Target(spns, row).value| >= |Strip(row.fullText)|
  }

  lemma {:induction false} SpentStays(spns: Spns, row: Row, similar: Similar, other: Row)
    requires Judge(spns, row, similar) == Merged
    ensures Spent(After(spns, row, similar), row) && !Spent(spns, row)
    ensures Spent(spns, other) ==> Spent(After(spns, row, similar), other)
  {
    hide GateOk, Strip, After, Judge, ParsePath, Leaf;
    MergedIffReady(spns, row, similar);
    TargetAfter(spns, row, similar, row);
    TargetAfter(spns, row, similar, other);
    if SameTarget(row, other) { SameTargets(spns, row, other); }
  }

  lemma {:induction false} SameTargets(spns: Spns, a: Row, b: Row)
    requires SameTarget(a, b)
    ensures Target(spns, a) == Target(spns, b)
  {
  }

  // ------------------------------------------------------------- counting down

  /** How many rows of the list may still be merged some day. */
  function Unspent(spns: Spns, rows: seq<Row>): (n: nat)
    ensures n <= |rows|
  {
    if rows == [] then 0
    else
      var n := |rows| - 1;
      Unspent(spns, rows[..n]) + if Spent(spns, rows[n]) then 0 else 1
  }

  lemma {:induction false} UnspentDrops(spns: Spns, row: Row, similar: Similar, rows: seq<Row>)
    requires Judge(spns, row, similar) == Merged
    ensures Unspent(After(spns, row, similar), rows) <= Unspent(spns, rows)
    ensures row in rows ==> Unspent(After(spns, row, similar), rows) < Unspent(spns, rows)
  {
    hide Judge, After, Spent;
    if rows != [] {
      var n := |rows| - 1;
      assert rows[n] in rows;
      UnspentDrops(spns, row, similar, rows[..n]);
      SpentStays(spns, row, similar, rows[n]);
    }
  }

  /** A pass over rows of the list changes nothing, or leaves fewer rows to merge. */
  lemma {:induction false} PassCounts(spns: Spns, rows: seq<Row>, all: seq<Row>, similar: Similar)
    requires forall r :: r in rows ==> r in all
    ensures var after := PassOf(spns, rows, similar).spns;
      after == spns || Unspent(after, all) < Unspent(spns, all)
  {
    hide Judge, After, Spent, Unspent;
    if rows != [] {
      var n := |rows| - 1;
      PassCounts(spns, rows[..n], all, similar);
      var before := PassOf(spns, rows[..n], similar);
      assert rows[n] in rows;
      if !before.raised && Judge(before.spns, rows[n], similar) == Merged {
        UnspentDrops(before.spns, rows[n], similar, all);
      }
    }
  }

  function Iterated(spns: Spns, rows: seq<Row>, similar: Similar, k: nat): Spns {
    if k == 0 then spns else RunOf(Iterated(spns, rows, similar, k - 1), rows, similar)
  }

  lemma {:induction false} RunsCountDown(spns: Spns, rows: seq<Row>, similar: Similar, k: nat)
    ensures var at := Iterated(spns, rows, similar, k);
      RunOf(at, rows, similar) == at || Unspent(at, rows) + k <= |rows|
  {
    hide PassOf, Unspent;
    if k > 0 {
      var before := Iterated(spns, rows, similar, k - 1);
      RunsCountDown(spns, rows, similar, k - 1);
      PassCounts(before, rows, rows, similar);
    }
  }

  /** Within as many runs as there are rows the merge reaches a database it no longer changes. */
  lemma {:induction false} FixedWithinRows(spns: Spns, rows: seq<Row>, similar: Similar)
    ensures var at := Iterated(spns, rows, similar, |rows|); RunOf(at, rows, similar) == at
  {
    hide PassOf, Unspent, Iterated;
    RunsCountDown(spns, rows, similar, |rows|);
    PassCounts(Iterated(spns, rows, similar, |rows|), rows, rows, similar);
  }

  // ------------------------------------------------------------ one run is enough

  lemma {:induction false} NoneMerges(spns: Spns, rows: seq<Row>, similar: Similar)
    requires forall r :: r in rows ==> Judge(spns, r, similar) != Merged
    ensures PassOf(spns, rows, similar).spns == spns
  {
    hide Judge, After;
    if rows != [] {
      var n := |rows| - 1;
      assert rows[n] in rows;
      NoneMerges(spns, rows[..n], similar);
    }
  }

  predicate HasTarget(row: Row) {
    var path := ParsePath(row.path);
    path.Some? && path.value != []
  }

  /** The earlier row continues what the later one writes, and the later one can be merged at all. */
  predicate Continues(earlier: Row, later: Row, similar: Similar) {
    && SameTarget(earlier, later) && HasTarget(later) && GateOk(earlier, similar) && GateOk(later, similar)
    && Strip(later.fullText) == Strip(earlier.oldClipped)
    && |Strip(earlier.fullText)| > |Strip(later.fullText)| > |Strip(later.oldClipped)|
  }

  /** The row is ready where its target holds this text. */
  predicate ReadyAt(row: Row, similar: Similar, text: string) { Ready(row, similar, Some(text)) }

  /** The text a run over these rows leaves at the target of `t`, if it starts with `text` there. */
  function TextAfter(rows: seq<Row>, t: Row, similar: Similar, text: string): string {
    if rows == [] then text
    else
      var n := |rows| - 1;
      var before := TextAfter(rows[..n], t, similar, text);
      if SameTarget(t, rows[n]) && ReadyAt(rows[n], similar, before) then Strip(rows[n].fullText) else before
  }

  /** From some text on, the run comes to the row with a text it takes up. */
  ghost predicate CanFire(rows: seq<Row>, j: nat, similar: Similar)
    requires j < |rows|
  {
    exists text :: ReadyAt(rows[j], similar, TextAfter(rows[..j], rows[j], similar, text))
  }

  /** No later row takes up what this one writes. */
  predicate Lasts(rows: seq<Row>, j: nat, similar: Similar)
    requires j < |rows|
  {
    forall k :: j < k < |rows| && SameTarget(rows[j], rows[k]) ==>
      !ReadyAt(rows[k], similar, Strip(rows[j].fullText))
  }

  /** A row that can fire, and whose text lasts, is continued by an earlier one. */
  ghost predicate Chained(rows: seq<Row>, i: nat, j: nat, similar: Similar) {
    i < j < |rows| && Continues(rows[i], rows[j], similar) && CanFire(rows, j, similar) && Lasts(rows, j, similar)
  }

  ghost predicate Unchained(rows: seq<Row>, similar: Similar) {
    forall i, j :: !Chained(rows, i, j, similar)
  }

  lemma {:induction false} Symmetric(a: Row, b: Row)
    ensures SameTarget(a, b) == SameTarget(b, a)
  {
  }

  lemma {:induction false} TextNext(rows: seq<Row>, k: nat, t: Row, similar: Similar, text: string)
    requires k < |rows|
    ensures var before := TextAfter(rows[..k], t, similar, text);
      TextAfter(rows[..k + 1], t, similar, text) ==
        if SameTarget(t, rows[k]) && ReadyAt(rows[k], similar, before) then Strip(rows[k].fullText) else before
  {
    hide SameTarget, Ready;
    assert rows[..k + 1][..k] == rows[..k];
  }

  /** What a run does to one target, whatever else it does. */
  lemma {:induction false} TargetOfPass(spns: Spns, rows: seq<Row>, k: nat, t: Row, similar: Similar)
    requires k <= |rows| && !PassOf(spns, rows[..k], similar).raised && Target(spns, t).Some?
    ensures Target(PassOf(spns, rows[..k], similar).spns, t) ==
      Some(TextAfter(rows[..k], t, similar, Target(spns, t).value))
  {
    hide Judge, After, Target, SameTarget, PassOf, Ready, TextAfter;
    if k == 0 {
      assert rows[..0] == [];
      PassNone(spns, similar);
      TextNone(t, similar, Target(spns, t).value);
    } else {
      PassNext(spns, rows, k - 1, similar);
      var before := PassOf(spns, rows[..k - 1], similar);
      TargetOfPass(spns, rows, k - 1, t, similar);
      TextNext(rows, k - 1, t, similar, Target(spns, t).value);
      TargetOfRow(before.spns, rows[k - 1], t, similar);
    }
  }

  lemma {:induction false} TextNone(t: Row, similar: Similar, text: string)
    ensures TextAfter([], t, similar, text) == text
  {
  }

  lemma {:induction false} TargetOfRow(spns: Spns, row: Row, t: Row, similar: Similar)
    requires Target(spns, t).Some?
    ensures SameTarget(t, row) ==>
      (Judge(spns, row, similar) == Merged <==> ReadyAt(row, similar, Target(spns, t).value))
    ensures Judge(spns, row, similar) == Merged ==>
      Target(After(spns, row, similar), t) ==
        (if SameTarget(t, row) then Some(Strip(row.fullText)) else Target(spns, t))
  {
    hide Judge, After, Target, SameTarget, GateOk, Strip;
    MergedIffReady(spns, row, similar);
    Symmetric(t, row);
    if SameTarget(t, row) { SameTargets(spns, t, row); }
    if Judge(spns, row, similar) == Merged { TargetAfter(spns, row, similar, t); }
  }

  /** After a merge an earlier row is ready only if it was before, or continues what was merged. */
  lemma {:induction false} ReadyAgain(spns: Spns, row: Row, other: Row, similar: Similar)
    requires Judge(spns, row, similar) == Merged
    requires Judge(After(spns, row, similar), other, similar) == Merged
    ensures if SameTarget(other, row) then Continues(other, row, similar) else Judge(spns, other, similar) == Merged
  {
    hide Judge, After, ParsePath, Leaf, GateOk, Strip;
    MergedIffReady(After(spns, row, similar), other, similar);
    MergedIffReady(spns, other, similar);
    MergedIffReady(spns, row, similar);
    TargetAfter(spns, row, similar, other);
    StripId(Strip(row.fullText));
    Symmetric(row, other);
  }

  /** What the last row to write a target looks like, once the run has come to row k. */
  ghost predicate LastFired(spns: Spns, rows: seq<Row>, similar: Similar, k: nat, j: nat)
    requires j < k <= |rows|
  {
    && Judge(PassOf(spns, rows[..j], similar).spns, rows[j], similar) == Merged
    && !PassOf(spns, rows[..j], similar).raised
    && Target(PassOf(spns, rows[..k], similar).spns, rows[j]) == Some(Strip(rows[j].fullText))
    && forall l :: j < l < k && SameTarget(rows[j], rows[l]) ==>
         !ReadyAt(rows[l], similar, Strip(rows[j].fullText))
  }

  lemma {:induction false} LastFiredNext(spns: Spns, rows: seq<Row>, similar: Similar, k: nat, j: nat)
    requires j < k < |rows| && LastFired(spns, rows, similar, k, j)
    requires !PassOf(spns, rows[..k + 1], similar).raised
    requires SameTarget(rows[j], rows[k]) ==> Judge(PassOf(spns, rows[..k], similar).spns, rows[k], similar) != Merged
    ensures LastFired(spns, rows, similar, k + 1, j)
  {
    hide Judge, After, Target, SameTarget, PassOf, Ready;
    PassNext(spns, rows, k, similar);
    TargetOfRow(PassOf(spns, rows[..k], similar).spns, rows[k], rows[j], similar);
  }

  lemma {:induction false} JustFired(spns: Spns, rows: seq<Row>, similar: Similar, j: nat)
    requires j < |rows| && !PassOf(spns, rows[..j], similar).raised
    requires Judge(PassOf(spns, rows[..j], similar).spns, rows[j], similar) == Merged
    ensures LastFired(spns, rows, similar, j + 1, j)
  {
    hide Judge, After, Target, PassOf, Ready;
    PassNext(spns, rows, j, similar);
    TargetAfter(PassOf(spns, rows[..j], similar).spns, rows[j], similar, rows[j]);
  }

  lemma {:induction false} ContinuesIs(earlier: Row, later: Row, other: Row, similar: Similar)
    requires Continues(earlier, later, similar)
    ensures earlier != later && (SameTarget(later, other) <==> SameTarget(earlier, other))
  {
    hide GateOk, ParsePath, Strip;
  }

  /** A row that a run leaves ready continues the last row that wrote its target, a later one. */
  lemma {:induction false} ReadyContinues(spns: Spns, rows: seq<Row>, similar: Similar, k: nat, i: nat) returns (j: nat)
    requires i < k <= |rows| && !PassOf(spns, rows[..k], similar).raised
    requires Judge(PassOf(spns, rows[..k], similar).spns, rows[i], similar) == Merged
    ensures i < j < k && Continues(rows[i], rows[j], similar) && LastFired(spns, rows, similar, k, j)
  {
    hide Judge, After, Target, PassOf, Ready, Continues, LastFired;
    PassNext(spns, rows, k - 1, similar);
    var before := PassOf(spns, rows[..k - 1], similar).spns;
    var merged := Judge(before, rows[k - 1], similar) == Merged;
    if merged { ReadyAgain(before, rows[k - 1], rows[i], similar); }
    if merged && SameTarget(rows[i], rows[k - 1]) {
      j := k - 1;
      ContinuesIs(rows[i], rows[j], rows[j], similar);
      JustFired(spns, rows, similar, j);
    } else {
      j := ReadyContinues(spns, rows, similar, k - 1, i);
      ContinuesIs(rows[i], rows[j], rows[k - 1], similar);
      LastFiredNext(spns, rows, similar, k - 1, j);
    }
  }

  lemma {:induction false} FiredCanFire(spns: Spns, rows: seq<Row>, similar: Similar, j: nat)
    requires j < |rows| && LastFired(spns, rows, similar, |rows|, j)
    ensures CanFire(rows, j, similar) && Lasts(rows, j, similar)
  {
    hide Judge, After, SameTarget, PassOf, GateOk, TextAfter;
    var before := PassOf(spns, rows[..j], similar).spns;
    MergedIffReady(before, rows[j], similar);
    TargetsStay(spns, rows, j, rows[j], similar);
    TargetOfPass(spns, rows, j, rows[j], similar);
  }

  /** A run makes no targets. */
  lemma {:induction false} TargetsStay(spns: Spns, rows: seq<Row>, k: nat, t: Row, similar: Similar)
    requires k <= |rows| && Target(PassOf(spns, rows[..k], similar).spns, t).Some?
    ensures Target(spns, t).Some?
  {
    hide Judge, After, Target, SameTarget, PassOf, Ready;
    if k == 0 {
      assert rows[..0] == [];
      PassNone(spns, similar);
    } else {
      PassNext(spns, rows, k - 1, similar);
      var before := PassOf(spns, rows[..k - 1], similar);
      if !before.raised && Judge(before.spns, rows[k - 1], similar) == Merged {
        TargetAfter(before.spns, rows[k - 1], similar, t);
        MergedIffReady(before.spns, rows[k - 1], similar);
        if SameTarget(rows[k - 1], t) {
          SameTargets(before.spns, rows[k - 1], t);
          ReadyHasTarget(rows[k - 1], similar, Target(before.spns, t));
        }
      }
      TargetsStay(spns, rows, k - 1, t, similar);
    }
  }

  lemma {:induction false} ReadyHasTarget(row: Row, similar: Similar, target: Option<string>)
    requires Ready(row, similar, target)
    ensures target.Some?
  {
  }

  lemma {:induction false} ChainedIs(rows: seq<Row>, i: nat, j: nat, similar: Similar)
    requires i < j < |rows| && Continues(rows[i], rows[j], similar)
    requires CanFire(rows, j, similar) && Lasts(rows, j, similar)
    ensures Chained(rows, i, j, similar)
  {
  }

  /** Where no row is chained to a later one, a second run changes nothing, whatever the database. */
  lemma {:induction false} OneRunIsEnough(spns: Spns, rows: seq<Row>, similar: Similar)
    requires Unchained(rows, similar)
    ensures var once := RunOf(spns, rows, similar); RunOf(once, rows, similar) == once
  {
    hide PassOf, Judge, Continues, CanFire, Lasts, LastFired;
    assert rows[..|rows|] == rows;
    if !PassOf(spns, rows, similar).raised {
      var once := PassOf(spns, rows, similar).spns;
      forall r | r in rows ensures Judge(once, r, similar) != Merged {
        var i :| 0 <= i < |rows| && rows[i] == r;
        if Judge(once, r, similar) == Merged {
          var j := ReadyContinues(spns, rows, similar, |rows|, i);
          FiredCanFire(spns, rows, similar, j);
          ChainedIs(rows, i, j, similar);
        }
      }
      NoneMerges(once, rows, similar);
    }
  }

  // ------------------------------------------------------- a chain needs another run

  /** A tree that holds this text at the path, and no other text. */
  function Built(path: seq<Step>, text: string): (j: Json)
    ensures path != [] ==> j.Obj?
    ensures Leaf(j, path) == Some(text)
    decreases |path|
  {
    if path == [] then Str(text)
    else
      var inner := Built(path[1..], text);
      match path[0].index
      case None => Obj(map[path[0].field := inner])
      case Some(i) => Obj(map[path[0].field := Arr(seq(i, k => Null) + [inner])])
  }

  lemma {:induction false} BuiltAlone(path: seq<Step>, text: string, q: seq<Step>)
    requires Leaf(Built(path, text), q).Some?
    ensures q == path
    decreases |path|
  {
    if path == [] {
      LeafOfText(Built(path, text), q);
    } else {
      BuiltHop(path, text, q[0]);
      var next := Inner(Built(path, text), q[0]).value;
      NoTextIn(next, q[1..]);
      BuiltAlone(path[1..], text, q[1..]);
      assert q == [q[0]] + q[1..] && path == [path[0]] + path[1..];
    }
  }

  lemma {:induction false} BuiltHop(path: seq<Step>, text: string, s: Step)
    requires path != [] && Inner(Built(path, text), s).Some?
    ensures var next := Inner(Built(path, text), s).value;
      next.Null? || next.Arr? || (s == path[0] && next == Built(path[1..], text))
  {
  }

  lemma {:induction false} NoTextIn(j: Json, q: seq<Step>)
    ensures j.Null? || j.Arr? ==> Leaf(j, q) == None
  {
  }

  /** A database whose one record holds the text at the row's target. */
  function Holding(row: Row, text: string): Spns
    requires HasTarget(row)
  {
    map[row.spn := Built(ParsePath(row.path).value, text)]
  }

  /** Apart from the marks of a merge, the tree holds one writable text at most, at this path. */
  ghost predicate OnlyText(j: Json, p: seq<Step>) {
    forall q: seq<Step> :: q != [] && q[0].field !in {MARKER, SOURCE_FIELD} && Leaf(j, q).Some? ==> q == p
  }

  /** A database of one record, whose one text is the target of the row. */
  ghost predicate Alone(spns: Spns, t: Row) {
    && HasTarget(t) && spns.Keys == {t.spn} && Target(spns, t).Some?
    && spns[t.spn].Obj? && OnlyText(spns[t.spn], ParsePath(t.path).value)
  }

  lemma {:induction false} HoldingIsAlone(t: Row, text: string)
    requires HasTarget(t)
    ensures Alone(Holding(t, text), t) && Target(Holding(t, text), t) == Some(text)
  {
    hide ParsePath, Built, Leaf;
    var p := ParsePath(t.path).value;
    forall q | Leaf(Built(p, text), q).Some? ensures q == p { BuiltAlone(p, text, q); }
  }

  lemma {:induction false} AloneStays(spns: Spns, row: Row, t: Row, similar: Similar)
    requires Alone(spns, t) && Judge(spns, row, similar) == Merged
    ensures Alone(After(spns, row, similar), t)
  {
    hide ParsePath, Leaf, GateOk, Strip, Set, Judge, Marked;
    MergedIffReady(spns, row, similar);
    TargetAfter(spns, row, similar, t);
    EveryRowIsOrdinary(row);
    var j, p, full := spns[t.spn], ParsePath(t.path).value, Strip(row.fullText);
    assert ParsePath(row.path).value == p;
    SetLeaf(j, p, full, []);
    var k := Set(j, p, full).value;
    assert After(spns, row, similar) == spns[t.spn := Marked(k, row.url)];
    MarkedIsObject(k, row.url);
    forall q: seq<Step> | q != [] && q[0].field !in {MARKER, SOURCE_FIELD} && Leaf(Marked(k, row.url), q).Some?
      ensures q == p
    {
      MarkedLeaf(k, row.url, q);
      SetLeaf(j, p, full, q);
    }
  }

  lemma {:induction false} MarkedIsObject(j: Json, url: string)
    requires j.Obj?
    ensures Marked(j, url).Obj?
  {
  }

  /** The path without the index of its last hop. */
  function Unindexed(p: seq<Step>): seq<Step>
    requires p != []
  {
    p[..|p| - 1] + [p[|p| - 1].(index := None)]
  }

  /** The row aims at a character of the text at which the other one aims. */
  predicate Indexes(row: Row, t: Row) {
    && row.spn == t.spn && HasTarget(row) && HasTarget(t) && !SameTarget(row, t)
    && Unindexed(ParsePath(row.path).value) == ParsePath(t.path).value
  }

  /** A text that is read but cannot be written is a character of a text that can. */
  lemma {:induction false} CharacterOf(j: Json, q: seq<Step>)
    requires q != [] && Resolve(j, q).Some? && Resolve(j, q).value.Str? && Leaf(j, q).None?
    ensures Leaf(j, Unindexed(q)).Some?
    decreases |q|
  {
    var s := q[0];
    var next := Hop(j, s).value;
    if Hop(j, s) == Inner(j, s) {
      assert q[1..] != [];
      CharacterOf(next, q[1..]);
      assert Unindexed(q) == [s] + Unindexed(q[1..]);
      assert Unindexed(q)[1..] == Unindexed(q[1..]);
    } else {
      CharacterHop(j, s);
      if |q| > 1 { NoHopFromText(next, q[1]); }
      assert q == [s];
      assert Unindexed(q) == [s.(index := None)];
    }
  }

  lemma {:induction false} AloneNeverRaises(spns: Spns, row: Row, t: Row, similar: Similar)
    requires Alone(spns, t) && !Indexes(row, t)
    ensures Judge(spns, row, similar) != Raised
  {
    hide ParsePath, GateOk, Strip, Leaf, Resolve, Set;
    if Judge(spns, row, similar) == Raised {
      var j, q := spns[t.spn], ParsePath(row.path).value;
      EveryRowIsOrdinary(row);
      RaisedReads(spns, row, similar);
      CharacterOf(j, q);
      UnindexedField(q);
    }
  }

  lemma {:induction false} UnindexedField(q: seq<Step>)
    requires q != []
    ensures Unindexed(q) != [] && Unindexed(q)[0].field == q[0].field
  {
  }

  /** A row raises only where it reads a text that cannot be written. */
  lemma {:induction false} RaisedReads(spns: Spns, row: Row, similar: Similar)
    requires Judge(spns, row, similar) == Raised && row.spn in spns && spns[row.spn].Obj?
    ensures var j, q := spns[row.spn], ParsePath(row.path);
      && q.Some? && q.value != [] && Resolve(j, q.value).Some? && Resolve(j, q.value).value.Str?
      && Leaf(j, q.value).None?
  {
    hide ParsePath, GateOk, Strip, Leaf, Set;
    var j, q, full := spns[row.spn], ParsePath(row.path).value, Strip(row.fullText);
    if q != [] && Leaf(j, q).Some? {
      LeafResolves(j, q);
      SetLeaf(j, q, full, []);
    }
  }

  lemma {:induction false} PassAlone(spns: Spns, rows: seq<Row>, k: nat, t: Row, similar: Similar)
    requires Alone(spns, t) && k <= |rows| && forall i :: 0 <= i < |rows| ==> !Indexes(rows[i], t)
    ensures var p := PassOf(spns, rows[..k], similar); !p.raised && Alone(p.spns, t)
  {
    hide Judge, After, PassOf, Alone, Indexes;
    if k == 0 {
      assert rows[..0] == [];
      PassNone(spns, similar);
    } else {
      PassAlone(spns, rows, k - 1, t, similar);
      PassNext(spns, rows, k - 1, similar);
      var before := PassOf(spns, rows[..k - 1], similar).spns;
      AloneNeverRaises(before, rows[k - 1], t, similar);
      if Judge(before, rows[k - 1], similar) == Merged { AloneStays(before, rows[k - 1], t, similar); }
    }
  }

  /** From a text on that row j takes up, what it writes is what the run leaves. */
  lemma {:induction false} TextLasts(rows: seq<Row>, j: nat, k: nat, similar: Similar, text: string)
    requires j < k <= |rows| && Lasts(rows, j, similar)
    requires ReadyAt(rows[j], similar, TextAfter(rows[..j], rows[j], similar, text))
    ensures TextAfter(rows[..k], rows[j], similar, text) == Strip(rows[j].fullText)
  {
    hide Ready, TextAfter, SameTarget;
    TextNext(rows, k - 1, rows[j], similar, text);
    if k - 1 > j { TextLasts(rows, j, k - 1, similar, text); } else { SameItself(rows[j]); }
  }

  lemma {:induction false} SameItself(row: Row)
    ensures SameTarget(row, row)
  {
  }

  /** A run from a text that some row takes up ends with a longer one. */
  lemma {:induction false} TextGrows(rows: seq<Row>, t: Row, k: nat, similar: Similar, text: string)
    requires k <= |rows|
    ensures var after := TextAfter(rows[..k], t, similar, text);
      |after| > |text|
        || (after == text && forall i :: 0 <= i < k && SameTarget(t, rows[i]) ==> !ReadyAt(rows[i], similar, text))
  {
    hide TextAfter, SameTarget, GateOk, Strip;
    if k == 0 {
      assert rows[..0] == [];
      TextNone(t, similar, text);
    } else {
      TextGrows(rows, t, k - 1, similar, text);
      TextNext(rows, k - 1, t, similar, text);
    }
  }

  /** A chain makes some database need another run, unless a row aims into the text of the chain. */
  lemma {:induction false} ChainNeedsAnotherRun(rows: seq<Row>, i: nat, j: nat, similar: Similar) returns (spns: Spns)
    requires Chained(rows, i, j, similar) && forall k :: 0 <= k < |rows| ==> !Indexes(rows[k], rows[j])
    ensures RunOf(RunOf(spns, rows, similar), rows, similar) != RunOf(spns, rows, similar)
  {
    hide PassOf, Alone, Indexes, Holding, TextAfter, SameTarget, Ready, Lasts, Target, HasTarget, GateOk, Strip;
    var t := rows[j];
    var text :| ReadyAt(t, similar, TextAfter(rows[..j], t, similar, text));
    spns := Holding(t, text);
    HoldingIsAlone(t, text);
    assert rows[..|rows|] == rows;
    PassAlone(spns, rows, |rows|, t, similar);
    AloneTarget(spns, t);
    TargetOfPass(spns, rows, |rows|, t, similar);
    TextLasts(rows, j, |rows|, similar, text);
    var once := PassOf(spns, rows, similar).spns;
    PassAlone(once, rows, |rows|, t, similar);
    TargetOfPass(once, rows, |rows|, t, similar);
    ContinuesThere(rows[i], t, similar);
    Symmetric(rows[i], t);
    TextGrows(rows, t, |rows|, similar, Strip(t.fullText));
  }

  lemma {:induction false} AloneTarget(spns: Spns, t: Row)
    requires Alone(spns, t)
    ensures Target(spns, t).Some?
  {
  }

  lemma {:induction false} ContinuesThere(earlier: Row, later: Row, similar: Similar)
    requires Continues(earlier, later, similar)
    ensures ReadyAt(earlier, similar, Strip(later.fullText))
  {
    hide Strip, GateOk, ParsePath;
    StripId(Strip(later.fullText));
  }

  /** No row aims at a character of a text at which another one aims. */
  predicate Separate(rows: seq<Row>) {
    forall k, l :: 0 <= k < |rows| && 0 <= l < |rows| ==> !Indexes(rows[k], rows[l])
  }

  /** One run is enough for every database if and only if no row is chained to a later one. */
  lemma {:induction false} OneRunIff(rows: seq<Row>, similar: Similar)
    requires Separate(rows)
    ensures Unchained(rows, similar) <==>
      forall spns :: RunOf(RunOf(spns, rows, similar), rows, similar) == RunOf(spns, rows, similar)
  {
    hide RunOf, Chained, Indexes;
    if Unchained(rows, similar) {
      forall spns ensures RunOf(RunOf(spns, rows, similar), rows, similar) == RunOf(spns, rows, similar) {
        OneRunIsEnough(spns, rows, similar);
      }
    } else {
      var i, j :| Chained(rows, i, j, similar);
      ChainedRange(rows, i, j, similar);
      var spns := ChainNeedsAnotherRun(rows, i, j, similar);
    }
  }

  lemma {:induction false} ChainedRange(rows: seq<Row>, i: nat, j: nat, similar: Similar)
    requires Chained(rows, i, j, similar)
    ensures i < j < |rows|
  {
  }

  /** For two rows: if and only if the first does not continue the second. */
  lemma {:induction false} TwoRowsIff(a: Row, b: Row, similar: Similar)
    ensures !Continues(a, b, similar) <==>
      forall spns :: RunOf(RunOf(spns, [a, b], similar), [a, b], similar) == RunOf(spns, [a, b], similar)
  {
    hide RunOf, Continues, CanFire, Lasts, Indexes;
    if Continues(a, b, similar) {
      ContinuesFires(a, b, similar);
      assert Chained([a, b], 0, 1, similar);
      var spns := ChainNeedsAnotherRun([a, b], 0, 1, similar);
    } else {
      assert Unchained([a, b], similar);
      forall spns ensures RunOf(RunOf(spns, [a, b], similar), [a, b], similar) == RunOf(spns, [a, b], similar) {
        OneRunIsEnough(spns, [a, b], similar);
      }
    }
  }

  lemma {:induction false} ContinuesFires(a: Row, b: Row, similar: Similar)
    requires Continues(a, b, similar)
    ensures var rows := [a, b];
      && CanFire(rows, 1, similar) && Lasts(rows, 1, similar)
      && forall k :: 0 <= k < 2 ==> !Indexes(rows[k], rows[1])
  {
    hide Strip, GateOk, ParsePath, TextAfter;
    var rows := [a, b];
    var text := Strip(b.oldClipped);
    StripId(text);
    assert rows[..1][..0] == [] && rows[..1] == [a];
    TextNext(rows, 0, b, similar, text);
    assert rows[..0] == [];
    TextNone(b, similar, text);
    assert ReadyAt(rows[1], similar, TextAfter(rows[..1], rows[1], similar, text));
  }
}
