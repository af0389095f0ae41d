// Merging recovered texts into clipped ones: paths into a record tree, and a merge that
// replaces a text only by a strictly longer one.
module Recovery {
  import opened Wrappers
  import opened Text
  import opened Numbers

  datatype Json =
    | Str(text: string) | Arr(items: seq<Json>) | Obj(fields: map<string, Json>) | Null | Scalar(text_: string)

  /** One hop of a path: a field, and possibly an index into what it holds. */
  datatype Step = Step(field: string, index: Option<nat>)

  // -------------------------------------------------------------------- paths

  predicate IsNameChar(c: char) { 'a' <= c <= 'z' || 'A' <= c <= 'Z' || c == '_' }

  function NameLength(s: string): (n: nat)
    ensures n <= |s| && forall i :: 0 <= i < n ==> IsNameChar(s[i])
  {
    if s != "" && IsNameChar(s[0]) then 1 + NameLength(s[1..]) else 0
  }

  /** A final line break is tolerated, as the pattern's `$` does. */
  function WithoutLineEnd(s: string): string {
    if s != "" && s[|s| - 1] == '\n' then s[..|s| - 1] else s
  }

  function ParseStep(part: string): (r: Option<Step>)
    ensures r.Some? ==> r.value.field != "" && forall i :: 0 <= i < |r.value.field| ==> IsNameChar(r.value.field[i])
  {
    var s := WithoutLineEnd(part);
    var n := NameLength(s);
    var rest := s[n..];
    if n == 0 then None
    else if rest == "" then Some(Step(s, None))
    else if |rest| >= 3 && rest[0] == '[' && rest[|rest| - 1] == ']' && AllDigits(rest[1..|rest| - 1]) then
      Some(Step(s[..n], Some(Value(rest[1..|rest| - 1]))))
    else None
  }

  function ParseSteps(parts: seq<string>): Option<seq<Step>> {
    if parts == [] then Some([])
    else
      match ParseStep(parts[0])
      case None => None
      case Some(step) =>
        match ParseSteps(parts[1..])
        case None => None
        case Some(rest) => Some([step] + rest)
  }

  function ParsePath(path: string): Option<seq<Step>> {
    var parts := Split(path, '/');
    if parts[0] != "SPN" then None else ParseSteps(parts[1..])
  }

  // -------------------------------------------------------------- get and set

  /** A hop that can be written through: into a field, or into a list in a field. */
  function Inner(j: Json, s: Step): Option<Json> {
    if !j.Obj? || s.field !in j.fields then None
    else
      match s.index
      case None => Some(j.fields[s.field])
      case Some(i) =>
        var v := j.fields[s.field];
        if v.Arr? && i < |v.items| then Some(v.items[i]) else None
  }

  /** Reading also indexes a text, which gives one of its characters. */
  function Hop(j: Json, s: Step): Option<Json> {
    if j.Obj? && s.field in j.fields && s.index.Some? && j.fields[s.field].Str? then
      var text := j.fields[s.field].text;
      if s.index.value < |text| then Some(Str([text[s.index.value]])) else None
    else Inner(j, s)
  }

  function Resolve(j: Json, path: seq<Step>): Option<Json>
    decreases |path|
  {
    if path == [] then Some(j)
    else
      match Hop(j, path[0])
      case None => None
      case Some(next) => Resolve(next, path[1..])
  }

  function Put(j: Json, s: Step, v: Json): Json
    requires Inner(j, s).Some?
  {
    match s.index
    case None => Obj(j.fields[s.field := v])
    case Some(i) => Obj(j.fields[s.field := Arr(j.fields[s.field].items[i := v])])
  }

  /** Assigning at the last hop: a field of an object need not be there, an element of a list must. */
  function Assign(j: Json, s: Step, v: Json): Option<Json> {
    if s.index.None? then (if j.Obj? then Some(Obj(j.fields[s.field := v])) else None)
    else if Inner(j, s).Some? then Some(Put(j, s, v))
    else None
  }

  /** Writing fails where a hop is missing or would go through a character of a text. */
  function Set(j: Json, path: seq<Step>, v: string): Option<Json>
    requires path != []
    decreases |path|
  {
    if |path| == 1 then Assign(j, path[0], Str(v))
    else if Inner(j, path[0]).None? then None
    else
      match Set(Inner(j, path[0]).value, path[1..], v)
      case None => None
      case Some(child) => Some(Put(j, path[0], child))
  }

  /** The text at a path that can be written. */
  function Leaf(j: Json, path: seq<Step>): Option<string>
    decreases |path|
  {
    if path == [] then (if j.Str? then Some(j.text) else None)
    else
      match Inner(j, path[0])
      case None => None
      case Some(next) => Leaf(next, path[1..])
  }

  lemma {:induction false} InnerPut(j: Json, s: Step, v: Json)
    requires Inner(j, s).Some?
    ensures Inner(Put(j, s, v), s) == Some(v)
  {
  }

  /**
   * Putting a leaf or an object in place changes no other hop; only a hop into the replaced value
   * itself would see it.
   */
  lemma {:induction false} InnerPutOther(j: Json, s: Step, v: Json, t: Step)
    requires Inner(j, s).Some? && s != t
    requires s.field != t.field || (s.index.Some? && t.index.Some?)
    ensures Inner(Put(j, s, v), t) == Inner(j, t)
  {
  }

  lemma {:induction false} PathsPart(j: Json, s: Step, t: Step, p: seq<Step>, q: seq<Step>, v: Json)
    requires Inner(j, s).Some? && s != t && s.field == t.field && (s.index.None? || t.index.None?)
    requires (Inner(j, s).value.Str? && v.Str?) || (Inner(j, s).value.Obj? && v.Obj?)
    ensures Leaf(Put(j, s, v), [t] + q) == Leaf(j, [t] + q)
  {
    assert ([t] + q)[1..] == q;
    var k := Put(j, s, v);
    if s.index.None? {
      assert Inner(k, t) == None && Inner(j, t) == None;
    } else {
      assert Inner(k, t) == Some(k.fields[t.field]) && Inner(j, t) == Some(j.fields[t.field]);
      LeafOfList(k.fields[t.field], q);
      LeafOfList(j.fields[t.field], q);
    }
  }

  lemma {:induction false} LeafOfList(j: Json, q: seq<Step>)
    requires j.Arr?
    ensures Leaf(j, q) == None
  {
  }

  // --------------------------------------------------------- the laws of both

  /** What was written is read back. */
  lemma {:induction false} SetReadsBack(j: Json, p: seq<Step>, v: string)
    requires p != [] && Set(j, p, v).Some?
    ensures Set(j, p, v).value.Obj?
    ensures Leaf(Set(j, p, v).value, p) == Some(v)
    decreases |p|
  {
    hide Inner, Put, Assign;
    var s := p[0];
    if |p| == 1 {
      Assigned(j, s, Str(v));
      LeafOfText(Str(v), p[1..]);
    } else {
      var next := Inner(j, s).value;
      SetReadsBack(next, p[1..], v);
      InnerPut(j, s, Set(next, p[1..], v).value);
      IsObject(j, s, Set(next, p[1..], v).value);
    }
  }

  lemma {:induction false} Assigned(j: Json, s: Step, v: Json)
    requires Assign(j, s, v).Some?
    ensures j.Obj? && Assign(j, s, v).value.Obj? && Inner(Assign(j, s, v).value, s) == Some(v)
  {
  }

  /**
   * The second path neither passes through the first nor lies on it. A hop with an index
   * passes through the hop to its field.
   */
  predicate Apart(p: seq<Step>, q: seq<Step>)
    decreases |p|
  {
    && p != [] && q != []
    && if p[0] == q[0] then Apart(p[1..], q[1..])
       else if p[0].field == q[0].field && p[0].index.None? then |p| > 1
       else if p[0].field == q[0].field && q[0].index.None? then |q| > 1
       else true
  }

  /** Two hops that meet nowhere, or in a list at different places. */
  predicate Elsewhere(s: Step, t: Step) {
    s.field != t.field || (s.index.Some? && t.index.Some? && s.index != t.index)
  }

  lemma {:induction false} HopElsewhere(j: Json, s: Step, v: Json, t: Step)
    requires Elsewhere(s, t)
    ensures Inner(j, s).Some? ==> Hop(Put(j, s, v), t) == Hop(j, t)
    ensures Assign(j, s, v).Some? ==> Hop(Assign(j, s, v).value, t) == Hop(j, t)
  {
  }

  /** Writing a list element keeps the list a list, through which no text path goes on. */
  lemma {:induction false} ListStaysList(j: Json, s: Step, v: Json, t: Step)
    requires Inner(j, s).Some? && s.field == t.field && s.index.Some? && t.index.None?
    ensures Hop(j, t).Some? && Hop(j, t).value.Arr?
    ensures Hop(Put(j, s, v), t).Some? && Hop(Put(j, s, v), t).value.Arr?
  {
  }

  lemma {:induction false} NothingInList(j: Json, q: seq<Step>)
    requires j.Arr? && q != []
    ensures Resolve(j, q) == None
  {
  }

  /** An object in a field has no elements. */
  lemma {:induction false} NoElement(j: Json, s: Step, v: Json, t: Step)
    requires Inner(j, s).Some? && Inner(j, s).value.Obj? && v.Obj?
    requires s.field == t.field && s.index.None? && t.index.Some?
    ensures Hop(j, t) == None && Hop(Put(j, s, v), t) == None
  {
  }

  /** Writing changes nothing elsewhere: every other path reads the same, whatever it leads to. */
  lemma {:induction false} SetElsewhere(j: Json, p: seq<Step>, v: string, q: seq<Step>)
    requires p != [] && Set(j, p, v).Some? && Apart(p, q)
    ensures Resolve(Set(j, p, v).value, q) == Resolve(j, q)
    decreases |p|
  {
    hide Inner, Put, Assign, Hop, Elsewhere;
    var s, t := p[0], q[0];
    var k := Set(j, p, v).value;
    var child := if |p| == 1 then Str(v) else Set(Inner(j, s).value, p[1..], v).value;
    if |p| > 1 { SetReadsBack(Inner(j, s).value, p[1..], v); SetOfObject(Inner(j, s).value, p[1..], v); }
    if s == t {
      InnerHop(j, s);
      InnerPut(j, s, child);
      InnerHop(k, s);
      SetElsewhere(Inner(j, s).value, p[1..], v, q[1..]);
    } else {
      ElsewhereIs(s, t);
      if Elsewhere(s, t) {
        HopElsewhere(j, s, child, t);
      } else if s.index.None? {
        NoElement(j, s, child, t);
      } else {
        AssignIsPut(j, s, child);
        ListStaysList(j, s, child, t);
        NothingInList(Hop(j, t).value, q[1..]);
        NothingInList(Hop(k, t).value, q[1..]);
      }
    }
  }

  lemma {:induction false} ElsewhereIs(s: Step, t: Step)
    requires s != t
    ensures Elsewhere(s, t) || (s.field == t.field && (s.index.None? <==> t.index.Some?))
  {
  }

  lemma {:induction false} AssignIsPut(j: Json, s: Step, v: Json)
    requires s.index.Some?
    ensures Assign(j, s, v) == if Inner(j, s).Some? then Some(Put(j, s, v)) else None
  {
  }

  lemma {:induction false} SetOfObject(j: Json, p: seq<Step>, v: string)
    requires p != [] && Set(j, p, v).Some?
    ensures j.Obj?
  {
  }

  /** Setting a text that is there succeeds, and then it is read back; no other text changes, appears or goes. */
  lemma {:induction false} SetLeaf(j: Json, p: seq<Step>, v: string, q: seq<Step>)
    requires p != [] && Leaf(j, p).Some?
    ensures Set(j, p, v).Some?
    ensures Set(j, p, v).value.Obj?
    ensures Leaf(Set(j, p, v).value, q) == if q == p then Some(v) else Leaf(j, q)
    decreases |p|
  {
    hide Inner, Put;
    SetChild(j, p, v);
    var s, rest := p[0], p[1..];
    var next := Inner(j, s).value;
    var child := if |p| == 1 then Str(v) else Set(next, rest, v).value;
    InnerPut(j, s, child);
    IsObject(j, s, child);
    if q != [] {
      var t := q[0];
      assert q == [t] + q[1..];
      if s == t {
        if |p| > 1 {
          SetLeaf(next, rest, v, q[1..]);
        } else {
          LeafOfText(Str(v), q[1..]);
          LeafOfText(next, q[1..]);
        }
        assert q == p <==> q[1..] == rest;
      } else if s.field != t.field || (s.index.Some? && t.index.Some?) {
        InnerPutOther(j, s, child, t);
      } else {
        PathsPart(j, s, t, rest, q[1..], child);
      }
    }
  }

  lemma {:induction false} AssignExisting(j: Json, s: Step, v: Json)
    requires Inner(j, s).Some?
    ensures Assign(j, s, v) == Some(Put(j, s, v))
  {
  }

  lemma {:induction false} SetChild(j: Json, p: seq<Step>, v: string)
    requires p != [] && Leaf(j, p).Some?
    ensures Inner(j, p[0]).Some?
    ensures var next := Inner(j, p[0]).value;
      if |p| == 1 then next.Str? && Set(j, p, v) == Some(Put(j, p[0], Str(v)))
      else
        && next.Obj? && Leaf(next, p[1..]).Some?
        && Set(next, p[1..], v).Some? && Set(next, p[1..], v).value.Obj?
        && Set(j, p, v) == Some(Put(j, p[0], Set(next, p[1..], v).value))
    decreases |p|
  {
    hide Inner, Put, Assign;
    var next := Inner(j, p[0]).value;
    if |p| == 1 {
      AssignExisting(j, p[0], Str(v));
    } else {
      SetChild(next, p[1..], v);
      IsObject(next, p[1], if |p| == 2 then Str(v) else Set(Inner(next, p[1]).value, p[2..], v).value);
      assert p[1..][0] == p[1] && p[1..][1..] == p[2..];
    }
  }

  lemma {:induction false} IsObject(j: Json, s: Step, v: Json)
    requires Inner(j, s).Some?
    ensures j.Obj? && Put(j, s, v).Obj?
  {
  }

  lemma {:induction false} LeafOfText(j: Json, q: seq<Step>)
    requires j.Str?
    ensures Leaf(j, q) == if q == [] then Some(j.text) else None
  {
  }

  /** Reading a text finds the leaf there, or one character that cannot be written. */
  lemma {:induction false} ResolvedText(j: Json, p: seq<Step>, v: string)
    requires p != [] && Resolve(j, p).Some? && Resolve(j, p).value.Str?
    ensures Leaf(j, p) == Some(Resolve(j, p).value.text) || Set(j, p, v) == None
    ensures Leaf(j, p).None? ==> |Resolve(j, p).value.text| == 1
    decreases |p|
  {
    hide Inner;
    var s := p[0];
    var next := Hop(j, s).value;
    if Hop(j, s) == Inner(j, s) {
      if |p| > 1 { ResolvedText(next, p[1..], v); }
    } else {
      CharacterHop(j, s);
      if |p| > 1 { assert Hop(next, p[1]) == None by { NoHopFromText(next, p[1]); } }
    }
  }

  lemma {:induction false} CharacterHop(j: Json, s: Step)
    requires Hop(j, s).Some? && Hop(j, s) != Inner(j, s)
    ensures Inner(j, s) == None && Hop(j, s).value.Str? && |Hop(j, s).value.text| == 1
  {
  }

  lemma {:induction false} NoHopFromText(j: Json, s: Step)
    requires j.Str?
    ensures Hop(j, s) == None
  {
  }

  lemma {:induction false} LeafResolves(j: Json, p: seq<Step>)
    requires Leaf(j, p).Some?
    ensures Resolve(j, p) == Some(Str(Leaf(j, p).value))
    decreases |p|
  {
    hide Inner;
    if p != [] {
      InnerHop(j, p[0]);
      LeafResolves(Inner(j, p[0]).value, p[1..]);
    }
  }

  lemma {:induction false} InnerHop(j: Json, s: Step)
    requires Inner(j, s).Some?
    ensures Hop(j, s) == Inner(j, s)
  {
  }

  // ---------------------------------------------------------------- the merge

  const MARKER := "_t48_t44_merge"
  const SOURCE_FIELD := "_t48_t44_source"

  datatype Row = Row(spn: string, path: string, oldClipped: string, fullText: string, url: string)

  type Spns = map<string, Json>

  /** The clipped text occurs in the full text, as the normalising gate sees it. */
  type Similar = (string, string) -> bool

  datatype Status = Merged | Gated | UnknownSpn | BadPath | StaleTarget | NoChange | Raised

  predicate GateOk(row: Row, similar: Similar) {
    row.oldClipped != "" && row.fullText != "" && similar(row.oldClipped, row.fullText)
  }

  function Judge(spns: Spns, row: Row, similar: Similar): Status {
    if !GateOk(row, similar) then Gated
    else if row.spn !in spns || spns[row.spn].Null? then UnknownSpn
    else
      var path := ParsePath(row.path);
      if path.None? || Resolve(spns[row.spn], path.value).None? then BadPath
      else JudgeText(spns[row.spn], path.value, Resolve(spns[row.spn], path.value).value, row)
  }

  function JudgeText(j: Json, path: seq<Step>, current: Json, row: Row): Status {
    var full := Strip(row.fullText);
    if !current.Str? || Strip(current.text) != Strip(row.oldClipped) then
      (if current == Str(full) then NoChange else StaleTarget)
    else if full == current.text then NoChange
    else if |full| <= |current.text| then Gated
    else if path == [] || Set(j, path, full).None? then Raised
    else Merged
  }

  function Marked(j: Json, url: string): Json
    requires j.Obj?
  {
    var fields := j.fields[MARKER := Str("t48a")];
    Obj(if url != "" then fields[SOURCE_FIELD := Str(url)] else fields)
  }

  function After(spns: Spns, row: Row, similar: Similar): Spns
    requires Judge(spns, row, similar) == Merged
  {
    var j := Set(spns[row.spn], ParsePath(row.path).value, Strip(row.fullText)).value;
    spns[row.spn := if j.Obj? then Marked(j, row.url) else j]
  }

  /** The state of a run: a row that raises ends it. */
  datatype Pass = Pass(spns: Spns, statuses: multiset<Status>, raised: bool)

  function Advance(p: Pass, row: Row, similar: Similar): Pass {
    if p.raised then p
    else
      match Judge(p.spns, row, similar)
      case Merged => Pass(After(p.spns, row, similar), p.statuses + multiset{Merged}, false)
      case Raised => p.(raised := true)
      case Gated => p.(statuses := p.statuses + multiset{Gated})
      case UnknownSpn => p.(statuses := p.statuses + multiset{UnknownSpn})
      case BadPath => p.(statuses := p.statuses + multiset{BadPath})
      case StaleTarget => p.(statuses := p.statuses + multiset{StaleTarget})
      case NoChange => p.(statuses := p.statuses + multiset{NoChange})
  }

  function PassOf(spns: Spns, rows: seq<Row>, similar: Similar): Pass {
    if rows == [] then Pass(spns, multiset{}, false)
    else Advance(PassOf(spns, rows[..|rows| - 1], similar), rows[|rows| - 1], similar)
  }

  /** The database a run leaves: nothing is written when a row raises. */
  function RunOf(spns: Spns, rows: seq<Row>, similar: Similar): Spns {
    var p := PassOf(spns, rows, similar);
    if p.raised then spns else p.spns
  }

  class Database {
    var spns: Spns

    constructor (spns: Spns)
      ensures this.spns == spns
    {
      this.spns := spns;
    }

    method Merge(rows: seq<Row>, similar: Similar) returns (ok: bool, stats: multiset<Status>)
      modifies this
      ensures spns == RunOf(old(spns), rows, similar)
      ensures ok == !PassOf(old(spns), rows, similar).raised
      ensures ok ==> stats == PassOf(old(spns), rows, similar).statuses
    {
      hide PassOf, GateOk, ParsePath, Resolve, Set, Strip, Marked;
      var db := spns;
      stats := multiset{};
      PassNone(spns, similar);
      for i := 0 to |rows|
        invariant spns == old(spns)
        invariant Pass(db, stats, false) == PassOf(spns, rows[..i], similar)
      {
        PassNext(spns, rows, i, similar);
        var row := rows[i];
        if !GateOk(row, similar) {
          stats := stats + multiset{Gated};
          continue;
        }
        if row.spn !in db || db[row.spn].Null? {
          stats := stats + multiset{UnknownSpn};
          continue;
        }
        var rec := db[row.spn];
        var path := ParsePath(row.path);
        if path.None? || Resolve(rec, path.value).None? {
          stats := stats + multiset{BadPath};
          continue;
        }
        var current := Resolve(rec, path.value).value;
        var full := Strip(row.fullText);
        if !current.Str? || Strip(current.text) != Strip(row.oldClipped) {
          stats := stats + multiset{if current == Str(full) then NoChange else StaleTarget};
          continue;
        }
        if full == current.text {
          stats := stats + multiset{NoChange};
          continue;
        }
        if |full| <= |current.text| {
          stats := stats + multiset{Gated};
          continue;
        }
        if path.value == [] || Set(rec, path.value, full).None? {
          StaysRaised(spns, rows, i + 1, similar);
          return false, stats;
        }
        var changed := Set(rec, path.value, full).value;
        db := db[row.spn := if changed.Obj? then Marked(changed, row.url) else changed];
        stats := stats + multiset{Merged};
      }
      assert rows[..|rows|] == rows;
      spns := db;
      return true, stats;
    }
  }

  lemma {:induction false} PassNone(spns: Spns, similar: Similar)
    ensures PassOf(spns, [], similar) == Pass(spns, multiset{}, false)
  {
  }

  lemma {:induction false} PassNext(spns: Spns, rows: seq<Row>, i: nat, similar: Similar)
    requires i < |rows|
    ensures PassOf(spns, rows[..i + 1], similar) == Advance(PassOf(spns, rows[..i], similar), rows[i], similar)
  {
    hide Advance;
    assert rows[..i + 1][..i] == rows[..i];
  }

  lemma {:induction false} StaysRaised(spns: Spns, rows: seq<Row>, i: nat, similar: Similar)
    requires i <= |rows| && PassOf(spns, rows[..i], similar).raised
    ensures PassOf(spns, rows, similar).raised
    decreases |rows| - i
  {
    hide Judge;
    if i < |rows| {
      PassNext(spns, rows, i, similar);
      StaysRaised(spns, rows, i + 1, similar);
    } else {
      assert rows[..i] == rows;
    }
  }
}
