// What the derivation writes, read off the causes: the nodes with their fields, the titles
// that are taken for one, the fields of a merged node, and the text of a reference.
module CauseMeaning {
  import opened Text
  import opened Numbers
  import opened Sorting
  import opened CauseGraph
  import opened CauseReferences
  import MergeValues
  import ValueLaws

  // ------------------------------------------------------------------------ nodes

  /** The cause passes both gates, and nothing before it has its id under its code. */
  predicate Fresh(causes: seq<Cause>, i: nat, rules: Rules)
    requires i < |causes|
  {
    var c := causes[i];
    && rules.citable(c.text) && rules.identity(c.designation, c.text) && rules.slug(c.text) != ""
    && forall j :: 0 <= j < i ==> !SameNode(causes[j], c, rules)
  }

  /** An earlier cause of the same code that makes the same id. */
  predicate SameNode(b: Cause, c: Cause, rules: Rules) {
    && rules.citable(b.text) && rules.identity(b.designation, b.text) && rules.slug(b.text) != ""
    && b.code == c.code
    && rules.slug(b.code) + "-" + rules.slug(b.text) == rules.slug(c.code) + "-" + rules.slug(c.text)
  }

  /** The node of a cause, field by field. */
  predicate IsNodeOf(n: Node, c: Cause, rules: Rules) {
    && n.id == rules.slug(c.code) + "-" + rules.slug(c.text)
    && n.title == Strip(c.text) && n.dtcs == [c.code] && n.signals == rules.signals(c.text)
    && n.contradicting == [] && n.ref == c.ref
  }

  lemma {:induction false} SeenIs(causes: seq<Cause>, c: Cause, rules: Rules)
    ensures (rules.slug(c.code) + "-" + rules.slug(c.text), c.code) in Emitted(causes, rules).seen <==>
      exists j :: 0 <= j < |causes| && SameNode(causes[j], c, rules)
  {
    if causes != [] {
      var n := |causes| - 1;
      SeenIs(causes[..n], c, rules);
      assert forall j :: 0 <= j < n ==> causes[..n][j] == causes[j];
      SeenNext(Emitted(causes[..n], rules), causes[n], c, rules);
    }
  }

  lemma {:induction false} SeenNext(s: Candidates, b: Cause, c: Cause, rules: Rules)
    ensures var id := rules.slug(c.code) + "-" + rules.slug(c.text);
      (id, c.code) in Emit(s, b, rules).seen <==> (id, c.code) in s.seen || SameNode(b, c, rules)
  {
  }

  /** The nodes are those of the fresh causes, in their order; what a gate refuses is recorded, in order. */
  lemma {:induction false} NodesAre(causes: seq<Cause>, c: Cause, rules: Rules)
    ensures Emitted([], rules).nodes == [] && Emitted([], rules).rejects == []
    ensures var before, after := Emitted(causes, rules), Emitted(causes + [c], rules);
      && (if Fresh(causes + [c], |causes|, rules)
          then |after.nodes| == |before.nodes| + 1 && before.nodes <= after.nodes
            && IsNodeOf(after.nodes[|before.nodes|], c, rules)
          else after.nodes == before.nodes)
      && after.rejects ==
         before.rejects + (if rules.citable(c.text) && rules.identity(c.designation, c.text) then [] else [c])
  {
    hide SameNode, Strip;
    var all := causes + [c];
    assert all[..|causes|] == causes && forall j :: 0 <= j < |causes| ==> all[j] == causes[j];
    SeenIs(causes, c, rules);
  }

  // ----------------------------------------------------------------------- titles

  function LowerAll(words: seq<string>): (r: seq<string>)
    ensures |r| == |words| && forall i :: 0 <= i < |r| ==> r[i] == Lower(words[i])
  {
    if words == [] then [] else [Lower(words[0])] + LowerAll(words[1..])
  }

  /** The key of a title is its words in small letters; how they are spread makes no difference. */
  lemma {:induction false} TitleKeyIs(words: seq<string>, pads: seq<string>, end: string)
    requires ValueLaws.Separated(words, pads, end)
    ensures TitleKey(ValueLaws.Spread(words, pads, end)) == Join(LowerAll(words), " ")
  {
    hide Lower, IsSpace, Join, MergeValues.WordsOf;
    LowerSpread(words, pads, end);
    LowerSeparated(words, pads, end);
    ValueLaws.CollapseIs(LowerAll(words), pads, end);
  }

  lemma {:induction false} LowerSpread(words: seq<string>, pads: seq<string>, end: string)
    requires |words| == |pads| && AllSpace(end) && forall i :: 0 <= i < |words| ==> AllSpace(pads[i])
    ensures Lower(ValueLaws.Spread(words, pads, end)) == ValueLaws.Spread(LowerAll(words), pads, end)
  {
    hide Lower, IsSpace, AllSpace;
    if words == [] {
      LowerOfSpace(end);
    } else {
      LowerSpread(words[1..], pads[1..], end);
      var rest := ValueLaws.Spread(words[1..], pads[1..], end);
      ValueLaws.LowerConcat(pads[0], words[0] + rest);
      ValueLaws.LowerConcat(words[0], rest);
      LowerOfSpace(pads[0]);
      assert LowerAll(words)[1..] == LowerAll(words[1..]);
    }
  }

  lemma {:induction false} LowerOfSpace(s: string)
    requires AllSpace(s)
    ensures Lower(s) == s
  {
  }

  lemma {:induction false} LowerSeparated(words: seq<string>, pads: seq<string>, end: string)
    requires ValueLaws.Separated(words, pads, end)
    ensures ValueLaws.Separated(LowerAll(words), pads, end)
  {
    hide Lower, IsSpace, AllSpace;
    forall i | 0 <= i < |words| ensures ValueLaws.IsWord(LowerAll(words)[i]) { LowerWord(words[i]); }
  }

  lemma {:induction false} LowerWord(w: string)
    requires ValueLaws.IsWord(w)
    ensures ValueLaws.IsWord(Lower(w))
  {
  }

  // ----------------------------------------------------------------- merged nodes

  predicate Once(list: seq<string>) { forall i, j :: 0 <= i < j < |list| ==> list[i] != list[j] }

  lemma {:induction false} AddedOnce(list: seq<string>, more: seq<string>)
    requires Once(list)
    ensures Once(AddNew(list, more))
  {
    if more != [] { AddedOnce(list, more[..|more| - 1]); }
  }

  /** A list without repetitions is written strictly ascending. */
  lemma {:induction false} WrittenOnce(list: seq<string>)
    requires Once(list)
    ensures Once(SortedTexts(list))
  {
    hide Sorted, Ordered;
    SortedIs(list, Itself);
    OnceByCount(list);
    OnceByCount(SortedTexts(list));
  }

  lemma {:induction false} OnceByCount(list: seq<string>)
    ensures Once(list) <==> forall x :: multiset(list)[x] <= 1
  {
    if list != [] {
      var n := |list| - 1;
      OnceByCount(list[..n]);
      assert list == list[..n] + [list[n]];
      assert list[n] in list[..n] <==> multiset(list[..n])[list[n]] > 0;
      if Once(list) {
        forall x ensures multiset(list)[x] <= 1 { assert multiset(list[..n])[x] <= 1; }
      } else if Once(list[..n]) {
        assert multiset(list)[list[n]] > 1;
      } else {
        var x :| multiset(list[..n])[x] > 1;
        assert multiset(list)[x] > 1;
      }
    }
  }

  /**
   * A merged node: id and title of the first node of its title, all its codes and signals
   * ascending, and all its references in order with "; " between them.
   */
  ghost predicate IsMergeOf(n: Node, nodes: seq<Node>)
    requires nodes != []
  {
    && n.id == nodes[0].id && n.title == nodes[0].title && n.ref == Join(RefsOf(nodes), "; ")
    && (forall x :: x in n.dtcs <==> exists i :: 0 <= i < |nodes| && x in nodes[i].dtcs)
    && (forall x :: x in n.signals <==> exists i :: 0 <= i < |nodes| && x in nodes[i].signals)
    && (forall x :: x in n.contradicting <==> exists i :: 0 <= i < |nodes| && x in nodes[i].contradicting)
    && Ordered(n.dtcs, Itself) && Ordered(n.signals, Itself) && Ordered(n.contradicting, Itself)
  }

  lemma {:induction false} MergedAre(nodes: seq<Node>, key: string)
    requires key in GroupedBy(nodes).groups
    ensures OfTitle(nodes, key) != [] && IsMergeOf(Closed(GroupedBy(nodes).groups[key]), OfTitle(nodes, key))
  {
    hide GroupedBy, OfTitle, Ordered, Sorted, Join;
    GroupsAreTitles(nodes, key);
    var g := GroupedBy(nodes).groups[key];
    ClosedLists(g);
    var n := Closed(g);
    SameMembers(n.dtcs, g.dtcs);
    SameMembers(n.signals, g.signals);
    SameMembers(n.contradicting, g.contradicting);
  }

  lemma {:induction false} SameMembers(a: seq<string>, b: seq<string>)
    requires multiset(a) == multiset(b)
    ensures forall x :: x in a <==> x in b
  {
    forall x ensures x in a <==> x in b {
      assert x in multiset(a) <==> x in multiset(b);
    }
  }

  predicate NodeOnce(n: Node) { Once(n.dtcs) && Once(n.signals) && Once(n.contradicting) }

  /** Where no node lists a code or signal twice, no merged node does. */
  lemma {:induction false} MergedOnce(nodes: seq<Node>, key: string)
    requires forall i :: 0 <= i < |nodes| ==> NodeOnce(nodes[i])
    requires key in GroupedBy(nodes).groups
    ensures NodeOnce(Closed(GroupedBy(nodes).groups[key]))
  {
    hide GroupedBy, Sorted, Join, Once;
    GroupOnce(nodes, key);
    var g := GroupedBy(nodes).groups[key];
    WrittenOnce(g.dtcs);
    WrittenOnce(g.signals);
    WrittenOnce(g.contradicting);
  }

  lemma {:induction false} GroupOnce(nodes: seq<Node>, key: string)
    requires forall i :: 0 <= i < |nodes| ==> NodeOnce(nodes[i])
    requires key in GroupedBy(nodes).groups
    ensures var g := GroupedBy(nodes).groups[key]; Once(g.dtcs) && Once(g.signals) && Once(g.contradicting)
  {
    hide TitleKey, AddNew, Once;
    var m := |nodes| - 1;
    var before, n := GroupedBy(nodes[..m]), nodes[m];
    if key in before.groups {
      GroupOnce(nodes[..m], key);
      var g := before.groups[key];
      AddedOnce(g.dtcs, n.dtcs);
      AddedOnce(g.signals, n.signals);
      AddedOnce(g.contradicting, n.contradicting);
    }
  }

  // ------------------------------------------------------------------- references

  /** The three forms of a reference. */
  lemma {:induction false} ReferenceTexts(key: string, i: nat, q: string)
    ensures ListRef(DTC_HEAD, key, i) == "dtc_database.json['" + key + "'].causes[" + Decimal(i) + "]"
    ensures ListRef(SPN_HEAD, key, i) ==
      "j1939_spn_fmi_database.json['spns']['" + key + "'].causes[" + Decimal(i) + "]"
    ensures CellRef(key, q) ==
      "j1939_spn_fmi_database.json['spns']['" + key + ("'].fault_matrix[" + q + "]['causes']")
  {
    hide Decimal;
    assert CellRef(key, q) == SPN_HEAD + key + CellEnd(q);
  }

  /** Under a plain key a reference resolves exactly if the record has a list with a text at that place. */
  lemma {:induction false} ListCitesIff(s: Sources, key: string, i: nat)
    requires Plain(key)
    ensures Resolves(s, ListRef(DTC_HEAD, key, i)) <==>
      key in s.dtc && s.dtc[key].Listed? && i < |s.dtc[key].texts| && s.dtc[key].texts[i].Some?
    ensures Resolves(s, ListRef(SPN_HEAD, key, i)) <==>
      key in s.spns && s.spns[key].Listed? && i < |s.spns[key].texts| && s.spns[key].texts[i].Some?
  {
    hide Cites, Resolves, ListRef;
    CitesOf(s, DTC_HEAD, key, i);
    CitesOf(s, SPN_HEAD, key, i);
    CitesIff(s.dtc, key, i);
    CitesIff(s.spns, key, i);
    TwoHeads();
  }

  lemma {:induction false} TwoHeads()
    ensures DTC_HEAD != SPN_HEAD && HEADS == {DTC_HEAD, SPN_HEAD}
  {
    assert DTC_HEAD[0] == 'd' && SPN_HEAD[0] == 'j';
  }

  lemma {:induction false} CitesIff(table: Table, key: string, i: nat)
    ensures Cites(table, Cited(key, i)) <==>
      key in table && table[key].Listed? && i < |table[key].texts| && table[key].texts[i].Some?
  {
  }

  lemma {:induction false} CitesOf(s: Sources, head: string, key: string, i: nat)
    requires Plain(key) && head in HEADS
    ensures Resolves(s, ListRef(head, key, i)) <==> Cites(TableOf(s, head), Cited(key, i))
  {
    hide Matched, MatchedCell, Split, Strip, Decimal, Tail, Cites;
    var ref := ListRef(head, key, i);
    RefShape(head, key, i);
    OtherHead(ref, head);
    SplitPiece(ref, ';');
    OneResolves(s, ref);
    RefMatches(head, key, i);
    TwoHeads();
  }

  /** A quoted name is a name between two quotes of one kind that does not hold that kind. */
  lemma {:induction false} QuotedNameIff(q: string)
    ensures QuotedName(q) <==>
      exists quote, name ::
        (quote == '"' || quote == '\'') && name != "" && quote !in name && q == [quote] + name + [quote]
  {
    if QuotedName(q) {
      assert q == [q[0]] + q[1..|q| - 1] + [q[0]];
    }
    if quote, name :| (quote == '"' || quote == '\'') && name != "" && quote !in name && q == [quote] + name + [quote] {
      assert q[1..|q| - 1] == name;
    }
  }

  /** And a reference to a cell, exactly if its quotes hold a name that is read and has a text. */
  lemma {:induction false} CellCitesIff(s: Sources, key: string, quote: char, name: string)
    requires Plain(key) && quote in {'"', '\''} && name != "" && quote !in name && ';' !in name
    ensures var q := [quote] + name + [quote];
      Resolves(s, CellRef(key, q)) <==>
        key in s.matrix && s.decode(q).Some? && s.decode(q).value in s.matrix[key]
  {
    hide Matched, MatchedCell, CellRef, Strip, StartsWith, Name, Split;
    var q := [quote] + name + [quote];
    assert q[1..|q| - 1] == name;
    var ref := CellRef(key, q);
    CellShape(key, q);
    OtherHead(ref, SPN_HEAD);
    CellIsNoList(key, q);
    CellMatches(key, q);
    SplitPiece(ref, ';');
    OneResolves(s, ref);
  }
}
