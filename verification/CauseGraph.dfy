// Deriving root-cause nodes: every cause text becomes a node at most once per code, nodes
// of one title are merged into one, and every source reference still resolves.
module CauseGraph {
  import opened Text
  import opened Sorting
  import MergeValues

  // -------------------------------------------------------------------- nodes

  datatype Node = Node(
    id: string, title: string, dtcs: seq<string>, signals: seq<string>, contradicting: seq<string>, ref: string)

  /** A cause text of the databases, with the reference under which it is cited. */
  datatype Cause = Cause(code: string, text: string, ref: string, designation: string)

  /** The text gates and tables the derivation consults. */
  datatype Rules = Rules(
    citable: string -> bool, identity: (string, string) -> bool, slug: string -> string, signals: string -> seq<string>)

  function IdOf(c: Cause, rules: Rules): string { rules.slug(c.code) + "-" + rules.slug(c.text) }

  predicate Admitted(c: Cause, rules: Rules) {
    rules.citable(c.text) && rules.identity(c.designation, c.text) && rules.slug(c.text) != ""
  }

  function NodeOf(c: Cause, rules: Rules): Node {
    Node(IdOf(c, rules), Strip(c.text), [c.code], rules.signals(c.text), [], c.ref)
  }

  datatype Candidates = Candidates(nodes: seq<Node>, seen: set<(string, string)>, rejects: seq<Cause>)

  function Emit(s: Candidates, c: Cause, rules: Rules): Candidates {
    if !rules.citable(c.text) || !rules.identity(c.designation, c.text) then s.(rejects := s.rejects + [c])
    else if rules.slug(c.text) == "" || (IdOf(c, rules), c.code) in s.seen then s
    else Candidates(s.nodes + [NodeOf(c, rules)], s.seen + {(IdOf(c, rules), c.code)}, s.rejects)
  }

  function Emitted(causes: seq<Cause>, rules: Rules): Candidates {
    if causes == [] then Candidates([], {}, [])
    else Emit(Emitted(causes[..|causes| - 1], rules), causes[|causes| - 1], rules)
  }

  class Deriver {
    var candidates: seq<Node>
    var seen: set<(string, string)>
    var rejects: seq<Cause>

    constructor ()
      ensures Candidates(candidates, seen, rejects) == Candidates([], {}, [])
    {
      candidates, seen, rejects := [], {}, [];
    }

    method EmitCause(c: Cause, rules: Rules)
      modifies this
      ensures Candidates(candidates, seen, rejects) == Emit(old(Candidates(candidates, seen, rejects)), c, rules)
    {
      if !rules.citable(c.text) || !rules.identity(c.designation, c.text) {
        rejects := rejects + [c];
        return;
      }
      var slug := rules.slug(c.text);
      if slug == "" { return; }
      var id := rules.slug(c.code) + "-" + slug;
      if (id, c.code) in seen { return; }
      seen := seen + {(id, c.code)};
      candidates := candidates + [Node(id, Strip(c.text), [c.code], rules.signals(c.text), [], c.ref)];
    }

    method EmitAll(causes: seq<Cause>, rules: Rules)
      requires Candidates(candidates, seen, rejects) == Candidates([], {}, [])
      modifies this
      ensures Candidates(candidates, seen, rejects) == Emitted(causes, rules)
    {
      hide Emit;
      for i := 0 to |causes|
        invariant Candidates(candidates, seen, rejects) == Emitted(causes[..i], rules)
      {
        assert causes[..i + 1][..i] == causes[..i];
        EmitCause(causes[i], rules);
      }
      assert causes[..|causes|] == causes;
    }
  }

  predicate Refused(c: Cause, rules: Rules) { !(rules.citable(c.text) && rules.identity(c.designation, c.text)) }

  predicate Holds(nodes: seq<Node>, id: string, code: string) {
    exists i :: 0 <= i < |nodes| && nodes[i].id == id && nodes[i].dtcs == [code]
  }

  predicate Sprung(n: Node, causes: seq<Cause>, rules: Rules) {
    exists i :: 0 <= i < |causes| && Admitted(causes[i], rules) && n == NodeOf(causes[i], rules)
  }

  /** No two nodes share id and code; nodes come from admitted causes; `seen` is what the nodes hold. */
  ghost predicate NodesWell(s: Candidates, causes: seq<Cause>, rules: Rules) {
    && (forall i, j :: 0 <= i < j < |s.nodes| ==> s.nodes[i].id != s.nodes[j].id || s.nodes[i].dtcs != s.nodes[j].dtcs)
    && (forall i :: 0 <= i < |s.nodes| ==> Sprung(s.nodes[i], causes, rules))
    && (forall id, code :: (id, code) in s.seen <==> Holds(s.nodes, id, code))
  }

  /** Every admitted cause is held under its id and code; every refused cause is recorded, and no other. */
  ghost predicate CausesKept(s: Candidates, causes: seq<Cause>, rules: Rules) {
    && (forall c :: c in causes && Admitted(c, rules) ==> (IdOf(c, rules), c.code) in s.seen)
    && (forall c :: c in s.rejects <==> c in causes && Refused(c, rules))
  }

  lemma {:induction false} EmittedStep(s: Candidates, causes: seq<Cause>, c: Cause, rules: Rules)
    requires NodesWell(s, causes, rules)
    ensures NodesWell(Emit(s, c, rules), causes + [c], rules)
  {
    hide Strip, Admitted, Holds, Sprung;
    var t := Emit(s, c, rules);
    forall i | 0 <= i < |s.nodes| ensures Sprung(s.nodes[i], causes + [c], rules) {
      SprungMore(s.nodes[i], causes, c, rules);
    }
    if t.nodes != s.nodes {
      assert t.nodes == s.nodes + [NodeOf(c, rules)];
      IsAdmitted(c, rules);
      SprungMore(NodeOf(c, rules), causes, c, rules);
      forall id, code ensures (id, code) in t.seen <==> Holds(t.nodes, id, code) {
        HoldsMore(s.nodes, NodeOf(c, rules), id, code);
      }
      forall i | 0 <= i < |s.nodes| ensures t.nodes[i].id != NodeOf(c, rules).id || t.nodes[i].dtcs != [c.code] {
        NotHeld(s.nodes, i, IdOf(c, rules), c.code);
      }
    }
  }

  lemma {:induction false} SprungMore(n: Node, causes: seq<Cause>, c: Cause, rules: Rules)
    ensures Sprung(n, causes, rules) ==> Sprung(n, causes + [c], rules)
    ensures Admitted(c, rules) && n == NodeOf(c, rules) ==> Sprung(n, causes + [c], rules)
  {
    hide Admitted, NodeOf;
    var all := causes + [c];
    assert all[|causes|] == c && forall i :: 0 <= i < |causes| ==> all[i] == causes[i];
  }

  lemma {:induction false} IsAdmitted(c: Cause, rules: Rules)
    requires rules.citable(c.text) && rules.identity(c.designation, c.text) && rules.slug(c.text) != ""
    ensures Admitted(c, rules)
  {
  }

  lemma {:induction false} HoldsMore(nodes: seq<Node>, n: Node, id: string, code: string)
    ensures Holds(nodes + [n], id, code) <==> Holds(nodes, id, code) || (n.id == id && n.dtcs == [code])
  {
    var all := nodes + [n];
    assert all[|nodes|] == n && forall i :: 0 <= i < |nodes| ==> all[i] == nodes[i];
  }

  lemma {:induction false} NotHeld(nodes: seq<Node>, i: nat, id: string, code: string)
    requires i < |nodes| && !Holds(nodes, id, code)
    ensures nodes[i].id != id || nodes[i].dtcs != [code]
  {
  }

  lemma {:induction false} KeptStep(s: Candidates, causes: seq<Cause>, c: Cause, rules: Rules)
    requires CausesKept(s, causes, rules)
    ensures CausesKept(Emit(s, c, rules), causes + [c], rules)
  {
    hide NodeOf, IdOf;
  }

  lemma {:induction false} EmittedOnce(causes: seq<Cause>, rules: Rules)
    ensures NodesWell(Emitted(causes, rules), causes, rules) && CausesKept(Emitted(causes, rules), causes, rules)
  {
    if causes == [] {
      NothingEmitted(rules);
    } else {
      hide Emit, NodesWell, CausesKept;
      var n := |causes| - 1;
      EmittedOnce(causes[..n], rules);
      assert causes == causes[..n] + [causes[n]];
      EmittedStep(Emitted(causes[..n], rules), causes[..n], causes[n], rules);
      KeptStep(Emitted(causes[..n], rules), causes[..n], causes[n], rules);
    }
  }

  lemma {:induction false} NothingEmitted(rules: Rules)
    ensures NodesWell(Emitted([], rules), [], rules) && CausesKept(Emitted([], rules), [], rules)
  {
    assert forall id, code :: !Holds([], id, code);
  }

  // ------------------------------------------------------------ merging by title

  function TitleKey(title: string): string { MergeValues.Collapse(Lower(title)) }

  /** A group under construction: the first node of the title, with everything added since. */
  datatype Group = Group(
    first: Node, dtcs: seq<string>, signals: seq<string>, contradicting: seq<string>, refs: seq<string>)

  function AddNew(list: seq<string>, more: seq<string>): (r: seq<string>)
    ensures forall x :: x in r <==> x in list || x in more
    ensures list <= r
  {
    if more == [] then list
    else
      var n := |more| - 1;
      assert more == more[..n] + [more[n]];
      var r := AddNew(list, more[..n]);
      if more[n] in r then r else r + [more[n]]
  }

  function Opened(n: Node): Group { Group(n, n.dtcs, n.signals, n.contradicting, [n.ref]) }

  function Absorbed(g: Group, n: Node): Group {
    Group(g.first, AddNew(g.dtcs, n.dtcs), AddNew(g.signals, n.signals), AddNew(g.contradicting, n.contradicting),
      g.refs + [n.ref])
  }

  datatype Grouped = Grouped(order: seq<string>, groups: map<string, Group>)

  function AddNode(s: Grouped, n: Node): Grouped {
    var key := TitleKey(n.title);
    if key in s.groups then s.(groups := s.groups[key := Absorbed(s.groups[key], n)])
    else Grouped(s.order + [key], s.groups[key := Opened(n)])
  }

  function GroupedBy(nodes: seq<Node>): Grouped {
    if nodes == [] then Grouped([], map[]) else AddNode(GroupedBy(nodes[..|nodes| - 1]), nodes[|nodes| - 1])
  }

  function Closed(g: Group): Node {
    Node(
      g.first.id, g.first.title, SortedTexts(g.dtcs), SortedTexts(g.signals), SortedTexts(g.contradicting),
      Join(g.refs, "; "))
  }

  /** The merged nodes, in the order in which their titles first appear. */
  function Merged(s: Grouped, order: seq<string>): seq<Node>
    requires forall k :: 0 <= k < |order| ==> order[k] in s.groups
  {
    if order == [] then []
    else
      var n := |order| - 1;
      Merged(s, order[..n]) + [Closed(s.groups[order[n]])]
  }

  method Extend(list: seq<string>, more: seq<string>) returns (r: seq<string>)
    ensures r == AddNew(list, more)
  {
    r := list;
    for i := 0 to |more|
      invariant r == AddNew(list, more[..i])
    {
      assert more[..i + 1][..i] == more[..i];
      if more[i] !in r { r := r + [more[i]]; }
    }
    assert more[..|more|] == more;
  }

  function ById(n: Node): Key { [n.id] }

  method MergeByTitle(nodes: seq<Node>) returns (out: seq<Node>)
    ensures var s := GroupedBy(nodes);
      && (forall k :: 0 <= k < |s.order| ==> s.order[k] in s.groups)
      && out == Sorted(Merged(s, s.order), ById)
  {
    hide TitleKey, AddNew, Closed, Sorted;
    var order: seq<string> := [];
    var grouped: map<string, Group> := map[];
    for i := 0 to |nodes|
      invariant Grouped(order, grouped) == GroupedBy(nodes[..i])
      invariant forall k :: 0 <= k < |order| ==> order[k] in grouped
    {
      assert nodes[..i + 1][..i] == nodes[..i];
      var n := nodes[i];
      var key := TitleKey(n.title);
      if key !in grouped {
        order, grouped := order + [key], grouped[key := Group(n, n.dtcs, n.signals, n.contradicting, [n.ref])];
      } else {
        var g := grouped[key];
        var dtcs := Extend(g.dtcs, n.dtcs);
        var signals := Extend(g.signals, n.signals);
        var contradicting := Extend(g.contradicting, n.contradicting);
        grouped := grouped[key := Group(g.first, dtcs, signals, contradicting, g.refs + [n.ref])];
      }
    }
    assert nodes[..|nodes|] == nodes;
    out := [];
    ghost var s := Grouped(order, grouped);
    for k := 0 to |order|
      invariant out == Merged(s, order[..k])
    {
      assert order[..k + 1][..k] == order[..k];
      out := out + [Closed(grouped[order[k]])];
    }
    assert order[..|order|] == order;
    out := Sorted(out, ById);
  }

  // --------------------------------------------------------------- the grouping

  /** The nodes of a title, in order. */
  function OfTitle(nodes: seq<Node>, key: string): seq<Node> {
    if nodes == [] then []
    else
      var n := |nodes| - 1;
      OfTitle(nodes[..n], key) + if TitleKey(nodes[n].title) == key then [nodes[n]] else []
  }

  function RefsOf(nodes: seq<Node>): (r: seq<string>)
    ensures |r| == |nodes| && forall i :: 0 <= i < |r| ==> r[i] == nodes[i].ref
  {
    seq(|nodes|, i requires 0 <= i < |nodes| => nodes[i].ref)
  }

  /**
   * A group holds exactly the nodes of its title: first node, references in order, and the union of
   * codes and signals.
   */
  ghost predicate Gathers(g: Group, nodes: seq<Node>) {
    && nodes != [] && g.first == nodes[0] && g.refs == RefsOf(nodes)
    && (forall x :: x in g.dtcs <==> exists i :: 0 <= i < |nodes| && x in nodes[i].dtcs)
    && (forall x :: x in g.signals <==> exists i :: 0 <= i < |nodes| && x in nodes[i].signals)
    && (forall x :: x in g.contradicting <==> exists i :: 0 <= i < |nodes| && x in nodes[i].contradicting)
  }

  lemma {:induction false} GathersMore(g: Group, nodes: seq<Node>, n: Node)
    requires Gathers(g, nodes)
    ensures Gathers(Absorbed(g, n), nodes + [n])
  {
    hide AddNew;
    var all := nodes + [n];
    assert RefsOf(all) == RefsOf(nodes) + [n.ref];
    assert all[|nodes|] == n && forall i :: 0 <= i < |nodes| ==> all[i] == nodes[i];
  }

  lemma {:induction false} GathersOne(n: Node)
    ensures Gathers(Opened(n), [n])
  {
    assert [n][0] == n;
  }

  /** Titles are grouped without loss: each has one place in the order, and its group holds exactly its nodes. */
  lemma {:induction false} GroupsAreTitles(nodes: seq<Node>, key: string)
    ensures var s := GroupedBy(nodes);
      && (key in s.groups <==> key in s.order)
      && (key in s.groups <==> OfTitle(nodes, key) != [])
      && (key in s.groups ==> Gathers(s.groups[key], OfTitle(nodes, key)))
      && (forall i, j :: 0 <= i < j < |s.order| && s.order[i] == key ==> s.order[j] != key)
  {
    hide TitleKey, Gathers, Absorbed, Opened;
    if nodes != [] {
      var n := |nodes| - 1;
      var before := GroupedBy(nodes[..n]);
      GroupsAreTitles(nodes[..n], key);
      if TitleKey(nodes[n].title) == key {
        if key in before.groups {
          GathersMore(before.groups[key], OfTitle(nodes[..n], key), nodes[n]);
        } else {
          GathersOne(nodes[n]);
          assert [] + [nodes[n]] == [nodes[n]];
        }
      } else {
        assert OfTitle(nodes, key) == OfTitle(nodes[..n], key);
      }
    }
  }

  lemma {:induction false} MergedHolds(s: Grouped, order: seq<string>, n: Node)
    requires forall i :: 0 <= i < |order| ==> order[i] in s.groups
    ensures n in Merged(s, order) <==> exists k :: k in order && n == Closed(s.groups[k])
  {
    hide Closed;
    if order != [] {
      MergedHolds(s, order[..|order| - 1], n);
      assert order == order[..|order| - 1] + [order[|order| - 1]];
    }
  }

  lemma {:induction false} MergedLength(s: Grouped, order: seq<string>)
    requires forall i :: 0 <= i < |order| ==> order[i] in s.groups
    ensures |Merged(s, order)| == |order|
  {
    hide Closed;
    if order != [] { MergedLength(s, order[..|order| - 1]); }
  }

  lemma {:induction false} GroupCount(nodes: seq<Node>)
    ensures |GroupedBy(nodes).order| == |GroupedBy(nodes).groups|
  {
    hide TitleKey, Absorbed, Opened;
    if nodes != [] { GroupCount(nodes[..|nodes| - 1]); }
  }

  /** A written node lists exactly the codes and signals of its group, in ascending order. */
  lemma {:induction false} ClosedLists(g: Group)
    ensures var n := Closed(g);
      && Ordered(n.dtcs, Itself) && multiset(n.dtcs) == multiset(g.dtcs)
      && Ordered(n.signals, Itself) && multiset(n.signals) == multiset(g.signals)
      && Ordered(n.contradicting, Itself) && multiset(n.contradicting) == multiset(g.contradicting)
  {
    hide Ordered, Sorted, Join;
    SortedIs(g.dtcs, Itself);
    SortedIs(g.signals, Itself);
    SortedIs(g.contradicting, Itself);
  }

  /** The references of all groups together are the references of all nodes, each as often as it occurs. */
  function AllRefs(s: Grouped, order: seq<string>): multiset<string>
    requires forall k :: 0 <= k < |order| ==> order[k] in s.groups
  {
    if order == [] then multiset{}
    else AllRefs(s, order[..|order| - 1]) + multiset(s.groups[order[|order| - 1]].refs)
  }

  lemma {:induction false} AllRefsElsewhere(s: Grouped, t: Grouped, order: seq<string>, key: string)
    requires key !in order
    requires forall k :: 0 <= k < |order| ==> order[k] in s.groups && order[k] in t.groups
    requires forall k :: k in s.groups && k != key ==> k in t.groups && t.groups[k] == s.groups[k]
    ensures AllRefs(t, order) == AllRefs(s, order)
  {
    if order != [] { AllRefsElsewhere(s, t, order[..|order| - 1], key); }
  }

  lemma {:induction false} AllRefsAbsorb(s: Grouped, order: seq<string>, key: string, n: Node)
    requires key in order && key in s.groups
    requires forall k :: 0 <= k < |order| ==> order[k] in s.groups
    requires forall i, j :: 0 <= i < j < |order| ==> order[i] != order[j]
    ensures AllRefs(s.(groups := s.groups[key := Absorbed(s.groups[key], n)]), order) ==
      AllRefs(s, order) + multiset{n.ref}
  {
    hide AddNew;
    var t := s.(groups := s.groups[key := Absorbed(s.groups[key], n)]);
    var m := |order| - 1;
    if order[m] == key {
      AllRefsElsewhere(s, t, order[..m], key);
    } else {
      assert key in order[..m];
      AllRefsAbsorb(s, order[..m], key, n);
    }
  }

  lemma {:induction false} OrderWell(nodes: seq<Node>)
    ensures var s := GroupedBy(nodes);
      && (forall k :: 0 <= k < |s.order| ==> s.order[k] in s.groups)
      && (forall i, j :: 0 <= i < j < |s.order| ==> s.order[i] != s.order[j])
  {
    hide TitleKey, GroupedBy, Gathers, OfTitle;
    var s := GroupedBy(nodes);
    forall k | 0 <= k < |s.order| ensures s.order[k] in s.groups { GroupsAreTitles(nodes, s.order[k]); }
    forall i, j | 0 <= i < j < |s.order| ensures s.order[i] != s.order[j] { GroupsAreTitles(nodes, s.order[i]); }
  }

  /** The result is ordered by id and holds one node for each title and no other. */
  lemma {:induction false} OneNodeATitle(nodes: seq<Node>)
    ensures var s := GroupedBy(nodes);
      && (forall k :: 0 <= k < |s.order| ==> s.order[k] in s.groups)
      && Ordered(Sorted(Merged(s, s.order), ById), ById)
      && |Sorted(Merged(s, s.order), ById)| == |s.groups|
      && (forall n :: n in Sorted(Merged(s, s.order), ById) <==> exists k :: k in s.groups && n == Closed(s.groups[k]))
  {
    hide Ordered, Sorted, Merged, GroupedBy, Closed, Gathers, OfTitle;
    var s := GroupedBy(nodes);
    OrderWell(nodes);
    GroupCount(nodes);
    var merged := Merged(s, s.order);
    SortedIs(merged, ById);
    var out := Sorted(merged, ById);
    assert |out| == |multiset(out)| == |merged|;
    MergedLength(s, s.order);
    forall n ensures n in out <==> exists k :: k in s.groups && n == Closed(s.groups[k]) {
      assert n in out <==> n in multiset(out);
      MergedHolds(s, s.order, n);
      forall k ensures k in s.groups <==> k in s.order { GroupsAreTitles(nodes, k); }
    }
  }

  /** The titles of the groups are pairwise distinct, and no reference is lost or doubled. */
  lemma {:induction false} RefsConserved(nodes: seq<Node>)
    ensures var s := GroupedBy(nodes);
      && (forall k :: 0 <= k < |s.order| ==> s.order[k] in s.groups)
      && (forall i, j :: 0 <= i < j < |s.order| ==> s.order[i] != s.order[j])
      && AllRefs(s, s.order) == multiset(RefsOf(nodes))
  {
    hide TitleKey, AddNew, AllRefs, Absorbed;
    OrderWell(nodes);
    var s := GroupedBy(nodes);
    if nodes == [] {
      NoRefs(s);
    } else {
      var m := |nodes| - 1;
      var before, n := GroupedBy(nodes[..m]), nodes[m];
      var key := TitleKey(n.title);
      OrderWell(nodes[..m]);
      RefsConserved(nodes[..m]);
      assert RefsOf(nodes) == RefsOf(nodes[..m]) + [n.ref];
      GroupsAreTitles(nodes[..m], key);
      if key in before.groups {
        AllRefsAbsorb(before, before.order, key, n);
      } else {
        AllRefsElsewhere(before, s, before.order, key);
        AllRefsOpen(s, before.order, key, n);
      }
    }
  }

  lemma {:induction false} NoRefs(s: Grouped)
    ensures AllRefs(s, []) == multiset{} && multiset(RefsOf([])) == multiset{}
  {
  }

  lemma {:induction false} AllRefsOpen(s: Grouped, order: seq<string>, key: string, n: Node)
    requires key in s.groups && s.groups[key] == Opened(n) && forall k :: 0 <= k < |order| ==> order[k] in s.groups
    ensures AllRefs(s, order + [key]) == AllRefs(s, order) + multiset{n.ref}
  {
    assert (order + [key])[..|order|] == order;
  }
}
