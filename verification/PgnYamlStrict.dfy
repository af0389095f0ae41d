// When the reader loses lines: exactly when the block of some mapping item is not read to
// its end. A strict reader refuses that, and the lost lines never mattered.
module PgnYamlStrict {
  import opened Text
  import opened PgnYaml
  import opened PgnYamlReader

  // ------------------------------------------------------------ the strict reader

  // The reader of the script with one check more: the block of a mapping item must be
  // consumed, as the count that the script discards would tell.

  function StrictBlock(ls: seq<Line>, indent: nat): (r: Result<(Value, seq<Line>)>)
    ensures r.Ok? ==> SuffixOf(r.value.1, ls)
    decreases Weight(ls), 3
  {
    if ls == [] then Ok((Null, []))
    else if Dash(ls[0].content) then StrictItems(ls, indent, [])
    else StrictEntries(ls, indent, [])
  }

  function StrictItems(ls: seq<Line>, indent: nat, acc: seq<Value>): (r: Result<(Value, seq<Line>)>)
    ensures r.Ok? ==> SuffixOf(r.value.1, ls)
    decreases Weight(ls), 2
  {
    if ls == [] || ls[0].indent != indent || !Dash(ls[0].content) then Ok((Sequence(acc), ls))
    else
      match StrictItem(ls, indent)
      case Unparseable(line) => Unparseable(line)
      case Ok(item) =>
        WeightDrop(ls, |ls| - |item.1|);
        StrictItems(item.1, indent, acc + [item.0])
  }

  function StrictItem(ls: seq<Line>, indent: nat): (r: Result<(Value, seq<Line>)>)
    requires ls != [] && Dash(ls[0].content)
    ensures r.Ok? ==> |r.value.1| < |ls| && SuffixOf(r.value.1, ls)
    decreases Weight(ls), 1
  {
    var body := Strip(ls[0].content[2..]);
    if ':' in body then
      match StrictBlock(ItemBlock(ls, indent), indent + 2)
      case Unparseable(line) => Unparseable(line)
      case Ok(item) =>
        if item.1 != [] then Unparseable(item.1[0].content)
        else Ok((item.0, ls[1 + Deeper(ls[1..], indent)..]))
    else
      Ok((ScalarOf(body), ls[1..]))
  }

  function StrictEntries(ls: seq<Line>, indent: nat, acc: seq<Entry>): (r: Result<(Value, seq<Line>)>)
    ensures r.Ok? ==> SuffixOf(r.value.1, ls)
    decreases Weight(ls), 2
  {
    if ls == [] || ls[0].indent != indent || Dash(ls[0].content) then Ok((Mapping(Dict(acc)), ls))
    else
      match StrictEntry(ls, indent)
      case Unparseable(line) => Unparseable(line)
      case Ok(entry) =>
        WeightDrop(ls, |ls| - |entry.1|);
        StrictEntries(entry.1, indent, acc + [entry.0])
  }

  function StrictEntry(ls: seq<Line>, indent: nat): (r: Result<(Entry, seq<Line>)>)
    requires ls != []
    ensures r.Ok? ==> |r.value.1| < |ls| && SuffixOf(r.value.1, ls)
    decreases Weight(ls), 1
  {
    if OwnsChild(ls, indent) then
      match StrictBlock(ls[1..], ls[1].indent)
      case Unparseable(line) => Unparseable(line)
      case Ok(child) => Ok((Entry(Partition(ls[0].content).0, child.0), child.1))
    else ReadEntry(ls, indent)
  }

  /** A key without a value and with a nested block: the only entry that reads a block. */
  predicate OwnsChild(ls: seq<Line>, indent: nat) {
    ls != [] && ':' in ls[0].content && Partition(ls[0].content).1 == "" && HasChild(ls, indent)
  }

  // ---------------------------------------------------------------- the guard

  // Every block of a mapping item that the reader meets is read to its end.

  predicate LosslessBlock(ls: seq<Line>, indent: nat)
    decreases Weight(ls), 3
  {
    ls != [] ==> if Dash(ls[0].content) then LosslessItems(ls, indent) else LosslessEntries(ls, indent)
  }

  predicate LosslessItems(ls: seq<Line>, indent: nat)
    decreases Weight(ls), 2
  {
    if ls == [] || ls[0].indent != indent || !Dash(ls[0].content) then true
    else
      && LosslessItem(ls, indent)
      && match ReadItem(ls, indent)
         case Unparseable(_) => true
         case Ok(item) =>
           WeightDrop(ls, |ls| - |item.1|);
           LosslessItems(item.1, indent)
  }

  predicate LosslessItem(ls: seq<Line>, indent: nat)
    requires ls != [] && Dash(ls[0].content)
    decreases Weight(ls), 1
  {
    ':' in Strip(ls[0].content[2..]) ==>
      && LosslessBlock(ItemBlock(ls, indent), indent + 2)
      && ReadToEnd(ItemBlock(ls, indent), indent + 2)
  }

  /** What the script would find by comparing the discarded count with the length of the block. */
  predicate ReadToEnd(block: seq<Line>, indent: nat) {
    ParseBlock(block, indent).Ok? ==> ParseBlock(block, indent).value.1 == []
  }

  predicate LosslessEntries(ls: seq<Line>, indent: nat)
    decreases Weight(ls), 2
  {
    if ls == [] || ls[0].indent != indent || Dash(ls[0].content) then true
    else
      && LosslessEntry(ls, indent)
      && match ReadEntry(ls, indent)
         case Unparseable(_) => true
         case Ok(entry) =>
           WeightDrop(ls, |ls| - |entry.1|);
           LosslessEntries(entry.1, indent)
  }

  predicate LosslessEntry(ls: seq<Line>, indent: nat)
    requires ls != []
    decreases Weight(ls), 1
  {
    OwnsChild(ls, indent) ==> LosslessBlock(ls[1..], ls[1].indent)
  }

  // ------------------------------------------------------- accepted iff lossless

  /** The strict reading is the reading where nothing is lost, and a refusal elsewhere. */
  predicate Agrees<T(==)>(strict: Result<(T, seq<Line>)>, read: Result<(T, seq<Line>)>, lossless: bool) {
    && (strict.Ok? <==> read.Ok? && lossless)
    && (strict.Ok? ==> strict == read)
  }

  lemma {:induction false} BlockAgrees(ls: seq<Line>, n: nat)
    ensures Agrees(StrictBlock(ls, n), ParseBlock(ls, n), LosslessBlock(ls, n))
    decreases Weight(ls), 3
  {
    hide ParseItems, ParseEntries, StrictItems, StrictEntries, LosslessItems, LosslessEntries;
    if ls != [] {
      if Dash(ls[0].content) { ItemsAgree(ls, n, []); } else { EntriesAgree(ls, n, []); }
    }
  }

  lemma {:induction false} ItemsAgree(ls: seq<Line>, n: nat, acc: seq<Value>)
    ensures Agrees(StrictItems(ls, n, acc), ParseItems(ls, n, acc), LosslessItems(ls, n))
    decreases Weight(ls), 2
  {
    hide ReadItem, StrictItem, LosslessItem;
    if ls != [] && ls[0].indent == n && Dash(ls[0].content) {
      ItemAgrees(ls, n);
      var r := ReadItem(ls, n);
      if r.Ok? {
        WeightDrop(ls, |ls| - |r.value.1|);
        ItemsAgree(r.value.1, n, acc + [r.value.0]);
      }
    }
  }

  lemma {:induction false} ItemAgrees(ls: seq<Line>, n: nat)
    requires ls != [] && Dash(ls[0].content)
    ensures Agrees(StrictItem(ls, n), ReadItem(ls, n), LosslessItem(ls, n))
    decreases Weight(ls), 1
  {
    hide ParseBlock, StrictBlock, LosslessBlock, ItemBlock;
    if ':' in Strip(ls[0].content[2..]) {
      BlockAgrees(ItemBlock(ls, n), n + 2);
    }
  }

  lemma {:induction false} EntriesAgree(ls: seq<Line>, n: nat, acc: seq<Entry>)
    ensures Agrees(StrictEntries(ls, n, acc), ParseEntries(ls, n, acc), LosslessEntries(ls, n))
    decreases Weight(ls), 2
  {
    hide ReadEntry, StrictEntry, LosslessEntry;
    if ls != [] && ls[0].indent == n && !Dash(ls[0].content) {
      EntryAgrees(ls, n);
      var r := ReadEntry(ls, n);
      if r.Ok? {
        WeightDrop(ls, |ls| - |r.value.1|);
        EntriesAgree(r.value.1, n, acc + [r.value.0]);
      }
    }
  }

  lemma {:induction false} EntryAgrees(ls: seq<Line>, n: nat)
    requires ls != []
    ensures Agrees(StrictEntry(ls, n), ReadEntry(ls, n), LosslessEntry(ls, n))
    decreases Weight(ls), 1
  {
    hide ParseBlock, StrictBlock, LosslessBlock, Partition, ScalarOf, HasChild;
    if OwnsChild(ls, n) {
      HasNext(ls, n);
      WeightDrop(ls, 1);
      BlockAgrees(ls[1..], ls[1].indent);
    }
  }

  lemma {:induction false} HasNext(ls: seq<Line>, n: nat)
    requires HasChild(ls, n)
    ensures |ls| > 1
  {
  }

  /**
   * For all lines: the strict reader accepts if and only if the reader accepts and reads
   * every item block to its end, and then both give the same value.
   */
  lemma {:induction false} LosslessIff(ls: seq<Line>, n: nat)
    ensures StrictBlock(ls, n).Ok? <==> ParseBlock(ls, n).Ok? && LosslessBlock(ls, n)
    ensures StrictBlock(ls, n).Ok? ==> StrictBlock(ls, n) == ParseBlock(ls, n)
  {
    hide ParseBlock, StrictBlock, LosslessBlock;
    BlockAgrees(ls, n);
  }

  /** `parse_pgn_yaml` with the strict reader. */
  function StrictDocument(text: string): Document {
    var lines := SignificantLines(text);
    if lines == [] then EmptyDocument
    else
      match StrictBlock(lines, lines[0].indent)
      case Unparseable(l) => UnparseableLine(l)
      case Ok((doc, rest)) =>
        if rest != [] then UnconsumedLine(rest[0].indent, rest[0].content)
        else if doc.Mapping? then Parsed(doc.entries)
        else NotMapping
  }

  /** A document is read without loss if and only if it is accepted and the guard holds; then the values agree. */
  lemma {:induction false} DocumentLosslessIff(text: string)
    ensures var lines := SignificantLines(text);
      StrictDocument(text).Parsed? <==>
        ParseDocument(text).Parsed? && LosslessBlock(lines, lines[0].indent)
    ensures StrictDocument(text).Parsed? ==> StrictDocument(text) == ParseDocument(text)
  {
    hide ParseBlock, StrictBlock, LosslessBlock, SignificantLines;
    var lines := SignificantLines(text);
    if lines != [] { LosslessIff(lines, lines[0].indent); }
  }

  // -------------------------------------------------- what is lost does not matter

  /** A reader that stops before the first lines stops before the others too: they are none, or begin alike. */
  predicate StopsToo(a: seq<Line>, b: seq<Line>) {
    b != [] ==> a != [] && a[0].indent == b[0].indent && (Dash(a[0].content) <==> Dash(b[0].content))
  }

  lemma {:induction false} DeeperIs(kept: seq<Line>, rest: seq<Line>, n: nat)
    requires forall i :: 0 <= i < |kept| ==> kept[i].indent > n
    requires rest == [] || rest[0].indent <= n
    ensures Deeper(kept + rest, n) == |kept|
  {
    if kept == [] {
      assert kept + rest == rest;
    } else {
      assert (kept + rest)[1..] == kept[1..] + rest;
      DeeperIs(kept[1..], rest, n);
    }
  }

  lemma {:induction false} ContinuationIs(kept: seq<Line>, rest: seq<Line>, n: nat)
    requires forall i :: 0 <= i < |kept| ==> kept[i].indent > n && !Dash(kept[i].content)
    requires rest == [] || rest[0].indent <= n || Dash(rest[0].content)
    ensures Continuation(kept + rest, n) == |kept|
  {
    if kept == [] {
      assert kept + rest == rest;
    } else {
      assert (kept + rest)[1..] == kept[1..] + rest;
      ContinuationIs(kept[1..], rest, n);
    }
  }

  /** A block read at the indent of its first line consumes a line. */
  lemma {:induction false} Consumes(ls: seq<Line>)
    requires ls != [] && ParseBlock(ls, ls[0].indent).Ok?
    ensures |ParseBlock(ls, ls[0].indent).value.1| < |ls|
  {
    hide ReadItem, ReadEntry;
  }

  /** What a reader consumed decides its value; what it left may be nothing, or anything that begins alike. */
  lemma {:induction false} BlockPrefix(head: seq<Line>, rest: seq<Line>, other: seq<Line>, n: nat)
    requires head != [] && StopsToo(rest, other)
    requires ParseBlock(head + rest, n).Ok? && ParseBlock(head + rest, n).value.1 == rest
    ensures ParseBlock(head + other, n) == Ok((ParseBlock(head + rest, n).value.0, other))
    decreases |head|, 3
  {
    hide ParseItems, ParseEntries;
    assert (head + rest)[0] == head[0] == (head + other)[0];
    if Dash(head[0].content) {
      ItemsPrefix(head, rest, other, n, []);
    } else {
      EntriesPrefix(head, rest, other, n, []);
    }
  }

  lemma {:induction false} ItemsPrefix(head: seq<Line>, rest: seq<Line>, other: seq<Line>, n: nat, acc: seq<Value>)
    requires ParseItems(head + rest, n, acc).Ok? && ParseItems(head + rest, n, acc).value.1 == rest
    requires StopsToo(rest, other)
    ensures ParseItems(head + other, n, acc) == Ok((ParseItems(head + rest, n, acc).value.0, other))
    decreases |head|, 2
  {
    hide ReadItem, ParseItems, SuffixOf;
    var ls := head + rest;
    if ls == [] || ls[0].indent != n || !Dash(ls[0].content) {
      ItemsEnd(ls, n, acc);
      Unconsumed(head, rest, other);
      ItemsEnd(other, n, acc);
    } else {
      ItemsTurn(ls, n, acc);
      var item := ReadItem(ls, n).value;
      var h0, h1 := Cut(head, rest, other, item.1);
      ItemPrefix(h0, h1 + rest, h1 + other, n);
      ItemsTurn(head + other, n, acc);
      ItemsPrefix(h1, rest, other, n, acc + [item.0]);
    }
  }

  lemma {:induction false} Unconsumed(head: seq<Line>, rest: seq<Line>, other: seq<Line>)
    requires head + rest == rest
    ensures head == [] && head + other == other
  {
    assert |head + rest| == |head| + |rest|;
  }

  /** Cuts the consumed lines where an inner reader stopped. */
  lemma {:induction false} Cut(head: seq<Line>, rest: seq<Line>, other: seq<Line>, left: seq<Line>)
    returns (h0: seq<Line>, h1: seq<Line>)
    requires SuffixOf(left, head + rest) && SuffixOf(rest, left) && |left| < |head + rest| && StopsToo(rest, other)
    ensures h0 != [] && h0[0] == head[0] == (head + other)[0] == (head + rest)[0] && head == h0 + h1
    ensures head + rest == h0 + (h1 + rest) && head + other == h0 + (h1 + other) && left == h1 + rest
    ensures StopsToo(h1 + rest, h1 + other) && |h0| <= |head| && |h1| < |head|
  {
    var k := |head + rest| - |left|;
    h0, h1 := head[..k], head[k..];
    HeadsAlike(h1, rest, other);
    assert head == h0 + h1;
    assert head + rest == h0 + (h1 + rest);
    assert head + other == h0 + (h1 + other);
  }

  lemma {:induction false} HeadsAlike(h: seq<Line>, rest: seq<Line>, other: seq<Line>)
    requires StopsToo(rest, other)
    ensures StopsToo(h + rest, h + other)
  {
    if h == [] { assert h + rest == rest && h + other == other; }
  }

  /** Items with the same first line and the same deeper lines are the same. */
  lemma {:induction false} SameItem(ls: seq<Line>, ms: seq<Line>, n: nat, k: nat)
    requires ls != [] && ms != [] && ls[0] == ms[0] && Dash(ls[0].content)
    requires k == Deeper(ls[1..], n) == Deeper(ms[1..], n) && ls[1..][..k] == ms[1..][..k]
    requires ':' in Strip(ls[0].content[2..]) && ReadItem(ls, n).Ok?
    ensures ReadItem(ls, n).value.1 == ls[1 + k..]
    ensures ReadItem(ms, n) == Ok((ReadItem(ls, n).value.0, ms[1 + k..]))
  {
    hide ParseBlock, Strip, ScalarOf, Deeper;
    assert ItemBlock(ms, n) == ItemBlock(ls, n);
  }

  lemma {:induction false} ItemPrefix(head: seq<Line>, rest: seq<Line>, other: seq<Line>, n: nat)
    requires head != [] && Dash(head[0].content) && StopsToo(rest, other)
    requires ReadItem(head + rest, n).Ok? && ReadItem(head + rest, n).value.1 == rest
    ensures ReadItem(head + other, n) == Ok((ReadItem(head + rest, n).value.0, other))
  {
    hide ReadItem, ParseBlock, Strip, ScalarOf, Deeper;
    var ls, ms := head + rest, head + other;
    assert ls[0] == ms[0] == head[0];
    if ':' in Strip(head[0].content[2..]) {
      ItemRest(ls, n);
      Consumed(head, rest, other, 1 + Deeper(ls[1..], n));
      assert ms[1..] == head[1..] + other;
      DeeperIs(head[1..], other, n);
      SameItem(ls, ms, n, |head| - 1);
    } else {
      ScalarItem(ls, n);
      ScalarItem(ms, n);
      Consumed(head, rest, other, 1);
    }
  }

  lemma {:induction false} ItemRest(ls: seq<Line>, n: nat)
    requires ls != [] && Dash(ls[0].content) && ReadItem(ls, n).Ok? && ':' in Strip(ls[0].content[2..])
    ensures ReadItem(ls, n).value.1 == ls[1 + Deeper(ls[1..], n)..]
  {
    hide ParseBlock, Strip, ScalarOf, Deeper, ItemBlock;
  }

  lemma {:induction false} ScalarItem(ls: seq<Line>, n: nat)
    requires ls != [] && Dash(ls[0].content) && ':' !in Strip(ls[0].content[2..])
    ensures ReadItem(ls, n) == Ok((ScalarOf(Strip(ls[0].content[2..])), ls[1..]))
  {
    hide ParseBlock, Strip, ScalarOf, Deeper, ItemBlock;
  }

  lemma {:induction false} EntriesPrefix(head: seq<Line>, rest: seq<Line>, other: seq<Line>, n: nat, acc: seq<Entry>)
    requires ParseEntries(head + rest, n, acc).Ok? && ParseEntries(head + rest, n, acc).value.1 == rest
    requires StopsToo(rest, other)
    ensures ParseEntries(head + other, n, acc) == Ok((ParseEntries(head + rest, n, acc).value.0, other))
    decreases |head|, 2
  {
    hide ReadEntry, ParseEntries, Dict, SuffixOf;
    var ls := head + rest;
    if ls == [] || ls[0].indent != n || Dash(ls[0].content) {
      EntriesEnd(ls, n, acc);
      Unconsumed(head, rest, other);
      EntriesEnd(other, n, acc);
    } else {
      EntriesTurn(ls, n, acc);
      var entry := ReadEntry(ls, n).value;
      var h0, h1 := Cut(head, rest, other, entry.1);
      EntryPrefix(h0, h1 + rest, h1 + other, n);
      EntriesTurn(head + other, n, acc);
      EntriesPrefix(h1, rest, other, n, acc + [entry.0]);
    }
  }

  lemma {:induction false} EntryPrefix(head: seq<Line>, rest: seq<Line>, other: seq<Line>, n: nat)
    requires head != [] && StopsToo(rest, other)
    requires ReadEntry(head + rest, n).Ok? && ReadEntry(head + rest, n).value.1 == rest
    ensures ReadEntry(head + other, n) == Ok((ReadEntry(head + rest, n).value.0, other))
    decreases |head|, 1
  {
    hide ReadEntry, Partition, BlockHeader, Deeper, Continuation, HasChild;
    var ls, ms := head + rest, head + other;
    assert ls[0] == ms[0] == head[0] && ms[1..] == head[1..] + other;
    HasColon(ls, n);
    var (key, value) := Partition(head[0].content);
    if BlockHeader(value) {
      BlockEntryRest(ls, key, value, n);
      Consumed(head, rest, other, 1 + Deeper(ls[1..], n));
      DeeperIs(head[1..], other, n);
      SameBlockEntry(ls, ms, key, value, n, |head|);
    } else if value != "" {
      ScalarEntryRest(ls, key, value, n);
      Consumed(head, rest, other, 1 + Continuation(ls[1..], n));
      ContinuationIs(head[1..], other, n);
      SameScalarEntry(ls, ms, key, value, n, |head|);
    } else {
      AloneEntryPrefix(head, rest, other, key, n);
    }
  }

  lemma {:induction false} AloneEntryPrefix(
      head: seq<Line>, rest: seq<Line>, other: seq<Line>, key: string, n: nat)
    requires head != [] && StopsToo(rest, other)
    requires ':' in head[0].content && Partition(head[0].content) == (key, "")
    requires ReadEntry(head + rest, n).Ok? && ReadEntry(head + rest, n).value.1 == rest
    ensures ReadEntry(head + other, n) == Ok((ReadEntry(head + rest, n).value.0, other))
    decreases |head|, 0
  {
    hide ReadEntry, ParseBlock, Partition;
    var ls, ms := head + rest, head + other;
    assert ls[0] == ms[0] == head[0] && ls[1..] == head[1..] + rest && ms[1..] == head[1..] + other;
    KeyAlone(ls, key, n);
    KeyAlone(ms, key, n);
    if HasChild(ls, n) {
      Consumes(ls[1..]);
      assert |head| > 1 && ls[1] == head[1] == ms[1];
      BlockPrefix(head[1..], rest, other, head[1].indent);
    } else {
      assert |head| == 1 && ls[1..] == rest && ms[1..] == other;
      NoChildToo(ls, ms, n);
    }
  }

  lemma {:induction false} BlockEntryRest(ls: seq<Line>, key: string, value: string, n: nat)
    requires ls != [] && ':' in ls[0].content && Partition(ls[0].content) == (key, value) && BlockHeader(value)
    ensures ReadEntry(ls, n).Ok? && ReadEntry(ls, n).value.1 == ls[1 + Deeper(ls[1..], n)..]
  {
    hide ReadEntry, Partition, BlockHeader, Deeper, BlockText;
    KeyWithBlock(ls, key, value, n);
  }

  lemma {:induction false} SameBlockEntry(ls: seq<Line>, ms: seq<Line>, key: string, value: string, n: nat, k: nat)
    requires ls != [] && ms != [] && ls[0] == ms[0] && ':' in ls[0].content
    requires Partition(ls[0].content) == (key, value) && BlockHeader(value)
    requires k == 1 + Deeper(ls[1..], n) == 1 + Deeper(ms[1..], n) && ls[1..k] == ms[1..k]
    ensures ReadEntry(ls, n).Ok? && ReadEntry(ms, n) == Ok((ReadEntry(ls, n).value.0, ms[k..]))
  {
    hide ReadEntry, Partition, BlockHeader, Deeper, BlockText;
    KeyWithBlock(ls, key, value, n);
    KeyWithBlock(ms, key, value, n);
  }

  lemma {:induction false} ScalarEntryRest(ls: seq<Line>, key: string, value: string, n: nat)
    requires ls != [] && ':' in ls[0].content && Partition(ls[0].content) == (key, value)
    requires value != "" && !BlockHeader(value)
    ensures ReadEntry(ls, n).Ok? && ReadEntry(ls, n).value.1 == ls[1 + Continuation(ls[1..], n)..]
  {
    hide ReadEntry, Partition, BlockHeader, Continuation, ScalarOf, Join;
    KeyWithScalar(ls, key, value, n);
  }

  lemma {:induction false} SameScalarEntry(ls: seq<Line>, ms: seq<Line>, key: string, value: string, n: nat, k: nat)
    requires ls != [] && ms != [] && ls[0] == ms[0] && ':' in ls[0].content
    requires Partition(ls[0].content) == (key, value) && value != "" && !BlockHeader(value)
    requires k == 1 + Continuation(ls[1..], n) == 1 + Continuation(ms[1..], n) && ls[1..k] == ms[1..k]
    ensures ReadEntry(ls, n).Ok? && ReadEntry(ms, n) == Ok((ReadEntry(ls, n).value.0, ms[k..]))
  {
    hide ReadEntry, Partition, BlockHeader, Continuation, ScalarOf, Join;
    KeyWithScalar(ls, key, value, n);
    KeyWithScalar(ms, key, value, n);
  }

  lemma {:induction false} HasColon(ls: seq<Line>, n: nat)
    requires ls != [] && ReadEntry(ls, n).Ok?
    ensures ':' in ls[0].content
  {
    hide ParseBlock, Partition, ScalarOf, BlockText, Join;
  }

  /** Where the first `k` lines are consumed and `rest` is left, `k` lines were consumed. */
  lemma {:induction false} Consumed(head: seq<Line>, rest: seq<Line>, other: seq<Line>, k: nat)
    requires 1 <= k <= |head + rest| && (head + rest)[k..] == rest && head != []
    ensures k == |head| && (head + rest)[1..k] == head[1..] == (head + other)[1..k]
    ensures (head + rest)[1..][..k - 1] == head[1..] && (head + other)[k..] == other
  {
    assert |(head + rest)[k..]| == |head| + |rest| - k;
  }

  lemma {:induction false} NoChildToo(ls: seq<Line>, ms: seq<Line>, n: nat)
    requires ls != [] && ms != [] && StopsToo(ls[1..], ms[1..])
    ensures !HasChild(ls, n) ==> !HasChild(ms, n)
  {
    if |ms| > 1 { assert ls[1] == ls[1..][0] && ms[1] == ms[1..][0]; }
  }

  /**
   * The lines an item loses never change what is read: with none in their place, or with
   * any lines of the item's block that begin alike, the item and what follows are the same.
   */
  lemma {:induction false} LostLinesDoNotMatter(
      first: Line, kept: seq<Line>, lost: seq<Line>, other: seq<Line>, after: seq<Line>, n: nat)
    requires Dash(first.content) && ':' in Strip(first.content[2..])
    requires forall l :: l in kept || l in lost || l in other ==> l.indent > n
    requires after == [] || after[0].indent <= n
    requires var block := [Line(n + 2, Strip(first.content[2..]))] + kept + lost;
      ParseBlock(block, n + 2).Ok? && ParseBlock(block, n + 2).value.1 == lost
    requires StopsToo(lost, other)
    ensures ReadItem([first] + kept + lost + after, n) == ReadItem([first] + kept + other + after, n)
    ensures ReadItem([first] + kept + lost + after, n).Ok?
    ensures ReadItem([first] + kept + lost + after, n).value.1 == after
  {
    hide ParseBlock, Strip, ScalarOf, ItemBlock;
    var head := [Line(n + 2, Strip(first.content[2..]))] + kept;
    BlockPrefix(head, lost, other, n + 2);
    BlockOf(first, kept, lost, after, n);
    BlockOf(first, kept, other, after, n);
  }

  /** In particular they can be deleted. */
  lemma {:induction false} LostLinesCanBeDeleted(
      first: Line, kept: seq<Line>, lost: seq<Line>, after: seq<Line>, n: nat)
    requires Dash(first.content) && ':' in Strip(first.content[2..])
    requires forall l :: l in kept || l in lost ==> l.indent > n
    requires after == [] || after[0].indent <= n
    requires var block := [Line(n + 2, Strip(first.content[2..]))] + kept + lost;
      ParseBlock(block, n + 2).Ok? && ParseBlock(block, n + 2).value.1 == lost
    ensures ReadItem([first] + kept + after, n) == ReadItem([first] + kept + lost + after, n)
  {
    hide ParseBlock, Strip, ReadItem;
    LostLinesDoNotMatter(first, kept, lost, [], after, n);
    assert [first] + kept + [] + after == [first] + kept + after;
  }

  lemma {:induction false} BlockOf(first: Line, kept: seq<Line>, more: seq<Line>, after: seq<Line>, n: nat)
    requires Dash(first.content) && (forall l :: l in kept || l in more ==> l.indent > n)
    requires after == [] || after[0].indent <= n
    ensures var ls := [first] + kept + more + after;
      && ls[0] == first && ItemBlock(ls, n) == [Line(n + 2, Strip(first.content[2..]))] + kept + more
      && ls[1 + Deeper(ls[1..], n)..] == after
  {
    hide Strip;
    var ls := [first] + kept + more + after;
    assert ls[1..] == (kept + more) + after;
    DeeperIs(kept + more, after, n);
    assert ls[1..][..|kept + more|] == kept + more;
  }
}
