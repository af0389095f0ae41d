// The stable sort by a key, a list of texts that is compared text by text.
module Sorting {
  type Key = seq<string>

  predicate StrLe(a: string, b: string) {
    a == "" || (b != "" && (a[0] < b[0] || (a[0] == b[0] && StrLe(a[1..], b[1..]))))
  }

  lemma {:induction false} StrTotal(a: string, b: string)
    ensures StrLe(a, b) || StrLe(b, a)
    ensures StrLe(a, b) && StrLe(b, a) ==> a == b
  {
    if a != "" && b != "" && a[0] == b[0] {
      StrTotal(a[1..], b[1..]);
      if StrLe(a, b) && StrLe(b, a) {
        assert a == [a[0]] + a[1..] && b == [b[0]] + b[1..];
      }
    }
  }

  lemma {:induction false} StrTransitive(a: string, b: string, c: string)
    requires StrLe(a, b) && StrLe(b, c)
    ensures StrLe(a, c)
  {
    if a != "" && a[0] == b[0] == c[0] { StrTransitive(a[1..], b[1..], c[1..]); }
  }

  predicate KeyLe(a: Key, b: Key) {
    a == [] || (b != [] && if a[0] != b[0] then StrLe(a[0], b[0]) else KeyLe(a[1..], b[1..]))
  }

  lemma {:induction false} KeyTotal(a: Key, b: Key)
    ensures KeyLe(a, b) || KeyLe(b, a)
    ensures KeyLe(a, b) && KeyLe(b, a) ==> a == b
  {
    hide StrLe;
    if a != [] && b != [] {
      StrTotal(a[0], b[0]);
      if a[0] == b[0] {
        KeyTotal(a[1..], b[1..]);
        assert a == [a[0]] + a[1..] && b == [b[0]] + b[1..];
      }
    }
  }

  lemma {:induction false} KeyTransitive(a: Key, b: Key, c: Key)
    requires KeyLe(a, b) && KeyLe(b, c)
    ensures KeyLe(a, c)
  {
    hide StrLe;
    if a != [] {
      if a[0] == b[0] == c[0] {
        KeyTransitive(a[1..], b[1..], c[1..]);
      } else {
        StrTotal(a[0], b[0]);
        if a[0] != b[0] && b[0] != c[0] { StrTransitive(a[0], b[0], c[0]); }
      }
    }
  }

  /** Texts compare as words in a dictionary: a beginning first, else by the first character that differs. */
  lemma {:induction false} StrLeIff(a: string, b: string)
    ensures StrLe(a, b) <==> a <= b || exists k :: 0 <= k < |a| && k < |b| && a[..k] == b[..k] && a[k] < b[k]
  {
    if a != "" && b != "" && a[0] == b[0] {
      StrLeIff(a[1..], b[1..]);
      assert a == [a[0]] + a[1..] && b == [b[0]] + b[1..];
      if k :| 0 <= k < |a| && k < |b| && a[..k] == b[..k] && a[k] < b[k] {
        assert k > 0 && a[1..][..k - 1] == a[..k][1..] && b[1..][..k - 1] == b[..k][1..];
      }
      if k :| 0 <= k < |a[1..]| && k < |b[1..]| && a[1..][..k] == b[1..][..k] && a[1..][k] < b[1..][k] {
        assert a[..k + 1] == [a[0]] + a[1..][..k] && b[..k + 1] == [b[0]] + b[1..][..k];
        assert a[k + 1] < b[k + 1];
      }
    } else if a != "" && b != "" && a[0] < b[0] {
      assert a[..0] == b[..0];
    }
  }

  /** And keys as dictionaries of texts do. */
  lemma {:induction false} KeyLeIff(a: Key, b: Key)
    ensures KeyLe(a, b) <==>
      a <= b || exists k :: 0 <= k < |a| && k < |b| && a[..k] == b[..k] && a[k] != b[k] && StrLe(a[k], b[k])
  {
    hide StrLe;
    if a != [] && b != [] && a[0] == b[0] {
      KeyLeIff(a[1..], b[1..]);
      assert a == [a[0]] + a[1..] && b == [b[0]] + b[1..];
      if k :| 0 <= k < |a| && k < |b| && a[..k] == b[..k] && a[k] != b[k] && StrLe(a[k], b[k]) {
        assert k > 0 && a[1..][..k - 1] == a[..k][1..] && b[1..][..k - 1] == b[..k][1..];
      }
      var s, t := a[1..], b[1..];
      if k :| 0 <= k < |s| && k < |t| && s[..k] == t[..k] && s[k] != t[k] && StrLe(s[k], t[k]) {
        assert a[..k + 1] == [a[0]] + a[1..][..k] && b[..k + 1] == [b[0]] + b[1..][..k];
        assert StrLe(a[k + 1], b[k + 1]);
      }
    } else if a != [] && b != [] {
      assert a[..0] == b[..0];
    }
  }

  ghost predicate Ordered<T>(rows: seq<T>, key: T -> Key) {
    forall i, j :: 0 <= i < j < |rows| ==> KeyLe(key(rows[i]), key(rows[j]))
  }

  /** Where a row goes behind all rows that may stand before it. */
  function Inserted<T>(rows: seq<T>, r: T, key: T -> Key): seq<T> {
    if rows == [] || KeyLe(key(rows[|rows| - 1]), key(r)) then rows + [r]
    else Inserted(rows[..|rows| - 1], r, key) + [rows[|rows| - 1]]
  }

  function Sorted<T>(rows: seq<T>, key: T -> Key): seq<T> {
    if rows == [] then [] else Inserted(Sorted(rows[..|rows| - 1], key), rows[|rows| - 1], key)
  }

  lemma {:induction false} InsertedOrdered<T>(rows: seq<T>, r: T, key: T -> Key)
    requires Ordered(rows, key)
    ensures Ordered(Inserted(rows, r, key), key)
    ensures multiset(Inserted(rows, r, key)) == multiset(rows) + multiset{r}
  {
    hide KeyLe;
    if rows != [] {
      var n := |rows| - 1;
      var last := rows[n];
      assert rows == rows[..n] + [last];
      KeyTotal(key(last), key(r));
      if KeyLe(key(last), key(r)) {
        forall i | 0 <= i < n ensures KeyLe(key(rows[i]), key(r)) {
          KeyTransitive(key(rows[i]), key(last), key(r));
        }
      } else {
        InsertedOrdered(rows[..n], r, key);
        var inner := Inserted(rows[..n], r, key);
        forall i | 0 <= i < |inner| ensures KeyLe(key(inner[i]), key(last)) {
          assert inner[i] in multiset(inner);
          assert inner[i] in rows[..n] || inner[i] == r;
        }
      }
    }
  }

  /** The sort orders, and keeps every element as often as it occurs. */
  lemma {:induction false} SortedIs<T>(rows: seq<T>, key: T -> Key)
    ensures Ordered(Sorted(rows, key), key) && multiset(Sorted(rows, key)) == multiset(rows)
  {
    hide Inserted, KeyLe;
    if rows != [] {
      hide Ordered;
      var n := |rows| - 1;
      SortedIs(rows[..n], key);
      InsertedOrdered(Sorted(rows[..n], key), rows[n], key);
      assert rows == rows[..n] + [rows[n]];
    }
  }

  /** The elements of one key, in order. */
  function WithKey<T>(rows: seq<T>, key: T -> Key, k: Key): seq<T> {
    if rows == [] then []
    else
      WithKey(rows[..|rows| - 1], key, k) + if key(rows[|rows| - 1]) == k then [rows[|rows| - 1]] else []
  }

  lemma {:induction false} InsertedStable<T>(rows: seq<T>, r: T, key: T -> Key, k: Key)
    requires Ordered(rows, key)
    ensures WithKey(Inserted(rows, r, key), key, k) == WithKey(rows, key, k) + if key(r) == k then [r] else []
  {
    hide KeyLe;
    var n := |rows| - 1;
    if rows == [] || KeyLe(key(rows[n]), key(r)) {
      assert (rows + [r])[..|rows|] == rows;
    } else {
      var inner := Inserted(rows[..n], r, key);
      InsertedStable(rows[..n], r, key, k);
      assert (inner + [rows[n]])[..|inner|] == inner;
      KeyTotal(key(rows[n]), key(r));
    }
  }

  /** Elements of equal key stay in the order in which they came. */
  lemma {:induction false} SortedStable<T>(rows: seq<T>, key: T -> Key, k: Key)
    ensures WithKey(Sorted(rows, key), key, k) == WithKey(rows, key, k)
  {
    hide Inserted, Ordered;
    if rows != [] {
      var n := |rows| - 1;
      SortedStable(rows[..n], key, k);
      SortedIs(rows[..n], key);
      InsertedStable(Sorted(rows[..n], key), rows[n], key, k);
    }
  }

  ghost predicate DistinctKeys<T(!new)>(rows: seq<T>, key: T -> Key) {
    forall a, b :: a in rows && b in rows && key(a) == key(b) ==> a == b
  }

  lemma {:induction false} OrderedHeads<T(!new)>(a: seq<T>, b: seq<T>, key: T -> Key)
    requires Ordered(a, key) && Ordered(b, key) && multiset(a) == multiset(b) && DistinctKeys(a, key)
    requires a != [] && b != []
    ensures a[0] == b[0]
  {
    hide KeyLe;
    assert a[0] in multiset(b) && b[0] in multiset(a);
    var i :| 0 <= i < |b| && b[i] == a[0];
    var j :| 0 <= j < |a| && a[j] == b[0];
    KeyTotal(key(a[0]), key(b[0]));
    assert a[0] in a && b[0] in a;
  }

  lemma {:induction false} OrderedUnique<T(!new)>(a: seq<T>, b: seq<T>, key: T -> Key)
    requires Ordered(a, key) && Ordered(b, key) && multiset(a) == multiset(b) && DistinctKeys(a, key)
    ensures a == b
  {
    hide Ordered, DistinctKeys;
    assert |a| == |multiset(a)| && |b| == |multiset(b)|;
    if a != [] {
      OrderedHeads(a, b, key);
      OrderedTail(a, key);
      OrderedTail(b, key);
      OrderedUnique(a[1..], b[1..], key);
    }
  }

  lemma {:induction false} OrderedTail<T(!new)>(a: seq<T>, key: T -> Key)
    requires a != []
    ensures a == [a[0]] + a[1..]
    ensures multiset(a[1..]) == multiset(a) - multiset{a[0]}
    ensures Ordered(a, key) ==> Ordered(a[1..], key)
    ensures DistinctKeys(a, key) ==> DistinctKeys(a[1..], key)
  {
    hide KeyLe;
    assert a == [a[0]] + a[1..];
    assert forall x :: x in a[1..] ==> x in a;
  }

  /** With distinct keys the order of the input does not matter. */
  lemma {:induction false} SortedOrderFree<T(!new)>(a: seq<T>, b: seq<T>, key: T -> Key)
    requires multiset(a) == multiset(b) && DistinctKeys(a, key)
    ensures Sorted(a, key) == Sorted(b, key)
  {
    hide Ordered, Sorted;
    SortedIs(a, key);
    SortedIs(b, key);
    forall x | x in Sorted(a, key) ensures x in a { assert x in multiset(Sorted(a, key)); }
    OrderedUnique(Sorted(a, key), Sorted(b, key), key);
  }

  // ------------------------------------------------------------- texts as keys

  function Itself(s: string): Key { [s] }

  function SortedTexts(texts: seq<string>): seq<string> { Sorted(texts, Itself) }
}
