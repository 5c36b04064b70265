/** Python dictionaries and sorts as the contracts use them: a dictionary built from a list
    by key (later items win), read out in key order, and the stable `sorted(xs, key=...)`. */
module SortedDict {
  import opened Ordering

  // ---- Reading a dictionary out in key order ----

  predicate IsMin(k: Key, ks: set<Key>) {
    k in ks && forall other :: other in ks && other != k ==> KeyLess(k, other)
  }

  lemma {:induction false} MinExists(ks: set<Key>)
    requires ks != {}
    ensures exists k :: IsMin(k, ks)
    decreases ks
  {
    var first :| first in ks;
    if ks == {first} {
      assert IsMin(first, ks);
    } else {
      MinExists(ks - {first});
      var rest :| IsMin(rest, ks - {first});
      KeyTrichotomy(rest, first);
      var k := if KeyLess(first, rest) then first else rest;
      forall other | other in ks && other != k ensures KeyLess(k, other) {
        if k == first && other != rest {
          KeyTransitive(first, rest, other);
        }
      }
      assert IsMin(k, ks);
    }
  }

  lemma MinIsUnique(a: Key, b: Key, ks: set<Key>)
    requires IsMin(a, ks) && IsMin(b, ks)
    ensures a == b
  {
    KeyTrichotomy(a, b);
  }

  function MinKey(ks: set<Key>): (k: Key)
    requires ks != {}
    ensures IsMin(k, ks)
  {
    MinExists(ks);
    assert forall a, b :: IsMin(a, ks) && IsMin(b, ks) ==> a == b by {
      forall a, b | IsMin(a, ks) && IsMin(b, ks) ensures a == b { MinIsUnique(a, b, ks); }
    }
    var k :| IsMin(k, ks);
    k
  }

  /** `tuple(d[k] for k in sorted(d))` */
  function Values<T>(m: map<Key, T>): seq<T>
    decreases m.Keys
  {
    if m.Keys == {} then []
    else
      var k := MinKey(m.Keys);
      [m[k]] + Values(m - {k})
  }

  /** `{key(x): x for x in s}` */
  function Index<T>(s: seq<T>, key: T -> Key): map<Key, T> {
    if s == [] then map[]
    else Index(s[..|s| - 1], key)[key(s[|s| - 1]) := s[|s| - 1]]
  }

  ghost predicate Keyed<T>(m: map<Key, T>, key: T -> Key) {
    forall k :: k in m ==> key(m[k]) == k
  }

  ghost predicate StrictlySorted<T>(s: seq<T>, key: T -> Key) {
    forall i, j :: 0 <= i < j < |s| ==> KeyLess(key(s[i]), key(s[j]))
  }

  lemma {:induction false} IndexKeyed<T>(s: seq<T>, key: T -> Key)
    ensures Keyed(Index(s, key), key)
    ensures forall k :: k in Index(s, key) ==> Index(s, key)[k] in s
    ensures forall x :: x in s ==> key(x) in Index(s, key)
  {
    if s != [] {
      IndexKeyed(s[..|s| - 1], key);
      assert s == s[..|s| - 1] + [s[|s| - 1]];
    }
  }

  lemma {:induction false} IndexConcat<T>(s: seq<T>, t: seq<T>, key: T -> Key)
    ensures Index(s + t, key) == Index(s, key) + Index(t, key)
  {
    if t == [] {
      assert s + t == s;
    } else {
      IndexConcat(s, t[..|t| - 1], key);
      assert (s + t)[..|s + t| - 1] == s + t[..|t| - 1];
    }
  }

  lemma {:induction false} ValuesElements<T>(m: map<Key, T>)
    ensures forall k :: k in m ==> m[k] in Values(m)
    ensures forall x :: x in Values(m) ==> exists k :: k in m && m[k] == x
    decreases m.Keys
  {
    if m.Keys != {} {
      var k := MinKey(m.Keys);
      var rest := m - {k};
      ValuesElements(rest);
      assert Values(m) == [m[k]] + Values(rest);
      forall k' | k' in m ensures m[k'] in Values(m) {
        if k' == k {
          assert Values(m)[0] == m[k];
        } else {
          assert k' in rest && rest[k'] == m[k'];
        }
      }
    }
  }

  lemma {:induction false} ValuesSorted<T>(m: map<Key, T>, key: T -> Key)
    requires Keyed(m, key)
    ensures StrictlySorted(Values(m), key)
    decreases m.Keys
  {
    if m.Keys != {} {
      var k := MinKey(m.Keys);
      var rest := m - {k};
      ValuesSorted(rest, key);
      ValuesElements(rest);
      forall x | x in Values(rest) ensures KeyLess(key(m[k]), key(x)) {
        var k' :| k' in rest && rest[k'] == x;
        assert k' in m.Keys && key(x) == k';
      }
    }
  }

  lemma IndexOfOne<T>(x: T, key: T -> Key)
    ensures Index([x], key) == map[key(x) := x]
  {
    assert [x][..0] == [];
  }

  /** The index of a strictly sorted list, from the front. */
  lemma IndexFromFront<T>(s: seq<T>, key: T -> Key)
    requires s != [] && StrictlySorted(s, key)
    ensures Index(s, key) == Index(s[1..], key)[key(s[0]) := s[0]]
    ensures key(s[0]) !in Index(s[1..], key)
  {
    hide Index, KeyLess;
    assert s == [s[0]] + s[1..];
    IndexConcat([s[0]], s[1..], key);
    IndexOfOne(s[0], key);
    IndexKeyed(s[1..], key);
    forall x | x in s[1..] ensures key(x) != key(s[0]) {
      KeyTrichotomy(key(x), key(s[0]));
    }
  }

  /** Reading out and indexing again gives the dictionary back. */
  lemma {:induction false} IndexOfValues<T>(m: map<Key, T>, key: T -> Key)
    requires Keyed(m, key)
    ensures Index(Values(m), key) == m
    decreases m.Keys
  {
    if m.Keys == {} {
      assert m == map[];
    } else {
      var k := MinKey(m.Keys);
      IndexOfValues(m - {k}, key);
      ValuesSorted(m, key);
      assert Values(m)[1..] == Values(m - {k});
      IndexFromFront(Values(m), key);
    }
  }

  lemma FirstIsMin<T>(s: seq<T>, key: T -> Key)
    requires s != [] && StrictlySorted(s, key)
    ensures Index(s, key).Keys != {}
    ensures MinKey(Index(s, key).Keys) == key(s[0])
  {
    var ks := Index(s, key).Keys;
    IndexFromFront(s, key);
    IndexKeyed(s[1..], key);
    assert key(s[0]) in ks;
    forall k | k in ks && k != key(s[0]) ensures KeyLess(key(s[0]), k) {
      assert k in Index(s[1..], key);
      assert Index(s[1..], key)[k] in s[1..];
    }
    MinIsUnique(MinKey(ks), key(s[0]), ks);
  }

  /** A strictly sorted list is what its own dictionary reads out to. */
  lemma {:induction false} ValuesOfIndex<T>(s: seq<T>, key: T -> Key)
    requires StrictlySorted(s, key)
    ensures Values(Index(s, key)) == s
  {
    if s != [] {
      var m := Index(s, key);
      FirstIsMin(s, key);
      IndexFromFront(s, key);
      assert m - {key(s[0])} == Index(s[1..], key);
      ValuesOfIndex(s[1..], key);
    }
  }

  // ---- The stable sort ----

  ghost predicate Sorted<T>(s: seq<T>, key: T -> Key) {
    forall i, j :: 0 <= i < j < |s| ==> !KeyLess(key(s[j]), key(s[i]))
  }

  function Insert<T>(x: T, s: seq<T>, key: T -> Key): seq<T> {
    if s == [] || !KeyLess(key(s[0]), key(x)) then [x] + s
    else [s[0]] + Insert(x, s[1..], key)
  }

  /** `sorted(s, key=key)`: equal keys keep their order. */
  function SortBy<T>(s: seq<T>, key: T -> Key): seq<T> {
    if s == [] then [] else Insert(s[0], SortBy(s[1..], key), key)
  }

  lemma {:induction false} InsertElements<T>(x: T, s: seq<T>, key: T -> Key)
    ensures multiset(Insert(x, s, key)) == multiset{x} + multiset(s)
  {
    if s != [] && KeyLess(key(s[0]), key(x)) {
      InsertElements(x, s[1..], key);
      assert s == [s[0]] + s[1..];
    }
  }

  lemma {:induction false} InsertSorted<T>(x: T, s: seq<T>, key: T -> Key)
    requires Sorted(s, key)
    ensures Sorted(Insert(x, s, key), key)
  {
    if s == [] || !KeyLess(key(s[0]), key(x)) {
      forall j | 0 <= j < |s| ensures !KeyLess(key(s[j]), key(x)) {
        if j > 0 && KeyLess(key(s[j]), key(x)) {
          KeyTrichotomy(key(s[j]), key(s[0]));
          if key(s[0]) != key(s[j]) { KeyTransitive(key(s[0]), key(s[j]), key(x)); }
        }
      }
    } else {
      var rest := Insert(x, s[1..], key);
      InsertSorted(x, s[1..], key);
      InsertElements(x, s[1..], key);
      KeyTrichotomy(key(s[0]), key(x));
      forall j | 0 <= j < |rest| ensures !KeyLess(key(rest[j]), key(s[0])) {
        assert rest[j] in multiset(rest);
        assert rest[j] == x || rest[j] in s[1..];
      }
    }
  }

  /** The sort permutes and orders. */
  lemma {:induction false} SortBySorts<T>(s: seq<T>, key: T -> Key)
    ensures Sorted(SortBy(s, key), key)
    ensures multiset(SortBy(s, key)) == multiset(s)
    ensures |SortBy(s, key)| == |s|
  {
    if s != [] {
      SortBySorts(s[1..], key);
      InsertSorted(s[0], SortBy(s[1..], key), key);
      InsertElements(s[0], SortBy(s[1..], key), key);
      assert s == [s[0]] + s[1..];
    }
    assert |SortBy(s, key)| == |multiset(SortBy(s, key))| == |multiset(s)| == |s|;
  }

  /** A list is a fixed point of the sort exactly when it is already in order. */
  lemma {:induction false} SortByFixed<T>(s: seq<T>, key: T -> Key)
    ensures SortBy(s, key) == s <==> Sorted(s, key)
  {
    if Sorted(s, key) {
      if s != [] { SortByFixed(s[1..], key); }
    } else {
      SortBySorts(s, key);
    }
  }

  function WithKey<T>(s: seq<T>, key: T -> Key, k: Key): seq<T> {
    if s == [] then [] else (if key(s[0]) == k then [s[0]] else []) + WithKey(s[1..], key, k)
  }

  lemma WithKeyCons<T>(x: T, s: seq<T>, key: T -> Key, k: Key)
    ensures WithKey([x] + s, key, k) == (if key(x) == k then [x] else []) + WithKey(s, key, k)
  {
    assert ([x] + s)[1..] == s;
  }

  lemma {:induction false} InsertStable<T>(x: T, s: seq<T>, key: T -> Key, k: Key)
    ensures WithKey(Insert(x, s, key), key, k) == (if key(x) == k then [x] else []) + WithKey(s, key, k)
  {
    hide WithKey;
    if s != [] && KeyLess(key(s[0]), key(x)) {
      InsertStable(x, s[1..], key, k);
      assert key(s[0]) != key(x) by { KeyTrichotomy(key(s[0]), key(x)); }
      WithKeyCons(s[0], Insert(x, s[1..], key), key, k);
      WithKeyCons(s[0], s[1..], key, k);
      assert [s[0]] + s[1..] == s;
    } else {
      WithKeyCons(x, s, key, k);
    }
  }

  /** Items with equal keys keep their order. */
  lemma {:induction false} SortIsStable<T>(s: seq<T>, key: T -> Key, k: Key)
    ensures WithKey(SortBy(s, key), key, k) == WithKey(s, key, k)
  {
    if s != [] {
      hide Insert;
      SortIsStable(s[1..], key, k);
      InsertStable(s[0], SortBy(s[1..], key), key, k);
    }
  }

  lemma StrictIsSorted<T>(s: seq<T>, key: T -> Key)
    requires StrictlySorted(s, key)
    ensures Sorted(s, key)
  {
    forall i, j | 0 <= i < j < |s| ensures !KeyLess(key(s[j]), key(s[i])) {
      KeyTrichotomy(key(s[i]), key(s[j]));
    }
  }

  ghost predicate DistinctKeys<T>(s: seq<T>, key: T -> Key) {
    forall i, j :: 0 <= i < j < |s| ==> key(s[i]) != key(s[j])
  }

  /** Distinctness depends only on the collection of items, not on their order. */
  ghost predicate DistinctItems<T(!new)>(items: multiset<T>, key: T -> Key) {
    && (forall x :: items[x] <= 1)
    && (forall x, y :: x in items && y in items && key(x) == key(y) ==> x == y)
  }

  lemma {:induction false} DistinctCounts<T(!new)>(s: seq<T>, key: T -> Key)
    requires DistinctKeys(s, key)
    ensures DistinctItems(multiset(s), key)
  {
    if s != [] {
      DistinctCounts(s[1..], key);
      assert s == [s[0]] + s[1..];
    }
  }

  lemma CountsDistinct<T(!new)>(s: seq<T>, key: T -> Key)
    requires DistinctItems(multiset(s), key)
    ensures DistinctKeys(s, key)
  {
    forall i, j | 0 <= i < j < |s| ensures key(s[i]) != key(s[j]) {
      assert s == s[..j] + [s[j]] + s[j + 1..];
      assert multiset(s) == multiset(s[..j]) + multiset{s[j]} + multiset(s[j + 1..]);
      assert s[i] in multiset(s[..j]);
      assert s[i] != s[j];
      assert s[i] in multiset(s) && s[j] in multiset(s);
    }
  }

  lemma DistinctPermutation<T(!new)>(s: seq<T>, t: seq<T>, key: T -> Key)
    requires multiset(s) == multiset(t) && DistinctKeys(s, key)
    ensures DistinctKeys(t, key)
  {
    DistinctCounts(s, key);
    CountsDistinct(t, key);
  }

  lemma DistinctSortsStrictly<T(!new)>(s: seq<T>, key: T -> Key)
    requires DistinctKeys(s, key)
    ensures StrictlySorted(SortBy(s, key), key)
  {
    var t := SortBy(s, key);
    SortBySorts(s, key);
    DistinctPermutation(s, t, key);
    forall i, j | 0 <= i < j < |t| ensures KeyLess(key(t[i]), key(t[j])) {
      KeyTrichotomy(key(t[i]), key(t[j]));
    }
  }

  lemma {:induction false} StrictlySortedUnique<T>(s: seq<T>, t: seq<T>, key: T -> Key)
    requires StrictlySorted(s, key) && StrictlySorted(t, key) && multiset(s) == multiset(t)
    ensures s == t
  {
    assert |s| == |multiset(s)| == |multiset(t)| == |t|;
    if s != [] {
      assert s[0] in multiset(t) && t[0] in multiset(s);
      assert s[0] in t && t[0] in s;
      KeyTrichotomy(key(s[0]), key(t[0]));
      assert s[0] == t[0];
      assert s == [s[0]] + s[1..] && t == [t[0]] + t[1..];
      assert multiset(s[1..]) == multiset(s) - multiset{s[0]};
      StrictlySortedUnique(s[1..], t[1..], key);
    }
  }

  /** With distinct keys the order in which the items were supplied does not matter. */
  lemma SortIgnoresSupplyOrder<T(!new)>(s: seq<T>, t: seq<T>, key: T -> Key)
    requires multiset(s) == multiset(t) && DistinctKeys(s, key)
    ensures SortBy(s, key) == SortBy(t, key)
  {
    DistinctPermutation(s, t, key);
    DistinctSortsStrictly(s, key);
    DistinctSortsStrictly(t, key);
    SortBySorts(s, key);
    SortBySorts(t, key);
    StrictlySortedUnique(SortBy(s, key), SortBy(t, key), key);
  }

  // ---- The last item under a key ----

  /** x is the last item with its key. */
  ghost predicate LastWith<T>(s: seq<T>, key: T -> Key, x: T) {
    exists i :: 0 <= i < |s| && s[i] == x && forall j :: i < j < |s| ==> key(s[j]) != key(x)
  }

  /** A dictionary built from a list holds the last item of each key. */
  lemma {:induction false} IndexHoldsLast<T>(s: seq<T>, key: T -> Key, k: Key)
    ensures k in Index(s, key) <==> exists i :: 0 <= i < |s| && key(s[i]) == k
    ensures k in Index(s, key) ==> key(Index(s, key)[k]) == k && LastWith(s, key, Index(s, key)[k])
  {
    if s != [] {
      var front, x := s[..|s| - 1], s[|s| - 1];
      IndexHoldsLast(front, key, k);
      if key(x) == k {
        assert s[|s| - 1] == x;
      } else if k in Index(front, key) {
        var y := Index(front, key)[k];
        var i :| 0 <= i < |front| && front[i] == y && forall j :: i < j < |front| ==> key(front[j]) != key(y);
        assert s[i] == y;
      }
      if i :| 0 <= i < |s| && key(s[i]) == k {
        if i < |front| { assert front[i] == s[i]; }
      }
    }
  }

  lemma {:induction false} IndexOfLast<T>(s: seq<T>, key: T -> Key, k: Key)
    ensures k in Index(s, key) <==> WithKey(s, key, k) != []
    ensures k in Index(s, key) ==> Index(s, key)[k] == WithKey(s, key, k)[|WithKey(s, key, k)| - 1]
  {
    if s != [] {
      var front, x := s[..|s| - 1], s[|s| - 1];
      IndexOfLast(front, key, k);
      WithKeySnoc(front, x, key, k);
      assert s == front + [x];
    }
  }

  lemma {:induction false} WithKeySnoc<T>(s: seq<T>, x: T, key: T -> Key, k: Key)
    ensures WithKey(s + [x], key, k) == WithKey(s, key, k) + if key(x) == k then [x] else []
  {
    if s == [] {
      assert s + [x] == [x] + s;
      WithKeyCons(x, s, key, k);
    } else {
      hide WithKey;
      WithKeySnoc(s[1..], x, key, k);
      WithKeyCons(s[0], s[1..] + [x], key, k);
      WithKeyCons(s[0], s[1..], key, k);
      assert s + [x] == [s[0]] + (s[1..] + [x]) && s == [s[0]] + s[1..];
    }
  }

  /** Sorting first, which is stable, makes the same dictionary. */
  lemma IndexIgnoresSort<T>(s: seq<T>, key: T -> Key)
    ensures Index(SortBy(s, key), key) == Index(s, key)
  {
    hide WithKey, Index, SortBy;
    var a, b := Index(SortBy(s, key), key), Index(s, key);
    forall k ensures k in a <==> k in b ensures k in a ==> a[k] == b[k] {
      SortIsStable(s, key, k);
      IndexOfLast(s, key, k);
      IndexOfLast(SortBy(s, key), key, k);
    }
    assert a == b;
  }

  /** x is the last item with its name. */
  ghost predicate LastNamed<T>(s: seq<T>, name: T -> string, x: T) {
    exists i :: 0 <= i < |s| && s[i] == x && forall j :: i < j < |s| ==> name(s[j]) != name(x)
  }

  /** With one name as the key, the dictionary holds the last item of each name. */
  lemma NamedIndex<T>(s: seq<T>, key: T -> Key, name: T -> string, x: T)
    requires forall i :: 0 <= i < |s| ==> key(s[i]) == [name(s[i])]
    ensures [name(x)] in Index(s, key) <==> exists i :: 0 <= i < |s| && name(s[i]) == name(x)
    ensures [name(x)] in Index(s, key) && Index(s, key)[[name(x)]] == x <==> LastNamed(s, name, x)
  {
    hide Index;
    IndexHoldsLast(s, key, [name(x)]);
    forall i | 0 <= i < |s| ensures key(s[i]) == [name(x)] <==> name(s[i]) == name(x) {
      assert key(s[i])[0] == name(s[i]) && [name(x)][0] == name(x);
    }
    if [name(x)] in Index(s, key) {
      var y := Index(s, key)[[name(x)]];
      var n :| 0 <= n < |s| && s[n] == y && forall j :: n < j < |s| ==> key(s[j]) != key(y);
      assert name(s[n]) == name(x);
      if i :| 0 <= i < |s| && s[i] == x && forall j :: i < j < |s| ==> name(s[j]) != name(x) {
        assert i == n;
      }
    }
  }
}
