/** The orders the program sorts and compares by: code-point order on strings
    (Python's `<` on str, SQLite's BINARY collation) and the induced tuple order. */
module Ordering {
  /** A tuple of strings, compared component by component. */
  type Key = seq<string>

  predicate StrLess(a: string, b: string) {
    if |b| == 0 then false
    else if |a| == 0 then true
    else if a[0] == b[0] then StrLess(a[1..], b[1..])
    else a[0] < b[0]
  }

  predicate KeyLess(a: Key, b: Key) {
    if |b| == 0 then false
    else if |a| == 0 then true
    else if a[0] == b[0] then KeyLess(a[1..], b[1..])
    else StrLess(a[0], b[0])
  }

  lemma {:induction false} StrTrichotomy(a: string, b: string)
    ensures a == b ==> !StrLess(a, b)
    ensures a != b ==> StrLess(a, b) != StrLess(b, a)
  {
    if |a| > 0 && |b| > 0 && a[0] == b[0] {
      StrTrichotomy(a[1..], b[1..]);
      assert a == [a[0]] + a[1..] && b == [b[0]] + b[1..];
    }
  }

  lemma {:induction false} StrTransitive(a: string, b: string, c: string)
    requires StrLess(a, b) && StrLess(b, c)
    ensures StrLess(a, c)
  {
    if |a| > 0 && a[0] == b[0] == c[0] {
      StrTransitive(a[1..], b[1..], c[1..]);
    }
  }

  lemma {:induction false} KeyTrichotomy(a: Key, b: Key)
    ensures a == b ==> !KeyLess(a, b)
    ensures a != b ==> KeyLess(a, b) != KeyLess(b, a)
  {
    if |a| > 0 && |b| > 0 {
      StrTrichotomy(a[0], b[0]);
      if a[0] == b[0] {
        KeyTrichotomy(a[1..], b[1..]);
        assert a == [a[0]] + a[1..] && b == [b[0]] + b[1..];
      }
    }
  }

  lemma {:induction false} KeyTransitive(a: Key, b: Key, c: Key)
    requires KeyLess(a, b) && KeyLess(b, c)
    ensures KeyLess(a, c)
  {
    if |a| > 0 {
      if a[0] == b[0] == c[0] {
        KeyTransitive(a[1..], b[1..], c[1..]);
      } else if a[0] != b[0] && b[0] != c[0] {
        StrTransitive(a[0], b[0], c[0]);
        StrTrichotomy(a[0], b[0]);
        StrTrichotomy(b[0], c[0]);
      }
    }
  }

  /** A common prefix does not affect the comparison. */
  lemma {:induction false} StrPrefix(p: string, a: string, b: string)
    ensures StrLess(p + a, p + b) == StrLess(a, b)
  {
    if |p| == 0 {
      assert p + a == a && p + b == b;
    } else {
      assert (p + a)[1..] == p[1..] + a && (p + b)[1..] == p[1..] + b;
      StrPrefix(p[1..], a, b);
    }
  }

  /** Between different strings of equal length, what follows them is irrelevant. */
  lemma {:induction false} StrEqualWidth(a: string, s: string, b: string, t: string)
    requires |a| == |b| && a != b
    ensures StrLess(a + s, b + t) == StrLess(a, b)
  {
    assert (a + s)[1..] == a[1..] + s && (b + t)[1..] == b[1..] + t;
    if a[0] == b[0] {
      assert a == [a[0]] + a[1..] && b == [b[0]] + b[1..];
      StrEqualWidth(a[1..], s, b[1..], t);
    }
  }

  /** Tuples of one, two and three components compare as expected. */
  lemma TupleLess(a: Key, b: Key)
    ensures |a| == |b| == 1 ==> (KeyLess(a, b) <==> StrLess(a[0], b[0]))
    ensures |a| == |b| == 3 ==>
              (KeyLess(a, b) <==>
               StrLess(a[0], b[0]) ||
               (a[0] == b[0] && (StrLess(a[1], b[1]) || (a[1] == b[1] && StrLess(a[2], b[2])))))
  {
    if |a| == |b| == 1 { StrTrichotomy(a[0], b[0]); }
    if |a| == |b| == 3 {
      StrTrichotomy(a[0], b[0]);
      StrTrichotomy(a[1], b[1]);
      StrTrichotomy(a[2], b[2]);
      assert KeyLess(a[1..], b[1..]) <==>
               StrLess(a[1], b[1]) || (a[1] == b[1] && StrLess(a[2], b[2])) by
      {
        assert a[1..][1..] == a[2..] && b[1..][1..] == b[2..];
        assert a[2..][1..] == [] && b[2..][1..] == [];
      }
    }
  }
}
