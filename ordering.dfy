/** The orders the report relies on: Python's comparison of strings (code
    point by code point, a proper prefix first) and of tuples of strings
    (element by element), and its stable `sorted` with a key. */
module Ordering {

  /** Lexicographic strict order on sequences, from a strict order on their
      elements: the first difference decides, and a proper prefix comes first. */
  function LexLt<T(==)>(a: seq<T>, b: seq<T>, lt: (T, T) -> bool): bool
    decreases |a|
  {
    if a == [] then b != []
    else if b == [] then false
    else if a[0] == b[0] then LexLt(a[1..], b[1..], lt)
    else lt(a[0], b[0])
  }

  /** lt is irreflexive, transitive and total on distinct elements. */
  ghost predicate StrictTotal<T(!new)>(lt: (T, T) -> bool)
  {
    && (forall x :: !lt(x, x))
    && (forall x, y, z :: lt(x, y) && lt(y, z) ==> lt(x, z))
    && (forall x, y :: x == y || lt(x, y) || lt(y, x))
  }

  lemma {:induction false} LexIrreflexive<T(!new)>(a: seq<T>, lt: (T, T) -> bool)
    requires StrictTotal(lt)
    ensures !LexLt(a, a, lt)
    decreases |a|
  {
    if a != [] {
      LexIrreflexive(a[1..], lt);
    }
  }

  lemma {:induction false} LexTransitive<T(!new)>(a: seq<T>, b: seq<T>, c: seq<T>, lt: (T, T) -> bool)
    requires StrictTotal(lt)
    requires LexLt(a, b, lt) && LexLt(b, c, lt)
    ensures LexLt(a, c, lt)
    decreases |a|
  {
    if a != [] && b != [] && c != [] && a[0] == b[0] && b[0] == c[0] {
      LexTransitive(a[1..], b[1..], c[1..], lt);
    }
  }

  lemma {:induction false} LexTrichotomy<T(!new)>(a: seq<T>, b: seq<T>, lt: (T, T) -> bool)
    requires StrictTotal(lt)
    ensures a == b || LexLt(a, b, lt) || LexLt(b, a, lt)
    decreases |a|
  {
    if a != [] && b != [] && a[0] == b[0] {
      LexTrichotomy(a[1..], b[1..], lt);
      if a[1..] == b[1..] {
        assert a == [a[0]] + a[1..] && b == [b[0]] + b[1..];
      }
    }
  }

  function CharLt(x: char, y: char): bool
  {
    x < y
  }

  /** Python's `<` on str. */
  function StrLt(a: string, b: string): bool
  {
    LexLt(a, b, CharLt)
  }

  /** Python's `<` on tuples of str, written as sequences. */
  function KeyLt(a: seq<string>, b: seq<string>): bool
  {
    LexLt(a, b, StrLt)
  }

  lemma StrLtStrictTotal()
    ensures StrictTotal(StrLt)
  {
    assert StrictTotal(CharLt);
    forall a: string ensures !StrLt(a, a) {
      LexIrreflexive(a, CharLt);
    }
    forall a: string, b: string, c: string | StrLt(a, b) && StrLt(b, c) ensures StrLt(a, c) {
      LexTransitive(a, b, c, CharLt);
    }
    forall a: string, b: string ensures a == b || StrLt(a, b) || StrLt(b, a) {
      LexTrichotomy(a, b, CharLt);
    }
  }

  /** The order on keys is a strict total order: sorting by it is well defined. */
  lemma KeyLtStrictTotal()
    ensures StrictTotal(KeyLt)
  {
    StrLtStrictTotal();
    forall a: seq<string> ensures !KeyLt(a, a) {
      LexIrreflexive(a, StrLt);
    }
    forall a: seq<string>, b: seq<string>, c: seq<string> | KeyLt(a, b) && KeyLt(b, c) ensures KeyLt(a, c) {
      LexTransitive(a, b, c, StrLt);
    }
    forall a: seq<string>, b: seq<string> ensures a == b || KeyLt(a, b) || KeyLt(b, a) {
      LexTrichotomy(a, b, StrLt);
    }
  }

  /** Sorting by a one-element key is sorting the strings themselves. */
  lemma KeyOfOne(a: string, b: string)
    ensures KeyLt([a], [b]) <==> StrLt(a, b)
  {
    assert [a][1..] == [] && [b][1..] == [];
    if a == b {
      assert StrictTotal(CharLt);
      LexIrreflexive(a, CharLt);
      assert LexLt([a], [b], StrLt) == LexLt([a][1..], [b][1..], StrLt);
    } else {
      assert LexLt([a], [b], StrLt) == StrLt(a, b);
    }
  }

  // ---------------------------------------------------------------------
  // sorted(xs, key=...)

  /** No element is followed by one with a smaller key. */
  predicate SortedBy<T>(s: seq<T>, key: T -> seq<string>)
  {
    forall i, j | 0 <= i < j < |s| :: !KeyLt(key(s[j]), key(s[i]))
  }

  /** Insert x after every element whose key is not greater than its own. */
  function Insert<T>(s: seq<T>, x: T, key: T -> seq<string>): (r: seq<T>)
    ensures |r| == |s| + 1
  {
    if s == [] then [x]
    else if KeyLt(key(x), key(s[0])) then [x] + s
    else [s[0]] + Insert(s[1..], x, key)
  }

  /** Python's sorted(xs, key=key): insertion sort, each element placed after
      the equal-keyed ones before it. */
  function SortBy<T>(xs: seq<T>, key: T -> seq<string>): (r: seq<T>)
    ensures |r| == |xs|
  {
    if xs == [] then [] else Insert(SortBy(xs[..|xs| - 1], key), xs[|xs| - 1], key)
  }

  /** The elements of s with key k, in order. */
  function WithKey<T>(s: seq<T>, key: T -> seq<string>, k: seq<string>): seq<T>
  {
    if s == [] then [] else (if key(s[0]) == k then [s[0]] else []) + WithKey(s[1..], key, k)
  }

  lemma KeyLtIrreflexive(a: seq<string>)
    ensures !KeyLt(a, a)
  {
    StrLtStrictTotal();
    LexIrreflexive(a, StrLt);
  }

  lemma KeyLtTransitive(a: seq<string>, b: seq<string>, c: seq<string>)
    requires KeyLt(a, b) && KeyLt(b, c)
    ensures KeyLt(a, c)
  {
    StrLtStrictTotal();
    LexTransitive(a, b, c, StrLt);
  }

  /** A sorted sequence stays sorted behind a head no key of it is below. */
  lemma SortedCons<T>(h: T, t: seq<T>, key: T -> seq<string>)
    requires SortedBy(t, key)
    requires forall j | 0 <= j < |t| :: !KeyLt(key(t[j]), key(h))
    ensures SortedBy([h] + t, key)
  {
    var r := [h] + t;
    forall i, j | 0 <= i < j < |r| ensures !KeyLt(key(r[j]), key(r[i])) {
      assert r[j] == t[j - 1];
      if i > 0 {
        assert r[i] == t[i - 1];
      }
    }
  }

  /** The tail of a sorted sequence is sorted and no key in it is below the head's. */
  lemma SortedTail<T>(s: seq<T>, key: T -> seq<string>)
    requires SortedBy(s, key) && s != []
    ensures SortedBy(s[1..], key)
    ensures forall j | 0 <= j < |s| - 1 :: !KeyLt(key(s[1..][j]), key(s[0]))
  {
    forall i, j | 0 <= i < j < |s[1..]| ensures !KeyLt(key(s[1..][j]), key(s[1..][i])) {
      assert s[1..][i] == s[i + 1] && s[1..][j] == s[j + 1];
    }
    forall j | 0 <= j < |s| - 1 ensures !KeyLt(key(s[1..][j]), key(s[0])) {
      assert s[1..][j] == s[j + 1];
    }
  }

  lemma {:induction false} InsertSorted<T>(s: seq<T>, x: T, key: T -> seq<string>)
    requires SortedBy(s, key)
    ensures SortedBy(Insert(s, x, key), key)
  {
    if s == [] {
    } else if KeyLt(key(x), key(s[0])) {
      forall j | 0 <= j < |s| ensures !KeyLt(key(s[j]), key(x)) {
        if j == 0 {
          KeyLtIrreflexive(key(x));
          if KeyLt(key(s[0]), key(x)) {
            KeyLtTransitive(key(x), key(s[0]), key(x));
          }
        } else {
          assert !KeyLt(key(s[j]), key(s[0]));
          if KeyLt(key(s[j]), key(x)) {
            KeyLtTransitive(key(s[j]), key(x), key(s[0]));
          }
        }
      }
      SortedCons(x, s, key);
    } else {
      SortedTail(s, key);
      InsertSorted(s[1..], x, key);
      var t := Insert(s[1..], x, key);
      InsertMultiset(s[1..], x, key);
      forall j | 0 <= j < |t| ensures !KeyLt(key(t[j]), key(s[0])) {
        if t[j] != x {
          assert t[j] in multiset(t);
          assert t[j] in multiset(s[1..]);
          var m :| 0 <= m < |s[1..]| && s[1..][m] == t[j];
        }
      }
      SortedCons(s[0], t, key);
    }
  }

  lemma {:induction false} InsertMultiset<T>(s: seq<T>, x: T, key: T -> seq<string>)
    ensures multiset(Insert(s, x, key)) == multiset(s) + multiset{x}
  {
    if s != [] && !KeyLt(key(x), key(s[0])) {
      InsertMultiset(s[1..], x, key);
      assert s == [s[0]] + s[1..];
    }
  }

  lemma WithKeyCons<T>(h: T, t: seq<T>, key: T -> seq<string>, k: seq<string>)
    ensures WithKey([h] + t, key, k) == (if key(h) == k then [h] else []) + WithKey(t, key, k)
  {
    assert ([h] + t)[0] == h;
    assert ([h] + t)[1..] == t;
  }

  lemma {:induction false} WithKeyAppend<T>(a: seq<T>, b: seq<T>, key: T -> seq<string>, k: seq<string>)
    ensures WithKey(a + b, key, k) == WithKey(a, key, k) + WithKey(b, key, k)
  {
    if a == [] {
      assert a + b == b;
    } else {
      var p := if key(a[0]) == k then [a[0]] else [];
      assert a + b == [a[0]] + (a[1..] + b);
      WithKeyCons(a[0], a[1..] + b, key, k);
      WithKeyAppend(a[1..], b, key, k);
      assert WithKey(a, key, k) == p + WithKey(a[1..], key, k);
      assert p + (WithKey(a[1..], key, k) + WithKey(b, key, k)) == (p + WithKey(a[1..], key, k)) + WithKey(b, key, k);
    }
  }

  lemma KeyLtTotal(a: seq<string>, b: seq<string>)
    ensures a == b || KeyLt(a, b) || KeyLt(b, a)
  {
    StrLtStrictTotal();
    LexTrichotomy(a, b, StrLt);
  }

  /** In a sorted sequence, an element whose key is smaller than some
      element's key precedes it: the elements with keys not above k come first. */
  lemma {:induction false} InsertWithKey<T>(s: seq<T>, x: T, key: T -> seq<string>, k: seq<string>)
    requires SortedBy(s, key)
    ensures WithKey(Insert(s, x, key), key, k) == WithKey(s, key, k) + (if key(x) == k then [x] else [])
  {
    var q := if key(x) == k then [x] else [];
    if s == [] {
    } else if KeyLt(key(x), key(s[0])) {
      InsertFront(s, x, key, k);
    } else {
      SortedTail(s, key);
      InsertWithKey(s[1..], x, key, k);
      InsertBehind(s[0], s[1..], Insert(s[1..], x, key), q, key, k);
      assert s == [s[0]] + s[1..];
    }
  }

  /** x inserted into the tail t of h + t. */
  lemma InsertBehind<T>(h: T, t: seq<T>, t': seq<T>, q: seq<T>, key: T -> seq<string>, k: seq<string>)
    requires WithKey(t', key, k) == WithKey(t, key, k) + q
    ensures WithKey([h] + t', key, k) == WithKey([h] + t, key, k) + q
  {
    var p := if key(h) == k then [h] else [];
    WithKeyCons(h, t', key, k);
    WithKeyCons(h, t, key, k);
    assert p + (WithKey(t, key, k) + q) == (p + WithKey(t, key, k)) + q;
  }

  /** x placed in front of s: every element of s has a key above key(x), so
      none has key(x). */
  lemma InsertFront<T>(s: seq<T>, x: T, key: T -> seq<string>, k: seq<string>)
    requires SortedBy(s, key) && s != [] && KeyLt(key(x), key(s[0]))
    ensures WithKey([x] + s, key, k) == WithKey(s, key, k) + (if key(x) == k then [x] else [])
  {
    WithKeyCons(x, s, key, k);
    if key(x) == k {
      NoneWithKey(s, key, k);
      assert [x] + [] == [] + [x];
    } else {
      assert [] + WithKey(s, key, k) == WithKey(s, key, k) + [];
    }
  }

  /** No element of a sorted s has a key strictly below its first key. */
  lemma {:induction false} NoneWithKey<T>(s: seq<T>, key: T -> seq<string>, k: seq<string>)
    requires SortedBy(s, key) && s != [] && KeyLt(k, key(s[0]))
    ensures WithKey(s, key, k) == []
  {
    KeyLtIrreflexive(k);
    if |s| > 1 {
      SortedTail(s, key);
      assert s[1..][0] == s[1];
      assert KeyLt(k, key(s[1])) by {
        if key(s[1]) != key(s[0]) {
          KeyLtTotal(key(s[0]), key(s[1]));
          KeyLtTransitive(k, key(s[0]), key(s[1]));
        }
      }
      NoneWithKey(s[1..], key, k);
    }
  }

  /** sorted: the result is in key order, is a permutation of the input, and
      is stable (the elements sharing a key keep their input order). */
  lemma {:induction false} SortBySpec<T>(xs: seq<T>, key: T -> seq<string>)
    ensures SortedBy(SortBy(xs, key), key)
    ensures multiset(SortBy(xs, key)) == multiset(xs)
    ensures forall k :: WithKey(SortBy(xs, key), key, k) == WithKey(xs, key, k)
  {
    if xs != [] {
      var init := xs[..|xs| - 1];
      var x := xs[|xs| - 1];
      SortBySpec(init, key);
      InsertSorted(SortBy(init, key), x, key);
      InsertMultiset(SortBy(init, key), x, key);
      assert xs == init + [x];
      forall k ensures WithKey(SortBy(xs, key), key, k) == WithKey(xs, key, k) {
        StableStep(init, x, key, k);
      }
    }
  }

  /** One insertion keeps the elements sharing a key in input order. */
  lemma StableStep<T>(init: seq<T>, x: T, key: T -> seq<string>, k: seq<string>)
    requires SortedBy(SortBy(init, key), key)
    requires WithKey(SortBy(init, key), key, k) == WithKey(init, key, k)
    ensures WithKey(SortBy(init + [x], key), key, k) == WithKey(init + [x], key, k)
  {
    assert (init + [x])[..|init|] == init;
    InsertWithKey(SortBy(init, key), x, key, k);
    WithKeyAppend(init, [x], key, k);
    WithKeyCons(x, [], key, k);
    assert [x] + [] == [x];
  }

  /** sorted neither invents nor drops elements. */
  lemma SortByMembers<T>(xs: seq<T>, key: T -> seq<string>)
    ensures forall x | x in SortBy(xs, key) :: x in xs
    ensures forall x | x in xs :: x in SortBy(xs, key)
  {
    SortBySpec(xs, key);
    forall x | x in SortBy(xs, key) ensures x in xs {
      assert x in multiset(SortBy(xs, key));
    }
    forall x | x in xs ensures x in SortBy(xs, key) {
      assert x in multiset(xs);
    }
  }
}
