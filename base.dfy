/** Small shared vocabulary: an optional value and the character classes the
    Python tools rely on (str.isspace, str.isdigit, the regex classes \s, \d, \w). */
module Base {

  datatype Option<+T> = None | Some(value: T)
  {
    function GetOr(default: T): T
    {
      if Some? then value else default
    }
  }

  /** Python's dict.get(key, default). */
  function Get<K, V>(m: map<K, V>, key: K, default: V): V
  {
    if key in m then m[key] else default
  }

  /** CPython's str.isspace: the Unicode whitespace set. The same set is used by
      str.strip() and by the regex class \s on str patterns. */
  predicate IsSpace(c: char)
  {
    || ('\t' <= c <= '\r')
    || ('\U{1C}' <= c <= '\U{1F}')
    || c == ' '
    || c == '\U{85}'
    || c == '\U{A0}'
    || c == '\U{1680}'
    || ('\U{2000}' <= c <= '\U{200A}')
    || c == '\U{2028}'
    || c == '\U{2029}'
    || c == '\U{202F}'
    || c == '\U{205F}'
    || c == '\U{3000}'
  }

  /** ASCII decimal digit (the ASCII part of str.isdigit and of \d). */
  predicate IsDigit(c: char)
  {
    '0' <= c <= '9'
  }

  /** ASCII word character (the ASCII part of the regex class \w). */
  predicate IsWordChar(c: char)
  {
    ('a' <= c <= 'z') || ('A' <= c <= 'Z') || IsDigit(c) || c == '_'
  }

  predicate AllDigits(s: string)
  {
    forall k | 0 <= k < |s| :: IsDigit(s[k])
  }

  predicate AllSpace(s: string)
  {
    forall k | 0 <= k < |s| :: IsSpace(s[k])
  }

  /** Number of occurrences of c in s (Python's str.count for one character). */
  function Count(s: string, c: char): (n: nat)
    ensures n <= |s|
    ensures n == 0 <==> c !in s
  {
    if s == [] then 0 else (if s[0] == c then 1 else 0) + Count(s[1..], c)
  }

  lemma {:induction false} CountAppend(a: string, b: string, c: char)
    ensures Count(a + b, c) == Count(a, c) + Count(b, c)
  {
    if a == [] {
      assert a + b == b;
    } else {
      assert (a + b)[1..] == a[1..] + b;
      CountAppend(a[1..], b, c);
    }
  }

  // ---------------------------------------------------------------------
  // Sequence facts, stated once so that proofs elsewhere need not rebuild
  // them inside larger contexts

  lemma ConsSplit<T>(s: seq<T>)
    requires s != []
    ensures s == [s[0]] + s[1..]
  {
  }

  lemma LastSplit<T>(s: seq<T>)
    requires s != []
    ensures s == s[..|s| - 1] + [s[|s| - 1]]
  {
  }

  lemma TakeAll<T>(s: seq<T>)
    ensures s[..|s|] == s
  {
  }

  lemma PrefixSplit<T>(s: seq<T>, p: nat, n: nat)
    requires p <= n <= |s|
    ensures s[..n] == s[..p] + s[p..n]
  {
  }

  /** Slices of all but the last element, against slices of the whole. */
  lemma InitSlices<T>(s: seq<T>, p: nat)
    requires p < |s|
    ensures s[..|s| - 1][..p] == s[..p]
    ensures s[p..] == s[..|s| - 1][p..] + [s[|s| - 1]]
  {
  }

  lemma Split3<T>(s: seq<T>, j: nat, k: nat)
    requires j <= k <= |s|
    ensures s == s[..j] + s[j..k] + s[k..]
  {
  }

  lemma Assoc<T>(a: seq<T>, b: seq<T>, c: seq<T>)
    ensures a + b + c == a + (b + c)
    ensures b == [] ==> a + b == a
    ensures c == [] ==> b + c == b
  {
  }

  lemma AppendCancel<T>(a: seq<T>, b: seq<T>, c: seq<T>)
    requires a + b == a + c
    ensures b == c
  {
    assert b == (a + b)[|a|..];
  }

  /** Positions in a + x + b, by part. */
  lemma Parts<T>(a: seq<T>, x: seq<T>, b: seq<T>)
    ensures forall t | 0 <= t < |a| :: (a + x + b)[t] == a[t]
    ensures forall t | 0 <= t < |x| :: (a + x + b)[|a| + t] == x[t]
    ensures forall t | 0 <= t < |b| :: (a + x + b)[|a| + |x| + t] == b[t]
  {
  }

  /** A slice that is a + b splits into a slice that is a and one that is b. */
  lemma SliceParts<T>(s: seq<T>, i: nat, a: seq<T>, b: seq<T>)
    requires i + |a| + |b| <= |s| && s[i..i + |a| + |b|] == a + b
    ensures s[i..i + |a|] == a && s[i + |a|..i + |a| + |b|] == b
    ensures |a| > 0 ==> s[i] == a[0]
  {
    assert s[i..i + |a|] == s[i..i + |a| + |b|][..|a|];
    assert s[i + |a|..i + |a| + |b|] == s[i..i + |a| + |b|][|a|..];
  }
}
