/** The Edge.Cuts stroke-width rewriter: a line-oriented pass over a
    .kicad_pcb file that finds the gr_* drawing blocks, and inside the blocks
    on the Edge.Cuts layer rewrites the `(width N)` line of each stroke
    sub-block to a given width text, counting the lines it changed. Bracket
    depth is tracked by counting parentheses per line. */
module EdgeCuts {
  import opened Base

  // ---------------------------------------------------------------------
  // Line classifiers (the four regular expressions at the top of the tool)

  /** First index at or after i that is not whitespace. */
  function SpaceEnd(s: string, i: nat): (r: nat)
    requires i <= |s|
    ensures i <= r <= |s|
    ensures r == |s| || !IsSpace(s[r])
    decreases |s| - i
  {
    if i < |s| && IsSpace(s[i]) then SpaceEnd(s, i + 1) else i
  }

  /** Everything SpaceEnd skips is whitespace. */
  lemma {:induction false} SpaceEndRun(s: string, i: nat)
    requires i <= |s|
    ensures AllSpace(s[i..SpaceEnd(s, i)])
    decreases |s| - i
  {
    if i < |s| && IsSpace(s[i]) {
      SpaceEndRun(s, i + 1);
      var r := SpaceEnd(s, i);
      forall t | 0 <= t < r - i ensures IsSpace(s[i..r][t]) {
        if t > 0 {
          assert s[i..r][t] == s[i + 1..r][t - 1];
        }
      }
    }
  }

  /** A whitespace run ending before a non-space is the one SpaceEnd finds. */
  lemma {:induction false} SpaceEndAt(s: string, i: nat, j: nat)
    requires i <= j <= |s|
    requires AllSpace(s[i..j])
    requires j == |s| || !IsSpace(s[j])
    ensures SpaceEnd(s, i) == j
    decreases j - i
  {
    if i < j {
      assert s[i..j][0] == s[i];
      assert s[i + 1..j] == s[i..j][1..];
      SpaceEndAt(s, i + 1, j);
    }
  }

  /** Characters that end the number of a width line: whitespace or ')'. */
  predicate Stop(c: char)
  {
    IsSpace(c) || c == ')'
  }

  /** First index at or after i holding a Stop character. */
  function StopAt(s: string, i: nat): (r: nat)
    requires i <= |s|
    ensures i <= r <= |s|
    ensures r == |s| || Stop(s[r])
    decreases |s| - i
  {
    if i < |s| && !Stop(s[i]) then StopAt(s, i + 1) else i
  }

  /** A run of non-Stop characters up to a Stop character or the end is the
      one StopAt finds. */
  lemma {:induction false} StopAtIs(s: string, i: nat, j: nat)
    requires i <= j <= |s|
    requires forall t | i <= t < j :: !Stop(s[t])
    requires j == |s| || Stop(s[j])
    ensures StopAt(s, i) == j
    decreases j - i
  {
    if i < j {
      StopAtIs(s, i + 1, j);
    }
  }

  /** `[-+]?[0-9]*\.?[0-9]+`: an optional sign, then digits with at most one
      '.', ending in a digit. */
  predicate IsNumber(n: string)
  {
    var body := if |n| > 0 && (n[0] == '+' || n[0] == '-') then n[1..] else n;
    && |body| > 0
    && IsDigit(body[|body| - 1])
    && Count(body, '.') <= 1
    && forall t | 0 <= t < |body| :: IsDigit(body[t]) || body[t] == '.'
  }

  /** Text with no whitespace and no parenthesis. */
  predicate WidthText(w: string)
  {
    forall t | 0 <= t < |w| :: !IsSpace(w[t]) && w[t] != '(' && w[t] != ')'
  }

  lemma NumberIsWidthText(n: string)
    requires IsNumber(n)
    ensures WidthText(n) && n != []
  {
    var signed := |n| > 0 && (n[0] == '+' || n[0] == '-');
    var body := if signed then n[1..] else n;
    assert forall t | 0 <= t < |body| :: IsDigit(body[t]) || body[t] == '.';
    forall t | 0 <= t < |n| ensures !IsSpace(n[t]) && n[t] != '(' && n[t] != ')' {
      if signed && t > 0 {
        assert n[t] == body[t - 1];
        assert IsDigit(body[t - 1]) || body[t - 1] == '.';
      } else if !signed {
        assert n[t] == body[t];
        assert IsDigit(body[t]) || body[t] == '.';
      }
    }
  }

  /** The three groups of `^(\s*\(width\s+)(number)(\s*\)\s*)$`. */
  datatype WidthParts = WidthParts(prefix: string, number: string, suffix: string)

  /** `\s*\(width\s+` */
  predicate WidthPrefix(a: string)
  {
    var i := SpaceEnd(a, 0);
    AllSpace(a[..i]) && i + 6 < |a| && a[i..i + 6] == "(width" && AllSpace(a[i + 6..])
  }

  /** `\s*\)\s*` up to the end of the line */
  predicate WidthSuffix(b: string)
  {
    var m := SpaceEnd(b, 0);
    AllSpace(b[..m]) && m < |b| && b[m] == ')' && AllSpace(b[m + 1..])
  }

  /** WIDTH_LINE_RE.match: the line, whole, is a `(width N)` line; the result
      holds its three groups. */
  function MatchWidth(line: string): Option<WidthParts>
  {
    var i := SpaceEnd(line, 0);
    if !(i + 6 <= |line| && line[i..i + 6] == "(width") then None
    else
      var j := SpaceEnd(line, i + 6);
      if j == i + 6 then None
      else
        var k := StopAt(line, j);
        var m := SpaceEnd(line, k);
        if IsNumber(line[j..k]) && m < |line| && line[m] == ')' && AllSpace(line[m + 1..]) then
          Some(WidthParts(line[..j], line[j..k], line[k..]))
        else None
  }

  /** MatchWidth once its scan positions are known. */
  lemma MatchWidthAt(line: string, i: nat, j: nat, k: nat, m: nat)
    requires i == SpaceEnd(line, 0) && i + 6 <= |line| && line[i..i + 6] == "(width"
    requires j == SpaceEnd(line, i + 6) && j != i + 6
    requires k == StopAt(line, j) && m == SpaceEnd(line, k)
    ensures MatchWidth(line) ==
      if IsNumber(line[j..k]) && m < |line| && line[m] == ')' && AllSpace(line[m + 1..]) then
        Some(WidthParts(line[..j], line[j..k], line[k..]))
      else None
  {
  }

  /** A line whose number group would be empty does not match. */
  lemma MatchWidthEmpty(line: string, i: nat, j: nat)
    requires i == SpaceEnd(line, 0) && i + 6 <= |line| && line[i..i + 6] == "(width"
    requires j == SpaceEnd(line, i + 6) && StopAt(line, j) == j
    ensures MatchWidth(line) == None
  {
    if j != i + 6 {
      assert line[j..j] == [];
      MatchWidthAt(line, i, j, j, SpaceEnd(line, j));
    }
  }

  /** The first group of a match is a width prefix... */
  lemma MatchedPrefix(line: string, i: nat, j: nat)
    requires i == SpaceEnd(line, 0) && i + 6 < j <= |line| && line[i..i + 6] == "(width"
    requires j == SpaceEnd(line, i + 6)
    ensures WidthPrefix(line[..j])
  {
    var a := line[..j];
    SpaceEndRun(line, 0);
    SpaceEndRun(line, i + 6);
    assert a[..i] == line[..i];
    assert a[i] == line[i..i + 6][0];
    SpaceEndAt(a, 0, i);
    assert a[i..i + 6] == line[i..i + 6];
    assert a[i + 6..] == line[i + 6..j];
  }

  /** ... and the third a width suffix. */
  lemma MatchedSuffix(line: string, k: nat, m: nat)
    requires k <= |line| && m == SpaceEnd(line, k)
    requires m < |line| && line[m] == ')' && AllSpace(line[m + 1..])
    ensures WidthSuffix(line[k..])
  {
    var b := line[k..];
    SpaceEndRun(line, k);
    assert b[..m - k] == line[k..m];
    assert b[m - k] == line[m];
    SpaceEndAt(b, 0, m - k);
    assert b[m - k + 1..] == line[m + 1..];
  }

  /** What the matcher returns is a split of the line into a width prefix, a
      number and a width suffix. */
  lemma MatchWidthSound(line: string)
    ensures MatchWidth(line).Some? ==>
      var p := MatchWidth(line).value;
      && line == p.prefix + p.number + p.suffix
      && WidthPrefix(p.prefix) && IsNumber(p.number) && WidthSuffix(p.suffix)
  {
    if MatchWidth(line).Some? {
      var i := SpaceEnd(line, 0);
      var j := SpaceEnd(line, i + 6);
      var k := StopAt(line, j);
      MatchedPrefix(line, i, j);
      MatchedSuffix(line, k, SpaceEnd(line, k));
      Split3(line, j, k);
    }
  }

  /** Every split of a line into a width prefix, a number and a width suffix is
      the one the matcher returns: with MatchWidthSound, the matcher accepts
      exactly the lines the regular expression accepts, with the same groups. */
  lemma MatchWidthComplete(a: string, n: string, b: string)
    requires WidthPrefix(a) && IsNumber(n) && WidthSuffix(b)
    ensures MatchWidth(a + n + b) == Some(WidthParts(a, n, b))
  {
    NumberIsWidthText(n);
    Rebuilt(a, n, b);
  }

  /** Counting a character around position i. */
  lemma CountSplit(a: string, i: nat, c: char)
    requires i < |a|
    ensures Count(a, c) == Count(a[..i], c) + (if a[i] == c then 1 else 0) + Count(a[i + 1..], c)
  {
    assert a == a[..i] + [a[i]] + a[i + 1..];
    CountAppend(a[..i], [a[i]], c);
    CountAppend(a[..i] + [a[i]], a[i + 1..], c);
  }

  /** Whitespace holds no parenthesis. */
  lemma SpaceNoParen(s: string)
    requires AllSpace(s)
    ensures Count(s, '(') == 0 && Count(s, ')') == 0
  {
    forall t | 0 <= t < |s| ensures s[t] != '(' && s[t] != ')' {
      assert IsSpace(s[t]);
    }
  }

  lemma SuffixShape(b: string)
    requires WidthSuffix(b)
    ensures Count(b, '(') == 0 && Count(b, ')') == 1
    ensures |b| > 0 && Stop(b[0])
  {
    var m := SpaceEnd(b, 0);
    var s1, s2 := b[..m], b[m + 1..];
    SpaceNoParen(s1);
    SpaceNoParen(s2);
    CountSplit(b, m, '(');
    CountSplit(b, m, ')');
    if m > 0 {
      assert b[0] == s1[0];
    }
  }

  /** The `(width` keyword and its parenthesis, after leading whitespace. */
  lemma PrefixKeyword(a: string)
    requires WidthPrefix(a)
    ensures var i := SpaceEnd(a, 0);
      && Count(a[i + 1..], '(') == 0 && Count(a[i + 1..], ')') == 0
      && a[i] == '(' && a[i + 1] == 'w'
  {
    var i := SpaceEnd(a, 0);
    var tail := a[i + 6..];
    assert a[i + 1..] == a[i + 1..i + 6] + tail;
    assert a[i + 1..i + 6] == "width" by {
      assert a[i..i + 6][1..] == a[i + 1..i + 6];
    }
    SpaceNoParen(tail);
    assert '(' !in a[i + 1..i + 6] && ')' !in a[i + 1..i + 6];
    assert a[i..i + 6][0] == a[i];
    assert a[i..i + 6][1] == a[i + 1];
  }

  lemma PrefixShape(a: string)
    requires WidthPrefix(a)
    ensures var i := SpaceEnd(a, 0);
      && Count(a, '(') == 1 && Count(a, ')') == 0
      && a[i] == '(' && a[i + 1] == 'w'
      && forall q | 0 <= q < |a| && a[q] == '(' :: q == i
  {
    var i := SpaceEnd(a, 0);
    var s1, s2 := a[..i], a[i + 1..];
    PrefixKeyword(a);
    SpaceNoParen(s1);
    CountSplit(a, i, '(');
    CountSplit(a, i, ')');
    OnlyAt(a, i, '(');
  }

  /** A character counted nowhere around position i occurs only at i. */
  lemma OnlyAt(a: string, i: nat, c: char)
    requires i < |a| && Count(a[..i], c) == 0 && Count(a[i + 1..], c) == 0
    ensures forall q | 0 <= q < |a| && a[q] == c :: q == i
  {
    forall q | 0 <= q < i ensures a[q] != c {
      assert a[q] == a[..i][q];
    }
    forall q | i < q < |a| ensures a[q] != c {
      assert a[q] == a[i + 1..][q - i - 1];
    }
  }

  /** The leading whitespace and the `(width` keyword of a rebuilt line are
      those of its prefix. */
  lemma RebuiltKeyword(a: string, w: string, b: string)
    requires WidthPrefix(a)
    ensures var i := SpaceEnd(a, 0);
      && SpaceEnd(a + w + b, 0) == i
      && (a + w + b)[i..i + 6] == "(width"
  {
    var line := a + w + b;
    var i := SpaceEnd(a, 0);
    assert line[..i] == a[..i];
    assert line[i] == a[i..i + 6][0];
    SpaceEndAt(line, 0, i);
    assert line[i..i + 6] == a[i..i + 6];
  }

  /** A whitespace run at the end of a, followed by a non-space. */
  lemma SpaceEndAppend(a: string, rest: string, lo: nat)
    requires lo <= |a| && AllSpace(a[lo..])
    requires rest != [] && !IsSpace(rest[0])
    ensures SpaceEnd(a + rest, lo) == |a|
  {
    assert (a + rest)[lo..|a|] == a[lo..];
    assert (a + rest)[|a|] == rest[0];
    SpaceEndAt(a + rest, lo, |a|);
  }

  /** A run of non-Stop characters followed by a Stop character or the end. */
  lemma StopAtAppend(x: string, w: string, rest: string)
    requires forall t | 0 <= t < |w| :: !Stop(w[t])
    requires rest == [] || Stop(rest[0])
    ensures StopAt(x + w + rest, |x|) == |x| + |w|
  {
    var line := x + w + rest;
    forall t | |x| <= t < |x| + |w| ensures !Stop(line[t]) {
      assert line[t] == w[t - |x|];
    }
    if rest != [] {
      assert line[|x| + |w|] == rest[0];
    }
    StopAtIs(line, |x|, |x| + |w|);
  }

  /** With nothing between prefix and suffix, the whitespace after `(width`
      runs into the suffix, up to its ')'. */
  lemma RebuiltEmptyGap(a: string, b: string)
    requires WidthPrefix(a) && WidthSuffix(b)
    ensures SpaceEnd(a + b, SpaceEnd(a, 0) + 6) == |a| + SpaceEnd(b, 0)
  {
    var i, mb := SpaceEnd(a, 0), SpaceEnd(b, 0);
    var x, rest := b[..mb], b[mb..];
    SpaceRunJoin(a, x, i + 6);
    assert b == x + rest;
    Assoc(a, x, rest);
    assert rest[0] == b[mb];
    SpaceEndAppend(a + x, rest, i + 6);
  }

  /** A whitespace run at the end of a continues through all-space x. */
  lemma SpaceRunJoin(a: string, x: string, lo: nat)
    requires lo <= |a| && AllSpace(a[lo..]) && AllSpace(x)
    ensures AllSpace((a + x)[lo..])
  {
    var run := (a + x)[lo..];
    forall t | 0 <= t < |run| ensures IsSpace(run[t]) {
      if lo + t < |a| {
        assert run[t] == a[lo..][t];
      } else {
        assert run[t] == x[lo + t - |a|];
      }
    }
  }

  /** ... and the number group is empty. */
  lemma RebuiltEmptyNumber(a: string, b: string)
    requires WidthSuffix(b)
    ensures StopAt(a + b, |a| + SpaceEnd(b, 0)) == |a| + SpaceEnd(b, 0)
  {
    var mb := SpaceEnd(b, 0);
    assert (a + b)[|a| + mb] == b[mb];
    StopAtIs(a + b, |a| + mb, |a| + mb);
  }

  lemma RebuiltEmpty(a: string, b: string)
    requires WidthPrefix(a) && WidthSuffix(b)
    ensures MatchWidth(a + b) == None
  {
    RebuiltKeyword(a, [], b);
    assert a + [] + b == a + b;
    RebuiltEmptyGap(a, b);
    RebuiltEmptyNumber(a, b);
    MatchWidthEmpty(a + b, SpaceEnd(a, 0), |a| + SpaceEnd(b, 0));
  }

  /** Non-empty width text starts right after the whitespace of the prefix... */
  lemma RebuiltGap(a: string, w: string, b: string)
    requires WidthPrefix(a) && w != [] && !IsSpace(w[0])
    ensures SpaceEnd(a + w + b, SpaceEnd(a, 0) + 6) == |a|
  {
    assert a + w + b == a + (w + b);
    SpaceEndAppend(a, w + b, SpaceEnd(a, 0) + 6);
  }

  /** ... and ends where the suffix starts. */
  lemma RebuiltNumber(a: string, w: string, b: string)
    requires WidthText(w) && WidthSuffix(b)
    ensures StopAt(a + w + b, |a|) == |a| + |w|
  {
    SuffixShape(b);
    StopAtAppend(a, w, b);
  }

  /** After the number, a rebuilt line ends with its suffix. */
  lemma RebuiltSuffix(a: string, w: string, b: string)
    requires WidthSuffix(b)
    ensures var line, k, mb := a + w + b, |a| + |w|, SpaceEnd(b, 0);
      && SpaceEnd(line, k) == k + mb
      && line[k + mb] == ')'
      && AllSpace(line[k + mb + 1..])
  {
    var line, k, mb := a + w + b, |a| + |w|, SpaceEnd(b, 0);
    assert line[k..k + mb] == b[..mb];
    assert line[k + mb] == b[mb];
    SpaceEndAt(line, k, k + mb);
    assert line[k + mb + 1..] == b[mb + 1..];
  }

  lemma RebuiltParts(a: string, w: string, b: string)
    ensures var line := a + w + b;
      line[..|a|] == a && line[|a|..|a| + |w|] == w && line[|a| + |w|..] == b
  {
  }

  lemma RebuiltText(a: string, w: string, b: string)
    requires WidthPrefix(a) && WidthText(w) && WidthSuffix(b) && w != []
    ensures MatchWidth(a + w + b) == if IsNumber(w) then Some(WidthParts(a, w, b)) else None
  {
    RebuiltScan(a, w, b);
    MatchWidthOfParts(a + w + b, a, w, b, SpaceEnd(a, 0), SpaceEnd(a + w + b, |a| + |w|));
  }

  /** Where the scans of MatchWidth stop on a rebuilt line. */
  lemma RebuiltScan(a: string, w: string, b: string)
    requires WidthPrefix(a) && WidthText(w) && WidthSuffix(b) && w != []
    ensures var line, i := a + w + b, SpaceEnd(a, 0);
      var m := SpaceEnd(line, |a| + |w|);
      && i == SpaceEnd(line, 0) && i + 6 <= |line| && line[i..i + 6] == "(width"
      && |a| == SpaceEnd(line, i + 6) && |a| != i + 6
      && |a| + |w| == StopAt(line, |a|)
      && line[..|a|] == a && line[|a|..|a| + |w|] == w && line[|a| + |w|..] == b
      && (IsNumber(w) ==> m < |line| && line[m] == ')' && AllSpace(line[m + 1..]))
  {
    RebuiltKeyword(a, w, b);
    RebuiltGap(a, w, b);
    RebuiltNumber(a, w, b);
    RebuiltParts(a, w, b);
    if IsNumber(w) {
      RebuiltSuffix(a, w, b);
    }
  }

  /** The match of a line made of a width prefix a, text w and a width
      suffix b, read back in terms of those three pieces. */
  lemma MatchWidthOfParts(line: string, a: string, w: string, b: string, i: nat, m: nat)
    requires i == SpaceEnd(line, 0) && i + 6 <= |line| && line[i..i + 6] == "(width"
    requires |a| == SpaceEnd(line, i + 6) && |a| != i + 6
    requires |a| + |w| == StopAt(line, |a|) && m == SpaceEnd(line, |a| + |w|)
    requires line[..|a|] == a && line[|a|..|a| + |w|] == w && line[|a| + |w|..] == b
    requires IsNumber(w) ==> m < |line| && line[m] == ')' && AllSpace(line[m + 1..])
    ensures MatchWidth(line) == if IsNumber(w) then Some(WidthParts(a, w, b)) else None
  {
    MatchWidthAt(line, i, |a|, |a| + |w|, m);
  }

  /** Putting width text between a width prefix and suffix gives a width line
      again exactly when the text is a number. */
  lemma Rebuilt(a: string, w: string, b: string)
    requires WidthPrefix(a) && WidthText(w) && WidthSuffix(b)
    ensures MatchWidth(a + w + b) == if IsNumber(w) then Some(WidthParts(a, w, b)) else None
  {
    if w == [] {
      assert a + w + b == a + b;
      RebuiltEmpty(a, b);
    } else {
      RebuiltText(a, w, b);
    }
  }

  const EdgeCutsLayer := "(layer \"Edge.Cuts\")"

  /** The Edge.Cuts layer tag starts at position q. */
  predicate TagAt(line: string, q: nat)
  {
    q + |EdgeCutsLayer| <= |line| && line[q..q + |EdgeCutsLayer|] == EdgeCutsLayer
  }

  /** LAYER_EDGE_CUTS in line */
  predicate HasEdgeCuts(line: string)
  {
    exists q: nat | q <= |line| :: TagAt(line, q)
  }

  /** GR_START_RE.match: `^\s*\(gr_\w+\b` (a greedy \w+ always ends on a
      word boundary). */
  predicate IsGrStart(line: string)
  {
    var i := SpaceEnd(line, 0);
    i + 5 <= |line| && line[i..i + 4] == "(gr_" && IsWordChar(line[i + 4])
  }

  /** `\(\s*stroke\b` matches at position q. */
  predicate StrokeAt(line: string, q: nat)
    requires q < |line|
  {
    line[q] == '(' &&
    var j := SpaceEnd(line, q + 1);
    j + 6 <= |line| && line[j..j + 6] == "stroke" && (j + 6 == |line| || !IsWordChar(line[j + 6]))
  }

  /** STROKE_START_RE.search */
  predicate HasStrokeStart(line: string)
  {
    exists q | 0 <= q < |line| :: StrokeAt(line, q)
  }

  /** line.count("(") - line.count(")") */
  function ParenDelta(line: string): int
  {
    Count(line, '(') - Count(line, ')')
  }

  /** A width line, with any parenthesis-free text as its number, is
      balanced... */
  lemma WidthLineBalanced(a: string, x: string, b: string)
    requires WidthPrefix(a) && WidthSuffix(b)
    requires forall t | 0 <= t < |x| :: x[t] != '(' && x[t] != ')'
    ensures ParenDelta(a + x + b) == 0
  {
    PrefixShape(a);
    SuffixShape(b);
    assert '(' !in x && ')' !in x;
    CountAppend(a, x, '(');
    CountAppend(a + x, b, '(');
    CountAppend(a, x, ')');
    CountAppend(a + x, b, ')');
  }

  /** ... and its only '(' is the one of `(width`. */
  lemma WidthLineParen(a: string, x: string, b: string)
    requires WidthPrefix(a) && WidthSuffix(b)
    requires forall t | 0 <= t < |x| :: x[t] != '(' && x[t] != ')'
    ensures var line, i := a + x + b, SpaceEnd(a, 0);
      && line[i] == '(' && line[i + 1] == 'w'
      && forall q | 0 <= q < |line| && line[q] == '(' :: q == i
  {
    var line, i := a + x + b, SpaceEnd(a, 0);
    PrefixShape(a);
    SuffixShape(b);
    assert '(' !in b;
    Parts(a, x, b);
    forall q | 0 <= q < |line| ensures line[q] == '(' ==> q == i {
      if q < |a| {
        assert line[q] == a[q];
      } else if q < |a| + |x| {
        assert line[q] == x[q - |a|];
      } else {
        assert line[q] == b[q - |a| - |x|];
      }
    }
  }

  /** A line whose only '(' is at i, followed by 'w', starts no gr_* block... */
  lemma OneParenNotGr(line: string, i: nat)
    requires i + 1 < |line| && line[i] == '(' && line[i + 1] == 'w'
    requires AllSpace(line[..i])
    ensures !IsGrStart(line)
  {
    SpaceEndAt(line, 0, i);
  }

  /** ... names no Edge.Cuts layer... */
  lemma OneParenNoTag(line: string, i: nat)
    requires i + 1 < |line| && line[i + 1] == 'w'
    requires forall q | 0 <= q < |line| && line[q] == '(' :: q == i
    ensures !HasEdgeCuts(line)
  {
    forall q: nat | q <= |line| ensures !TagAt(line, q) {
      if q + |EdgeCutsLayer| <= |line| {
        assert line[q..q + |EdgeCutsLayer|][0] == line[q];
        assert line[q..q + |EdgeCutsLayer|][1] == line[q + 1];
      }
    }
  }

  /** ... and opens no stroke. */
  lemma OneParenNoStroke(line: string, i: nat)
    requires i + 1 < |line| && line[i + 1] == 'w'
    requires forall q | 0 <= q < |line| && line[q] == '(' :: q == i
    ensures !HasStrokeStart(line)
  {
    SpaceEndAt(line, i + 1, i + 1);
  }

  /** A width line, with any parenthesis-free text as its number, is balanced,
      and neither starts a gr_* block, nor names the Edge.Cuts layer, nor opens
      a stroke. */
  lemma WidthLineClass(a: string, x: string, b: string)
    requires WidthPrefix(a) && WidthSuffix(b)
    requires forall t | 0 <= t < |x| :: x[t] != '(' && x[t] != ')'
    ensures ParenDelta(a + x + b) == 0
    ensures !IsGrStart(a + x + b) && !HasEdgeCuts(a + x + b) && !HasStrokeStart(a + x + b)
  {
    var line, i := a + x + b, SpaceEnd(a, 0);
    WidthLineBalanced(a, x, b);
    WidthLineParen(a, x, b);
    assert line[..i] == a[..i];
    OneParenNotGr(line, i);
    OneParenNoTag(line, i);
    OneParenNoStroke(line, i);
  }

  /** The in-stroke transformation of one line: a width line gets the width
      text in place of its number; any other line is kept as it is. */
  function Rewrite(line: string, w: string): string
  {
    match MatchWidth(line)
    case None => line
    case Some(p) => p.prefix + w + p.suffix
  }

  /** A rewrite keeps the `(width` prefix and the closing suffix of a width
      line and replaces only its number; other lines are kept. */
  lemma RewriteKeeps(line: string, w: string)
    ensures MatchWidth(line).None? ==> Rewrite(line, w) == line
    ensures MatchWidth(line).Some? ==>
      var p, r := MatchWidth(line).value, Rewrite(line, w);
      && |r| == |p.prefix| + |w| + |p.suffix|
      && r[..|p.prefix|] == p.prefix
      && r[|p.prefix|..|p.prefix| + |w|] == w
      && r[|p.prefix| + |w|..] == p.suffix
  {
  }

  /** A rewritten line rewrites to itself, and is classified exactly like the
      line it came from: same parenthesis balance, and a gr_* start, an
      Edge.Cuts tag or a stroke opener in neither. */
  lemma RewriteStable(line: string, w: string)
    requires WidthText(w)
    ensures Rewrite(Rewrite(line, w), w) == Rewrite(line, w)
    ensures ParenDelta(Rewrite(line, w)) == ParenDelta(line)
    ensures IsGrStart(Rewrite(line, w)) == IsGrStart(line)
    ensures HasEdgeCuts(Rewrite(line, w)) == HasEdgeCuts(line)
    ensures HasStrokeStart(Rewrite(line, w)) == HasStrokeStart(line)
  {
    MatchWidthSound(line);
    match MatchWidth(line)
    case None =>
    case Some(p) =>
      NumberIsWidthText(p.number);
      WidthLineClass(p.prefix, p.number, p.suffix);
      WidthLineClass(p.prefix, w, p.suffix);
      Rebuilt(p.prefix, w, p.suffix);
  }

  /** "(gr_line" opens a gr_* block and one bracket. */
  lemma OpenLine()
    ensures IsGrStart("(gr_line") && ParenDelta("(gr_line") == 1
  {
    OpenLineStart();
    OpenLineCount();
  }

  lemma OpenLineStart()
    ensures IsGrStart("(gr_line")
  {
    var line := "(gr_line";
    assert !IsSpace(line[0]);
    assert SpaceEnd(line, 0) == 0;
    assert line[0] == '(' && line[1] == 'g' && line[2] == 'r' && line[3] == '_';
    assert line[..4] == "(gr_";
  }

  lemma OpenLineCount()
    ensures Count("(gr_line", '(') == 1 && Count("(gr_line", ')') == 0
  {
    var line := "(gr_line";
    assert line[1..] == "gr_line";
    assert ')' !in line;
    assert '(' !in line[1..];
  }
}
