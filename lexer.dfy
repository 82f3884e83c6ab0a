/** The S-expression tokenizer of the KiCad netlist/board extractors
    (tokenize_sexpr). Tokens are plain strings: a paren token is the string
    "(" or ")", and a quoted string is its unescaped contents, so a quoted "("
    is indistinguishable from a real paren once tokenized. */
module Lexer {
  import opened Base

  type Token = string

  predicate IsParen(c: char)
  {
    c == '(' || c == ')'
  }

  /** A character that may appear in a bare symbol. */
  predicate IsSymbolChar(c: char)
  {
    !IsSpace(c) && !IsParen(c)
  }

  /** A bare symbol token: a non-empty run of symbol characters. */
  predicate IsSymbol(t: Token)
  {
    |t| > 0 && forall k | 0 <= k < |t| :: IsSymbolChar(t[k])
  }

  /** Where the bare symbol starting at j ends: the first whitespace or paren
      at or after j, or the end of the text. */
  function SymbolEnd(text: string, j: nat): (k: nat)
    requires j <= |text|
    ensures j <= k <= |text|
    ensures forall m | j <= m < k :: IsSymbolChar(text[m])
    ensures k == |text| || !IsSymbolChar(text[k])
    decreases |text| - j
  {
    if j < |text| && IsSymbolChar(text[j]) then SymbolEnd(text, j + 1) else j
  }

  /** The value of a quoted string whose body starts at i (just after the
      opening quote) and the position where scanning resumes. A backslash
      copies the next character literally; the string closes at the first
      unescaped quote or at the end of the text; a backslash that is the last
      character of the text is kept as it is. */
  function QuotedFrom(text: string, i: nat): (r: (string, nat))
    requires i <= |text|
    ensures i <= r.1 <= |text|
    ensures |r.0| <= r.1 - i
    ensures r.1 < |text| ==> r.1 > i && text[r.1 - 1] == '"'
    decreases |text| - i
  {
    if i == |text| then ("", i)
    else if text[i] == '\\' && i + 1 < |text| then
      var rest := QuotedFrom(text, i + 2);
      ([text[i + 1]] + rest.0, rest.1)
    else if text[i] == '"' then ("", i + 1)
    else
      var rest := QuotedFrom(text, i + 1);
      ([text[i]] + rest.0, rest.1)
  }

  /** The tokens of text[i..]. */
  function LexFrom(text: string, i: nat): seq<Token>
    requires i <= |text|
    decreases |text| - i
  {
    if i == |text| then []
    else if IsSpace(text[i]) then LexFrom(text, i + 1)
    else if IsParen(text[i]) then [[text[i]]] + LexFrom(text, i + 1)
    else if text[i] == '"' then
      var q := QuotedFrom(text, i + 1);
      [q.0] + LexFrom(text, q.1)
    else
      var k := SymbolEnd(text, i);
      [text[i..k]] + LexFrom(text, k)
  }

  function Lex(text: string): seq<Token>
  {
    LexFrom(text, 0)
  }

  /** The quoted-string scan inside tokenize_sexpr, from just after the
      opening quote. */
  method ScanQuoted(text: string, start: nat) returns (buf: string, i: nat)
    requires start <= |text|
    ensures buf == QuotedFrom(text, start).0 && i == QuotedFrom(text, start).1
  {
    var n := |text|;
    buf, i := [], start;
    while i < n
      invariant start <= i <= n
      invariant buf + QuotedFrom(text, i).0 == QuotedFrom(text, start).0
      invariant QuotedFrom(text, i).1 == QuotedFrom(text, start).1
      decreases n - i
    {
      var ch2 := text[i];
      if ch2 == '\\' {
        if i + 1 < n {
          buf := buf + [text[i + 1]];
          i := i + 2;
          continue;
        }
      }
      if ch2 == '"' {
        i := i + 1;
        break;
      }
      buf := buf + [ch2];
      i := i + 1;
    }
  }

  /** tokenize_sexpr: a cursor-driven scan. It never fails. */
  method Tokenize(text: string) returns (tokens: seq<Token>)
    ensures tokens == Lex(text)
  {
    tokens := [];
    var i := 0;
    var n := |text|;
    while i < n
      invariant 0 <= i <= n
      invariant tokens + LexFrom(text, i) == Lex(text)
      decreases n - i
    {
      var ch := text[i];
      if IsSpace(ch) {
        i := i + 1;
        continue;
      }
      var tok, next := NextToken(text, i);
      assert (tokens + [tok]) + LexFrom(text, next) == tokens + ([tok] + LexFrom(text, next));
      tokens := tokens + [tok];
      i := next;
    }
  }

  /** One token of the scan, starting at a character that is not whitespace. */
  method NextToken(text: string, i: nat) returns (tok: Token, next: nat)
    requires i < |text| && !IsSpace(text[i])
    ensures i < next <= |text|
    ensures LexFrom(text, i) == [tok] + LexFrom(text, next)
  {
    var ch := text[i];
    if ch == '(' || ch == ')' {
      tok, next := [ch], i + 1;
    } else if ch == '"' {
      tok, next := ScanQuoted(text, i + 1);
    } else {
      // symbol
      var j := ScanSymbol(text, i);
      tok, next := text[i..j], j;
    }
  }

  /** The bare-symbol scan: up to the first whitespace or paren. */
  method ScanSymbol(text: string, i: nat) returns (j: nat)
    requires i <= |text|
    ensures j == SymbolEnd(text, i)
  {
    var n := |text|;
    j := i;
    while j < n && !IsSpace(text[j]) && !IsParen(text[j])
      invariant i <= j <= n
      invariant SymbolEnd(text, j) == SymbolEnd(text, i)
      decreases n - j
    {
      j := j + 1;
    }
  }

  // ---------------------------------------------------------------------
  // Quoted strings

  /** Characters that a quoted-string scan copies one by one. */
  predicate Plain(s: string)
  {
    forall k | 0 <= k < |s| :: s[k] != '"' && s[k] != '\\'
  }

  /** A run of plain characters is copied verbatim into the quoted value. */
  lemma {:induction false} QuotedPlainRun(text: string, i: nat, j: nat)
    requires i <= j <= |text|
    requires forall k | i <= k < j :: text[k] != '"' && text[k] != '\\'
    ensures QuotedFrom(text, i).0 == text[i..j] + QuotedFrom(text, j).0
    ensures QuotedFrom(text, i).1 == QuotedFrom(text, j).1
    decreases j - i
  {
    if i < j {
      QuotedPlainRun(text, i + 1, j);
      assert text[i..j] == [text[i]] + text[i + 1..j];
    }
  }

  /** The escaped-quote example: "a\"b" is the single token a"b. */
  lemma EscapedQuoteExample()
    ensures Lex(['"', 'a', '\\', '"', 'b', '"']) == [['a', '"', 'b']]
  {
    var t := ['"', 'a', '\\', '"', 'b', '"'];
    assert t[0] == '"' && t[1] == 'a' && t[2] == '\\' && t[3] == '"' && t[4] == 'b' && t[5] == '"';
    assert QuotedFrom(t, 5).0 == [] && QuotedFrom(t, 5).1 == 6;
    assert QuotedFrom(t, 4).0 == ['b'] && QuotedFrom(t, 4).1 == 6;
    assert QuotedFrom(t, 2).0 == ['"', 'b'] && QuotedFrom(t, 2).1 == 6;
    assert QuotedFrom(t, 1).0 == ['a', '"', 'b'] && QuotedFrom(t, 1).1 == 6;
    assert !IsSpace(t[0]);
    assert LexFrom(t, 0) == [QuotedFrom(t, 1).0] + LexFrom(t, 6);
  }

  /** A quoted body with no quote character in it is never closed: the scan
      runs to the end of the text. */
  lemma {:induction false} QuoteFreeRunsToEnd(text: string, i: nat)
    requires i <= |text|
    requires forall k | i <= k < |text| :: text[k] != '"'
    ensures QuotedFrom(text, i).1 == |text|
    decreases |text| - i
  {
    if i == |text| {
    } else if text[i] == '\\' && i + 1 < |text| {
      QuoteFreeRunsToEnd(text, i + 2);
    } else {
      QuoteFreeRunsToEnd(text, i + 1);
    }
  }

  /** A quoted string that runs to the end of the input, which every quoted
      string without a quote in its contents does, is a single token: its
      unescaped contents. Plain contents are that token verbatim. */
  lemma UnterminatedQuote(s: string)
    ensures var t := ['"'] + s;
      QuotedFrom(t, 1).1 == |t| ==> Lex(t) == [QuotedFrom(t, 1).0]
    ensures '"' !in s ==> QuotedFrom(['"'] + s, 1).1 == |s| + 1
    ensures Plain(s) ==> Lex(['"'] + s) == [s]
  {
    var t := ['"'] + s;
    assert t[0] == '"' && !IsSpace(t[0]);
    assert LexFrom(t, 0) == [QuotedFrom(t, 1).0] + LexFrom(t, QuotedFrom(t, 1).1);
    if '"' !in s {
      assert forall k | 1 <= k < |t| :: t[k] == s[k - 1];
      QuoteFreeRunsToEnd(t, 1);
    }
    if Plain(s) {
      assert t[1..|t|] == s;
      QuotedPlainRun(t, 1, |t|);
      assert QuotedFrom(t, |t|).0 == [];
      assert QuotedFrom(t, 1).0 == s && QuotedFrom(t, 1).1 == |t|;
      assert LexFrom(t, |t|) == [];
    }
  }

  /** The quoted scan started at i arrives at position j, outside any
      escape pair and without having closed the string. */
  predicate ScanReaches(text: string, i: nat, j: nat)
    decreases j - i
  {
    i == j ||
    (i < j && i < |text| && text[i] != '"' &&
      if text[i] == '\\' && i + 1 < |text| then ScanReaches(text, i + 2, j)
      else ScanReaches(text, i + 1, j))
  }

  /** A run of plain characters is passed over one character at a time. */
  lemma {:induction false} PlainRunReaches(text: string, i: nat, j: nat)
    requires i <= j <= |text|
    requires forall k | i <= k < j :: text[k] != '"' && text[k] != '\\'
    ensures ScanReaches(text, i, j)
    decreases j - i
  {
    if i < j {
      PlainRunReaches(text, i + 1, j);
    }
  }

  /** When the scan arrives unescaped at a final backslash, the string runs to
      the end of the input and its value ends with that backslash. */
  lemma {:induction false} ScanKeepsTrailingBackslash(text: string, i: nat)
    requires i < |text| && text[|text| - 1] == '\\'
    requires ScanReaches(text, i, |text| - 1)
    ensures QuotedFrom(text, i).1 == |text|
    ensures |QuotedFrom(text, i).0| > 0
    ensures QuotedFrom(text, i).0[|QuotedFrom(text, i).0| - 1] == '\\'
    decreases |text| - i
  {
    if i == |text| - 1 {
      assert QuotedFrom(text, i + 1) == ("", |text|);
    } else if text[i] == '\\' && i + 1 < |text| {
      ScanKeepsTrailingBackslash(text, i + 2);
    } else {
      ScanKeepsTrailingBackslash(text, i + 1);
    }
  }

  /** A backslash that the quoted scan reaches unescaped as the last character
      of the input is kept literally at the end of the one token; after plain
      contents the scan always reaches it. */
  lemma LoneTrailingBackslash(s: string)
    ensures var t := ['"'] + s + ['\\'];
      ScanReaches(t, 1, |t| - 1) ==>
        Lex(t) == [QuotedFrom(t, 1).0] && QuotedFrom(t, 1).0[|QuotedFrom(t, 1).0| - 1] == '\\'
    ensures Plain(s) ==> ScanReaches(['"'] + s + ['\\'], 1, |s| + 1)
    ensures Plain(s) ==> Lex(['"'] + s + ['\\']) == [s + ['\\']]
  {
    var t := ['"'] + s + ['\\'];
    assert t[0] == '"' && !IsSpace(t[0]);
    assert t[|t| - 1] == '\\';
    assert LexFrom(t, 0) == [QuotedFrom(t, 1).0] + LexFrom(t, QuotedFrom(t, 1).1);
    if ScanReaches(t, 1, |t| - 1) {
      ScanKeepsTrailingBackslash(t, 1);
      assert LexFrom(t, |t|) == [];
    }
    if Plain(s) {
      assert forall k | 1 <= k < |t| - 1 :: t[k] == s[k - 1];
      PlainRunReaches(t, 1, |t| - 1);
      assert t[1..|t| - 1] == s;
      QuotedPlainRun(t, 1, |t| - 1);
      assert QuotedFrom(t, |t| - 1).0 == ['\\'] && QuotedFrom(t, |t| - 1).1 == |t|;
      assert QuotedFrom(t, 1).0 == s + ['\\'];
      assert LexFrom(t, |t|) == [];
    }
  }

  // ---------------------------------------------------------------------
  // Text without quotes

  predicate NoQuote(s: string)
  {
    forall k | 0 <= k < |s| :: s[k] != '"'
  }

  /** The text with every whitespace character deleted. */
  function RemoveSpace(s: string): (r: string)
    ensures |r| <= |s|
  {
    if s == [] then [] else (if IsSpace(s[0]) then [] else [s[0]]) + RemoveSpace(s[1..])
  }

  function Concat(ts: seq<string>): string
  {
    if ts == [] then [] else ts[0] + Concat(ts[1..])
  }

  lemma {:induction false} RemoveSpaceOfSymbolRun(text: string, i: nat, k: nat)
    requires i <= k <= |text|
    requires forall m | i <= m < k :: IsSymbolChar(text[m])
    ensures RemoveSpace(text[i..]) == text[i..k] + RemoveSpace(text[k..])
    decreases k - i
  {
    if i < k {
      assert text[i..][1..] == text[i + 1..];
      RemoveSpaceOfSymbolRun(text, i + 1, k);
      assert text[i..k] == [text[i]] + text[i + 1..k];
    }
  }

  /** Without quotes, the tokens concatenate back to the text minus its
      whitespace: nothing is lost and nothing is invented. */
  lemma {:induction false} LexConcatNoQuote(text: string, i: nat)
    requires i <= |text|
    requires forall k | i <= k < |text| :: text[k] != '"'
    ensures Concat(LexFrom(text, i)) == RemoveSpace(text[i..])
    decreases |text| - i
  {
    if i < |text| {
      assert text[i..][1..] == text[i + 1..];
      if IsSpace(text[i]) || IsParen(text[i]) {
        LexConcatNoQuote(text, i + 1);
      } else {
        var k := SymbolEnd(text, i);
        LexConcatNoQuote(text, k);
        RemoveSpaceOfSymbolRun(text, i, k);
        assert LexFrom(text, i) == [text[i..k]] + LexFrom(text, k);
      }
    }
  }

  /** Without quotes, every token is a one-character paren token or a
      non-empty bare symbol free of whitespace and parens. */
  lemma {:induction false} LexShapesNoQuote(text: string, i: nat)
    requires i <= |text|
    requires forall k | i <= k < |text| :: text[k] != '"'
    ensures forall t | t in LexFrom(text, i) :: t == "(" || t == ")" || IsSymbol(t)
    decreases |text| - i
  {
    if i < |text| {
      if IsSpace(text[i]) || IsParen(text[i]) {
        LexShapesNoQuote(text, i + 1);
      } else {
        var k := SymbolEnd(text, i);
        LexShapesNoQuote(text, k);
        assert IsSymbol(text[i..k]);
      }
    }
  }

  /** For text without quotes: the tokens are exactly the parens and the
      maximal whitespace-free runs, and no character other than whitespace
      is dropped. */
  lemma LexNoQuote(text: string)
    requires NoQuote(text)
    ensures Concat(Lex(text)) == RemoveSpace(text)
    ensures forall t | t in Lex(text) :: t == "(" || t == ")" || IsSymbol(t)
  {
    assert text[0..] == text;
    LexConcatNoQuote(text, 0);
    LexShapesNoQuote(text, 0);
  }
}
