/** The recursive-descent tree parser (parse_sexpr) over the tokenizer's
    plain-string tokens, and the error kinds shared by the extractors. */
module Parser {
  import opened Base
  import opened Lexer

  /** A parsed S-expression: an atom or a list of children. */
  datatype Node = Atom(s: string) | List(items: seq<Node>)

  /** The failures of the pipeline. The first four are the parser's; the
      other two are raised by the schema extractors. */
  datatype ParseError =
    | UnexpectedEnd
    | UnterminatedList
    | UnexpectedCloseParen
    | TrailingTokens(at: nat, total: nat)
    | InvalidRoot(expected: string)
    | MissingSection

  datatype Result<+T> = Ok(value: T) | Err(error: ParseError)

  /** A non-empty list whose first child is the atom tag (the extractors'
      `isinstance(x, list) and x and x[0] == tag`). */
  predicate HeadIs(n: Node, tag: string)
  {
    n.List? && |n.items| > 0 && n.items[0] == Atom(tag)
  }

  // ---------------------------------------------------------------------
  // Specification of the descent

  /** Parse one form starting at token i; on success, the form and the index
      just after it. */
  function ParseNode(toks: seq<Token>, i: nat): (r: Result<(Node, nat)>)
    requires i <= |toks|
    ensures r.Ok? ==> i < r.value.1 <= |toks|
    decreases |toks| - i, 0
  {
    if i == |toks| then Err(UnexpectedEnd)
    else if toks[i] == "(" then ParseItems(toks, i + 1, [])
    else if toks[i] == ")" then Err(UnexpectedCloseParen)
    else Ok((Atom(toks[i]), i + 1))
  }

  /** Parse the remaining children of a list whose earlier children are acc,
      up to and including its closing paren. */
  function ParseItems(toks: seq<Token>, i: nat, acc: seq<Node>): (r: Result<(Node, nat)>)
    requires i <= |toks|
    ensures r.Ok? ==> i < r.value.1 <= |toks|
    decreases |toks| - i, 1
  {
    if i == |toks| then Err(UnterminatedList)
    else if toks[i] == ")" then Ok((List(acc), i + 1))
    else
      match ParseNode(toks, i)
      case Err(e) => Err(e)
      case Ok((child, j)) => ParseItems(toks, j, acc + [child])
  }

  /** The whole token list must be exactly one form. */
  function Parse(toks: seq<Token>): Result<Node>
  {
    match ParseNode(toks, 0)
    case Err(e) => Err(e)
    case Ok((n, j)) => if j != |toks| then Err(TrailingTokens(j, |toks|)) else Ok(n)
  }

  // ---------------------------------------------------------------------
  // The parser as the source runs it: a shared cursor advanced by a
  // recursive parse_one, each list built by appending children.

  /** parse_one: the cursor i goes in, the advanced cursor comes back with
      the form. */
  method ParseOne(toks: seq<Token>, i: nat) returns (r: Result<(Node, nat)>)
    requires i <= |toks|
    ensures r == ParseNode(toks, i)
    decreases |toks| - i
  {
    if i >= |toks| {
      return Err(UnexpectedEnd);
    }
    var tok := toks[i];
    if tok == "(" {
      var k := i + 1;
      var lst: seq<Node> := [];
      while true
        invariant i < k <= |toks|
        invariant ParseItems(toks, k, lst) == ParseNode(toks, i)
        decreases |toks| - k
      {
        if k >= |toks| {
          return Err(UnterminatedList);
        }
        if toks[k] == ")" {
          return Ok((List(lst), k + 1));
        }
        var child := ParseOne(toks, k);
        if child.Err? {
          return Err(child.error);
        }
        lst := lst + [child.value.0];
        k := child.value.1;
      }
    }
    if tok == ")" {
      return Err(UnexpectedCloseParen);
    }
    return Ok((Atom(tok), i + 1));
  }

  /** parse_sexpr. */
  method ParseSexpr(toks: seq<Token>) returns (r: Result<Node>)
    ensures r == Parse(toks)
  {
    var one := ParseOne(toks, 0);
    if one.Err? {
      return Err(one.error);
    }
    var (expr, i) := one.value;
    if i != |toks| {
      return Err(TrailingTokens(i, |toks|));
    }
    return Ok(expr);
  }

  // ---------------------------------------------------------------------
  // Flattening a tree back to tokens

  /** The token list a tree stands for: an atom is itself, a list is its
      children between a "(" and a ")". */
  function Flatten(n: Node): seq<Token>
    decreases n, 1
  {
    match n
    case Atom(s) => [s]
    case List(xs) => ["("] + FlattenAll(xs) + [")"]
  }

  function FlattenAll(xs: seq<Node>): seq<Token>
    decreases xs, 0
  {
    if xs == [] then [] else Flatten(xs[0]) + FlattenAll(xs[1..])
  }

  /** A tree the parser can produce: no atom is a paren token. */
  predicate WellFormed(n: Node)
    decreases n, 1
  {
    match n
    case Atom(s) => s != "(" && s != ")"
    case List(xs) => AllWellFormed(xs)
  }

  predicate AllWellFormed(xs: seq<Node>)
    decreases xs, 0
  {
    forall k | 0 <= k < |xs| :: WellFormed(xs[k])
  }

  /** What a successful descent consumed is exactly the flattening of what
      it built, and what it built is well formed. */
  lemma {:induction false} ParseNodeSound(toks: seq<Token>, i: nat)
    requires i <= |toks|
    requires ParseNode(toks, i).Ok?
    ensures toks[i..ParseNode(toks, i).value.1] == Flatten(ParseNode(toks, i).value.0)
    ensures WellFormed(ParseNode(toks, i).value.0)
    decreases |toks| - i, 0
  {
    if toks[i] == "(" {
      ParseItemsSound(toks, i + 1, []);
      var (n, j) := ParseItems(toks, i + 1, []).value;
      assert toks[i..j] == ["("] + toks[i + 1..j];
    }
  }

  lemma {:induction false} ParseItemsSound(toks: seq<Token>, i: nat, acc: seq<Node>)
    requires i <= |toks|
    requires ParseItems(toks, i, acc).Ok?
    ensures var (n, j) := ParseItems(toks, i, acc).value;
      && n.List? && |acc| <= |n.items| && n.items[..|acc|] == acc
      && toks[i..j] == FlattenAll(n.items[|acc|..]) + [")"]
      && (AllWellFormed(acc) ==> WellFormed(n))
    decreases |toks| - i, 1
  {
    if toks[i] == ")" {
      var n := List(acc);
      assert n.items[|acc|..] == [];
    } else {
      ParseNodeSound(toks, i);
      var (child, j) := ParseNode(toks, i).value;
      ParseItemsSound(toks, j, acc + [child]);
      var (n, k) := ParseItems(toks, j, acc + [child]).value;
      assert n.items[..|acc|] == (acc + [child])[..|acc|] == acc;
      assert n.items[|acc|..] == [child] + n.items[|acc| + 1..];
      assert FlattenAll(n.items[|acc|..]) == Flatten(child) + FlattenAll(n.items[|acc| + 1..]);
      assert toks[i..k] == toks[i..j] + toks[j..k];
      if AllWellFormed(acc) {
        assert AllWellFormed(acc + [child]);
      }
    }
  }

  /** Parsing a well-formed tree's flattening, wherever it sits in the token
      list, gives back the tree and steps over exactly its tokens. */
  lemma {:induction false} ParseNodeComplete(toks: seq<Token>, i: nat, n: Node)
    requires WellFormed(n)
    requires i + |Flatten(n)| <= |toks|
    requires toks[i..i + |Flatten(n)|] == Flatten(n)
    ensures ParseNode(toks, i) == Ok((n, i + |Flatten(n)|))
    decreases n, 1
  {
    match n
    case Atom(s) =>
      assert toks[i] == toks[i..i + 1][0] == s;
    case List(xs) =>
      var f := Flatten(n);
      assert toks[i] == f[0] == "(";
      assert toks[i + 1..i + |f|] == FlattenAll(xs) + [")"] by {
        assert toks[i + 1..i + |f|] == f[1..];
      }
      ParseItemsComplete(toks, i + 1, [], xs);
      assert [] + xs == xs;
  }

  lemma {:induction false} ParseItemsComplete(toks: seq<Token>, i: nat, acc: seq<Node>, rest: seq<Node>)
    requires AllWellFormed(rest)
    requires i + |FlattenAll(rest)| + 1 <= |toks|
    requires toks[i..i + |FlattenAll(rest)| + 1] == FlattenAll(rest) + [")"]
    ensures ParseItems(toks, i, acc) == Ok((List(acc + rest), i + |FlattenAll(rest)| + 1))
    decreases rest, 0
  {
    var m := |FlattenAll(rest)|;
    if rest == [] {
      assert toks[i] == toks[i..i + m + 1][0] == ")";
      assert acc + rest == acc;
    } else {
      var c := rest[0];
      ItemsFacts(toks, i, rest);
      ConsSplit(rest);
      AllWellFormedCons(rest);
      FlattenHead(c);
      ParseNodeComplete(toks, i, c);
      var j := i + |Flatten(c)|;
      ParseItemsComplete(toks, j, acc + [c], rest[1..]);
      ItemsCompose(toks, i, j, i + m + 1, acc, c, rest[1..], rest);
    }
  }

  /** Where the first child's tokens and the rest of the list sit. */
  lemma ItemsFacts(toks: seq<Token>, i: nat, rest: seq<Node>)
    requires rest != []
    requires i + |FlattenAll(rest)| + 1 <= |toks|
    requires toks[i..i + |FlattenAll(rest)| + 1] == FlattenAll(rest) + [")"]
    ensures var fc, tail := Flatten(rest[0]), FlattenAll(rest[1..]);
      && |FlattenAll(rest)| == |fc| + |tail|
      && toks[i..i + |fc|] == fc
      && toks[i + |fc|..i + |fc| + |tail| + 1] == tail + [")"]
  {
    FlattenAllCons(rest);
    SliceParts(toks, i, Flatten(rest[0]), FlattenAll(rest[1..]) + [")"]);
  }

  lemma FlattenAllCons(rest: seq<Node>)
    requires rest != []
    ensures |FlattenAll(rest)| == |Flatten(rest[0])| + |FlattenAll(rest[1..])|
    ensures FlattenAll(rest) + [")"] == Flatten(rest[0]) + (FlattenAll(rest[1..]) + [")"])
  {
    Assoc(Flatten(rest[0]), FlattenAll(rest[1..]), [")"]);
  }

  lemma AllWellFormedCons(rest: seq<Node>)
    requires AllWellFormed(rest) && rest != []
    ensures WellFormed(rest[0]) && AllWellFormed(rest[1..])
  {
    forall k | 0 <= k < |rest[1..]| ensures WellFormed(rest[1..][k]) {
      assert rest[1..][k] == rest[k + 1];
    }
  }

  /** A child that parses is appended and the list goes on after it. */
  lemma ItemsCompose(toks: seq<Token>, i: nat, j: nat, e: nat, acc: seq<Node>, c: Node, more: seq<Node>, rest: seq<Node>)
    requires rest == [c] + more
    requires i < |toks| && toks[i] != ")" && ParseNode(toks, i) == Ok((c, j))
    requires j <= |toks| && ParseItems(toks, j, acc + [c]) == Ok((List(acc + [c] + more), e))
    ensures ParseItems(toks, i, acc) == Ok((List(acc + rest), e))
  {
    assert acc + [c] + more == acc + rest;
  }

  /** A well-formed tree's flattening starts with a token other than ")". */
  lemma FlattenHead(c: Node)
    requires WellFormed(c)
    ensures |Flatten(c)| > 0 && Flatten(c)[0] != ")"
  {
  }

  /** parse_sexpr is the inverse of flattening: it accepts a token list
      exactly when the list is the flattening of a well-formed tree, and then
      returns that tree. */
  lemma ParseIffFlatten(toks: seq<Token>, n: Node)
    ensures Parse(toks) == Ok(n) <==> WellFormed(n) && Flatten(n) == toks
  {
    if Parse(toks) == Ok(n) {
      ParseNodeSound(toks, 0);
      assert toks[0..|toks|] == toks;
    }
    if WellFormed(n) && Flatten(n) == toks {
      assert toks[0..|Flatten(n)|] == toks;
      ParseNodeComplete(toks, 0, n);
    }
  }

  // ---------------------------------------------------------------------
  // The four failure modes

  /** Below the top level, the only failure is an unterminated list: a
      nested form is only started on a token that is present and is not ")". */
  lemma {:induction false} NestedErrorIsUnterminated(toks: seq<Token>, i: nat, acc: seq<Node>)
    requires i <= |toks|
    ensures ParseItems(toks, i, acc).Err? ==> ParseItems(toks, i, acc).error == UnterminatedList
    decreases |toks| - i
  {
    if i < |toks| && toks[i] != ")" {
      if toks[i] == "(" {
        NestedErrorIsUnterminated(toks, i + 1, []);
      }
      if ParseNode(toks, i).Ok? {
        NestedErrorIsUnterminated(toks, ParseNode(toks, i).value.1, acc + [ParseNode(toks, i).value.0]);
      }
    }
  }

  /** Which error parse_sexpr raises: "unexpected end" exactly for no
      tokens, "unexpected ')'" exactly when the first token is ")",
      "unterminated list" only when the input opens with "(" and never closes
      that list, "trailing tokens" exactly when a complete first form is
      followed by more tokens. */
  lemma ParseErrors(toks: seq<Token>)
    ensures Parse(toks) == Err(UnexpectedEnd) <==> toks == []
    ensures Parse(toks) == Err(UnexpectedCloseParen) <==> toks != [] && toks[0] == ")"
    ensures Parse(toks) == Err(UnterminatedList) ==> toks != [] && toks[0] == "("
    ensures Parse(toks).Err? && Parse(toks).error.TrailingTokens? <==>
      ParseNode(toks, 0).Ok? && ParseNode(toks, 0).value.1 < |toks|
    ensures Parse(toks).Err? ==> !Parse(toks).error.InvalidRoot? && Parse(toks).error != MissingSection
  {
    if toks != [] && toks[0] == "(" {
      NestedErrorIsUnterminated(toks, 1, []);
    }
  }

  /** One ")" too many after a complete form is reported as trailing tokens
      (not as an unexpected ")"). */
  lemma ExtraCloseParen(n: Node)
    requires WellFormed(n)
    ensures Parse(Flatten(n) + [")"]) == Err(TrailingTokens(|Flatten(n)|, |Flatten(n)| + 1))
  {
    var toks := Flatten(n) + [")"];
    assert toks[0..|Flatten(n)|] == Flatten(n);
    ParseNodeComplete(toks, 0, n);
  }

  /** Cutting a well-formed list's flattening short anywhere after its
      opening paren leaves a list that is never closed. */
  lemma {:induction false} TruncatedNode(toks: seq<Token>, i: nat, n: Node)
    requires WellFormed(n)
    requires i < |toks| < i + |Flatten(n)|
    requires toks[i..] == Flatten(n)[..|toks| - i]
    ensures ParseNode(toks, i) == Err(UnterminatedList)
    decreases n, 1
  {
    match n
    case Atom(s) =>
    case List(xs) =>
      assert toks[i] == toks[i..][0] == "(";
      TruncatedItems(toks, i + 1, [], xs);
  }

  lemma {:induction false} TruncatedItems(toks: seq<Token>, i: nat, acc: seq<Node>, rest: seq<Node>)
    requires AllWellFormed(rest)
    requires i <= |toks| < i + |FlattenAll(rest)| + 1
    requires toks[i..] == (FlattenAll(rest) + [")"])[..|toks| - i]
    ensures ParseItems(toks, i, acc) == Err(UnterminatedList)
    decreases rest, 0
  {
    if i < |toks| {
      var c := rest[0];
      var fc := Flatten(c);
      var tail := FlattenAll(rest[1..]);
      assert FlattenAll(rest) + [")"] == fc + (tail + [")"]);
      assert toks[i] == fc[0];
      assert toks[i] != ")" by {
        match c
        case Atom(s) =>
        case List(ys) =>
      }
      if |toks| < i + |fc| {
        assert toks[i..] == fc[..|toks| - i];
        TruncatedNode(toks, i, c);
      } else {
        assert toks[i..i + |fc|] == fc by {
          assert toks[i..i + |fc|] == toks[i..][..|fc|];
        }
        ParseNodeComplete(toks, i, c);
        var j := i + |fc|;
        assert toks[j..] == (tail + [")"])[..|toks| - j] by {
          assert toks[j..] == toks[i..][|fc|..];
        }
        TruncatedItems(toks, j, acc + [c], rest[1..]);
      }
    }
  }

  /** Dropping the final ")" of a well-formed list is reported as an
      unterminated list. */
  lemma MissingCloseParen(n: Node)
    requires WellFormed(n) && n.List?
    ensures Parse(Flatten(n)[..|Flatten(n)| - 1]) == Err(UnterminatedList)
  {
    var f := Flatten(n);
    var toks := f[..|f| - 1];
    assert toks[0..] == toks == f[..|toks| - 0];
    TruncatedNode(toks, 0, n);
  }

  /** Tokens are plain strings, so a quoted paren is structure: the text
      (a ")") tokenizes to ( a ) ) and fails with trailing tokens. */
  lemma QuotedParenIsStructure()
    ensures Lex("(a \")\")") == ["(", "a", ")", ")"]
    ensures Parse(["(", "a", ")", ")"]) == Err(TrailingTokens(3, 4))
  {
    var t := "(a \")\")";
    assert t[0] == '(' && t[1] == 'a' && t[2] == ' ' && t[3] == '"' && t[4] == ')' && t[5] == '"' && t[6] == ')';
    assert SymbolEnd(t, 1) == 2;
    assert QuotedFrom(t, 5).0 == [] && QuotedFrom(t, 5).1 == 6;
    assert QuotedFrom(t, 4).0 == [')'] && QuotedFrom(t, 4).1 == 6;
    assert LexFrom(t, 7) == [];
    assert LexFrom(t, 6) == [")"];
    assert LexFrom(t, 3) == [")", ")"];
    assert LexFrom(t, 2) == [")", ")"];
    assert t[1..2] == "a";
    assert LexFrom(t, 1) == ["a", ")", ")"];
    var toks := ["(", "a", ")", ")"];
    assert ParseItems(toks, 2, [Atom("a")]) == Ok((List([Atom("a")]), 3));
  }
}
