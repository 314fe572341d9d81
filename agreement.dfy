/** The two parsers read one grammar: the token list the tokenizer builds
    is parsed directly (src/prereqsolver/Parser.java), and its stored text
    is parsed again when the data is loaded
    (src/prereqsolver/TokenStringParser.java). For every tree whose leaves
    both can carry, the two agree. */
module ParserAgreement {
  import opened Wrappers
  import opened Tokens
  import opened Requirements
  import opened TokenParsing
  import opened TokenStringParsing

  /** The stored text of a token list: the `toString` of every token but
      EOF, separated by single spaces (the loop of `tokenizeAndSaveToTSV`
      in src/prereqsolver/PrereqProcessor.java). */
  function TokenString(tokens: seq<Token>): (r: string)
    ensures tokens != [] && tokens[0].tokenType != EOF ==> r != []
  {
    if tokens == [] then ""
    else
      var rest := TokenString(tokens[1..]);
      if tokens[0].tokenType == EOF then rest
      else if rest == [] then Tokens.ToString(tokens[0])
      else Tokens.ToString(tokens[0]) + " " + rest
  }

  /** The text of two EOF-free lists joined is their texts joined by a
      space. */
  lemma {:induction false} TokenStringAppend(a: seq<Token>, b: seq<Token>)
    requires a != [] && b != [] && NoEof(a) && NoEof(b)
    ensures TokenString(a + b) == TokenString(a) + " " + TokenString(b)
    decreases |a|
  {
    var x := a[0];
    assert (a + b)[0] == x;
    assert (a + b)[1..] == a[1..] + b;
    assert b[0].tokenType != EOF;
    if |a| == 1 {
      assert a[1..] == [];
      assert (a + b)[1..] == b;
    } else {
      TokenStringAppend(a[1..], b);
      assert a[1..][0].tokenType != EOF;
    }
  }

  /** The leaves both parsers can carry: paren-free contents in normal form
      that are not "NONE", so that neither parser passes them
      automatically. */
  predicate Shared(t: Req) {
    Renderable(t) && Parsable(t)
  }

  /** Two EOF-free lists around one more token: the token's text between
      single spaces. */
  lemma {:induction false} JoinAround(p: seq<Token>, x: Token, q: seq<Token>)
    requires p != [] && q != [] && NoEof(p) && NoEof(q) && x.tokenType != EOF
    ensures TokenString(p + [x] + q) == TokenString(p) + (" " + Tokens.ToString(x) + " ") + TokenString(q)
  {
    assert NoEof(p + [x]) by {
      assert forall k :: 0 <= k < |p| ==> (p + [x])[k] == p[k];
    }
    TokenStringAppend(p, [x]);
    TokenStringAppend(p + [x], q);
    TokenStringSingle(x);
    SpaceRegroup(TokenString(p), Tokens.ToString(x), TokenString(q));
  }

  lemma {:induction false} TokenStringSingle(x: Token)
    requires x.tokenType != EOF
    ensures TokenString([x]) == Tokens.ToString(x)
  {
    assert [x][1..] == [];
  }

  lemma {:induction false} SpaceRegroup(a: string, b: string, c: string)
    ensures a + " " + b + " " + c == a + (" " + b + " ") + c
  {
  }

  /** An operator token between spaces reads as its name between spaces. */
  lemma {:induction false} SpacedOperator(op: TokenType)
    requires op == AND || op == OR
    ensures " " + Tokens.ToString(Bare(op)) + " " == (if op == AND then " AND " else " OR ")
  {
  }

  /** The stored text of a tree's tokens is the canonical token string. */
  lemma {:induction false} ExprText(t: Req)
    requires Shared(t)
    ensures TokenString(ExprTokens(t)) == RenderExpr(t)
    decreases t, if t.Unit? then 2 else if t.op == OR then 1 else 0
  {
    if t.Expr? && t.op == AND {
      OrTermText(t.left);
      ExprText(t.right);
      JoinAround(OrTermTokens(t.left), Bare(AND), ExprTokens(t.right));
      SpacedOperator(AND);
    } else {
      OrTermText(t);
    }
  }

  lemma {:induction false} OrTermText(t: Req)
    requires Shared(t)
    ensures TokenString(OrTermTokens(t)) == RenderOrTerm(t)
    decreases t, if t.Unit? then 1 else if t.op == AND then 2 else 0
  {
    if t.Expr? && t.op == OR {
      UnitText(t.left);
      OrTermText(t.right);
      JoinAround(UnitTokens(t.left), Bare(OR), OrTermTokens(t.right));
      SpacedOperator(OR);
    } else {
      UnitText(t);
    }
  }

  lemma {:induction false} UnitText(t: Req)
    requires Shared(t)
    ensures TokenString(UnitTokens(t)) == RenderUnit(t)
    decreases t, if t.Unit? then 0 else if t.op == OR then 2 else 1
  {
    match t
    case Unit(c, _) =>
      TokenStringSingle(CourseToken(c));
      CourseText(c);
    case Expr(_, _, _) =>
      ExprText(t);
      var e := ExprTokens(t);
      TokenStringAppend([Bare(LPAREN)], e);
      assert NoEof([Bare(LPAREN)] + e) by {
        assert forall k :: 1 <= k < |e| + 1 ==> ([Bare(LPAREN)] + e)[k] == e[k - 1];
      }
      TokenStringAppend([Bare(LPAREN)] + e, [Bare(RPAREN)]);
      TokenStringSingle(Bare(LPAREN));
      TokenStringSingle(Bare(RPAREN));
      GroupText(RenderExpr(t));
  }

  lemma {:induction false} CourseText(c: string)
    ensures Tokens.ToString(CourseToken(c)) == "COURSE(" + c + ")"
  {
    assert TypeName(COURSE) == "COURSE";
  }

  lemma {:induction false} GroupText(e: string)
    ensures Tokens.ToString(Bare(LPAREN)) + " " + e + " " + Tokens.ToString(Bare(RPAREN)) == "LPAREN " + e + " RPAREN"
  {
    assert TypeName(LPAREN) == "LPAREN" && TypeName(RPAREN) == "RPAREN";
  }

  /** An EOF token at the end adds nothing to the text. */
  lemma {:induction false} TrailingEof(a: seq<Token>)
    ensures TokenString(a + [Bare(EOF)]) == TokenString(a)
    decreases |a|
  {
    if a == [] {
      assert [Bare(EOF)][1..] == [];
    } else {
      assert (a + [Bare(EOF)])[1..] == a[1..] + [Bare(EOF)];
      TrailingEof(a[1..]);
    }
  }

  /** Both parsers give back the tree from its token list, terminated by
      EOF as the tokenizer leaves it: one from the tokens, the other from
      their stored text. */
  lemma {:induction false} ParsersAgree(t: Req)
    requires Shared(t)
    ensures ParseTokens(ExprTokens(t) + [Bare(EOF)]) == Success(t)
    ensures TokenString(ExprTokens(t) + [Bare(EOF)]) == RenderExpr(t)
    ensures ParseTokenString(TokenString(ExprTokens(t) + [Bare(EOF)])) == Success(Some(t))
  {
    ParseTokensRoundTrip(t, []);
    assert ExprTokens(t) + [Bare(EOF)] + [] == ExprTokens(t) + [Bare(EOF)];
    TrailingEof(ExprTokens(t));
    ExprText(t);
    ParseRendered(t);
  }
}
