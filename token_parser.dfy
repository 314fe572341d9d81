/** The recursive-descent parser over a token queue
    (src/prereqsolver/Parser.java). It reads the same grammar as the
    token-string parser, one token at a time:
      expr   ::= orTerm | orTerm AND expr
      orTerm ::= unit | unit OR orTerm
      unit   ::= COURSE | LPAREN expr RPAREN
    The parser object holds the queue and the current token; the functions
    below are the meaning of its methods, which are proved to agree with
    them. */
module TokenParsing {
  import opened Wrappers
  import opened Text
  import opened Tokens
  import opened Requirements

  /** Why a parse threw: `consume` saw the wrong token type, a unit began
      with neither COURSE nor LPAREN, a token other than EOF followed the
      expression, the current token was `null` (an empty queue given to the
      constructor), or a COURSE token carried a `null` literal. */
  datatype ParseError =
    | Mismatch(expected: TokenType, got: Token)
    | NotAUnit(got: Token)
    | Trailing(got: Token)
    | NullToken
    | NullLiteral

  /** The parser's state: the current token (`None` for `null`) and the
      tokens still in the queue. */
  datatype Stream = Stream(current: Option<Token>, queue: seq<Token>)

  /** What `consume` did: advanced to a new state, or threw. */
  datatype Step = Advanced(next: Stream) | Rejected(error: ParseError)

  /** What a parse method did: built a tree and left the state at `next`,
      or threw. */
  datatype Outcome = Parsed(tree: Req, next: Stream) | Failed(error: ParseError)

  /** The state the constructor sets up: the first token polled from the
      queue, `null` when the queue is empty. */
  function Start(tokens: seq<Token>): (r: Stream)
    ensures tokens == [] ==> r.current == None && r.queue == []
    ensures tokens != [] ==> r.current == Some(tokens[0]) && tokens == [tokens[0]] + r.queue
  {
    if tokens == [] then Stream(None, []) else Stream(Some(tokens[0]), tokens[1..])
  }

  /** The state after polling the next token from `queue`, an exhausted
      queue giving a fresh EOF token. */
  function Feed(queue: seq<Token>): (r: Stream)
    ensures r.current.Some?
    ensures queue == [] ==> r.current == Some(Bare(EOF)) && r.queue == []
    ensures queue != [] ==> r.current == Some(queue[0]) && queue == [queue[0]] + r.queue
  {
    if queue == [] then Stream(Some(Bare(EOF)), []) else Stream(Some(queue[0]), queue[1..])
  }

  /** How many tokens a parse can still consume: the queued ones and the
      current one unless it is EOF. */
  function Measure(st: Stream): nat {
    |st.queue| + if st.current.Some? && st.current.value.tokenType != EOF then 1 else 0
  }

  /** `consume(expected)`: passes over a current token of the expected type
      and polls the next, and throws otherwise. */
  function Advance(st: Stream, expected: TokenType): (r: Step)
    requires expected != EOF
    ensures r.Advanced? <==> st.current.Some? && st.current.value.tokenType == expected
    ensures r.Advanced? ==> r.next == Feed(st.queue) && Measure(r.next) < Measure(st)
    ensures r.Rejected? && st.current.None? ==> r.error == NullToken
    ensures r.Rejected? && st.current.Some? ==> r.error == Mismatch(expected, st.current.value)
  {
    if st.current.None? then Rejected(NullToken)
    else if st.current.value.tokenType != expected then Rejected(Mismatch(expected, st.current.value))
    else Advanced(Feed(st.queue))
  }

  /** `parseExpr`. */
  function ParseExprFrom(st: Stream): (r: Outcome)
    ensures r.Parsed? ==> Measure(r.next) < Measure(st) && r.next.current.Some?
    ensures r.Parsed? ==> WellFormed(r.tree) && r.next.current.value.tokenType != AND
    decreases Measure(st), 2
  {
    match ParseOrTermFrom(st)
    case Failed(e) => Failed(e)
    case Parsed(left, n) =>
      if n.current.value.tokenType == AND then
        match ParseExprFrom(Advance(n, AND).next)
        case Failed(e) => Failed(e)
        case Parsed(right, n') => Parsed(NewExpression(AND, left, right).value, n')
      else Parsed(left, n)
  }

  /** `parseOrTerm`. */
  function ParseOrTermFrom(st: Stream): (r: Outcome)
    ensures r.Parsed? ==> Measure(r.next) < Measure(st) && r.next.current.Some?
    ensures r.Parsed? ==> WellFormed(r.tree) && r.next.current.value.tokenType != OR
    decreases Measure(st), 1
  {
    match ParseUnitFrom(st)
    case Failed(e) => Failed(e)
    case Parsed(left, n) =>
      if n.current.value.tokenType == OR then
        match ParseOrTermFrom(Advance(n, OR).next)
        case Failed(e) => Failed(e)
        case Parsed(right, n') => Parsed(NewExpression(OR, left, right).value, n')
      else Parsed(left, n)
  }

  /** `parseUnit`: a COURSE token becomes a leaf, automatically passed when
      its literal is "None" in any case; a group is parsed between LPAREN
      and RPAREN and adds no node of its own. */
  function ParseUnitFrom(st: Stream): (r: Outcome)
    ensures r.Parsed? ==> Measure(r.next) < Measure(st) && r.next.current.Some?
    ensures r.Parsed? ==> WellFormed(r.tree)
    ensures st.current.None? ==> r == Failed(NullToken)
    ensures st.current.Some? && st.current.value.tokenType !in {COURSE, LPAREN} ==>
      r == Failed(NotAUnit(st.current.value))
    decreases Measure(st), 0
  {
    if st.current.None? then Failed(NullToken)
    else
      var cur := st.current.value;
      if cur.tokenType == COURSE then
        var n := Advance(st, COURSE).next;
        match cur.literal
        case None => Failed(NullLiteral)
        case Some(content) =>
          if EqualsIgnoreCase(content, "None") then Parsed(NewUnitWithPass(content, true), n)
          else Parsed(NewUnit(content), n)
      else if cur.tokenType == LPAREN then
        match ParseExprFrom(Advance(st, LPAREN).next)
        case Failed(e) => Failed(e)
        case Parsed(inner, n) =>
          match Advance(n, RPAREN)
          case Rejected(e) => Failed(e)
          case Advanced(n') => Parsed(inner, n')
      else Failed(NotAUnit(cur))
  }

  /** `parse` from a state: an expression that must be followed by EOF. */
  function ParseFrom(st: Stream): (r: Result<Req, ParseError>)
    ensures r.Success? ==> WellFormed(r.value)
    ensures r.Success? <==> ParseExprFrom(st).Parsed? && ParseExprFrom(st).next.current.value.tokenType == EOF
  {
    match ParseExprFrom(st)
    case Failed(e) => Failure(e)
    case Parsed(tree, n) =>
      if n.current.value.tokenType != EOF then Failure(Trailing(n.current.value))
      else Success(tree)
  }

  /** `new Parser(tokens).parse()`. */
  function ParseTokens(tokens: seq<Token>): (r: Result<Req, ParseError>)
    ensures tokens == [] ==> r == Failure(NullToken)
    ensures r.Success? ==> WellFormed(r.value)
  {
    ParseFrom(Start(tokens))
  }

  // ---------------------------------------------------------------------
  // The parser object.

  /** A method's outcome agrees with the parse function's: the same tree
      with the state where the function leaves it, or the same error. */
  predicate Agrees(r: Result<Req, ParseError>, f: Outcome, now: Stream) {
    && (r.Success? <==> f.Parsed?)
    && (r.Success? ==> r.value == f.tree && now == f.next)
    && (r.Failure? ==> r.error == f.error)
  }

  class Parser {
    var tokens: seq<Token>
    var currentToken: Option<Token>

    function View(): Stream
      reads this
    {
      Stream(currentToken, tokens)
    }

    /** Polls the first token, which is `null` for an empty queue. */
    constructor (tokens: seq<Token>)
      ensures View() == Start(tokens)
    {
      if tokens == [] {
        this.tokens := [];
        currentToken := None;
      } else {
        this.tokens := tokens[1..];
        currentToken := Some(tokens[0]);
      }
    }

    method Parse() returns (r: Result<Req, ParseError>)
      modifies this
      ensures r == ParseFrom(old(View()))
    {
      r := ParseExpr();
      if r.Failure? {
        return;
      }
      if currentToken.value.tokenType != EOF {
        r := Failure(Trailing(currentToken.value));
      }
    }

    method ParseExpr() returns (r: Result<Req, ParseError>)
      modifies this
      ensures Agrees(r, ParseExprFrom(old(View())), View())
      decreases Measure(View()), 2
    {
      var left := ParseOrTerm();
      if left.Failure? {
        return left;
      }
      if currentToken.value.tokenType == AND {
        var _ := Consume(AND);
        var right := ParseExpr();
        if right.Failure? {
          return right;
        }
        return Success(NewExpression(AND, left.value, right.value).value);
      }
      return left;
    }

    method ParseOrTerm() returns (r: Result<Req, ParseError>)
      modifies this
      ensures Agrees(r, ParseOrTermFrom(old(View())), View())
      decreases Measure(View()), 1
    {
      var left := ParseUnit();
      if left.Failure? {
        return left;
      }
      if currentToken.value.tokenType == OR {
        var _ := Consume(OR);
        var right := ParseOrTerm();
        if right.Failure? {
          return right;
        }
        return Success(NewExpression(OR, left.value, right.value).value);
      }
      return left;
    }

    method ParseUnit() returns (r: Result<Req, ParseError>)
      modifies this
      ensures Agrees(r, ParseUnitFrom(old(View())), View())
      decreases Measure(View()), 0
    {
      if currentToken.None? {
        return Failure(NullToken);
      }
      var cur := currentToken.value;
      if cur.tokenType == COURSE {
        var content := cur.literal;
        var _ := Consume(COURSE);
        if content.None? {
          return Failure(NullLiteral);
        }
        if EqualsIgnoreCase(content.value, "None") {
          return Success(NewUnitWithPass(content.value, true));
        }
        return Success(NewUnit(content.value));
      }
      if cur.tokenType == LPAREN {
        var _ := Consume(LPAREN);
        var inner := ParseExpr();
        if inner.Failure? {
          return inner;
        }
        var err := Consume(RPAREN);
        if err.Some? {
          return Failure(err.value);
        }
        return inner;
      }
      return Failure(NotAUnit(cur));
    }

    /** `consume`: on a match the next token is polled from the queue, an
        exhausted queue giving EOF; on a mismatch nothing changes and the
        error is returned. */
    method Consume(expected: TokenType) returns (err: Option<ParseError>)
      requires expected != EOF
      modifies this
      ensures Advance(old(View()), expected).Advanced? ==>
        err == None && View() == Advance(old(View()), expected).next
      ensures Advance(old(View()), expected).Rejected? ==>
        err == Some(Advance(old(View()), expected).error) && unchanged(this)
    {
      if currentToken.None? {
        return Some(NullToken);
      }
      if currentToken.value.tokenType != expected {
        return Some(Mismatch(expected, currentToken.value));
      }
      if tokens == [] {
        currentToken := Some(Bare(EOF));
      } else {
        currentToken := Some(tokens[0]);
        tokens := tokens[1..];
      }
      return None;
    }
  }

  // ---------------------------------------------------------------------
  // The token lists of trees, and what the parser makes of them.

  /** The trees the parser can return: AND and OR nodes over leaves whose
      content is in normal form and that pass automatically exactly when
      the content is "NONE". */
  predicate Parsable(t: Req) {
    match t
    case Unit(c, autoPass) => Normalize(c) == c && autoPass == EqualsIgnoreCase(c, "None")
    case Expr(op, l, r) => IsOperator(op) && Parsable(l) && Parsable(r)
  }

  function CourseToken(c: string): Token {
    Token(COURSE, Some(c))
  }

  /** The fewest tokens that spell a tree at each level of the grammar:
      parentheses only around a node that sits where a unit is expected. */
  function ExprTokens(t: Req): (r: seq<Token>)
    requires Parsable(t)
    ensures r != [] && NoEof(r)
    decreases t, if t.Unit? then 2 else if t.op == OR then 1 else 0
  {
    if t.Expr? && t.op == AND then OrTermTokens(t.left) + [Bare(AND)] + ExprTokens(t.right)
    else OrTermTokens(t)
  }

  function OrTermTokens(t: Req): (r: seq<Token>)
    requires Parsable(t)
    ensures r != [] && NoEof(r)
    decreases t, if t.Unit? then 1 else if t.op == AND then 2 else 0
  {
    if t.Expr? && t.op == OR then UnitTokens(t.left) + [Bare(OR)] + OrTermTokens(t.right)
    else UnitTokens(t)
  }

  function UnitTokens(t: Req): (r: seq<Token>)
    requires Parsable(t)
    ensures r != [] && NoEof(r)
    decreases t, if t.Unit? then 0 else if t.op == OR then 2 else 1
  {
    match t
    case Unit(c, _) => [CourseToken(c)]
    case Expr(_, _, _) => [Bare(LPAREN)] + ExprTokens(t) + [Bare(RPAREN)]
  }

  predicate NoEof(tokens: seq<Token>) {
    forall k :: 0 <= k < |tokens| ==> tokens[k].tokenType != EOF
  }

  /** A rest of the queue that ends an or-term: it does not start with OR. */
  predicate EndsOrTerm(tail: seq<Token>) {
    tail == [] || tail[0].tokenType != OR
  }

  /** A rest of the queue that ends an expression: it starts with neither
      OR nor AND. */
  predicate EndsExpr(tail: seq<Token>) {
    tail == [] || (tail[0].tokenType != OR && tail[0].tokenType != AND)
  }

  lemma {:induction false} AdvanceFeed(x: Token, rest: seq<Token>)
    requires x.tokenType != EOF
    ensures Advance(Feed([x] + rest), x.tokenType) == Advanced(Feed(rest))
  {
    assert ([x] + rest)[1..] == rest;
  }

  lemma {:induction false} UnitRoundTrip(t: Req, tail: seq<Token>)
    requires Parsable(t)
    ensures ParseUnitFrom(Feed(UnitTokens(t) + tail)) == Parsed(t, Feed(tail))
    decreases t, if t.Unit? then 0 else if t.op == OR then 3 else 2
  {
    match t
    case Unit(c, ap) =>
      assert UnitTokens(t) + tail == [CourseToken(c)] + tail;
      AdvanceFeed(CourseToken(c), tail);
    case Expr(_, _, _) =>
      GroupRoundTrip(t, tail);
  }

  /** Parentheses around any expression add no node to the tree. */
  lemma {:induction false} GroupRoundTrip(t: Req, tail: seq<Token>)
    requires Parsable(t)
    ensures ParseUnitFrom(Feed([Bare(LPAREN)] + ExprTokens(t) + [Bare(RPAREN)] + tail)) == Parsed(t, Feed(tail))
    decreases t, if t.Unit? then 3 else if t.op == OR then 2 else 1
  {
    var inner := [Bare(RPAREN)] + tail;
    assert [Bare(LPAREN)] + ExprTokens(t) + [Bare(RPAREN)] + tail == [Bare(LPAREN)] + (ExprTokens(t) + inner);
    AdvanceFeed(Bare(LPAREN), ExprTokens(t) + inner);
    ExprRoundTrip(t, inner);
    AdvanceFeed(Bare(RPAREN), tail);
  }

  lemma {:induction false} OrTermRoundTrip(t: Req, tail: seq<Token>)
    requires Parsable(t) && EndsOrTerm(tail)
    ensures ParseOrTermFrom(Feed(OrTermTokens(t) + tail)) == Parsed(t, Feed(tail))
    decreases t, if t.Unit? then 1 else if t.op == OR then 0 else 3
  {
    if t.Expr? && t.op == OR {
      var rest := OrTermTokens(t.right) + tail;
      assert OrTermTokens(t) + tail == UnitTokens(t.left) + ([Bare(OR)] + rest);
      UnitRoundTrip(t.left, [Bare(OR)] + rest);
      AdvanceFeed(Bare(OR), rest);
      OrTermRoundTrip(t.right, tail);
    } else {
      UnitRoundTrip(t, tail);
    }
  }

  lemma {:induction false} ExprRoundTrip(t: Req, tail: seq<Token>)
    requires Parsable(t) && EndsExpr(tail)
    ensures ParseExprFrom(Feed(ExprTokens(t) + tail)) == Parsed(t, Feed(tail))
    decreases t, if t.Unit? then 2 else if t.op == OR then 1 else 0
  {
    if t.Expr? && t.op == AND {
      var rest := ExprTokens(t.right) + tail;
      assert ExprTokens(t) + tail == OrTermTokens(t.left) + ([Bare(AND)] + rest);
      OrTermRoundTrip(t.left, [Bare(AND)] + rest);
      AdvanceFeed(Bare(AND), rest);
      ExprRoundTrip(t.right, tail);
    } else {
      OrTermRoundTrip(t, tail);
    }
  }

  /** Parsing the tokens of a tree gives the tree back, whether the queue
      simply runs out or holds an EOF token, after which nothing is read. */
  lemma {:induction false} ParseTokensRoundTrip(t: Req, rest: seq<Token>)
    requires Parsable(t)
    ensures ParseTokens(ExprTokens(t)) == Success(t)
    ensures ParseTokens(ExprTokens(t) + [Bare(EOF)] + rest) == Success(t)
  {
    assert ExprTokens(t) + [] == ExprTokens(t);
    ExprRoundTrip(t, []);
    assert ExprTokens(t) + [Bare(EOF)] + rest == ExprTokens(t) + ([Bare(EOF)] + rest);
    ExprRoundTrip(t, [Bare(EOF)] + rest);
  }

  /** A token other than EOF after a complete expression is an error: an
      operator would have continued the expression, anything else is left
      over. */
  lemma {:induction false} TrailingTokenRejected(t: Req, x: Token, rest: seq<Token>)
    requires Parsable(t) && x.tokenType !in {EOF, AND, OR}
    ensures ParseTokens(ExprTokens(t) + [x] + rest) == Failure(Trailing(x))
  {
    assert ExprTokens(t) + [x] + rest == ExprTokens(t) + ([x] + rest);
    ExprRoundTrip(t, [x] + rest);
  }

  /** A unit not followed by OR is a whole or-term. */
  lemma {:induction false} UnitLiftsOr(st: Stream, t: Req, tail: seq<Token>)
    requires ParseUnitFrom(st) == Parsed(t, Feed(tail)) && EndsOrTerm(tail)
    ensures ParseOrTermFrom(st) == Parsed(t, Feed(tail))
  {
  }

  /** A unit followed by neither operator is a whole or-term and a whole
      expression. */
  lemma {:induction false} UnitLifts(st: Stream, t: Req, tail: seq<Token>)
    requires ParseUnitFrom(st) == Parsed(t, Feed(tail)) && EndsExpr(tail)
    ensures ParseOrTermFrom(st) == Parsed(t, Feed(tail))
    ensures ParseExprFrom(st) == Parsed(t, Feed(tail))
  {
    assert ParseOrTermFrom(st) == Parsed(t, Feed(tail));
  }

  /** An error in the first unit is the error of the whole parse. */
  lemma {:induction false} FailureLifts(st: Stream, e: ParseError)
    requires ParseUnitFrom(st) == Failed(e)
    ensures ParseFrom(st) == Failure(e)
  {
    assert ParseOrTermFrom(st) == Failed(e);
    assert ParseExprFrom(st) == Failed(e);
  }

  /** An expression parse over the whole queue that stops at EOF is what
      `parse` returns. */
  lemma {:induction false} WholeQueue(w: seq<Token>, t: Req, tail: seq<Token>)
    requires w != [] && ParseExprFrom(Feed(w)) == Parsed(t, Feed(tail))
    requires tail == [] || tail[0].tokenType == EOF
    ensures ParseTokens(w) == Success(t)
  {
    assert Start(w) == Feed(w);
  }

  lemma {:induction false} UnitIsExpr(t: Req, tail: seq<Token>)
    requires Parsable(t) && EndsExpr(tail)
    ensures ParseExprFrom(Feed(UnitTokens(t) + tail)) == Parsed(t, Feed(tail))
  {
    UnitRoundTrip(t, tail);
    UnitLifts(Feed(UnitTokens(t) + tail), t, tail);
  }

  lemma {:induction false} Regroup(p: seq<Token>, q: seq<Token>, r: seq<Token>, u: seq<Token>, v: seq<Token>)
    ensures p + q + r + u + v == p + (q + (r + (u + v)))
  {
  }

  /** One OR step: a unit, OR, then an or-term. */
  lemma {:induction false} OrStep(st: Stream, a: Req, rest: seq<Token>, b: Req, n: Stream)
    requires ParseUnitFrom(st) == Parsed(a, Feed([Bare(OR)] + rest))
    requires ParseOrTermFrom(Feed(rest)) == Parsed(b, n)
    ensures ParseOrTermFrom(st) == Parsed(Expr(OR, a, b), n)
  {
    AdvanceFeed(Bare(OR), rest);
  }

  /** One AND step: an or-term, AND, then an expression. */
  lemma {:induction false} AndStep(st: Stream, a: Req, rest: seq<Token>, b: Req, n: Stream)
    requires ParseOrTermFrom(st) == Parsed(a, Feed([Bare(AND)] + rest))
    requires ParseExprFrom(Feed(rest)) == Parsed(b, n)
    ensures ParseExprFrom(st) == Parsed(Expr(AND, a, b), n)
  {
    AdvanceFeed(Bare(AND), rest);
  }

  /** `A OR B AND C` is `(A OR B) AND C`. */
  lemma {:induction false} OrBindsTighter(a: Req, b: Req, c: Req)
    requires Parsable(a) && Parsable(b) && Parsable(c)
    ensures ParseTokens(UnitTokens(a) + [Bare(OR)] + UnitTokens(b) + [Bare(AND)] + UnitTokens(c))
      == Success(Expr(AND, Expr(OR, a, b), c))
  {
    var ua, ub, uc := UnitTokens(a), UnitTokens(b), UnitTokens(c);
    var s3 := [Bare(AND)] + uc;
    var s2 := ub + s3;
    var w := ua + ([Bare(OR)] + s2);
    Regroup(ua, [Bare(OR)], ub, [Bare(AND)], uc);
    UnitRoundTrip(b, s3);
    UnitLiftsOr(Feed(s2), b, s3);
    UnitRoundTrip(a, [Bare(OR)] + s2);
    OrStep(Feed(w), a, s2, b, Feed(s3));
    assert uc + [] == uc;
    UnitIsExpr(c, []);
    AndStep(Feed(w), Expr(OR, a, b), uc, c, Feed([]));
    WholeQueue(w, Expr(AND, Expr(OR, a, b), c), []);
  }

  /** `A AND B AND C` is `A AND (B AND C)`. */
  lemma {:induction false} AndNestsRight(a: Req, b: Req, c: Req)
    requires Parsable(a) && Parsable(b) && Parsable(c)
    ensures ParseTokens(UnitTokens(a) + [Bare(AND)] + UnitTokens(b) + [Bare(AND)] + UnitTokens(c))
      == Success(Expr(AND, a, Expr(AND, b, c)))
  {
    var ua, ub, uc := UnitTokens(a), UnitTokens(b), UnitTokens(c);
    var s3 := [Bare(AND)] + uc;
    var s2 := ub + s3;
    var w := ua + ([Bare(AND)] + s2);
    Regroup(ua, [Bare(AND)], ub, [Bare(AND)], uc);
    assert uc + [] == uc;
    UnitIsExpr(c, []);
    UnitRoundTrip(b, s3);
    UnitLiftsOr(Feed(s2), b, s3);
    AndStep(Feed(s2), b, uc, c, Feed([]));
    UnitRoundTrip(a, [Bare(AND)] + s2);
    UnitLiftsOr(Feed(w), a, [Bare(AND)] + s2);
    AndStep(Feed(w), a, s2, Expr(AND, b, c), Feed([]));
    WholeQueue(w, Expr(AND, a, Expr(AND, b, c)), []);
  }

  /** `A OR B OR C` is `A OR (B OR C)`. */
  lemma {:induction false} OrNestsRight(a: Req, b: Req, c: Req)
    requires Parsable(a) && Parsable(b) && Parsable(c)
    ensures ParseTokens(UnitTokens(a) + [Bare(OR)] + UnitTokens(b) + [Bare(OR)] + UnitTokens(c))
      == Success(Expr(OR, a, Expr(OR, b, c)))
  {
    var ua, ub, uc := UnitTokens(a), UnitTokens(b), UnitTokens(c);
    var s3 := [Bare(OR)] + uc;
    var s2 := ub + s3;
    var w := ua + ([Bare(OR)] + s2);
    Regroup(ua, [Bare(OR)], ub, [Bare(OR)], uc);
    assert uc + [] == uc;
    UnitRoundTrip(c, []);
    UnitLifts(Feed(uc), c, []);
    UnitRoundTrip(b, s3);
    OrStep(Feed(s2), b, uc, c, Feed([]));
    UnitRoundTrip(a, [Bare(OR)] + s2);
    OrStep(Feed(w), a, s2, Expr(OR, b, c), Feed([]));
    assert ParseExprFrom(Feed(w)) == Parsed(Expr(OR, a, Expr(OR, b, c)), Feed([]));
    WholeQueue(w, Expr(OR, a, Expr(OR, b, c)), []);
  }

  /** Parentheses add no node: a group alone parses to what is inside. */
  lemma {:induction false} GroupAddsNoNode(t: Req)
    requires Parsable(t)
    ensures ParseTokens([Bare(LPAREN)] + ExprTokens(t) + [Bare(RPAREN)]) == Success(t)
  {
    var w := [Bare(LPAREN)] + ExprTokens(t) + [Bare(RPAREN)];
    assert w + [] == w;
    GroupRoundTrip(t, []);
    UnitLifts(Feed(w), t, []);
    WholeQueue(w, t, []);
  }

  /** A group whose RPAREN never comes fails when `consume(RPAREN)` meets
      the EOF that stands for the exhausted queue. */
  lemma {:induction false} UnclosedGroupFails(t: Req)
    requires Parsable(t)
    ensures ParseTokens([Bare(LPAREN)] + ExprTokens(t)) == Failure(Mismatch(RPAREN, Bare(EOF)))
  {
    var w := [Bare(LPAREN)] + ExprTokens(t);
    assert Start(w) == Feed(w);
    assert ExprTokens(t) + [] == ExprTokens(t);
    AdvanceFeed(Bare(LPAREN), ExprTokens(t));
    ExprRoundTrip(t, []);
    assert ParseUnitFrom(Feed(w)) == Failed(Mismatch(RPAREN, Bare(EOF)));
    FailureLifts(Feed(w), Mismatch(RPAREN, Bare(EOF)));
  }

  /** A COURSE literal becomes a leaf holding its normal form, passed
      automatically exactly when the literal is "None" in any case. */
  lemma {:induction false} NoneIsAutoPass(x: string)
    ensures ParseTokens([CourseToken(x)]) == Success(Unit(Normalize(x), EqualsIgnoreCase(x, "None")))
  {
    var leaf := Unit(Normalize(x), EqualsIgnoreCase(x, "None"));
    assert [CourseToken(x)] + [] == [CourseToken(x)];
    AdvanceFeed(CourseToken(x), []);
    assert ParseUnitFrom(Feed([CourseToken(x)])) == Parsed(leaf, Feed([]));
    UnitLifts(Feed([CourseToken(x)]), leaf, []);
    WholeQueue([CourseToken(x)], leaf, []);
  }

  /** A COURSE token without a literal makes `equalsIgnoreCase` throw. */
  lemma {:induction false} NullLiteralFails(rest: seq<Token>)
    ensures ParseTokens([Bare(COURSE)] + rest) == Failure(NullLiteral)
  {
    var st := Start([Bare(COURSE)] + rest);
    assert st.current == Some(Bare(COURSE));
    assert ParseUnitFrom(st) == Failed(NullLiteral);
    FailureLifts(st, NullLiteral);
  }

  /** A queue that starts with neither COURSE nor LPAREN fails at once. */
  lemma {:induction false} NotAUnitFails(tokens: seq<Token>)
    requires tokens != [] && tokens[0].tokenType !in {COURSE, LPAREN}
    ensures ParseTokens(tokens) == Failure(NotAUnit(tokens[0]))
  {
    FailureLifts(Start(tokens), NotAUnit(tokens[0]));
  }
}
