/** The parser of stored token strings (src/prereqsolver/TokenStringParser.java).
    A token string is the space-separated rendering of a token list, such
    as `LPAREN COURSE(CS 1110) OR COURSE(CS 1112) RPAREN AND COURSE(MATH 1920)`.
    The grammar gives OR the tighter binding and nests both operators to
    the right:
      expr   ::= orTerm | orTerm AND expr
      orTerm ::= unit | unit OR orTerm
      unit   ::= COURSE(...) | LPAREN expr RPAREN
    The parse functions below are the meaning of the parser object's
    methods, which are proved to agree with them. */
module TokenStringParsing {
  import opened Wrappers
  import opened Text
  import opened Tokens
  import opened Requirements

  /** Why a parse threw: a group without its RPAREN, a unit that is neither
      a group nor a `COURSE(`, or a keyword looked for past the end of the
      input (`substring` beyond the length, after an unterminated
      `COURSE(`). Each carries the position. */
  datatype ParseError = MissingRParen(pos: nat) | ExpectedUnit(pos: nat) | PastEnd(pos: nat)

  /** What a parse method did: built a tree and left the cursor at `next`,
      or threw. */
  datatype Outcome = Parsed(tree: Req, next: nat) | Failed(error: ParseError)

  /** What `matchKeyword` did: passed over the keyword, found something
      else there (the cursor then stands after the whitespace), or threw
      because the position was past the end of the input. */
  datatype KeywordMatch = Matched(next: nat) | NotMatched(next: nat) | Overrun(pos: nat)

  /** `skipWhitespace`: the first position at or after `i` that does not
      hold a Java whitespace char (a position past the end stays). */
  function SkipWs(s: string, i: nat): (r: nat)
    ensures i <= r
    ensures i <= |s| ==> r <= |s|
    ensures i > |s| ==> r == i
    ensures r < |s| ==> !IsJavaWhitespace(s[r])
    decreases if i < |s| then |s| - i else 0
  {
    if i < |s| && IsJavaWhitespace(s[i]) then SkipWs(s, i + 1) else i
  }

  /** `matchKeyword` from position `i`. */
  function Keyword(s: string, i: nat, kw: string): (r: KeywordMatch)
    ensures r.Overrun? <==> SkipWs(s, i) > |s|
    ensures r.Matched? ==> r.next == SkipWs(s, i) + |kw| <= |s|
    ensures r.NotMatched? ==> r.next == SkipWs(s, i)
  {
    var j := SkipWs(s, i);
    if j > |s| then Overrun(j)
    else if StartsWith(s[j..], kw) then Matched(j + |kw|)
    else NotMatched(j)
  }

  /** The paren-depth scan of `parseUnit`: from depth `depth`, the position
      of the parenthesis that brings the depth to zero, or the end of the
      input. */
  function CloseParen(s: string, p: nat, depth: nat): (r: nat)
    requires p <= |s| && depth > 0
    ensures p <= r <= |s|
    ensures r < |s| ==> s[r] == ')'
    decreases |s| - p
  {
    if p == |s| then p
    else
      var d := if s[p] == '(' then depth + 1 else if s[p] == ')' then depth - 1 else depth;
      if d > 0 then CloseParen(s, p + 1, d) else p
  }

  /** `parseExpr` from position `i`. */
  function ParseExprAt(s: string, i: nat): (r: Outcome)
    requires i <= |s| + 1
    ensures r.Parsed? ==> i < r.next <= |s| + 1 && WellFormed(r.tree)
    decreases |s| + 2 - i, 2
  {
    match ParseOrTermAt(s, i)
    case Failed(e) => Failed(e)
    case Parsed(left, m) =>
      match Keyword(s, SkipWs(s, m), "AND")
      case Overrun(p) => Failed(PastEnd(p))
      case NotMatched(k) => Parsed(left, k)
      case Matched(k) =>
        match ParseExprAt(s, k)
        case Failed(e) => Failed(e)
        case Parsed(right, q) => Parsed(Expr(AND, left, right), q)
  }

  /** `parseOrTerm` from position `i`. */
  function ParseOrTermAt(s: string, i: nat): (r: Outcome)
    requires i <= |s| + 1
    ensures r.Parsed? ==> i < r.next <= |s| + 1 && WellFormed(r.tree)
    decreases |s| + 2 - i, 1
  {
    match ParseUnitAt(s, i)
    case Failed(e) => Failed(e)
    case Parsed(left, m) =>
      match Keyword(s, SkipWs(s, m), "OR")
      case Overrun(p) => Failed(PastEnd(p))
      case NotMatched(k) => Parsed(left, k)
      case Matched(k) =>
        match ParseOrTermAt(s, k)
        case Failed(e) => Failed(e)
        case Parsed(right, q) => Parsed(Expr(OR, left, right), q)
  }

  /** `parseUnit` from position `i`: a group, or a `COURSE(` leaf. */
  function ParseUnitAt(s: string, i: nat): (r: Outcome)
    requires i <= |s| + 1
    ensures r.Parsed? ==> i < r.next <= |s| + 1 && WellFormed(r.tree)
    decreases |s| + 2 - i, 0
  {
    match Keyword(s, SkipWs(s, i), "LPAREN")
    case Overrun(p) => Failed(PastEnd(p))
    case Matched(k) => GroupAt(s, k)
    case NotMatched(k) => CourseAt(s, k)
  }

  /** The group branch of `parseUnit`, after its LPAREN: an expression and
      then RPAREN, or the error naming the position where RPAREN was due. */
  function GroupAt(s: string, k: nat): (r: Outcome)
    requires k <= |s| + 1
    ensures r.Parsed? ==> k < r.next <= |s| + 1 && WellFormed(r.tree)
    decreases |s| + 2 - k, 3
  {
    match ParseExprAt(s, k)
    case Failed(e) => Failed(e)
    case Parsed(inner, m) =>
      match Keyword(s, SkipWs(s, m), "RPAREN")
      case Overrun(p) => Failed(PastEnd(p))
      case Matched(n) => Parsed(inner, n)
      case NotMatched(n) => Failed(MissingRParen(n))
  }

  /** The leaf branch of `parseUnit`: `COURSE(`, then the content up to the
      balancing parenthesis, trimmed and normalised by the `Unit`
      constructor; the cursor ends one past that parenthesis. */
  function CourseAt(s: string, k: nat): (r: Outcome)
    requires k <= |s| + 1
    ensures r.Parsed? ==> k < r.next <= |s| + 1 && WellFormed(r.tree)
  {
    match Keyword(s, k, "COURSE(")
    case Overrun(p) => Failed(PastEnd(p))
    case NotMatched(n) => Failed(ExpectedUnit(n))
    case Matched(n) =>
      var close := CloseParen(s, n, 1);
      Parsed(NewUnit(Trim(s[n..close])), close + 1)
  }

  /** `TokenStringParser.parse`: a string that trims to nothing gives no
      tree (`null`); otherwise the trimmed string is parsed as an
      expression, and whatever follows the expression is ignored. */
  function ParseTokenString(tokenString: string): (r: Result<Option<Req>, ParseError>)
    ensures r == Success(None) <==> Trim(tokenString) == []
    ensures r.Success? && r.value.Some? ==> WellFormed(r.value.value)
  {
    var input := Trim(tokenString);
    if input == [] then Success(None)
    else
      match ParseExprAt(input, 0)
      case Failed(e) => Failure(e)
      case Parsed(tree, _) => Success(Some(tree))
  }

  // ---------------------------------------------------------------------
  // The parser object.

  /** A method's outcome agrees with the parse function's: the same tree
      with the cursor where the function says, or the same error. */
  predicate Agrees(r: Result<Req, ParseError>, f: Outcome, pos: nat) {
    && (r.Success? <==> f.Parsed?)
    && (r.Success? ==> r.value == f.tree && pos == f.next)
    && (r.Failure? ==> r.error == f.error)
  }

  class TokenStringParser {
    const input: string
    var pos: nat

    /** The input is stored trimmed, with the cursor at its start. */
    constructor (input: string)
      ensures this.input == Trim(input) && pos == 0
    {
      this.input := Trim(input);
      pos := 0;
    }

    /** The static `parse`. */
    static method Parse(tokenString: string) returns (r: Result<Option<Req>, ParseError>)
      ensures r == ParseTokenString(tokenString)
    {
      if Trim(tokenString) == [] {
        return Success(None);
      }
      var parser := new TokenStringParser(tokenString);
      var e := parser.ParseExpr();
      if e.Failure? {
        return Failure(e.error);
      }
      return Success(Some(e.value));
    }

    method ParseExpr() returns (r: Result<Req, ParseError>)
      requires pos <= |input| + 1
      modifies this
      ensures Agrees(r, ParseExprAt(input, old(pos)), pos)
      decreases |input| + 2 - pos, 2
    {
      var left := ParseOrTerm();
      if left.Failure? {
        return left;
      }
      SkipWhitespace();
      var and := MatchKeyword("AND");
      if and.Failure? {
        return Failure(and.error);
      }
      if and.value {
        var right := ParseExpr();
        if right.Failure? {
          return right;
        }
        return Success(Expr(AND, left.value, right.value));
      }
      return left;
    }

    method ParseOrTerm() returns (r: Result<Req, ParseError>)
      requires pos <= |input| + 1
      modifies this
      ensures Agrees(r, ParseOrTermAt(input, old(pos)), pos)
      decreases |input| + 2 - pos, 1
    {
      var left := ParseUnit();
      if left.Failure? {
        return left;
      }
      SkipWhitespace();
      var or := MatchKeyword("OR");
      if or.Failure? {
        return Failure(or.error);
      }
      if or.value {
        var right := ParseOrTerm();
        if right.Failure? {
          return right;
        }
        return Success(Expr(OR, left.value, right.value));
      }
      return left;
    }

    method ParseUnit() returns (r: Result<Req, ParseError>)
      requires pos <= |input| + 1
      modifies this
      ensures Agrees(r, ParseUnitAt(input, old(pos)), pos)
      decreases |input| + 2 - pos, 0
    {
      SkipWhitespace();
      var lparen := MatchKeyword("LPAREN");
      if lparen.Failure? {
        return Failure(lparen.error);
      }
      if lparen.value {
        var inner := ParseExpr();
        if inner.Failure? {
          return inner;
        }
        SkipWhitespace();
        var rparen := MatchKeyword("RPAREN");
        if rparen.Failure? {
          return Failure(rparen.error);
        }
        if !rparen.value {
          return Failure(MissingRParen(pos));
        }
        return inner;
      }
      var course := MatchKeyword("COURSE(");
      if course.Failure? {
        assert false;
      }
      if !course.value {
        return Failure(ExpectedUnit(pos));
      }
      var start := pos;
      ScanToClose();
      var courseName := Trim(input[start..pos]);
      pos := pos + 1;
      return Success(NewUnit(courseName));
    }

    /** The depth scan of the leaf branch of `parseUnit`: stops on the
        parenthesis that closes the `COURSE(`, or at the end of the input. */
    method ScanToClose()
      requires pos <= |input|
      modifies this
      ensures pos == CloseParen(input, old(pos), 1)
    {
      var start := pos;
      var depth: nat := 1;
      while pos < |input| && depth > 0
        invariant start <= pos <= |input|
        invariant depth > 0 ==> CloseParen(input, pos, depth) == CloseParen(input, start, 1)
        invariant depth == 0 ==> pos == CloseParen(input, start, 1)
        decreases |input| - pos, depth
      {
        var c := input[pos];
        if c == '(' {
          depth := depth + 1;
        } else if c == ')' {
          depth := depth - 1;
        }
        if depth > 0 {
          pos := pos + 1;
        }
      }
    }

    method SkipWhitespace()
      modifies this
      ensures pos == SkipWs(input, old(pos))
    {
      while pos < |input| && IsJavaWhitespace(input[pos])
        invariant SkipWs(input, pos) == SkipWs(input, old(pos))
        decreases |input| - pos
      {
        pos := pos + 1;
      }
    }

    method MatchKeyword(keyword: string) returns (r: Result<bool, ParseError>)
      modifies this
      ensures var k := Keyword(input, old(pos), keyword);
        && (r.Success? <==> !k.Overrun?)
        && (r.Success? ==> r.value == k.Matched? && pos == k.next)
        && (r.Failure? ==> r.error == PastEnd(k.pos))
    {
      SkipWhitespace();
      if pos > |input| {
        return Failure(PastEnd(pos));
      }
      if StartsWith(input[pos..], keyword) {
        pos := pos + |keyword|;
        return Success(true);
      }
      return Success(false);
    }
  }

  // ---------------------------------------------------------------------
  // Rendering: the token string written for a tree, with parentheses only
  // where the grammar needs them.

  /** The trees a token string can spell: AND/OR nodes over normalised
      leaves without parentheses that are not automatic passes. */
  predicate Renderable(t: Req) {
    match t
    case Unit(c, autoPass) =>
      !autoPass && Normalize(c) == c && forall k :: 0 <= k < |c| ==> c[k] != '(' && c[k] != ')'
    case Expr(op, l, r) => IsOperator(op) && Renderable(l) && Renderable(r)
  }

  /** First and last chars of a rendering: never whitespace. */
  predicate Framed(r: string) {
    && |r| > 0
    && (r[0] == 'C' || r[0] == 'L')
    && (r[|r| - 1] == ')' || r[|r| - 1] == 'N')
  }

  function RenderExpr(t: Req): (r: string)
    requires Renderable(t)
    ensures Framed(r)
    decreases t, if t.Unit? then 2 else if t.op == OR then 1 else 0
  {
    if t.Expr? && t.op == AND then RenderOrTerm(t.left) + " AND " + RenderExpr(t.right)
    else RenderOrTerm(t)
  }

  function RenderOrTerm(t: Req): (r: string)
    requires Renderable(t)
    ensures Framed(r)
    decreases t, if t.Unit? then 1 else if t.op == AND then 2 else 0
  {
    if t.Expr? && t.op == OR then RenderUnit(t.left) + " OR " + RenderOrTerm(t.right)
    else RenderUnit(t)
  }

  function RenderUnit(t: Req): (r: string)
    requires Renderable(t)
    ensures Framed(r)
    decreases t, if t.Unit? then 0 else if t.op == OR then 2 else 1
  {
    match t
    case Unit(c, _) => "COURSE(" + c + ")"
    case Expr(_, _, _) => "LPAREN " + RenderExpr(t) + " RPAREN"
  }

  // ---------------------------------------------------------------------
  // Round trip.

  /** `w` is written in `s` at position `x`. */
  predicate At(s: string, x: nat, w: string) {
    x + |w| <= |s| && s[x..x + |w|] == w
  }

  lemma {:induction false} AtStartsWith(s: string, x: nat, w: string)
    requires At(s, x, w)
    ensures x <= |s| && StartsWith(s[x..], w)
  {
    assert s[x..][..|w|] == s[x..x + |w|];
  }

  lemma {:induction false} AtSplit(s: string, x: nat, a: string, b: string)
    requires At(s, x, a + b)
    ensures At(s, x, a) && At(s, x + |a|, b)
  {
    var y := x + |a|;
    var z := x + |a + b|;
    assert s[x..y] == s[x..z][..|a|] == (a + b)[..|a|] == a;
    assert s[y..y + |b|] == s[x..z][|a|..] == (a + b)[|a|..] == b;
  }

  lemma {:induction false} AtFirst(s: string, x: nat, w: string)
    requires At(s, x, w) && w != []
    ensures x < |s| && s[x] == w[0]
  {
    assert s[x] == s[x..x + |w|][0];
  }

  /** A keyword written between two spaces. */
  lemma {:induction false} AtSpaced(s: string, p: nat, kw: string)
    requires At(s, p, " " + kw + " ") && kw != []
    ensures p + |kw| + 2 <= |s| && s[p] == ' ' && At(s, p + 1, kw) && s[p + 1 + |kw|] == ' '
    ensures s[p + 1] == kw[0]
  {
    AtSplit(s, p, " " + kw, " ");
    AtSplit(s, p, " ", kw);
    AtFirst(s, p, " ");
    AtFirst(s, p + 1, kw);
    AtFirst(s, p + 1 + |kw|, " ");
  }

  lemma {:induction false} SkipWsIdempotent(s: string, i: nat)
    ensures SkipWs(s, SkipWs(s, i)) == SkipWs(s, i)
  {
  }

  /** One space before a non-blank char is skipped. */
  lemma {:induction false} SkipOneSpace(s: string, p: nat)
    requires p + 1 < |s| && IsJavaWhitespace(s[p]) && !IsJavaWhitespace(s[p + 1])
    ensures SkipWs(s, p) == p + 1
  {
  }

  /** A keyword written at a non-blank position is matched there. */
  lemma {:induction false} KeywordAt(s: string, m: nat, kw: string)
    requires At(s, m, kw) && kw != [] && !IsJavaWhitespace(kw[0])
    ensures SkipWs(s, m) == m && Keyword(s, m, kw) == Matched(m + |kw|)
  {
    AtFirst(s, m, kw);
    AtStartsWith(s, m, kw);
  }

  /** After the whitespace at `p` the input does not continue with `kw`. */
  predicate NoKeywordAt(s: string, p: nat, kw: string) {
    var j := SkipWs(s, p);
    j <= |s| && !StartsWith(s[j..], kw)
  }

  lemma {:induction false} KeywordMismatch(s: string, q: nat, kw: string)
    requires SkipWs(s, q) < |s| && kw != [] && s[SkipWs(s, q)] != kw[0]
    ensures NoKeywordAt(s, q, kw)
  {
    var j := SkipWs(s, q);
    assert s[j..][0] == s[j];
  }

  lemma {:induction false} CloseParenPlain(s: string, p: nat, e: nat)
    requires p <= e < |s| && s[e] == ')'
    requires forall k :: p <= k < e ==> s[k] != '(' && s[k] != ')'
    ensures CloseParen(s, p, 1) == e
    decreases e - p
  {
    if p < e {
      CloseParenPlain(s, p + 1, e);
    }
  }

  /** A normalised course name survives the parser's trim and the `Unit`
      constructor unchanged. */
  lemma {:induction false} NormalUnit(c: string)
    requires Normalize(c) == c
    ensures NewUnit(Trim(c)) == Unit(c, false)
  {
    TrimmedIsFixed(Normalize(c));
  }

  lemma {:induction false} KeywordAbsent(s: string, q: nat, kw: string)
    requires NoKeywordAt(s, q, kw)
    ensures Keyword(s, SkipWs(s, q), kw) == NotMatched(SkipWs(s, q))
  {
    SkipWsIdempotent(s, q);
  }

  lemma {:induction false} KeywordMissing(s: string, j: nat, kw: string)
    requires j < |s| && !IsJavaWhitespace(s[j]) && kw != [] && s[j] != kw[0]
    ensures Keyword(s, j, kw) == NotMatched(j)
  {
    assert s[j..][0] == s[j];
  }

  // One step of each parse function, given what its parts return.

  lemma {:induction false} UnitCourseStep(s: string, i: nat, j: nat)
    requires i <= |s| + 1 && j == SkipWs(s, i) && Keyword(s, j, "LPAREN") == NotMatched(j)
    ensures ParseUnitAt(s, i) == CourseAt(s, j)
  {
  }

  lemma {:induction false} UnitGroupStep(s: string, i: nat, j: nat)
    requires i <= |s| + 1 && j == SkipWs(s, i) && Keyword(s, j, "LPAREN") == Matched(j + 6)
    ensures ParseUnitAt(s, i) == GroupAt(s, j + 6)
  {
  }

  lemma {:induction false} GroupStep(s: string, k: nat, t: Req, m: nat, n: nat)
    requires k <= |s| + 1 && ParseExprAt(s, k) == Parsed(t, m)
    requires Keyword(s, SkipWs(s, m), "RPAREN") == Matched(n)
    ensures GroupAt(s, k) == Parsed(t, n)
  {
  }

  lemma {:induction false} OrStep(s: string, i: nat, l: Req, m: nat, k: nat, r: Req, q: nat)
    requires i <= |s| + 1 && ParseUnitAt(s, i) == Parsed(l, m)
    requires Keyword(s, SkipWs(s, m), "OR") == Matched(k)
    requires ParseOrTermAt(s, k) == Parsed(r, q)
    ensures ParseOrTermAt(s, i) == Parsed(Expr(OR, l, r), q)
  {
  }

  lemma {:induction false} OrEnd(s: string, i: nat, l: Req, m: nat)
    requires i <= |s| + 1 && ParseUnitAt(s, i) == Parsed(l, m)
    requires Keyword(s, SkipWs(s, m), "OR") == NotMatched(SkipWs(s, m))
    ensures ParseOrTermAt(s, i) == Parsed(l, SkipWs(s, m))
  {
  }

  lemma {:induction false} AndStep(s: string, i: nat, l: Req, m: nat, k: nat, r: Req, q: nat)
    requires i <= |s| + 1 && ParseOrTermAt(s, i) == Parsed(l, m)
    requires Keyword(s, SkipWs(s, m), "AND") == Matched(k)
    requires ParseExprAt(s, k) == Parsed(r, q)
    ensures ParseExprAt(s, i) == Parsed(Expr(AND, l, r), q)
  {
  }

  lemma {:induction false} AndEnd(s: string, i: nat, l: Req, m: nat)
    requires i <= |s| + 1 && ParseOrTermAt(s, i) == Parsed(l, m)
    requires Keyword(s, SkipWs(s, m), "AND") == NotMatched(SkipWs(s, m))
    ensures ParseExprAt(s, i) == Parsed(l, SkipWs(s, m))
  {
  }

  lemma {:induction false} CourseStep(s: string, j: nat, n: nat, e: nat)
    requires j <= |s| && Keyword(s, j, "COURSE(") == Matched(n)
    requires CloseParen(s, n, 1) == e
    ensures CourseAt(s, j) == Parsed(NewUnit(Trim(s[n..e])), e + 1)
  {
  }

  // Where the parts of a rendering sit in the input, and what the keyword
  // matcher finds between them. Positions are passed in as variables.

  lemma {:induction false} CourseLayout(s: string, j: nat, w: string, c: string, n: nat, f: nat, e: nat)
    requires At(s, j, w) && w == "COURSE(" + c + ")" && n == j + 7 && f == n + |c| && e == j + |w|
    requires forall k :: 0 <= k < |c| ==> c[k] != '(' && c[k] != ')'
    ensures SkipWs(s, j) == j && j <= |s| && e == f + 1
    ensures Keyword(s, j, "LPAREN") == NotMatched(j)
    ensures Keyword(s, j, "COURSE(") == Matched(n)
    ensures CloseParen(s, n, 1) == f
    ensures s[n..f] == c
  {
    AtSplit(s, j, "COURSE(" + c, ")");
    AtSplit(s, j, "COURSE(", c);
    KeywordAt(s, j, "COURSE(");
    KeywordMissing(s, j, "LPAREN");
    AtFirst(s, f, ")");
    forall k | n <= k < f
      ensures s[k] != '(' && s[k] != ')'
    {
      assert s[k] == s[n..f][k - n];
    }
    CloseParenPlain(s, n, f);
  }

  /** The end of a group: one space, RPAREN. Neither OR nor AND follows
      the inner expression ending at `m`, and RPAREN ends at `m + 7`. */
  lemma {:induction false} GroupCloseLayout(s: string, m: nat)
    requires At(s, m, " RPAREN")
    ensures NoKeywordAt(s, m, "OR") && NoKeywordAt(s, m, "AND")
    ensures SkipWs(s, m) == m + 1 && Keyword(s, SkipWs(s, m + 1), "RPAREN") == Matched(m + 7)
  {
    AtSplit(s, m, " ", "RPAREN");
    AtFirst(s, m, " ");
    AtFirst(s, m + 1, "RPAREN");
    SkipOneSpace(s, m);
    KeywordMismatch(s, m, "OR");
    KeywordMismatch(s, m, "AND");
    KeywordAt(s, m + 1, "RPAREN");
  }

  /** A group `LPAREN inner RPAREN` at `j`: the inner expression sits at
      `j + 7` and ends at `m`; the group ends at `e`. */
  lemma {:induction false} GroupLayout(s: string, j: nat, w: string, inner: string, m: nat, e: nat)
    requires At(s, j, w) && w == "LPAREN " + inner + " RPAREN" && m == j + 7 + |inner| && e == j + |w|
    requires inner != [] && !IsJavaWhitespace(inner[0])
    ensures SkipWs(s, j) == j && Keyword(s, j, "LPAREN") == Matched(j + 6)
    ensures SkipWs(s, j + 6) == j + 7 && At(s, j + 7, inner)
    ensures NoKeywordAt(s, m, "OR") && NoKeywordAt(s, m, "AND")
    ensures Keyword(s, SkipWs(s, SkipWs(s, m)), "RPAREN") == Matched(e)
  {
    AtSplit(s, j, "LPAREN " + inner, " RPAREN");
    AtSplit(s, j, "LPAREN ", inner);
    AtSplit(s, j, "LPAREN", " ");
    KeywordAt(s, j, "LPAREN");
    AtFirst(s, j + 6, " ");
    AtFirst(s, j + 7, inner);
    SkipOneSpace(s, j + 6);
    GroupCloseLayout(s, m);
  }

  /** `a`, then a keyword between single spaces, then `b`: `a` ends at
      `p`, the keyword ends at `q`, and `b` runs from `q + 1` to `e`. */
  lemma {:induction false} SpacedLayout(s: string, j: nat, w: string, a: string, sep: string, kw: string, b: string, p: nat, q: nat, e: nat)
    requires At(s, j, w) && w == a + sep + b && sep == " " + kw + " "
    requires kw != [] && !IsJavaWhitespace(kw[0]) && b != [] && !IsJavaWhitespace(b[0])
    requires p == j + |a| && q == p + 1 + |kw| && e == j + |w|
    ensures At(s, j, a) && At(s, q + 1, b) && e == q + 1 + |b|
    ensures SkipWs(s, p) == p + 1 && p + 1 < |s| && s[p + 1] == kw[0]
    ensures Keyword(s, SkipWs(s, p), kw) == Matched(q)
    ensures SkipWs(s, q) == q + 1
  {
    AtSplit(s, j, a + sep, b);
    AtSplit(s, j, a, sep);
    AtSpaced(s, p, kw);
    AtFirst(s, q + 1, b);
    SkipOneSpace(s, p);
    KeywordAt(s, p + 1, kw);
    SkipOneSpace(s, q);
  }

  /** A leaf: `COURSE(c)` at the position after the whitespace at `i`. */
  lemma {:induction false} LeafRoundTrip(s: string, i: nat, j: nat, e: nat, c: string)
    requires Renderable(Unit(c, false)) && i <= |s| && j == SkipWs(s, i)
    requires At(s, j, RenderUnit(Unit(c, false))) && e == j + |RenderUnit(Unit(c, false))|
    ensures ParseUnitAt(s, i) == Parsed(Unit(c, false), e)
  {
    var n := j + 7;
    var f := n + |c|;
    CourseLayout(s, j, RenderUnit(Unit(c, false)), c, n, f, e);
    UnitCourseStep(s, i, j);
    CourseStep(s, j, n, f);
    NormalUnit(c);
  }

  // The round-trip lemmas recurse on the tree; at one tree they step from
  // expression to or-term to unit to group and back to expression, so the
  // second component orders those steps for each kind of node. Each starts
  // at `i`, finds the rendering at `j` after the whitespace and ends at `e`.

  lemma {:induction false} UnitRoundTrip(s: string, i: nat, j: nat, e: nat, t: Req)
    requires Renderable(t) && i <= |s| && j == SkipWs(s, i)
    requires At(s, j, RenderUnit(t)) && e == j + |RenderUnit(t)|
    ensures ParseUnitAt(s, i) == Parsed(t, e)
    decreases t, if t.Unit? then 0 else if t.op == OR then 5 else 3
  {
    match t
    case Unit(c, _) =>
      LeafRoundTrip(s, i, j, e, c);
    case Expr(_, _, _) =>
      GroupRoundTrip(s, j, e, t);
      UnitGroupStep(s, i, j);
  }

  lemma {:induction false} GroupRoundTrip(s: string, j: nat, e: nat, t: Req)
    requires Renderable(t) && t.Expr? && At(s, j, RenderUnit(t)) && e == j + |RenderUnit(t)|
    ensures Keyword(s, j, "LPAREN") == Matched(j + 6) && GroupAt(s, j + 6) == Parsed(t, e)
    decreases t, if t.op == OR then 4 else 2
  {
    var m := j + 7 + |RenderExpr(t)|;
    GroupLayout(s, j, RenderUnit(t), RenderExpr(t), m, e);
    ExprRoundTrip(s, j + 6, j + 7, m, t);
    GroupStep(s, j + 6, t, SkipWs(s, m), e);
  }

  lemma {:induction false} OrTermRoundTrip(s: string, i: nat, j: nat, e: nat, t: Req)
    requires Renderable(t) && i <= |s| && j == SkipWs(s, i)
    requires At(s, j, RenderOrTerm(t)) && e == j + |RenderOrTerm(t)|
    requires NoKeywordAt(s, e, "OR")
    ensures ParseOrTermAt(s, i) == Parsed(t, SkipWs(s, e))
    decreases t, if t.Unit? then 2 else if t.op == AND then 4 else 1
  {
    if t.Expr? && t.op == OR {
      OrNodeRoundTrip(s, i, j, e, t);
    } else {
      UnitRoundTrip(s, i, j, e, t);
      KeywordAbsent(s, e, "OR");
      OrEnd(s, i, t, e);
    }
  }

  /** The layout of an OR node's rendering, in the terms the round trip
      of its two parts needs. */
  lemma {:induction false} OrNodeLayout(s: string, j: nat, e: nat, t: Req, p: nat, q: nat)
    requires Renderable(t) && t.Expr? && t.op == OR
    requires At(s, j, RenderOrTerm(t)) && e == j + |RenderOrTerm(t)|
    requires p == j + |RenderUnit(t.left)| && q == p + 3
    ensures Renderable(t.left) && Renderable(t.right)
    ensures At(s, j, RenderUnit(t.left))
    ensures Keyword(s, SkipWs(s, p), "OR") == Matched(q)
    ensures SkipWs(s, q) == q + 1 && At(s, q + 1, RenderOrTerm(t.right))
    ensures e == q + 1 + |RenderOrTerm(t.right)|
  {
    SpacedLayout(s, j, RenderOrTerm(t), RenderUnit(t.left), " OR ", "OR", RenderOrTerm(t.right), p, q, e);
  }

  lemma {:induction false} OrNodeRoundTrip(s: string, i: nat, j: nat, e: nat, t: Req)
    requires Renderable(t) && t.Expr? && t.op == OR && i <= |s| && j == SkipWs(s, i)
    requires At(s, j, RenderOrTerm(t)) && e == j + |RenderOrTerm(t)|
    requires NoKeywordAt(s, e, "OR")
    ensures ParseOrTermAt(s, i) == Parsed(t, SkipWs(s, e))
    decreases t, 0
  {
    var p := j + |RenderUnit(t.left)|;
    var q := p + 3;
    OrNodeLayout(s, j, e, t, p, q);
    UnitRoundTrip(s, i, j, p, t.left);
    OrTermRoundTrip(s, q, q + 1, e, t.right);
    OrStep(s, i, t.left, p, q, t.right, SkipWs(s, e));
  }

  lemma {:induction false} ExprRoundTrip(s: string, i: nat, j: nat, e: nat, t: Req)
    requires Renderable(t) && i <= |s| && j == SkipWs(s, i)
    requires At(s, j, RenderExpr(t)) && e == j + |RenderExpr(t)|
    requires NoKeywordAt(s, e, "OR") && NoKeywordAt(s, e, "AND")
    ensures ParseExprAt(s, i) == Parsed(t, SkipWs(s, e))
    decreases t, if t.Unit? then 4 else if t.op == OR then 3 else 1
  {
    if t.Expr? && t.op == AND {
      AndNodeRoundTrip(s, i, j, e, t);
    } else {
      OrTermRoundTrip(s, i, j, e, t);
      var m := SkipWs(s, e);
      SkipWsIdempotent(s, e);
      KeywordAbsent(s, m, "AND");
      AndEnd(s, i, t, m);
    }
  }

  /** The layout of an AND node's rendering, in the terms the round trip
      of its two parts needs. */
  lemma {:induction false} AndNodeLayout(s: string, j: nat, e: nat, t: Req, p: nat, q: nat)
    requires Renderable(t) && t.Expr? && t.op == AND
    requires At(s, j, RenderExpr(t)) && e == j + |RenderExpr(t)|
    requires p == j + |RenderOrTerm(t.left)| && q == p + 4
    ensures Renderable(t.left) && Renderable(t.right)
    ensures At(s, j, RenderOrTerm(t.left)) && NoKeywordAt(s, p, "OR")
    ensures Keyword(s, SkipWs(s, SkipWs(s, p)), "AND") == Matched(q)
    ensures SkipWs(s, q) == q + 1 && At(s, q + 1, RenderExpr(t.right))
    ensures e == q + 1 + |RenderExpr(t.right)|
  {
    SpacedLayout(s, j, RenderExpr(t), RenderOrTerm(t.left), " AND ", "AND", RenderExpr(t.right), p, q, e);
    KeywordMismatch(s, p, "OR");
  }

  lemma {:induction false} AndNodeRoundTrip(s: string, i: nat, j: nat, e: nat, t: Req)
    requires Renderable(t) && t.Expr? && t.op == AND && i <= |s| && j == SkipWs(s, i)
    requires At(s, j, RenderExpr(t)) && e == j + |RenderExpr(t)|
    requires NoKeywordAt(s, e, "OR") && NoKeywordAt(s, e, "AND")
    ensures ParseExprAt(s, i) == Parsed(t, SkipWs(s, e))
    decreases t, 0
  {
    var p := j + |RenderOrTerm(t.left)|;
    var q := p + 4;
    AndNodeLayout(s, j, e, t, p, q);
    OrTermRoundTrip(s, i, j, p, t.left);
    ExprRoundTrip(s, q, q + 1, e, t.right);
    AndStep(s, i, t.left, SkipWs(s, p), q, t.right, SkipWs(s, e));
  }

  /** Parsing the rendering of a tree gives the tree back. */
  lemma {:induction false} ParseRendered(t: Req)
    requires Renderable(t)
    ensures ParseTokenString(RenderExpr(t)) == Success(Some(t))
  {
    var r := RenderExpr(t);
    TrimmedIsFixed(r);
    assert r[0..|r|] == r;
    ExprRoundTrip(r, 0, 0, |r|, t);
  }

  /** OR binds tighter than AND: `a OR b AND c` is `(a OR b) AND c`. */
  lemma {:induction false} OrBindsTighter(a: Req, b: Req, c: Req)
    requires a.Unit? && b.Unit? && c.Unit? && Renderable(a) && Renderable(b) && Renderable(c)
    ensures ParseTokenString(RenderUnit(a) + " OR " + RenderUnit(b) + " AND " + RenderUnit(c))
         == Success(Some(Expr(AND, Expr(OR, a, b), c)))
  {
    var t := Expr(AND, Expr(OR, a, b), c);
    assert RenderOrTerm(b) == RenderUnit(b) && RenderExpr(c) == RenderUnit(c);
    assert RenderOrTerm(t.left) == RenderUnit(a) + " OR " + RenderUnit(b);
    ParseRendered(t);
  }

  lemma {:induction false} RegroupRight(w: string, x: string, y: string, z: string)
    ensures w + (x + y + z) == w + x + y + z
  {
  }

  /** AND chains nest to the right: `a AND b AND c` is `a AND (b AND c)`. */
  lemma {:induction false} AndNestsRight(a: Req, b: Req, c: Req)
    requires a.Unit? && b.Unit? && c.Unit? && Renderable(a) && Renderable(b) && Renderable(c)
    ensures ParseTokenString(RenderUnit(a) + " AND " + RenderUnit(b) + " AND " + RenderUnit(c))
         == Success(Some(Expr(AND, a, Expr(AND, b, c))))
  {
    var t := Expr(AND, a, Expr(AND, b, c));
    assert RenderOrTerm(a) == RenderUnit(a) && RenderOrTerm(b) == RenderUnit(b);
    assert RenderExpr(c) == RenderUnit(c);
    assert RenderExpr(t.right) == RenderUnit(b) + " AND " + RenderUnit(c);
    assert RenderExpr(t) == RenderUnit(a) + " AND " + (RenderUnit(b) + " AND " + RenderUnit(c));
    RegroupRight(RenderUnit(a) + " AND ", RenderUnit(b), " AND ", RenderUnit(c));
    ParseRendered(t);
  }

  /** Whatever follows a complete expression is not looked at: a stray
      RPAREN after it changes nothing. */
  lemma {:induction false} TrailingTextIgnored(t: Req)
    requires Renderable(t)
    ensures ParseTokenString(RenderExpr(t) + " RPAREN") == Success(Some(t))
  {
    var r := RenderExpr(t);
    var s := r + " RPAREN";
    TrimmedIsFixed(s);
    assert s[0..|r|] == r;
    AtSplit(s, |r|, " ", "RPAREN");
    assert s[|r|..|s|] == " RPAREN";
    AtFirst(s, |r|, " ");
    AtFirst(s, |r| + 1, "RPAREN");
    SkipOneSpace(s, |r|);
    KeywordMismatch(s, |r|, "OR");
    KeywordMismatch(s, |r|, "AND");
    ExprRoundTrip(s, 0, 0, |r|, t);
  }

  // Failures, and how they propagate out of the parse functions.

  lemma {:induction false} UnitFails(s: string, i: nat, err: ParseError)
    requires i <= |s| + 1 && ParseUnitAt(s, i) == Failed(err)
    ensures ParseExprAt(s, i) == Failed(err)
  {
    assert ParseOrTermAt(s, i) == Failed(err);
  }

  lemma {:induction false} OrOverrun(s: string, i: nat, l: Req, m: nat)
    requires i <= |s| + 1 && ParseUnitAt(s, i) == Parsed(l, m) && m > |s|
    ensures ParseExprAt(s, i) == Failed(PastEnd(m))
  {
    assert ParseOrTermAt(s, i) == Failed(PastEnd(m));
  }

  lemma {:induction false} GroupUnclosed(s: string, k: nat, t: Req, m: nat)
    requires k <= |s| + 1 && ParseExprAt(s, k) == Parsed(t, m)
    requires Keyword(s, SkipWs(s, m), "RPAREN") == NotMatched(SkipWs(s, m))
    ensures GroupAt(s, k) == Failed(MissingRParen(SkipWs(s, m)))
  {
  }

  /** The scan runs to the end of the input when no `)` follows. */
  lemma {:induction false} CloseParenNone(s: string, p: nat, depth: nat)
    requires p <= |s| && depth > 0
    requires forall k :: p <= k < |s| ==> s[k] != ')'
    ensures CloseParen(s, p, depth) == |s|
    decreases |s| - p
  {
    if p < |s| {
      var d := if s[p] == '(' then depth + 1 else depth;
      CloseParenNone(s, p + 1, d);
    }
  }

  lemma {:induction false} UnclosedLayout(s: string, r: string, n: nat)
    requires s == "LPAREN " + r && Framed(r) && n == |s|
    ensures SkipWs(s, 0) == 0 && Keyword(s, 0, "LPAREN") == Matched(6)
    ensures SkipWs(s, 6) == 7 && At(s, 7, r) && n == 7 + |r|
    ensures NoKeywordAt(s, n, "OR") && NoKeywordAt(s, n, "AND")
    ensures Keyword(s, SkipWs(s, n), "RPAREN") == NotMatched(SkipWs(s, n))
  {
    assert s[0..n] == s;
    AtSplit(s, 0, "LPAREN ", r);
    AtSplit(s, 0, "LPAREN", " ");
    KeywordAt(s, 0, "LPAREN");
    AtFirst(s, 6, " ");
    AtFirst(s, 7, r);
    SkipOneSpace(s, 6);
  }

  /** A group that is never closed: the error names the end of the input,
      where RPAREN was due. */
  lemma {:induction false} UnclosedGroup(t: Req)
    requires Renderable(t)
    ensures ParseTokenString("LPAREN " + RenderExpr(t)) == Failure(MissingRParen(|RenderExpr(t)| + 7))
  {
    var r := RenderExpr(t);
    var s := "LPAREN " + r;
    var n := |s|;
    TrimmedIsFixed(s);
    UnclosedLayout(s, r, n);
    ExprRoundTrip(s, 6, 7, n, t);
    GroupUnclosed(s, 6, t, n);
    UnitFails(s, 0, MissingRParen(n));
  }

  /** A `COURSE(` that is never closed: the scan runs to the end, the
      cursor passes it, and the next keyword match is out of bounds. */
  lemma {:induction false} UnterminatedCourse(c: string)
    requires forall k :: 0 <= k < |c| ==> c[k] != ')'
    requires c == [] || !IsTrimmable(c[|c| - 1])
    ensures ParseTokenString("COURSE(" + c) == Failure(PastEnd(|c| + 8))
  {
    var s := "COURSE(" + c;
    var n := |s|;
    TrimmedIsFixed(s);
    assert s[0..n] == s;
    AtSplit(s, 0, "COURSE(", c);
    KeywordAt(s, 0, "COURSE(");
    KeywordMissing(s, 0, "LPAREN");
    UnitCourseStep(s, 0, 0);
    forall k | 7 <= k < n
      ensures s[k] != ')'
    {
      assert s[k] == c[k - 7];
    }
    CloseParenNone(s, 7, 1);
    CourseStep(s, 0, 7, n);
    OrOverrun(s, 0, NewUnit(Trim(s[7..n])), n + 1);
  }

  /** Input that starts with neither LPAREN nor `COURSE(` is rejected at
      its first position. */
  lemma {:induction false} NoUnitAtStart(tokenString: string)
    requires Trim(tokenString) != [] && !IsJavaWhitespace(Trim(tokenString)[0])
    requires !StartsWith(Trim(tokenString), "LPAREN") && !StartsWith(Trim(tokenString), "COURSE(")
    ensures ParseTokenString(tokenString) == Failure(ExpectedUnit(0))
  {
    var s := Trim(tokenString);
    assert s[0..] == s;
    assert Keyword(s, 0, "LPAREN") == NotMatched(0);
    UnitCourseStep(s, 0, 0);
    UnitFails(s, 0, ExpectedUnit(0));
  }
}
