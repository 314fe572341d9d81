/** The requirement tree: a leaf `Unit` (src/prereqsolver/Unit.java) or a
    binary `Expression` (src/main/java/Expression.java); the shared Java
    interface `Requirement` is the datatype itself. */
module Requirements {
  import opened Wrappers
  import opened Text
  import opened Tokens

  datatype Req =
    | Unit(content: string, autoPass: bool)
    | Expr(op: TokenType, left: Req, right: Req)

  /** The two-argument `Unit` constructor: the content is stored trimmed and
      upper-cased. */
  function NewUnitWithPass(content: string, autoPass: bool): (r: Req)
    ensures r.Unit? && r.autoPass == autoPass
    ensures r.content == Normalize(content) && Normalize(r.content) == r.content
  {
    NormalizeIdempotent(content);
    Unit(Normalize(content), autoPass)
  }

  /** The one-argument `Unit` constructor: never an automatic pass. */
  function NewUnit(content: string): (r: Req)
    ensures r == NewUnitWithPass(content, false) && !r.autoPass
  {
    NewUnitWithPass(content, false)
  }

  datatype ExprError = IllegalOperator(op: TokenType)

  /** The `Expression` constructor, which throws IllegalArgumentException for
      an operator other than AND and OR. */
  function NewExpression(op: TokenType, left: Req, right: Req): (r: Result<Req, ExprError>)
    ensures r.Success? <==> IsOperator(op)
    ensures r.Success? ==> r.value.Expr? && r.value.op == op && r.value.left == left && r.value.right == right
    ensures r.Failure? ==> r.error == IllegalOperator(op)
  {
    if op != AND && op != OR then Failure(IllegalOperator(op))
    else Success(Expr(op, left, right))
  }

  /** Every tree the constructors can build: operators are AND or OR and
      leaf contents are in normal form. */
  predicate WellFormed(req: Req) {
    match req
    case Unit(c, _) => Normalize(c) == c
    case Expr(op, l, r) => IsOperator(op) && WellFormed(l) && WellFormed(r)
  }

  /** `isSatisfied`, with the short-circuit steps the Java code takes: an OR
      whose left side holds and an AND whose left side fails return without
      evaluating the right side. */
  function IsSatisfied(req: Req, taken: set<string>): bool {
    match req
    case Unit(c, autoPass) =>
      if autoPass then true else c in taken
    case Expr(op, l, r) =>
      var leftSat := IsSatisfied(l, taken);
      if op == OR && leftSat then true
      else if op == AND && !leftSat then false
      else
        var rightSat := IsSatisfied(r, taken);
        if op == AND then leftSat && rightSat else leftSat || rightSat
  }

  /** The full boolean meaning of a tree, evaluating both sides of every node. */
  predicate Holds(req: Req, taken: set<string>) {
    match req
    case Unit(c, autoPass) => autoPass || c in taken
    case Expr(op, l, r) =>
      if op == AND then Holds(l, taken) && Holds(r, taken)
      else Holds(l, taken) || Holds(r, taken)
  }

  /** Short-circuiting never changes the answer. */
  lemma {:induction false} ShortCircuitAgrees(req: Req, taken: set<string>)
    ensures IsSatisfied(req, taken) == Holds(req, taken)
  {
    match req
    case Unit(_, _) =>
    case Expr(_, l, r) =>
      ShortCircuitAgrees(l, taken);
      ShortCircuitAgrees(r, taken);
  }

  /** The per-node truth table: a leaf holds when it passes automatically or
      is taken, AND needs both sides, OR needs one. */
  lemma SatisfiedCases(req: Req, taken: set<string>)
    requires WellFormed(req)
    ensures req.Unit? ==> (IsSatisfied(req, taken) <==> req.autoPass || req.content in taken)
    ensures req.Expr? && req.op == AND ==>
      (IsSatisfied(req, taken) <==> IsSatisfied(req.left, taken) && IsSatisfied(req.right, taken))
    ensures req.Expr? && req.op == OR ==>
      (IsSatisfied(req, taken) <==> IsSatisfied(req.left, taken) || IsSatisfied(req.right, taken))
  {
  }

  /** Taking more courses never un-satisfies a requirement. */
  lemma {:induction false} SatisfiedMonotone(req: Req, taken: set<string>, more: set<string>)
    requires taken <= more
    requires IsSatisfied(req, taken)
    ensures IsSatisfied(req, more)
  {
    ShortCircuitAgrees(req, taken);
    ShortCircuitAgrees(req, more);
    HoldsMonotone(req, taken, more);
  }

  lemma {:induction false} HoldsMonotone(req: Req, taken: set<string>, more: set<string>)
    requires taken <= more
    requires Holds(req, taken)
    ensures Holds(req, more)
  {
    match req
    case Unit(_, _) =>
    case Expr(op, l, r) =>
      if Holds(l, taken) { HoldsMonotone(l, taken, more); }
      if Holds(r, taken) { HoldsMonotone(r, taken, more); }
  }

  /** `toString`: a leaf prints its content, a node prints
      `(left OP right)`. */
  function ToString(req: Req): (r: string)
    ensures req.Unit? ==> r == req.content
    ensures req.Expr? ==> |r| >= 2 && r[0] == '(' && r[|r| - 1] == ')'
  {
    match req
    case Unit(c, _) => c
    case Expr(op, l, r) => "(" + ToString(l) + " " + TypeName(op) + " " + ToString(r) + ")"
  }

  /** The number of times `ch` occurs in `s`. */
  function Occurrences(s: string, ch: char): (r: nat)
    ensures r <= |s|
    ensures r == 0 <==> ch !in s
  {
    if s == [] then 0 else (if s[0] == ch then 1 else 0) + Occurrences(s[1..], ch)
  }

  lemma {:induction false} OccurrencesAppend(a: string, b: string, ch: char)
    ensures Occurrences(a + b, ch) == Occurrences(a, ch) + Occurrences(b, ch)
  {
    if a == [] {
      assert a + b == b;
    } else {
      assert (a + b)[1..] == a[1..] + b;
      OccurrencesAppend(a[1..], b, ch);
    }
  }

  /** A rendered node counts the characters of its two sides, its operator
      name, its two spaces and its two parentheses. */
  lemma NodeOccurrences(left: string, name: string, right: string, ch: char)
    ensures Occurrences("(" + left + " " + name + " " + right + ")", ch)
         == Occurrences("(", ch) + Occurrences(left, ch) + 2 * Occurrences(" ", ch)
            + Occurrences(name, ch) + Occurrences(right, ch) + Occurrences(")", ch)
  {
    OccurrencesAppend("(", left, ch);
    OccurrencesAppend("(" + left, " ", ch);
    OccurrencesAppend("(" + left + " ", name, ch);
    OccurrencesAppend("(" + left + " " + name, " ", ch);
    OccurrencesAppend("(" + left + " " + name + " ", right, ch);
    OccurrencesAppend("(" + left + " " + name + " " + right, ")", ch);
  }

  /** The rendering is fully parenthesised: when no leaf content holds a
      parenthesis, it has one `(` and one `)` for each AND/OR node, which
      is one pair fewer than it has leaves. */
  lemma {:induction false} RenderingParenthesised(req: Req)
    requires forall c :: c in Leaves(req) ==> '(' !in c && ')' !in c
    ensures 2 * Occurrences(ToString(req), '(') + 1 == NodeCount(req)
    ensures 2 * Occurrences(ToString(req), ')') + 1 == NodeCount(req)
  {
    match req
    case Unit(c, _) =>
    case Expr(op, l, r) =>
      RenderingParenthesised(l);
      RenderingParenthesised(r);
      var name := TypeName(op);
      assert '(' !in name && ')' !in name;
      NodeOccurrences(ToString(l), name, ToString(r), '(');
      NodeOccurrences(ToString(l), name, ToString(r), ')');
  }

  /** A leaf's `getContent` and `toString` both give the normalised
      content it was built from. */
  lemma UnitRendersContent(content: string, autoPass: bool)
    ensures var u := NewUnitWithPass(content, autoPass);
      u.content == Normalize(content) && ToString(u) == Normalize(content)
  {
  }

  /** Every leaf content of a tree (`extractAllFromReq` in
      src/prereqsolver/runtime/Plan.java). */
  function Leaves(req: Req): (r: set<string>)
    ensures req.Unit? ==> r == {req.content}
    ensures req.Expr? ==> Leaves(req.left) <= r && Leaves(req.right) <= r
  {
    match req
    case Unit(c, _) => {c}
    case Expr(_, l, r) => Leaves(l) + Leaves(r)
  }

  /** The number of nodes of a tree. */
  function NodeCount(req: Req): (r: nat)
    ensures req.Expr? ==> NodeCount(req.left) < r && NodeCount(req.right) < r
    ensures r >= 1
  {
    match req
    case Unit(_, _) => 1
    case Expr(_, l, r) => NodeCount(l) + NodeCount(r) + 1
  }

  /** Taking every leaf of a tree satisfies it. */
  lemma {:induction false} AllLeavesSatisfy(req: Req)
    ensures IsSatisfied(req, Leaves(req))
  {
    match req
    case Unit(_, _) =>
    case Expr(_, l, r) =>
      AllLeavesSatisfy(l);
      AllLeavesSatisfy(r);
      SatisfiedMonotone(l, Leaves(l), Leaves(req));
      SatisfiedMonotone(r, Leaves(r), Leaves(req));
  }
}
