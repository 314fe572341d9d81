/** Tokens of the prerequisite token language (src/prereqsolver/Token.java). */
module Tokens {
  import opened Wrappers

  /** The ten kinds of token. */
  datatype TokenType = COURSE | AND | OR | LPAREN | RPAREN | COMMA | SLASH | SEMICOLON | PERIOD | EOF

  /** The enum constant's name, which is what `toString` prints for it. */
  function TypeName(t: TokenType): (r: string)
    ensures r != [] && forall i :: 0 <= i < |r| ==> 'A' <= r[i] <= 'Z'
  {
    match t
    case COURSE => "COURSE"
    case AND => "AND"
    case OR => "OR"
    case LPAREN => "LPAREN"
    case RPAREN => "RPAREN"
    case COMMA => "COMMA"
    case SLASH => "SLASH"
    case SEMICOLON => "SEMICOLON"
    case PERIOD => "PERIOD"
    case EOF => "EOF"
  }

  predicate IsOperator(t: TokenType) {
    t == AND || t == OR
  }

  /** The immutable token record; a `null` literal is `None`. */
  datatype Token = Token(tokenType: TokenType, literal: Option<string>)

  /** The one-argument constructor `Token(type)`. */
  function Bare(t: TokenType): (r: Token)
    ensures r.tokenType == t && r.literal == None
  {
    Token(t, None)
  }

  /** `Token.toString`: `TYPE(literal)` when there is a literal, the bare
      type name otherwise. */
  function ToString(tok: Token): string {
    match tok.literal
    case Some(l) => TypeName(tok.tokenType) + "(" + l + ")"
    case None => TypeName(tok.tokenType)
  }

  lemma TypeNameInjective(a: TokenType, b: TokenType)
    requires TypeName(a) == TypeName(b)
    ensures a == b
  {
  }

  /** The rendering loses nothing: distinct tokens print differently, since
      no type name contains '(' and the name ends where the first '(' is. */
  lemma ToStringInjective(a: Token, b: Token)
    requires ToString(a) == ToString(b)
    ensures a == b
  {
    var na, nb := TypeName(a.tokenType), TypeName(b.tokenType);
    var s := ToString(a);
    if a.literal.Some? {
      assert s[|na|] == '(';
    }
    if b.literal.Some? {
      assert s[|nb|] == '(';
    }
    if a.literal.Some? && b.literal.Some? {
      assert na == s[..|na|] == nb;
      TypeNameInjective(a.tokenType, b.tokenType);
      assert a.literal.value == s[|na| + 1..|s| - 1] == b.literal.value;
    } else {
      TypeNameInjective(a.tokenType, b.tokenType);
    }
  }
}
