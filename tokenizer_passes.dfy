/** The list passes of the tokenizer (src/main/java/Tokenizer.java) that
    run between the scanner and the parser: orphaned parentheses are
    dropped, an alternative of instructor permission is made to bypass
    everything before it, ambiguous commas become AND or OR, and operators
    left dangling are removed. Each pass is a loop over the token list,
    proved to compute the function beside it. */
module TokenizerPasses {
  import opened Wrappers
  import opened Text
  import opened Tokens

  /** The tokens of `s` whose type is in `types`, in order. */
  function Only(s: seq<Token>, types: set<TokenType>): (r: seq<Token>)
    ensures |r| <= |s|
  {
    if s == [] then []
    else Only(s[..|s| - 1], types) + if s[|s| - 1].tokenType in types then [s[|s| - 1]] else []
  }

  /** No token of `s` has a type in `types`. */
  predicate NoneOf(s: seq<Token>, types: set<TokenType>) {
    forall k :: 0 <= k < |s| ==> s[k].tokenType !in types
  }

  /** Every token of `s` has a type in `types`. */
  predicate AllOf(s: seq<Token>, types: set<TokenType>) {
    forall k :: 0 <= k < |s| ==> s[k].tokenType in types
  }

  lemma {:induction false} OnlyAppend(a: seq<Token>, b: seq<Token>, types: set<TokenType>)
    ensures Only(a + b, types) == Only(a, types) + Only(b, types)
    decreases |b|
  {
    if b == [] {
      assert a + b == a;
    } else {
      var b' := b[..|b| - 1];
      assert (a + b)[..|a + b| - 1] == a + b';
      OnlyAppend(a, b', types);
    }
  }

  lemma {:induction false} OnlyOne(x: Token, types: set<TokenType>)
    ensures Only([x], types) == if x.tokenType in types then [x] else []
  {
    assert [x][..0] == [];
  }

  // ---------------------------------------------------------------------
  // removeOrphanedParens

  /** An RPAREN right after an operator or an LPAREN, or an LPAREN right
      before an operator; neighbours are looked up in the input list. */
  predicate Orphaned(tokens: seq<Token>, i: nat)
    requires i < |tokens|
  {
    || (tokens[i].tokenType == RPAREN && i > 0 &&
        (IsOperator(tokens[i - 1].tokenType) || tokens[i - 1].tokenType == LPAREN))
    || (tokens[i].tokenType == LPAREN && i + 1 < |tokens| && IsOperator(tokens[i + 1].tokenType))
  }

  /** The first `n` tokens without the orphaned ones. */
  function OrphansRemoved(tokens: seq<Token>, n: nat): (r: seq<Token>)
    requires n <= |tokens|
    ensures |r| <= n
  {
    if n == 0 then []
    else OrphansRemoved(tokens, n - 1) + if Orphaned(tokens, n - 1) then [] else [tokens[n - 1]]
  }

  method RemoveOrphanedParens(tokens: seq<Token>) returns (result: seq<Token>)
    ensures result == OrphansRemoved(tokens, |tokens|)
  {
    result := [];
    for i := 0 to |tokens|
      invariant result == OrphansRemoved(tokens, i)
    {
      var tok := tokens[i];
      if tok.tokenType == RPAREN && i > 0 {
        var prev := tokens[i - 1].tokenType;
        if prev == OR || prev == AND || prev == LPAREN {
          continue;
        }
      }
      if tok.tokenType == LPAREN && i + 1 < |tokens| {
        var next := tokens[i + 1].tokenType;
        if next == OR || next == AND {
          continue;
        }
      }
      result := result + [tok];
    }
  }

  const ParenTypes: set<TokenType> := {LPAREN, RPAREN}

  lemma {:induction false} OnlyPrefixStep(tokens: seq<Token>, n: nat, types: set<TokenType>)
    requires 0 < n <= |tokens|
    ensures Only(tokens[..n], types)
         == Only(tokens[..n - 1], types) + if tokens[n - 1].tokenType in types then [tokens[n - 1]] else []
  {
    assert tokens[..n][..n - 1] == tokens[..n - 1];
  }

  /** A list without parentheses is left as it is. */
  lemma {:induction false} OrphansRemovedNoParens(tokens: seq<Token>, n: nat)
    requires n <= |tokens| && NoneOf(tokens, ParenTypes)
    ensures OrphansRemoved(tokens, n) == tokens[..n]
  {
    if n > 0 {
      OrphansRemovedNoParens(tokens, n - 1);
      assert tokens[..n] == tokens[..n - 1] + [tokens[n - 1]];
    }
  }

  lemma {:induction false} NoParensUnchanged(tokens: seq<Token>)
    requires NoneOf(tokens, ParenTypes)
    ensures OrphansRemoved(tokens, |tokens|) == tokens
  {
    OrphansRemovedNoParens(tokens, |tokens|);
    assert tokens[..|tokens|] == tokens;
  }

  /** Only parentheses are removed: every other token survives, in order. */
  lemma {:induction false} OrphanRemovalKeepsOthers(tokens: seq<Token>, n: nat, types: set<TokenType>)
    requires n <= |tokens|
    requires LPAREN !in types && RPAREN !in types
    ensures Only(OrphansRemoved(tokens, n), types) == Only(tokens[..n], types)
  {
    if n > 0 {
      var x := tokens[n - 1];
      var before := OrphansRemoved(tokens, n - 1);
      var kept := if Orphaned(tokens, n - 1) then [] else [x];
      OrphanRemovalKeepsOthers(tokens, n - 1, types);
      OnlyAppend(before, kept, types);
      OnlyPrefixStep(tokens, n, types);
      OnlyOne(x, types);
      assert Only([], types) == [];
    }
  }

  /** The last token is kept when it is not a parenthesis (the EOF the
      scanner appends, in particular). */
  lemma {:induction false} OrphanRemovalKeepsLast(tokens: seq<Token>)
    requires tokens != [] && tokens[|tokens| - 1].tokenType !in ParenTypes
    ensures OrphansRemoved(tokens, |tokens|) != []
    ensures OrphansRemoved(tokens, |tokens|)[|OrphansRemoved(tokens, |tokens|)| - 1] == tokens[|tokens| - 1]
  {
  }

  // ---------------------------------------------------------------------
  // wrapBeforeOrPermission

  /** An OR followed by a COURSE token whose literal begins, in lower case,
      with "permission". */
  predicate OrPermissionAt(tokens: seq<Token>, i: nat)
    requires i + 1 < |tokens|
  {
    && tokens[i].tokenType == OR
    && tokens[i + 1].tokenType == COURSE
    && tokens[i + 1].literal.Some?
    && StartsWith(ToLower(tokens[i + 1].literal.value), "permission")
  }

  /** The first OR-permission position at or after `from`. */
  function FirstOrPermission(tokens: seq<Token>, from: nat): (r: Option<nat>)
    ensures r.Some? ==> from <= r.value && r.value + 1 < |tokens| && OrPermissionAt(tokens, r.value)
    ensures r.Some? ==> forall j :: from <= j < r.value ==> !OrPermissionAt(tokens, j)
    ensures r.None? ==> forall j :: from <= j && j + 1 < |tokens| ==> !OrPermissionAt(tokens, j)
    decreases |tokens| - from
  {
    if from + 1 >= |tokens| then None
    else if OrPermissionAt(tokens, from) then Some(from)
    else FirstOrPermission(tokens, from + 1)
  }

  /** The list without its trailing COMMA tokens. */
  function StripTrailingCommas(s: seq<Token>): (r: seq<Token>)
    ensures |r| <= |s| && r == s[..|r|]
    ensures r == [] || r[|r| - 1].tokenType != COMMA
    ensures forall k :: |r| <= k < |s| ==> s[k].tokenType == COMMA
  {
    if s != [] && s[|s| - 1].tokenType == COMMA then StripTrailingCommas(s[..|s| - 1]) else s
  }

  /** Everything before the first OR-permission, without trailing commas,
      in parentheses (nothing when it is empty), then the rest unchanged. */
  function PermissionWrapped(tokens: seq<Token>): seq<Token> {
    match FirstOrPermission(tokens, 0)
    case None => tokens
    case Some(i) =>
      var content := StripTrailingCommas(tokens[..i]);
      (if content == [] then [] else [Bare(LPAREN)] + content + [Bare(RPAREN)]) + tokens[i..]
  }

  /** The search loop of `wrapBeforeOrPermission`: the index of the first
      OR-permission, or -1. */
  method FindOrPermission(tokens: seq<Token>) returns (index: int)
    ensures index == -1 <==> FirstOrPermission(tokens, 0).None?
    ensures index != -1 ==> FirstOrPermission(tokens, 0) == Some(index)
  {
    var i := 0;
    while i < |tokens| - 1
      invariant 0 <= i && (|tokens| > 0 ==> i <= |tokens| - 1)
      invariant FirstOrPermission(tokens, 0) == FirstOrPermission(tokens, i)
    {
      var tok, next := tokens[i], tokens[i + 1];
      if tok.tokenType == OR && next.tokenType == COURSE && next.literal != None
         && StartsWith(ToLower(next.literal.value), "permission") {
        return i;
      }
      i := i + 1;
    }
    return -1;
  }

  /** The loop that drops the trailing commas before the wrap. */
  method DropTrailingCommas(s: seq<Token>) returns (content: seq<Token>)
    ensures content == StripTrailingCommas(s)
  {
    content := s;
    while content != [] && content[|content| - 1].tokenType == COMMA
      invariant StripTrailingCommas(content) == StripTrailingCommas(s)
    {
      content := content[..|content| - 1];
    }
  }

  /** The loop that copies the tokens from `from` on after `front`. */
  method AppendFrom(front: seq<Token>, tokens: seq<Token>, from: nat) returns (result: seq<Token>)
    requires from <= |tokens|
    ensures result == front + tokens[from..]
  {
    result := front;
    for k := from to |tokens|
      invariant result == front + tokens[from..k]
    {
      assert tokens[from..k + 1] == tokens[from..k] + [tokens[k]];
      result := result + [tokens[k]];
    }
  }

  method WrapBeforeOrPermission(tokens: seq<Token>) returns (result: seq<Token>)
    ensures result == PermissionWrapped(tokens)
  {
    var index := FindOrPermission(tokens);
    if index == -1 {
      return tokens;
    }
    var content := DropTrailingCommas(tokens[..index]);
    result := [];
    if content != [] {
      result := [Bare(LPAREN)] + content + [Bare(RPAREN)];
    }
    result := AppendFrom(result, tokens, index);
  }

  /** Without an OR-permission the list is returned as it is. */
  lemma {:induction false} NoPermissionNoWrap(tokens: seq<Token>)
    requires forall i :: 0 <= i && i + 1 < |tokens| ==> !OrPermissionAt(tokens, i)
    ensures PermissionWrapped(tokens) == tokens
  {
  }

  lemma {:induction false} FirstOrPermissionIs(tokens: seq<Token>, from: nat, p: nat)
    requires from <= p && p + 1 < |tokens| && OrPermissionAt(tokens, p)
    requires forall j :: from <= j < p ==> !OrPermissionAt(tokens, j)
    ensures FirstOrPermission(tokens, from) == Some(p)
    decreases p - from
  {
    if from < p {
      FirstOrPermissionIs(tokens, from + 1, p);
    }
  }

  /** The wrap adds no OR-permission of its own: the first one in the output
      is the same OR, now just after the closing parenthesis (or still at
      the front when nothing was wrapped). */
  lemma {:induction false} PermissionWrapKeepsTarget(tokens: seq<Token>, i: nat)
    requires FirstOrPermission(tokens, 0) == Some(i)
    ensures var content := StripTrailingCommas(tokens[..i]);
      FirstOrPermission(PermissionWrapped(tokens), 0) == Some(if content == [] then 0 else |content| + 2)
  {
    var content := StripTrailingCommas(tokens[..i]);
    var w := PermissionWrapped(tokens);
    var front := if content == [] then [] else [Bare(LPAREN)] + content + [Bare(RPAREN)];
    assert w == front + tokens[i..];
    var p := |front|;
    assert w[p] == tokens[i] && w[p + 1] == tokens[i + 1];
    forall j | 0 <= j < p
      ensures !OrPermissionAt(w, j)
    {
      if 1 <= j < |content| {
        assert w[j] == tokens[j - 1] && w[j + 1] == tokens[j];
        assert !OrPermissionAt(tokens, j - 1);
      }
    }
    FirstOrPermissionIs(w, 0, p);
  }
  // ---------------------------------------------------------------------
  // resolveCommas, flushBuffer, bufferContainsAnd

  /** The state of the comma pass: the tokens held back and the output. */
  datatype Commas = Commas(buffer: seq<Token>, result: seq<Token>)

  /** The buffer with every COMMA replaced by a bare `replacement` token. */
  function Flushed(buffer: seq<Token>, replacement: TokenType): (r: seq<Token>)
    ensures |r| == |buffer|
    ensures forall k :: 0 <= k < |r| ==>
      r[k] == if buffer[k].tokenType == COMMA then Bare(replacement) else buffer[k]
  {
    seq(|buffer|, k requires 0 <= k < |buffer| =>
      if buffer[k].tokenType == COMMA then Bare(replacement) else buffer[k])
  }

  /** One trailing COMMA removed, if there is one (an `if`, not a loop). */
  function DropTrailingComma(buffer: seq<Token>): seq<Token> {
    if buffer != [] && buffer[|buffer| - 1].tokenType == COMMA then buffer[..|buffer| - 1] else buffer
  }

  predicate HasAnd(buffer: seq<Token>) {
    exists k :: 0 <= k < |buffer| && buffer[k].tokenType == AND
  }

  /** What one input token does to the state. */
  function ResolveStep(st: Commas, tok: Token): Commas {
    match tok.tokenType
    case OR =>
      var b := DropTrailingComma(st.buffer);
      Commas([], st.result + Flushed(b, if HasAnd(b) then AND else OR) + [tok])
    case AND =>
      Commas([], st.result + Flushed(DropTrailingComma(st.buffer), AND) + [tok])
    case SLASH =>
      Commas([], st.result + Flushed(st.buffer, AND) + [Bare(OR)])
    case SEMICOLON =>
      Commas([], st.result + Flushed(st.buffer, AND) + [tok])
    case PERIOD =>
      Commas([], st.result + Flushed(DropTrailingComma(st.buffer), AND))
    case EOF =>
      Commas([], st.result + Flushed(DropTrailingComma(st.buffer), AND) + [tok])
    case _ =>
      Commas(st.buffer + [tok], st.result)
  }

  /** The state after the first `n` tokens. */
  function ResolveUpTo(tokens: seq<Token>, n: nat): Commas
    requires n <= |tokens|
  {
    if n == 0 then Commas([], []) else ResolveStep(ResolveUpTo(tokens, n - 1), tokens[n - 1])
  }

  /** The output queue; whatever is still buffered at the end is not in it. */
  function CommasResolved(tokens: seq<Token>): seq<Token> {
    ResolveUpTo(tokens, |tokens|).result
  }

  method BufferContainsAnd(buffer: seq<Token>) returns (r: bool)
    ensures r <==> exists k :: 0 <= k < |buffer| && buffer[k].tokenType == AND
  {
    for i := 0 to |buffer|
      invariant forall k :: 0 <= k < i ==> buffer[k].tokenType != AND
    {
      if buffer[i].tokenType == AND {
        return true;
      }
    }
    return false;
  }

  /** Appends the buffer to the output with its commas replaced, and
      empties the buffer. */
  method FlushBuffer(buffer: seq<Token>, result: seq<Token>, replacement: TokenType)
    returns (buffer': seq<Token>, result': seq<Token>)
    ensures buffer' == [] && result' == result + Flushed(buffer, replacement)
  {
    result' := result;
    for i := 0 to |buffer|
      invariant result' == result + Flushed(buffer[..i], replacement)
    {
      var t := buffer[i];
      assert buffer[..i + 1] == buffer[..i] + [t];
      if t.tokenType == COMMA {
        result' := result' + [Bare(replacement)];
      } else {
        result' := result' + [t];
      }
    }
    assert buffer[..|buffer|] == buffer;
    buffer' := [];
  }

  method ResolveCommas(rawTokens: seq<Token>) returns (result: seq<Token>)
    ensures result == CommasResolved(rawTokens)
  {
    result := [];
    var buffer: seq<Token> := [];
    for i := 0 to |rawTokens|
      invariant Commas(buffer, result) == ResolveUpTo(rawTokens, i)
    {
      var tok := rawTokens[i];
      match tok.tokenType {
        case OR =>
          if buffer != [] && buffer[|buffer| - 1].tokenType == COMMA {
            buffer := buffer[..|buffer| - 1];
          }
          var hasAnd := BufferContainsAnd(buffer);
          var replacement := if hasAnd then AND else OR;
          buffer, result := FlushBuffer(buffer, result, replacement);
          result := result + [tok];
        case AND =>
          if buffer != [] && buffer[|buffer| - 1].tokenType == COMMA {
            buffer := buffer[..|buffer| - 1];
          }
          buffer, result := FlushBuffer(buffer, result, AND);
          result := result + [tok];
        case SLASH =>
          buffer, result := FlushBuffer(buffer, result, AND);
          result := result + [Bare(OR)];
        case SEMICOLON =>
          buffer, result := FlushBuffer(buffer, result, AND);
          result := result + [tok];
        case PERIOD =>
          if buffer != [] && buffer[|buffer| - 1].tokenType == COMMA {
            buffer := buffer[..|buffer| - 1];
          }
          buffer, result := FlushBuffer(buffer, result, AND);
        case EOF =>
          if buffer != [] && buffer[|buffer| - 1].tokenType == COMMA {
            buffer := buffer[..|buffer| - 1];
          }
          buffer, result := FlushBuffer(buffer, result, AND);
          result := result + [tok];
        case _ =>
          buffer := buffer + [tok];
      }
    }
  }
  /** The token types that end up in the buffer: everything that is not
      handled by a case of its own. */
  const BufferTypes: set<TokenType> := {COURSE, COMMA, LPAREN, RPAREN}

  /** The types `resolveCommas` never emits. */
  const Resolved: set<TokenType> := {COMMA, SLASH, PERIOD}

  predicate Settled(st: Commas) {
    AllOf(st.buffer, BufferTypes) && NoneOf(st.result, Resolved)
  }

  lemma {:induction false} FlushSettled(st: Commas, b: seq<Token>, replacement: TokenType, tail: seq<Token>)
    requires Settled(st) && AllOf(b, BufferTypes)
    requires replacement in {AND, OR} && NoneOf(tail, Resolved)
    ensures NoneOf(st.result + Flushed(b, replacement) + tail, Resolved)
  {
    var f := Flushed(b, replacement);
    assert NoneOf(f, Resolved) by {
      forall k | 0 <= k < |f|
        ensures f[k].tokenType !in Resolved
      {
        assert b[k].tokenType in BufferTypes;
      }
    }
  }

  lemma {:induction false} StepSettled(st: Commas, tok: Token)
    requires Settled(st)
    ensures Settled(ResolveStep(st, tok))
  {
    var b := DropTrailingComma(st.buffer);
    assert AllOf(b, BufferTypes);
    match tok.tokenType
    case OR => FlushSettled(st, b, if HasAnd(b) then AND else OR, [tok]);
    case AND => FlushSettled(st, b, AND, [tok]);
    case SLASH => FlushSettled(st, st.buffer, AND, [Bare(OR)]);
    case SEMICOLON => FlushSettled(st, st.buffer, AND, [tok]);
    case PERIOD => FlushSettled(st, b, AND, []);
    case EOF => FlushSettled(st, b, AND, [tok]);
    case _ =>
  }

  /** Only COURSE, COMMA and parenthesis tokens are ever buffered (so never
      an AND), and no COMMA, SLASH or PERIOD is ever emitted. */
  lemma {:induction false} ResolveSettled(tokens: seq<Token>, n: nat)
    requires n <= |tokens|
    ensures Settled(ResolveUpTo(tokens, n))
  {
    if n > 0 {
      ResolveSettled(tokens, n - 1);
      StepSettled(ResolveUpTo(tokens, n - 1), tokens[n - 1]);
    }
  }

  /** `bufferContainsAnd` is always false where it is called, so an OR
      turns the buffered commas into OR. */
  lemma {:induction false} BufferNeverHasAnd(tokens: seq<Token>, n: nat)
    requires n <= |tokens|
    ensures !HasAnd(DropTrailingComma(ResolveUpTo(tokens, n).buffer))
  {
    ResolveSettled(tokens, n);
    var b := DropTrailingComma(ResolveUpTo(tokens, n).buffer);
    assert AllOf(b, BufferTypes);
  }

  /** The output holds no COMMA, SLASH or PERIOD token. */
  lemma {:induction false} CommasResolvedClean(tokens: seq<Token>)
    ensures NoneOf(CommasResolved(tokens), Resolved)
  {
    ResolveSettled(tokens, |tokens|);
  }
  lemma {:induction false} OnlyFlushed(b: seq<Token>, replacement: TokenType, types: set<TokenType>)
    requires COMMA !in types && replacement !in types
    ensures Only(Flushed(b, replacement), types) == Only(b, types)
    decreases |b|
  {
    if b != [] {
      var f := Flushed(b, replacement);
      assert f[..|f| - 1] == Flushed(b[..|b| - 1], replacement);
      OnlyFlushed(b[..|b| - 1], replacement, types);
    }
  }

  lemma {:induction false} OnlyThree(a: seq<Token>, b: seq<Token>, c: seq<Token>, types: set<TokenType>)
    ensures Only(a + b + c, types) == Only(a, types) + Only(b, types) + Only(c, types)
  {
    OnlyAppend(a + b, c, types);
    OnlyAppend(a, b, types);
  }

  lemma {:induction false} FlushKeepsOrder(result: seq<Token>, buffer: seq<Token>, b: seq<Token>,
                                           replacement: TokenType, emitted: seq<Token>, tok: Token,
                                           types: set<TokenType>)
    requires Only(b, types) == Only(buffer, types)
    requires COMMA !in types && replacement !in types
    requires Only(emitted, types) == Only([tok], types)
    ensures Only(result + Flushed(b, replacement) + emitted, types) + Only([], types)
         == Only(result, types) + Only(buffer, types) + Only([tok], types)
  {
    OnlyThree(result, Flushed(b, replacement), emitted, types);
    OnlyFlushed(b, replacement, types);
    assert Only([], types) == [];
  }

  /** One step moves kept tokens between buffer and output without losing
      or reordering any. */
  lemma {:induction false} StepKeepsOrder(st: Commas, tok: Token, types: set<TokenType>)
    requires COMMA !in types && AND !in types && OR !in types && SLASH !in types && PERIOD !in types
    ensures var st' := ResolveStep(st, tok);
      Only(st'.result, types) + Only(st'.buffer, types)
      == Only(st.result, types) + Only(st.buffer, types) + Only([tok], types)
  {
    var b := DropTrailingComma(st.buffer);
    assert Only(b, types) == Only(st.buffer, types);
    OnlyOne(tok, types);
    var t := tok.tokenType;
    if t in {OR, AND, SLASH, SEMICOLON, PERIOD, EOF} {
      var flushed := if t in {SLASH, SEMICOLON} then st.buffer else b;
      var replacement := if t == OR && HasAnd(b) then AND else if t == OR then OR else AND;
      var emitted := if t == SLASH then [Bare(OR)] else if t == PERIOD then [] else [tok];
      assert ResolveStep(st, tok) == Commas([], st.result + Flushed(flushed, replacement) + emitted);
      OnlyOne(Bare(OR), types);
      assert Only([], types) == [];
      FlushKeepsOrder(st.result, st.buffer, flushed, replacement, emitted, tok, types);
    } else {
      assert ResolveStep(st, tok) == Commas(st.buffer + [tok], st.result);
      OnlyAppend(st.buffer, [tok], types);
    }
  }

  /** Output then buffer hold the kept tokens of the input read so far, in
      input order. */
  lemma {:induction false} ResolveKeepsOrderUpTo(tokens: seq<Token>, n: nat, types: set<TokenType>)
    requires n <= |tokens| && COMMA !in types && AND !in types && OR !in types && SLASH !in types && PERIOD !in types
    ensures var st := ResolveUpTo(tokens, n);
      Only(st.result, types) + Only(st.buffer, types) == Only(tokens[..n], types)
  {
    if n == 0 {
      assert Only([], types) == [];
    } else {
      ResolveKeepsOrderUpTo(tokens, n - 1, types);
      StepKeepsOrder(ResolveUpTo(tokens, n - 1), tokens[n - 1], types);
      OnlyPrefixStep(tokens, n, types);
      OnlyOne(tokens[n - 1], types);
    }
  }

  /** On a list that ends with EOF, as the scanner's lists do, every token
      that is not a comma, an operator, a slash or a period comes out, in
      order. */
  lemma {:induction false} ResolveKeepsOrder(tokens: seq<Token>, types: set<TokenType>)
    requires tokens != [] && tokens[|tokens| - 1].tokenType == EOF
    requires COMMA !in types && AND !in types && OR !in types && SLASH !in types && PERIOD !in types
    ensures Only(CommasResolved(tokens), types) == Only(tokens, types)
  {
    ResolveKeepsOrderUpTo(tokens, |tokens|, types);
    assert ResolveUpTo(tokens, |tokens|).buffer == [];
    assert Only([], types) == [];
    assert tokens[..|tokens|] == tokens;
  }
  lemma {:induction false} FlushedNoComma(b: seq<Token>, replacement: TokenType)
    requires NoneOf(b, {COMMA})
    ensures Flushed(b, replacement) == b
  {
  }

  lemma {:induction false} CommaFreeStep(st: Commas, tok: Token)
    requires NoneOf(st.buffer, {COMMA}) && tok.tokenType !in {COMMA, SLASH}
    ensures var st' := ResolveStep(st, tok);
      && NoneOf(st'.buffer, {COMMA})
      && (tok.tokenType !in BufferTypes ==> st'.buffer == [])
      && st'.result + st'.buffer == st.result + st.buffer + if tok.tokenType == PERIOD then [] else [tok]
  {
    var t := tok.tokenType;
    if t in {OR, AND, SEMICOLON, PERIOD, EOF} {
      var b := DropTrailingComma(st.buffer);
      assert b == st.buffer;
      FlushedNoComma(b, if t == OR && HasAnd(b) then AND else if t == OR then OR else AND);
      var emitted := if t == PERIOD then [] else [tok];
      assert ResolveStep(st, tok) == Commas([], st.result + st.buffer + emitted);
    } else {
      assert ResolveStep(st, tok) == Commas(st.buffer + [tok], st.result);
    }
  }

  /** Over tokens without commas, slashes or periods the pass only holds
      tokens back: output then buffer is the input read so far. */
  lemma {:induction false} CommaFreeUpTo(tokens: seq<Token>, n: nat)
    requires n <= |tokens|
    requires forall k :: 0 <= k < n ==> tokens[k].tokenType !in {COMMA, SLASH, PERIOD}
    ensures var st := ResolveUpTo(tokens, n);
      NoneOf(st.buffer, {COMMA}) && st.result + st.buffer == tokens[..n]
  {
    if n > 0 {
      CommaFreeUpTo(tokens, n - 1);
      CommaFreeStep(ResolveUpTo(tokens, n - 1), tokens[n - 1]);
      assert tokens[..n] == tokens[..n - 1] + [tokens[n - 1]];
    }
  }

  /** A sentence without commas or slashes comes out of the comma pass
      with only its final period dropped. */
  lemma {:induction false} CommaFreeSentence(front: seq<Token>)
    requires NoneOf(front, {COMMA, SLASH, PERIOD})
    ensures CommasResolved(front + [Bare(PERIOD), Bare(EOF)]) == front + [Bare(EOF)]
  {
    var tokens := front + [Bare(PERIOD), Bare(EOF)];
    var n := |front|;
    CommaFreeUpTo(tokens, n);
    assert tokens[..n] == front;
    CommaFreeStep(ResolveUpTo(tokens, n), Bare(PERIOD));
    CommaFreeStep(ResolveUpTo(tokens, n + 1), Bare(EOF));
  }

  // ---------------------------------------------------------------------
  // removeDanglingOperators

  /** The types after which an operator is dangling. */
  const Closing: set<TokenType> := {EOF, PERIOD, OR, AND, RPAREN}

  /** An OR or AND that is last, or whose successor is EOF, PERIOD, OR, AND
      or RPAREN. */
  predicate Dangling(tokens: seq<Token>, i: nat)
    requires i < |tokens|
  {
    IsOperator(tokens[i].tokenType) && (i + 1 >= |tokens| || tokens[i + 1].tokenType in Closing)
  }

  /** The first `n` tokens without the dangling ones (judged in the input). */
  function DanglingRemoved(tokens: seq<Token>, n: nat): (r: seq<Token>)
    requires n <= |tokens|
    ensures |r| <= n
  {
    if n == 0 then []
    else DanglingRemoved(tokens, n - 1) + if Dangling(tokens, n - 1) then [] else [tokens[n - 1]]
  }

  method RemoveDanglingOperators(tokens: seq<Token>) returns (result: seq<Token>)
    ensures result == DanglingRemoved(tokens, |tokens|)
  {
    result := [];
    for i := 0 to |tokens|
      invariant result == DanglingRemoved(tokens, i)
    {
      var tok := tokens[i];
      if tok.tokenType == OR || tok.tokenType == AND {
        if i + 1 >= |tokens| {
          continue;
        }
        var next := tokens[i + 1].tokenType;
        if next == EOF || next == PERIOD || next == OR || next == AND || next == RPAREN {
          continue;
        }
      }
      result := result + [tok];
    }
  }

  /** No token of `s` is dangling. */
  predicate NoDangling(s: seq<Token>) {
    forall i :: 0 <= i < |s| ==> !Dangling(s, i)
  }

  /** The prefix result has no dangling token before its last one, and when
      its last one is an operator, that operator was kept because the next
      input token does not close. */
  lemma {:induction false} DanglingRemovedShape(tokens: seq<Token>, n: nat)
    requires n <= |tokens|
    ensures var r := DanglingRemoved(tokens, n);
      && (forall i :: 0 <= i < |r| - 1 ==> !Dangling(r, i))
      && (r != [] && IsOperator(r[|r| - 1].tokenType) ==>
            n < |tokens| && tokens[n].tokenType !in Closing)
  {
    if n > 0 {
      DanglingRemovedShape(tokens, n - 1);
      var before := DanglingRemoved(tokens, n - 1);
      var r := DanglingRemoved(tokens, n);
      if !Dangling(tokens, n - 1) {
        assert r == before + [tokens[n - 1]];
        forall i | 0 <= i < |r| - 1
          ensures !Dangling(r, i)
        {
          if i < |before| - 1 {
            assert !Dangling(before, i);
            assert r[i] == before[i] && r[i + 1] == before[i + 1];
          } else {
            assert r[i] == before[|before| - 1] && r[i + 1] == tokens[n - 1];
          }
        }
      } else {
        assert r == before;
      }
    }
  }

  /** No dangling operator remains. */
  lemma {:induction false} DanglingRemovedIsClean(tokens: seq<Token>)
    ensures NoDangling(DanglingRemoved(tokens, |tokens|))
  {
    DanglingRemovedShape(tokens, |tokens|);
  }

  /** On a list without dangling operators the pass keeps every token. */
  lemma {:induction false} DanglingRemovedKeepsClean(tokens: seq<Token>, n: nat)
    requires n <= |tokens| && NoDangling(tokens)
    ensures DanglingRemoved(tokens, n) == tokens[..n]
  {
    if n > 0 {
      DanglingRemovedKeepsClean(tokens, n - 1);
      assert !Dangling(tokens, n - 1);
      assert tokens[..n] == tokens[..n - 1] + [tokens[n - 1]];
    }
  }

  lemma {:induction false} NoDanglingUnchanged(tokens: seq<Token>)
    requires NoDangling(tokens)
    ensures DanglingRemoved(tokens, |tokens|) == tokens
  {
    DanglingRemovedKeepsClean(tokens, |tokens|);
    assert tokens[..|tokens|] == tokens;
  }

  /** A second pass changes nothing. */
  lemma {:induction false} DanglingRemovalIdempotent(tokens: seq<Token>)
    ensures var r := DanglingRemoved(tokens, |tokens|); DanglingRemoved(r, |r|) == r
  {
    var r := DanglingRemoved(tokens, |tokens|);
    DanglingRemovedIsClean(tokens);
    DanglingRemovedKeepsClean(r, |r|);
    assert r[..|r|] == r;
  }

  /** Only operators are removed: every other token survives, in order. */
  lemma {:induction false} DanglingRemovalKeepsOthers(tokens: seq<Token>, n: nat, types: set<TokenType>)
    requires n <= |tokens|
    requires AND !in types && OR !in types
    ensures Only(DanglingRemoved(tokens, n), types) == Only(tokens[..n], types)
  {
    if n > 0 {
      var x := tokens[n - 1];
      var before := DanglingRemoved(tokens, n - 1);
      DanglingRemovalKeepsOthers(tokens, n - 1, types);
      OnlyPrefixStep(tokens, n, types);
      if Dangling(tokens, n - 1) {
        assert before + [] == before;
        assert x.tokenType !in types;
      } else {
        OnlyAppend(before, [x], types);
        OnlyOne(x, types);
      }
    }
  }
  // ---------------------------------------------------------------------
  // validateTokenSequence

  /** The messages the validator returns, one constructor per message. */
  datatype Offence =
    | ConsecutiveOperators(pos: nat, curr: TokenType, next: TokenType)
    | ConsecutiveCourses(pos: nat)
    | StartsWithOperator(curr: TokenType)
    | ParenBeforeOperator(pos: nat)
    | OperatorBeforeParen(pos: nat)
    | EndsWithOperator(curr: TokenType)

  /** The checks on the pair at `i`, in the order the validator makes them. */
  function PairOffence(tokens: seq<Token>, i: nat): Option<Offence>
    requires i + 1 < |tokens|
  {
    var curr, next := tokens[i].tokenType, tokens[i + 1].tokenType;
    if IsOperator(curr) && IsOperator(next) then Some(ConsecutiveOperators(i, curr, next))
    else if curr == COURSE && next == COURSE then Some(ConsecutiveCourses(i))
    else if i == 0 && IsOperator(curr) then Some(StartsWithOperator(curr))
    else if curr == LPAREN && IsOperator(next) then Some(ParenBeforeOperator(i))
    else if IsOperator(curr) && next == RPAREN then Some(OperatorBeforeParen(i))
    else if IsOperator(curr) && next == EOF then Some(EndsWithOperator(curr))
    else None
  }

  /** The offence of the first offending pair at or after `from`. */
  function FirstOffence(tokens: seq<Token>, from: nat): (r: Option<Offence>)
    ensures r.None? <==> forall i :: from <= i && i + 1 < |tokens| ==> PairOffence(tokens, i).None?
    ensures r.Some? ==> exists i :: && from <= i && i + 1 < |tokens| && r == PairOffence(tokens, i)
                                    && forall j :: from <= j < i ==> PairOffence(tokens, j).None?
    decreases |tokens| - from
  {
    if from + 1 >= |tokens| then None
    else if PairOffence(tokens, from).Some? then PairOffence(tokens, from)
    else FirstOffence(tokens, from + 1)
  }

  method ValidateTokenSequence(tokens: seq<Token>) returns (r: Option<Offence>)
    ensures r == FirstOffence(tokens, 0)
  {
    var i := 0;
    while i + 1 < |tokens|
      invariant FirstOffence(tokens, 0) == FirstOffence(tokens, i)
    {
      var curr, next := tokens[i].tokenType, tokens[i + 1].tokenType;
      if (curr == OR || curr == AND) && (next == OR || next == AND) {
        return Some(ConsecutiveOperators(i, curr, next));
      }
      if curr == COURSE && next == COURSE {
        return Some(ConsecutiveCourses(i));
      }
      if i == 0 && (curr == OR || curr == AND) {
        return Some(StartsWithOperator(curr));
      }
      if curr == LPAREN && (next == OR || next == AND) {
        return Some(ParenBeforeOperator(i));
      }
      if (curr == OR || curr == AND) && next == RPAREN {
        return Some(OperatorBeforeParen(i));
      }
      if (curr == OR || curr == AND) && next == EOF {
        return Some(EndsWithOperator(curr));
      }
      i := i + 1;
    }
    return None;
  }

  /** The pair at `i` is neither two operators, two COURSE tokens, an
      LPAREN before an operator, nor an operator before RPAREN or EOF. */
  predicate PairAllowed(tokens: seq<Token>, i: nat)
    requires i + 1 < |tokens|
  {
    var curr, next := tokens[i].tokenType, tokens[i + 1].tokenType;
    && !(IsOperator(curr) && IsOperator(next))
    && !(curr == COURSE && next == COURSE)
    && !(curr == LPAREN && IsOperator(next))
    && !(IsOperator(curr) && next in {RPAREN, EOF})
  }

  /** The reading of a valid sequence: every adjacent pair is allowed, and
      there is no leading operator when there are at least two tokens. */
  predicate WellSequenced(tokens: seq<Token>) {
    && (forall i :: 0 <= i && i + 1 < |tokens| ==> PairAllowed(tokens, i))
    && (|tokens| >= 2 ==> !IsOperator(tokens[0].tokenType))
  }

  /** The validator accepts exactly the well-sequenced lists. */
  lemma {:induction false} ValidIffWellSequenced(tokens: seq<Token>)
    ensures FirstOffence(tokens, 0).None? <==> WellSequenced(tokens)
  {
    if FirstOffence(tokens, 0).None? {
      assert |tokens| >= 2 ==> PairOffence(tokens, 0).None?;
      forall i | 0 <= i && i + 1 < |tokens|
        ensures PairAllowed(tokens, i)
      {
        assert PairOffence(tokens, i).None?;
      }
    } else {
      var i :| 0 <= i && i + 1 < |tokens| && FirstOffence(tokens, 0) == PairOffence(tokens, i);
      if !(i == 0 && IsOperator(tokens[0].tokenType)) {
        assert !PairAllowed(tokens, i);
      }
    }
  }

  /** After `removeDanglingOperators` only three of the six offences can
      remain: two COURSE tokens in a row, a leading operator, or an LPAREN
      before an operator. */
  lemma {:induction false} CleanListOffences(tokens: seq<Token>)
    requires NoDangling(tokens)
    ensures FirstOffence(tokens, 0).Some? ==>
      FirstOffence(tokens, 0).value.ConsecutiveCourses? ||
      FirstOffence(tokens, 0).value.StartsWithOperator? ||
      FirstOffence(tokens, 0).value.ParenBeforeOperator?
  {
    if FirstOffence(tokens, 0).Some? {
      var i :| 0 <= i && i + 1 < |tokens| && FirstOffence(tokens, 0) == PairOffence(tokens, i);
      assert !Dangling(tokens, i);
    }
  }
  // ---------------------------------------------------------------------
  // tokenize: the passes in order, after the scan

  /** The passes `tokenize` applies to the scanned list, in its order. */
  function TokenizeScanned(raw: seq<Token>): seq<Token> {
    var cleaned := OrphansRemoved(raw, |raw|);
    var wrapped := PermissionWrapped(cleaned);
    var resolved := CommasResolved(wrapped);
    DanglingRemoved(resolved, |resolved|)
  }

  method Tokenize(raw: seq<Token>) returns (tokens: seq<Token>)
    ensures tokens == TokenizeScanned(raw)
  {
    var cleaned := RemoveOrphanedParens(raw);
    var wrapped := WrapBeforeOrPermission(cleaned);
    var resolved := ResolveCommas(wrapped);
    tokens := RemoveDanglingOperators(resolved);
  }

  lemma {:induction false} DanglingRemovedNoneOf(tokens: seq<Token>, n: nat, types: set<TokenType>)
    requires n <= |tokens| && NoneOf(tokens, types)
    ensures NoneOf(DanglingRemoved(tokens, n), types)
  {
    if n > 0 {
      DanglingRemovedNoneOf(tokens, n - 1, types);
    }
  }

  /** The list handed to the parser holds no COMMA, SLASH or PERIOD and no
      dangling operator. */
  lemma {:induction false} TokenizeClean(raw: seq<Token>)
    ensures NoneOf(TokenizeScanned(raw), Resolved)
    ensures NoDangling(TokenizeScanned(raw))
  {
    var wrapped := PermissionWrapped(OrphansRemoved(raw, |raw|));
    var resolved := CommasResolved(wrapped);
    CommasResolvedClean(wrapped);
    DanglingRemovedNoneOf(resolved, |resolved|, Resolved);
    DanglingRemovedIsClean(resolved);
  }
  /** The EOF the scanner appends is still last when the passes are done. */
  lemma {:induction false} TokenizeKeepsEof(raw: seq<Token>)
    requires raw != [] && raw[|raw| - 1].tokenType == EOF
    ensures var out := TokenizeScanned(raw); out != [] && out[|out| - 1] == raw[|raw| - 1]
  {
    var eof := raw[|raw| - 1];
    var cleaned := OrphansRemoved(raw, |raw|);
    OrphanRemovalKeepsLast(raw);
    var wrapped := PermissionWrapped(cleaned);
    assert wrapped != [] && wrapped[|wrapped| - 1] == eof by {
      if FirstOrPermission(cleaned, 0).Some? {
        var k := FirstOrPermission(cleaned, 0).value;
        var content := StripTrailingCommas(cleaned[..k]);
        var front := if content == [] then [] else [Bare(LPAREN)] + content + [Bare(RPAREN)];
        assert wrapped == front + cleaned[k..];
      }
    }
    var resolved := CommasResolved(wrapped);
    assert resolved != [] && resolved[|resolved| - 1] == eof;
    var out := DanglingRemoved(resolved, |resolved|);
    assert !Dangling(resolved, |resolved| - 1);
    assert out == DanglingRemoved(resolved, |resolved| - 1) + [eof];
  }

  // ---------------------------------------------------------------------
  // The passes on the scanned form of the tokenizer's documented examples

  /** A COURSE token; its literal does not matter to the comma pass. */
  predicate IsCourse(t: Token) {
    t.tokenType == COURSE
  }

  /** Two courses around a comma are only buffered. */
  lemma CourseCommaCourseBuffered(raw: seq<Token>, a: Token, b: Token)
    requires |raw| >= 3 && raw[0] == a && raw[1] == Bare(COMMA) && raw[2] == b
    requires IsCourse(a) && IsCourse(b)
    ensures ResolveUpTo(raw, 3) == Commas([a, Bare(COMMA), b], [])
  {
    assert ResolveUpTo(raw, 1) == Commas([a], []);
    assert ResolveUpTo(raw, 2) == Commas([a, Bare(COMMA)], []);
  }

  /** "ECON 1110, MATH 1110.": the comma flushed at the period becomes AND. */
  lemma CommaBeforePeriodIsAnd(a: Token, b: Token)
    requires IsCourse(a) && IsCourse(b)
    ensures CommasResolved([a, Bare(COMMA), b, Bare(PERIOD), Bare(EOF)]) == [a, Bare(AND), b, Bare(EOF)]
  {
    var raw := [a, Bare(COMMA), b, Bare(PERIOD), Bare(EOF)];
    CourseCommaCourseBuffered(raw, a, b);
    assert ResolveUpTo(raw, 4) == Commas([], [a, Bare(AND), b]) by {
      assert DropTrailingComma([a, Bare(COMMA), b]) == [a, Bare(COMMA), b];
      assert Flushed([a, Bare(COMMA), b], AND) == [a, Bare(AND), b];
    }
    assert Flushed([], AND) == [];
  }

  /** "AEM 2100, AEM 2210, or equivalents.": the comma right before OR is
      dropped and the other one, flushed by OR, becomes OR; the OR left
      before EOF is removed later as dangling. */
  lemma CommaBeforeOrIsOr(a: Token, b: Token)
    requires IsCourse(a) && IsCourse(b)
    ensures CommasResolved([a, Bare(COMMA), b, Bare(COMMA), Bare(OR), Bare(PERIOD), Bare(EOF)])
         == [a, Bare(OR), b, Bare(OR), Bare(EOF)]
  {
    var raw := [a, Bare(COMMA), b, Bare(COMMA), Bare(OR), Bare(PERIOD), Bare(EOF)];
    var buffer := [a, Bare(COMMA), b];
    CourseCommaCourseBuffered(raw, a, b);
    assert ResolveUpTo(raw, 4) == Commas(buffer + [Bare(COMMA)], []);
    assert ResolveUpTo(raw, 5) == Commas([], [a, Bare(OR), b, Bare(OR)]) by {
      assert DropTrailingComma(buffer + [Bare(COMMA)]) == buffer;
      assert !HasAnd(buffer);
      assert Flushed(buffer, OR) == [a, Bare(OR), b];
    }
    assert DropTrailingComma([]) == [] && Flushed([], AND) == [];
    assert ResolveUpTo(raw, 6) == Commas([], [a, Bare(OR), b, Bare(OR)]);
  }

  /** The OR the comma pass leaves before EOF in "AEM 2100, AEM 2210, or
      equivalents." is dangling and goes; the one between the courses
      stays. */
  lemma TrailingOrDropped(a: Token, b: Token)
    requires IsCourse(a) && IsCourse(b)
    ensures DanglingRemoved([a, Bare(OR), b, Bare(OR), Bare(EOF)], 5) == [a, Bare(OR), b, Bare(EOF)]
  {
    var s := [a, Bare(OR), b, Bare(OR), Bare(EOF)];
    assert DanglingRemoved(s, 3) == [a, Bare(OR), b] by {
      assert DanglingRemoved(s, 1) == [a];
      assert DanglingRemoved(s, 2) == [a, Bare(OR)];
    }
    assert Dangling(s, 3);
  }

  /** The prefix before "or permission" is parenthesised. */
  lemma WrapSingleCourse(a: Token, p: Token)
    requires IsCourse(a) && IsCourse(p) && p.literal.Some?
    requires StartsWith(ToLower(p.literal.value), "permission")
    ensures PermissionWrapped([a, Bare(OR), p, Bare(PERIOD), Bare(EOF)])
         == [Bare(LPAREN), a, Bare(RPAREN), Bare(OR), p, Bare(PERIOD), Bare(EOF)]
  {
    var raw := [a, Bare(OR), p, Bare(PERIOD), Bare(EOF)];
    assert OrPermissionAt(raw, 1);
    FirstOrPermissionIs(raw, 0, 1);
    assert raw[..1] == [a];
    assert StripTrailingCommas([a]) == [a];
    assert raw[1..] == [Bare(OR), p, Bare(PERIOD), Bare(EOF)];
  }
}
