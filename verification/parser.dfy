/**
 * The Pratt parser. Parser state is the token stream, the index of the
 * current token (the peek token is the next one) and the error list; every
 * Go method that advances the parser becomes a function from one state to a
 * `Parsed` outcome. The token stream is the lexer's, read as EOF past its end.
 */
module Parser {
  import opened Wrappers
  import opened Token
  import Lexer
  import opened Ast
  import opened IntLiteral

  // Binding powers, lowest first.
  const LOWEST: nat := 1
  const EQUALS: nat := 2
  const LESSGREATER: nat := 3
  const SUM: nat := 4
  const PRODUCT: nat := 5
  const PREFIX: nat := 6
  const CALL: nat := 7

  /** The precedence table: the binding power of each infix operator kind. */
  function Precedences(k: TokenType): Option<nat>
  {
    match k
    case EQ => Some(EQUALS)
    case NOT_EQ => Some(EQUALS)
    case LT => Some(LESSGREATER)
    case GT => Some(LESSGREATER)
    case PLUS => Some(SUM)
    case MINUS => Some(SUM)
    case SLASH => Some(PRODUCT)
    case ASTERISK => Some(PRODUCT)
    case _ => None
  }

  /** The handlers a kind can start an expression with. */
  datatype PrefixParseFn =
    | ParseIdentifierFn | ParseIntegerLiteralFn | ParsePrefixExpressionFn
    | ParseBooleanFn | ParseGroupedExpressionFn | ParseIfExpressionFn

  /** The one handler for binary operators. */
  datatype InfixParseFn = ParseInfixExpressionFn

  /** The prefix registry, as `New` fills it. */
  function PrefixParseFns(k: TokenType): Option<PrefixParseFn>
  {
    match k
    case IDENT => Some(ParseIdentifierFn)
    case INT => Some(ParseIntegerLiteralFn)
    case BANG => Some(ParsePrefixExpressionFn)
    case MINUS => Some(ParsePrefixExpressionFn)
    case TRUE => Some(ParseBooleanFn)
    case FALSE => Some(ParseBooleanFn)
    case LPAREN => Some(ParseGroupedExpressionFn)
    case IF => Some(ParseIfExpressionFn)
    case _ => None
  }

  /** The infix registry, as `New` fills it. */
  function InfixParseFns(k: TokenType): Option<InfixParseFn>
  {
    if k in {PLUS, MINUS, SLASH, ASTERISK, EQ, NOT_EQ, LT, GT} then Some(ParseInfixExpressionFn)
    else None
  }

  /** The precedence table and the infix registry have the same keys, and every
      infix operator binds tighter than LOWEST and looser than PREFIX. */
  lemma PrecedenceKeysAreInfixKeys(k: TokenType)
    ensures Precedences(k).Some? <==> InfixParseFns(k).Some?
    ensures Precedences(k).Some? ==> LOWEST < Precedences(k).value < PREFIX
  {
  }

  datatype Parser = Parser(toks: seq<Token>, pos: nat, errors: seq<string>)

  /** A parser reading `toks` from the start, with no errors yet. */
  function New(toks: seq<Token>): Parser
  {
    Parser(toks, 0, [])
  }

  function CurToken(p: Parser): Token
  {
    Lexer.TokenAt(p.toks, p.pos)
  }

  function PeekToken(p: Parser): Token
  {
    Lexer.TokenAt(p.toks, p.pos + 1)
  }

  /** Go's `nextToken`: the peek token becomes the current one. */
  function Advance(p: Parser): Parser
  {
    p.(pos := p.pos + 1)
  }

  function PrecedenceOf(k: TokenType): nat
  {
    if Precedences(k).Some? then Precedences(k).value else LOWEST
  }

  function PeekPrecedence(p: Parser): nat
  {
    PrecedenceOf(PeekToken(p).kind)
  }

  function CurPrecedence(p: Parser): nat
  {
    PrecedenceOf(CurToken(p).kind)
  }

  function AddError(p: Parser, msg: string): Parser
  {
    p.(errors := p.errors + [msg])
  }

  function PeekErrorMessage(expected: TokenType, got: TokenType): string
  {
    "expected next token to be " + KindName(expected) + ", got " + KindName(got) + " instead"
  }

  function NoPrefixMessage(k: TokenType): string
  {
    "no prefix parse function for " + KindName(k) + " found"
  }

  /** Go's `%q` of a digit-run literal: the text between double quotes. */
  function Quote(s: string): string
  {
    "\"" + s + "\""
  }

  function IntegerErrorMessage(literal: string): string
  {
    "could not parse " + Quote(literal) + " as integer"
  }

  /** Requires the peek token to have kind `k`: on a match the parser advances
      one token and records nothing; otherwise it records exactly one error and
      stays where it is. */
  function ExpectPeek(p: Parser, k: TokenType): (r: (bool, Parser))
    ensures r.0 <==> PeekToken(p).kind == k
    ensures r.0 ==> r.1 == Advance(p) && CurToken(r.1).kind == k
    ensures !r.0 ==> r.1 == AddError(p, PeekErrorMessage(k, PeekToken(p).kind))
  {
    if PeekToken(p).kind == k then (true, Advance(p))
    else (false, AddError(p, PeekErrorMessage(k, PeekToken(p).kind)))
  }

  /** The outcome of a parsing step: a value and the state after it, or
      `Hangs` when the step never returns (the skip loop of `let` and `return`
      statements runs forever if no `;` follows). */
  datatype Parsed<+T> = Parsed(value: T, p: Parser) | Hangs

  /** A step only moves forward over the same tokens and only appends errors. */
  predicate Follows<T>(p: Parser, r: Parsed<T>)
  {
    r.Parsed? ==> r.p.toks == p.toks && p.pos <= r.p.pos && p.errors <= r.p.errors
  }

  /** The index of the first `;` at or after `from`, if any. */
  function FirstSemicolon(toks: seq<Token>, from: nat): (r: Option<nat>)
    ensures r.Some? ==> from <= r.value < |toks| && toks[r.value].kind == SEMICOLON
    ensures forall j | from <= j < |toks| && (r.Some? ==> j < r.value) :: toks[j].kind != SEMICOLON
    decreases |toks| - from
  {
    if from >= |toks| then None
    else if toks[from].kind == SEMICOLON then Some(from)
    else FirstSemicolon(toks, from + 1)
  }

  /** Every `let` and `return` token has a `;` somewhere after it: enough for
      every skip loop to stop. */
  predicate SemicolonAfterSkips(toks: seq<Token>)
  {
    forall i | 0 <= i < |toks| && toks[i].kind in {LET, RETURN} :: FirstSemicolon(toks, i).Some?
  }

  /** Go's `for !curTokenIs(SEMICOLON) { nextToken() }`: `None` when the loop
      never stops. */
  function SkipToSemicolon(p: Parser): (r: Option<Parser>)
    ensures r.Some? ==> r.value.toks == p.toks && r.value.errors == p.errors
                        && p.pos <= r.value.pos && CurToken(r.value).kind == SEMICOLON
    ensures r.Some? ==> r.value.pos == FirstSemicolon(p.toks, p.pos).value
    ensures r.None? <==> FirstSemicolon(p.toks, p.pos).None?
  {
    match FirstSemicolon(p.toks, p.pos)
    case None => None
    case Some(j) => Some(p.(pos := j))
  }

  /** Tokens left before the end of the stream. */
  function Remaining(toks: seq<Token>, pos: nat): nat
  {
    if pos < |toks| then |toks| - pos else 0
  }

  function ParseIdentifier(p: Parser): (e: Expr)
    ensures e.Ident? && e.ident.value == CurToken(p).literal
  {
    Ident(Identifier(CurToken(p), CurToken(p).literal))
  }

  function ParseBoolean(p: Parser): (e: Expr)
    ensures e.Boolean? && (e.boolValue <==> CurToken(p).kind == TRUE)
  {
    Boolean(CurToken(p), CurToken(p).kind == TRUE)
  }

  /** Converts the current INT literal; a literal `strconv.ParseInt` rejects
      yields nil and one error naming the literal. */
  function ParseIntegerLiteral(p: Parser): (r: Parsed<Option<Expr>>)
    ensures r.Parsed? && r.p.toks == p.toks && r.p.pos == p.pos
    ensures r.value.Some? <==> ParseInt(CurToken(p).literal).Success?
    ensures r.value.Some? ==> r.p == p && r.value.value.IntegerLiteral?
                              && 0 <= r.value.value.intValue <= MaxInt64
                              && r.value.value == IntegerLiteral(CurToken(p), ParseInt(CurToken(p).literal).value)
    ensures r.value.None? ==> r.p == AddError(p, IntegerErrorMessage(CurToken(p).literal))
  {
    var cur := CurToken(p);
    var v := ParseInt(cur.literal);
    if v.Failure? then Parsed(None, AddError(p, IntegerErrorMessage(cur.literal)))
    else Parsed(Some(IntegerLiteral(cur, v.value)), p)
  }

  /** Precedence climbing: parse a prefix expression for the current token,
      then fold in infix operators while the peek token binds tighter than
      `precedence`. */
  function ParseExpression(p: Parser, precedence: nat): (r: Parsed<Option<Expr>>)
    ensures Follows(p, r)
    ensures SemicolonAfterSkips(p.toks) ==> r.Parsed?
    ensures r.Parsed? && r.p.errors == p.errors ==> r.value.Some? && CompleteExpr(r.value.value)
    ensures r.Parsed? && PrefixParseFns(CurToken(p).kind).Some? ==>
              PeekToken(r.p).kind == SEMICOLON || PeekPrecedence(r.p) <= precedence
              || InfixParseFns(PeekToken(r.p).kind).None?
    decreases Remaining(p.toks, p.pos), 3
  {
    var cur := CurToken(p);
    match PrefixParseFns(cur.kind)
    case None => Parsed(None, AddError(p, NoPrefixMessage(cur.kind)))
    case Some(fn) =>
      var left := ApplyPrefix(fn, p);
      if left.Hangs? then Hangs
      else ParseInfixLoop(left.value, left.p, precedence)
  }

  /** The prefix handler registered for the current token, applied to it. */
  function ApplyPrefix(fn: PrefixParseFn, p: Parser): (r: Parsed<Option<Expr>>)
    requires PrefixParseFns(CurToken(p).kind) == Some(fn)
    ensures Follows(p, r)
    ensures SemicolonAfterSkips(p.toks) ==> r.Parsed?
    ensures r.Parsed? && r.p.errors == p.errors ==> r.value.Some? && CompleteExpr(r.value.value)
    decreases Remaining(p.toks, p.pos), 2
  {
    match fn
    case ParseIdentifierFn => Parsed(Some(ParseIdentifier(p)), p)
    case ParseIntegerLiteralFn => ParseIntegerLiteral(p)
    case ParsePrefixExpressionFn => ParsePrefixExpression(p)
    case ParseBooleanFn => Parsed(Some(ParseBoolean(p)), p)
    case ParseGroupedExpressionFn => ParseGroupedExpression(p)
    case ParseIfExpressionFn => ParseIfExpression(p)
  }

  /** The loop of `parseExpression`: while the peek token is neither `;` nor
      a weaker-or-equal operator, make it the current token and let the infix
      handler combine it with the expression so far. */
  function ParseInfixLoop(left: Option<Expr>, p: Parser, precedence: nat): (r: Parsed<Option<Expr>>)
    ensures Follows(p, r)
    ensures SemicolonAfterSkips(p.toks) ==> r.Parsed?
    ensures r.Parsed? && r.p.errors == p.errors && left.Some? && CompleteExpr(left.value) ==>
              r.value.Some? && CompleteExpr(r.value.value)
    ensures r.Parsed? ==>
              PeekToken(r.p).kind == SEMICOLON || PeekPrecedence(r.p) <= precedence
              || InfixParseFns(PeekToken(r.p).kind).None?
    decreases Remaining(p.toks, p.pos), 2
  {
    var peek := PeekToken(p);
    if peek.kind == SEMICOLON || precedence >= PeekPrecedence(p) then Parsed(left, p)
    else if InfixParseFns(peek.kind).None? then Parsed(left, p)
    else
      var r := ParseInfixExpression(left, Advance(p));
      if r.Hangs? then Hangs
      else ParseInfixLoop(r.value, r.p, precedence)
  }

  /** `-x` and `!x`: the operand is parsed at PREFIX binding power. */
  function ParsePrefixExpression(p: Parser): (r: Parsed<Option<Expr>>)
    ensures Follows(p, r)
    ensures SemicolonAfterSkips(p.toks) ==> r.Parsed?
    ensures r.Parsed? ==> r.value.Some? && r.value.value.Prefix?
                          && r.value.value.operator == CurToken(p).literal
    ensures r.Parsed? && r.p.errors == p.errors ==> CompleteExpr(r.value.value)
    decreases Remaining(p.toks, p.pos + 1), 4
  {
    var tok := CurToken(p);
    var right := ParseExpression(Advance(p), PREFIX);
    if right.Hangs? then Hangs
    else Parsed(Some(Prefix(tok, tok.literal, right.value)), right.p)
  }

  /** A binary operator node: the right operand is parsed at the operator's
      own binding power, which makes equal operators group to the left. */
  function ParseInfixExpression(left: Option<Expr>, p: Parser): (r: Parsed<Option<Expr>>)
    ensures Follows(p, r)
    ensures SemicolonAfterSkips(p.toks) ==> r.Parsed?
    ensures r.Parsed? ==> r.value.Some? && r.value.value.Infix? && r.value.value.left == left
                          && r.value.value.operator == CurToken(p).literal
    ensures r.Parsed? && r.p.errors == p.errors && left.Some? && CompleteExpr(left.value) ==>
              CompleteExpr(r.value.value)
    decreases Remaining(p.toks, p.pos + 1), 4
  {
    var tok := CurToken(p);
    var right := ParseExpression(Advance(p), CurPrecedence(p));
    if right.Hangs? then Hangs
    else Parsed(Some(Infix(tok, left, tok.literal, right.value)), right.p)
  }

  /** `( e )` yields `e` itself; a missing `)` yields nil and one error. */
  function ParseGroupedExpression(p: Parser): (r: Parsed<Option<Expr>>)
    ensures Follows(p, r)
    ensures SemicolonAfterSkips(p.toks) ==> r.Parsed?
    ensures r.Parsed? && r.p.errors == p.errors ==> r.value.Some? && CompleteExpr(r.value.value)
    ensures r.Parsed? && r.value.Some? ==> CurToken(r.p).kind == RPAREN
    decreases Remaining(p.toks, p.pos + 1), 4
  {
    var inner := ParseExpression(Advance(p), LOWEST);
    if inner.Hangs? then Hangs
    else
      var (ok, p1) := ExpectPeek(inner.p, RPAREN);
      if !ok then Parsed(None, p1) else Parsed(inner.value, p1)
  }

  /** `if (c) { ... }` with an optional `else { ... }`. */
  function ParseIfExpression(p: Parser): (r: Parsed<Option<Expr>>)
    ensures Follows(p, r)
    ensures SemicolonAfterSkips(p.toks) ==> r.Parsed?
    ensures r.Parsed? && r.p.errors == p.errors ==> r.value.Some? && CompleteExpr(r.value.value)
    ensures r.Parsed? && r.value.Some? ==>
              r.value.value.If? && CurToken(r.p).kind in {RBRACE, EOF}
              && (r.value.value.alternative.None? ==> PeekToken(r.p).kind != ELSE)
    decreases Remaining(p.toks, p.pos + 1), 4
  {
    var (ok, p1) := ExpectPeek(p, LPAREN);
    if !ok then Parsed(None, p1)
    else
      var cond := ParseExpression(Advance(p1), LOWEST);
      if cond.Hangs? then Hangs
      else ParseIfBody(CurToken(p), cond.value, cond.p)
  }

  /** The part of `parseIfExpression` after the condition: `)`, `{`, the
      consequence block, then the optional alternative. */
  function ParseIfBody(tok: Token, cond: Option<Expr>, p: Parser): (r: Parsed<Option<Expr>>)
    ensures Follows(p, r)
    ensures SemicolonAfterSkips(p.toks) ==> r.Parsed?
    ensures r.Parsed? && r.p.errors == p.errors && cond.Some? && CompleteExpr(cond.value) ==>
              r.value.Some? && CompleteExpr(r.value.value)
    ensures r.Parsed? && r.p.errors == p.errors ==> r.value.Some?
    ensures r.Parsed? && r.value.Some? ==>
              r.value.value.If? && r.value.value.condition == cond
              && CurToken(r.p).kind in {RBRACE, EOF}
              && (r.value.value.alternative.None? ==> PeekToken(r.p).kind != ELSE)
    decreases Remaining(p.toks, p.pos + 1), 4
  {
    var (ok1, p1) := ExpectPeek(p, RPAREN);
    if !ok1 then Parsed(None, p1)
    else
      var (ok2, p2) := ExpectPeek(p1, LBRACE);
      if !ok2 then Parsed(None, p2)
      else ParseIfBlocks(tok, cond, p2)
  }

  /** The consequence block, entered on its `{`, then the optional
      alternative. */
  function ParseIfBlocks(tok: Token, cond: Option<Expr>, p: Parser): (r: Parsed<Option<Expr>>)
    ensures Follows(p, r)
    ensures SemicolonAfterSkips(p.toks) ==> r.Parsed?
    ensures r.Parsed? && r.p.errors == p.errors && cond.Some? && CompleteExpr(cond.value) ==>
              r.value.Some? && CompleteExpr(r.value.value)
    ensures r.Parsed? && r.p.errors == p.errors ==> r.value.Some?
    ensures r.Parsed? && r.value.Some? ==>
              r.value.value.If? && r.value.value.condition == cond
              && CurToken(r.p).kind in {RBRACE, EOF}
              && (r.value.value.alternative.None? ==> PeekToken(r.p).kind != ELSE)
    decreases Remaining(p.toks, p.pos + 1), 8
  {
    var cons := ParseBlockStatement(p);
    if cons.Hangs? then Hangs
    else if PeekToken(cons.p).kind != ELSE then
      Parsed(Some(If(tok, cond, cons.value, None)), cons.p)
    else ParseElse(tok, cond, cons.value, cons.p)
  }

  /** `else { ... }`, entered with `else` as the peek token. */
  function ParseElse(tok: Token, cond: Option<Expr>, cons: Block, p: Parser): (r: Parsed<Option<Expr>>)
    requires PeekToken(p).kind == ELSE
    ensures Follows(p, r)
    ensures SemicolonAfterSkips(p.toks) ==> r.Parsed?
    ensures r.Parsed? && r.p.errors == p.errors ==>
              r.value.Some? && r.value.value.If? && r.value.value.alternative.Some?
              && CompleteBlock(r.value.value.alternative.value)
    ensures r.Parsed? && r.value.Some? ==>
              r.value.value.If? && r.value.value.condition == cond && r.value.value.consequence == cons
              && r.value.value.alternative.Some? && CurToken(r.p).kind in {RBRACE, EOF}
    decreases Remaining(p.toks, p.pos + 1), 4
  {
    var (ok, p1) := ExpectPeek(Advance(p), LBRACE);
    if !ok then Parsed(None, p1)
    else
      var alt := ParseBlockStatement(p1);
      if alt.Hangs? then Hangs
      else Parsed(Some(If(tok, cond, cons, Some(alt.value))), alt.p)
  }

  /** `{ s1 s2 ... }`: statements up to the closing brace or the end of input. */
  function ParseBlockStatement(p: Parser): (r: Parsed<Block>)
    ensures Follows(p, r)
    ensures SemicolonAfterSkips(p.toks) ==> r.Parsed?
    ensures r.Parsed? ==> CurToken(r.p).kind in {RBRACE, EOF} && r.value.token == CurToken(p)
    ensures r.Parsed? && r.p.errors == p.errors ==> CompleteBlock(r.value)
    decreases Remaining(p.toks, p.pos + 1), 7
  {
    var stmts := ParseBlockLoop(Advance(p), []);
    if stmts.Hangs? then Hangs
    else Parsed(Block(CurToken(p), stmts.value), stmts.p)
  }

  /** The loop of `parseBlockStatement`; `acc` holds the statements so far. */
  function ParseBlockLoop(p: Parser, acc: seq<Statement>): (r: Parsed<seq<Statement>>)
    ensures Follows(p, r)
    ensures SemicolonAfterSkips(p.toks) ==> r.Parsed?
    ensures r.Parsed? ==> CurToken(r.p).kind in {RBRACE, EOF} && acc <= r.value
    ensures r.Parsed? && r.p.errors == p.errors && CompleteStatements(acc) ==>
              CompleteStatements(r.value)
    decreases Remaining(p.toks, p.pos), 6
  {
    var cur := CurToken(p);
    if cur.kind == RBRACE || cur.kind == EOF then Parsed(acc, p)
    else
      var s := ParseStatement(p);
      if s.Hangs? then Hangs
      else ParseBlockLoop(Advance(s.p), acc + [s.value])
  }

  /** Dispatches on the current token: `let`, `return`, or an expression. */
  function ParseStatement(p: Parser): (r: Parsed<Statement>)
    ensures Follows(p, r)
    ensures SemicolonAfterSkips(p.toks) ==> r.Parsed?
    ensures r.Parsed? && r.p.errors == p.errors ==> CompleteStatement(r.value)
    ensures r.Parsed? && r.value.NilLet? ==> CurToken(p).kind == LET
    ensures r.Parsed? && !r.value.NilLet? ==> r.value.token == CurToken(p)
    decreases Remaining(p.toks, p.pos), 5
  {
    match CurToken(p).kind
    case LET => ParseLetStatement(p)
    case RETURN => ParseReturnStatement(p)
    case _ => ParseExpressionStatement(p)
  }

  /** `let <ident> = ... ;`: the value is skipped up to the `;`, never parsed.
      A failed `let` leaves the `NilLet` placeholder. */
  function ParseLetStatement(p: Parser): (r: Parsed<Statement>)
    ensures Follows(p, r)
    ensures CurToken(p).kind == LET && SemicolonAfterSkips(p.toks) ==> r.Parsed?
    ensures r.Parsed? ==>
              (r.value.Let? <==> PeekToken(p).kind == IDENT && Lexer.TokenAt(p.toks, p.pos + 2).kind == ASSIGN)
    ensures r.Parsed? && r.value.Let? ==>
              && r.value == Let(CurToken(p), Identifier(PeekToken(p), PeekToken(p).literal), None)
              && r.p.errors == p.errors && CurToken(r.p).kind == SEMICOLON
              && FirstSemicolon(p.toks, p.pos + 2) == Some(r.p.pos)
    ensures r.Parsed? && !r.value.Let? ==> r.value == NilLet && |r.p.errors| == |p.errors| + 1
    // A missing name fails at once, without moving; a missing `=` fails with
    // the cursor on the name. Only the skip to `;` can run forever.
    ensures PeekToken(p).kind != IDENT ==>
              r == Parsed(NilLet, AddError(p, PeekErrorMessage(IDENT, PeekToken(p).kind)))
    ensures PeekToken(p).kind == IDENT && Lexer.TokenAt(p.toks, p.pos + 2).kind != ASSIGN ==>
              r == Parsed(NilLet, AddError(Advance(p), PeekErrorMessage(ASSIGN, Lexer.TokenAt(p.toks, p.pos + 2).kind)))
    ensures r.Hangs? <==> PeekToken(p).kind == IDENT && Lexer.TokenAt(p.toks, p.pos + 2).kind == ASSIGN
                          && FirstSemicolon(p.toks, p.pos + 2).None?
  {
    var tok := CurToken(p);
    var (ok1, p1) := ExpectPeek(p, IDENT);
    if !ok1 then Parsed(NilLet, p1)
    else ParseLetAfterName(tok, p1)
  }

  /** The rest of a `let` once its name is the current token: `=`, then the
      skip to `;`. */
  function ParseLetAfterName(tok: Token, p: Parser): (r: Parsed<Statement>)
    ensures Follows(p, r)
    ensures r.Parsed? ==> (r.value.Let? <==> PeekToken(p).kind == ASSIGN)
    ensures r.Parsed? && r.value.Let? ==>
              && r.value == Let(tok, Identifier(CurToken(p), CurToken(p).literal), None)
              && r.p.errors == p.errors && CurToken(r.p).kind == SEMICOLON
              && FirstSemicolon(p.toks, p.pos + 1) == Some(r.p.pos)
    ensures PeekToken(p).kind != ASSIGN ==>
              r == Parsed(NilLet, AddError(p, PeekErrorMessage(ASSIGN, PeekToken(p).kind)))
    ensures r.Hangs? <==> PeekToken(p).kind == ASSIGN && FirstSemicolon(p.toks, p.pos + 1).None?
  {
    var name := Identifier(CurToken(p), CurToken(p).literal);
    var (ok, p1) := ExpectPeek(p, ASSIGN);
    if !ok then Parsed(NilLet, p1)
    else
      var p2 := SkipToSemicolon(p1);
      if p2.None? then Hangs
      else Parsed(Let(tok, name, None), p2.value)
  }

  /** `return ... ;`: the value is skipped up to the `;`, never parsed. */
  function ParseReturnStatement(p: Parser): (r: Parsed<Statement>)
    ensures Follows(p, r)
    ensures CurToken(p).kind == RETURN && SemicolonAfterSkips(p.toks) ==> r.Parsed?
    ensures r.Parsed? ==> r.value == Return(CurToken(p), None) && r.p.errors == p.errors
                          && p.pos < r.p.pos && CurToken(r.p).kind == SEMICOLON
                          && r.p.pos == FirstSemicolon(p.toks, p.pos + 1).value
    ensures r.Hangs? <==> FirstSemicolon(p.toks, p.pos + 1).None?
  {
    var tok := CurToken(p);
    var p1 := SkipToSemicolon(Advance(p));
    if p1.None? then Hangs
    else Parsed(Return(tok, None), p1.value)
  }

  /** An expression at LOWEST power, then an optional `;`. The statement is
      kept even when the expression is nil. */
  function ParseExpressionStatement(p: Parser): (r: Parsed<Statement>)
    ensures Follows(p, r)
    ensures SemicolonAfterSkips(p.toks) ==> r.Parsed?
    ensures r.Parsed? ==> r.value.ExpressionStatement? && r.value.token == CurToken(p)
    ensures r.Parsed? && r.p.errors == p.errors ==> CompleteStatement(r.value)
    decreases Remaining(p.toks, p.pos), 4
  {
    var tok := CurToken(p);
    var e := ParseExpression(p, LOWEST);
    if e.Hangs? then Hangs
    else
      var p1 := if PeekToken(e.p).kind == SEMICOLON then Advance(e.p) else e.p;
      Parsed(ExpressionStatement(tok, e.value), p1)
  }

  /** The loop of `ParseProgram`: one statement per iteration until EOF. */
  function ParseProgramLoop(p: Parser, acc: seq<Statement>): (r: Parsed<seq<Statement>>)
    ensures Follows(p, r)
    ensures SemicolonAfterSkips(p.toks) ==> r.Parsed?
    ensures r.Parsed? ==> CurToken(r.p).kind == EOF && acc <= r.value
    ensures r.Parsed? && r.p.errors == p.errors && CompleteStatements(acc) ==>
              CompleteStatements(r.value)
    decreases Remaining(p.toks, p.pos)
  {
    if CurToken(p).kind == EOF then Parsed(acc, p)
    else
      var s := ParseStatement(p);
      if s.Hangs? then Hangs
      else ParseProgramLoop(Advance(s.p), acc + [s.value])
  }

  /** One round of the program loop: a statement is parsed, appended, and
      the loop goes on from the token after it. */
  lemma ProgramLoopStep(p: Parser, acc: seq<Statement>, s: Statement, q: Parser)
    requires CurToken(p).kind != EOF && ParseStatement(p) == Parsed(s, q)
    ensures ParseProgramLoop(p, acc) == ParseProgramLoop(Advance(q), acc + [s])
  {
  }

  /** One round of the block loop: a statement is parsed, appended, and the
      loop goes on from the token after it. */
  lemma BlockLoopStep(p: Parser, acc: seq<Statement>, s: Statement, q: Parser)
    requires CurToken(p).kind !in {RBRACE, EOF} && ParseStatement(p) == Parsed(s, q)
    ensures ParseBlockLoop(p, acc) == ParseBlockLoop(Advance(q), acc + [s])
  {
  }

  /** Where no `}` is left, a block's loop and the program loop read the same
      statements and stop at the same EOF. */
  lemma {:induction false} BlockLoopIsProgramLoop(p: Parser, acc: seq<Statement>)
    requires forall j | p.pos <= j < |p.toks| :: p.toks[j].kind != RBRACE
    ensures ParseBlockLoop(p, acc) == ParseProgramLoop(p, acc)
    decreases Remaining(p.toks, p.pos)
  {
    if CurToken(p).kind != EOF {
      assert CurToken(p).kind != RBRACE by {
        assert p.pos < |p.toks| ==> p.toks[p.pos].kind != RBRACE;
      }
      var s := ParseStatement(p);
      if s.Parsed? {
        BlockLoopStep(p, acc, s.value, s.p);
        ProgramLoopStep(p, acc, s.value, s.p);
        BlockLoopIsProgramLoop(Advance(s.p), acc + [s.value]);
      }
    }
  }

  /** A statement that starts with neither `let` nor `return` is the
      expression parsed at LOWEST from its first token, and takes a `;` that
      follows it. */
  lemma ExpressionStatementStep(p: Parser, e: Option<Expr>, q: Parser)
    requires CurToken(p).kind !in {LET, RETURN}
    requires ParseExpression(p, LOWEST) == Parsed(e, q)
    ensures ParseStatement(p)
            == Parsed(ExpressionStatement(CurToken(p), e), if PeekToken(q).kind == SEMICOLON then Advance(q) else q)
  {
  }

  /** Parses a whole token stream. The errors are in the final state. */
  function ParseProgram(toks: seq<Token>): (r: Parsed<Program>)
    ensures SemicolonAfterSkips(toks) ==> r.Parsed?
    ensures r.Parsed? ==> r.p.toks == toks && CurToken(r.p).kind == EOF
    ensures r.Parsed? && r.p.errors == [] ==> CompleteStatements(r.value.statements)
  {
    var stmts := ParseProgramLoop(New(toks), []);
    if stmts.Hangs? then Hangs
    else Parsed(Program(stmts.value), stmts.p)
  }

  /** `if` not followed by `(` yields nil with one "expected next token"
      error, without moving. */
  lemma IfNeedsParen(p: Parser)
    requires PeekToken(p).kind != LPAREN
    ensures ParseIfExpression(p) == Parsed(None, AddError(p, PeekErrorMessage(LPAREN, PeekToken(p).kind)))
  {
  }

  /** The steps of an `if` up to its consequence block: `(`, the condition,
      `)` and `{`. */
  lemma IfOpens(p: Parser, c: Option<Expr>, q: Parser)
    requires PeekToken(p).kind == LPAREN
    requires ParseExpression(Advance(Advance(p)), LOWEST) == Parsed(c, q)
    requires PeekToken(q).kind == RPAREN && Lexer.TokenAt(q.toks, q.pos + 2).kind == LBRACE
    ensures ParseIfExpression(p) == ParseIfBlocks(CurToken(p), c, Advance(Advance(q)))
  {
    IfCondition(p, c, q);
    IfBodyOpens(CurToken(p), c, q);
  }

  lemma IfCondition(p: Parser, c: Option<Expr>, q: Parser)
    requires PeekToken(p).kind == LPAREN
    requires ParseExpression(Advance(Advance(p)), LOWEST) == Parsed(c, q)
    ensures ParseIfExpression(p) == ParseIfBody(CurToken(p), c, q)
  {
    assert ExpectPeek(p, LPAREN) == (true, Advance(p));
  }

  lemma IfBodyOpens(tok: Token, c: Option<Expr>, q: Parser)
    requires PeekToken(q).kind == RPAREN && Lexer.TokenAt(q.toks, q.pos + 2).kind == LBRACE
    ensures ParseIfBody(tok, c, q) == ParseIfBlocks(tok, c, Advance(Advance(q)))
  {
    assert ExpectPeek(q, RPAREN) == (true, Advance(q));
    assert ExpectPeek(Advance(q), LBRACE) == (true, Advance(Advance(q)));
  }

  /** `if (c) { ... }` where no `else` follows the block: the node holds the
      condition and the block, and has no alternative. */
  lemma IfThen(p: Parser, c: Option<Expr>, q: Parser, b: Block, q2: Parser)
    requires PeekToken(p).kind == LPAREN
    requires ParseExpression(Advance(Advance(p)), LOWEST) == Parsed(c, q)
    requires PeekToken(q).kind == RPAREN && Lexer.TokenAt(q.toks, q.pos + 2).kind == LBRACE
    requires ParseBlockStatement(Advance(Advance(q))) == Parsed(b, q2)
    requires PeekToken(q2).kind != ELSE
    ensures ParseIfExpression(p) == Parsed(Some(If(CurToken(p), c, b, None)), q2)
  {
    IfOpens(p, c, q);
  }

  /** `if (c) { ... } else { ... }`: the node holds the condition and both
      blocks, and ends on the alternative's closing brace. */
  lemma IfThenElse(p: Parser, c: Option<Expr>, q: Parser, b: Block, q2: Parser, alt: Block, q3: Parser)
    requires PeekToken(p).kind == LPAREN
    requires ParseExpression(Advance(Advance(p)), LOWEST) == Parsed(c, q)
    requires PeekToken(q).kind == RPAREN && Lexer.TokenAt(q.toks, q.pos + 2).kind == LBRACE
    requires ParseBlockStatement(Advance(Advance(q))) == Parsed(b, q2)
    requires PeekToken(q2).kind == ELSE && Lexer.TokenAt(q2.toks, q2.pos + 2).kind == LBRACE
    requires ParseBlockStatement(Advance(Advance(q2))) == Parsed(alt, q3)
    ensures ParseIfExpression(p) == Parsed(Some(If(CurToken(p), c, b, Some(alt))), q3)
  {
    IfOpens(p, c, q);
    ElseBlock(CurToken(p), c, b, q2, alt, q3);
  }

  lemma ElseBlock(tok: Token, c: Option<Expr>, b: Block, q2: Parser, alt: Block, q3: Parser)
    requires PeekToken(q2).kind == ELSE && Lexer.TokenAt(q2.toks, q2.pos + 2).kind == LBRACE
    requires ParseBlockStatement(Advance(Advance(q2))) == Parsed(alt, q3)
    ensures ParseElse(tok, c, b, q2) == Parsed(Some(If(tok, c, b, Some(alt))), q3)
  {
    var p1 := Advance(q2);
    assert PeekToken(p1).kind == LBRACE;
    assert ExpectPeek(p1, LBRACE) == (true, Advance(p1));
  }

  /** The token literal of a parsed program is its first token's, the
      statement built there keeping that token; when the first statement is a
      failed `let`, asking for it dereferences nil. */
  lemma ParsedProgramTokenLiteral(toks: seq<Token>, prog: Program, q: Parser)
    requires Lexer.TokenAt(toks, 0).kind != EOF && ParseProgram(toks) == Parsed(prog, q)
    ensures |prog.statements| > 0
    ensures prog.statements[0].NilLet? ==>
              ProgramTokenLiteral(prog) == Failure(NilDereference) && toks[0].kind == LET
    ensures !prog.statements[0].NilLet? ==> ProgramTokenLiteral(prog) == Success(toks[0].literal)
  {
    var p := New(toks);
    var s := ParseStatement(p);
    assert s.Parsed?;
    ProgramLoopStep(p, [], s.value, s.p);
    var r := ParseProgramLoop(Advance(s.p), [s.value]);
    assert [] + [s.value] == [s.value];
    assert r.Parsed? && prog.statements == r.value;
    assert [s.value] <= r.value;
    assert prog.statements[0] == s.value;
  }

  /** Lexes and parses a source text. */
  function ParseSource(input: seq<Lexer.Byte>): Parsed<Program>
  {
    ParseProgram(Lexer.Tokens(input))
  }
}
