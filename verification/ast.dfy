/**
 * The abstract syntax tree and its canonical text. Go's `nil` child becomes
 * `None`; the typed-nil `*LetStatement` that a failed `let` leaves behind
 * becomes the `NilLet` placeholder. Calling `String()` through a nil child
 * panics in Go; here rendering returns `Failure(NilDereference)` instead.
 */
module Ast {
  import opened Wrappers
  import opened Token

  datatype Identifier = Identifier(token: Token, value: string)

  datatype Expr =
    | Ident(ident: Identifier)
    | IntegerLiteral(token: Token, intValue: int)
    | Boolean(token: Token, boolValue: bool)
    | Prefix(token: Token, operator: string, right: Option<Expr>)
    | Infix(token: Token, left: Option<Expr>, operator: string, right: Option<Expr>)
    | If(token: Token, condition: Option<Expr>, consequence: Block, alternative: Option<Block>)

  datatype Statement =
    | Let(token: Token, name: Identifier, value: Option<Expr>)
    | Return(token: Token, returnValue: Option<Expr>)
    | ExpressionStatement(token: Token, expression: Option<Expr>)
      /** What a failed `let` leaves in a statement list: a typed nil that is
          still a non-nil interface value. */
    | NilLet

  datatype Block = Block(token: Token, statements: seq<Statement>)

  datatype Program = Program(statements: seq<Statement>)

  /** Why a node has no canonical text: a nil node was dereferenced (a panic
      in Go), or the node type has no `String` method in this model. */
  datatype RenderError = NilDereference | NoRenderingRule

  /** Nodes whose canonical text is defined: identifiers, integer literals and
      operator nodes with every child present. */
  predicate Renderable(e: Expr)
  {
    match e
    case Ident(_) => true
    case IntegerLiteral(_, _) => true
    case Boolean(_, _) => false
    case Prefix(_, _, right) => right.Some? && Renderable(right.value)
    case Infix(_, left, _, right) =>
      left.Some? && right.Some? && Renderable(left.value) && Renderable(right.value)
    case If(_, _, _, _) => false
  }

  /** The canonical fully parenthesised text of an expression. */
  function RenderExpr(e: Expr): (r: Result<string, RenderError>)
    ensures r.Success? <==> Renderable(e)
    ensures e.Ident? ==> r == Success(e.ident.value)
    ensures e.IntegerLiteral? ==> r == Success(e.token.literal)
  {
    match e
    case Ident(id) => Success(id.value)
    case IntegerLiteral(tok, _) => Success(tok.literal)
    case Boolean(_, _) => Failure(NoRenderingRule)
    case Prefix(_, op, right) =>
      if right.None? then Failure(NilDereference)
      else
        var r := RenderExpr(right.value);
        if r.Failure? then r
        else Success("(" + op + r.value + ")")
    case Infix(_, left, op, right) =>
      if left.None? then Failure(NilDereference)
      else
        var l := RenderExpr(left.value);
        if l.Failure? then l
        else if right.None? then Failure(NilDereference)
        else
          var r := RenderExpr(right.value);
          if r.Failure? then r
          else Success("(" + l.value + " " + op + " " + r.value + ")")
    case If(_, _, _, _) => Failure(NoRenderingRule)
  }

  /** An optional child's text, empty when the child is absent. */
  function RenderOptional(e: Option<Expr>): (r: Result<string, RenderError>)
    ensures r.Success? <==> (e.Some? ==> Renderable(e.value))
    ensures e.None? ==> r == Success("")
  {
    if e.None? then Success("") else RenderExpr(e.value)
  }

  function RenderStatement(s: Statement): (r: Result<string, RenderError>)
    ensures r.Success? <==> !s.NilLet? && (s.ExpressionStatement? ==> RenderOptional(s.expression).Success?)
                                       && (s.Let? ==> RenderOptional(s.value).Success?)
                                       && (s.Return? ==> RenderOptional(s.returnValue).Success?)
  {
    match s
    case Let(tok, name, value) =>
      var v := RenderOptional(value);
      if v.Failure? then v else Success(tok.literal + " " + name.value + " = " + v.value + ";")
    case Return(tok, value) =>
      var v := RenderOptional(value);
      if v.Failure? then v else Success(tok.literal + " " + v.value + ";")
    case ExpressionStatement(_, e) => RenderOptional(e)
    case NilLet => Failure(NilDereference)
  }

  /** The statements' texts concatenated in order; the first failure wins. */
  function RenderStatements(ss: seq<Statement>): (r: Result<string, RenderError>)
    ensures r.Success? <==> forall i | 0 <= i < |ss| :: RenderStatement(ss[i]).Success?
  {
    if |ss| == 0 then Success("")
    else
      var h := RenderStatement(ss[0]);
      if h.Failure? then h
      else
        var t := RenderStatements(ss[1..]);
        if t.Failure? then t else Success(h.value + t.value)
  }

  function RenderProgram(p: Program): Result<string, RenderError>
  {
    RenderStatements(p.statements)
  }

  /** A program of one expression statement renders as that expression. */
  lemma RenderExpressionProgram(tok: Token, e: Expr)
    requires RenderExpr(e).Success?
    ensures RenderProgram(Program([ExpressionStatement(tok, Some(e))])) == RenderExpr(e)
  {
    var ss := [ExpressionStatement(tok, Some(e))];
    assert RenderStatement(ss[0]) == RenderExpr(e);
    assert ss[1..] == [];
    assert RenderStatements(ss[1..]) == Success("");
    assert RenderExpr(e).value + "" == RenderExpr(e).value;
    assert RenderStatements(ss) == Success(RenderExpr(e).value);
  }

  /** A `let` without a value prints its name and an empty right-hand side:
      `let x = ;`. */
  lemma LetWithoutValueText(tok: Token, name: Identifier)
    ensures RenderStatement(Let(tok, name, None)) == Success(tok.literal + " " + name.value + " = ;")
  {
    assert tok.literal + " " + name.value + " = " + "" + ";" == tok.literal + " " + name.value + " = ;";
  }

  /** A `return` without a value prints as `return ;`. */
  lemma ReturnWithoutValueText(tok: Token)
    ensures RenderStatement(Return(tok, None)) == Success(tok.literal + " ;")
  {
    assert tok.literal + " " + "" + ";" == tok.literal + " ;";
  }

  /** Rendering distributes over concatenation of statement lists. */
  lemma {:induction false} RenderStatementsAppend(a: seq<Statement>, b: seq<Statement>)
    requires RenderStatements(a).Success? && RenderStatements(b).Success?
    ensures RenderStatements(a + b) == Success(RenderStatements(a).value + RenderStatements(b).value)
    decreases |a|
  {
    if |a| == 0 {
      assert a + b == b;
      assert RenderStatements(a) == Success("");
      assert "" + RenderStatements(b).value == RenderStatements(b).value;
    } else {
      assert (a + b)[0] == a[0];
      assert (a + b)[1..] == a[1..] + b;
      assert RenderStatements(a[1..]).Success? by {
        forall i | 0 <= i < |a[1..]| ensures RenderStatement(a[1..][i]).Success? {
          assert a[1..][i] == a[i + 1];
        }
      }
      RenderStatementsAppend(a[1..], b);
      var h := RenderStatement(a[0]).value;
      assert RenderStatements(a).value == h + RenderStatements(a[1..]).value;
      assert RenderStatement((a + b)[0]) == Success(h);
      assert RenderStatements(a + b) == Success(h + RenderStatements(a[1..] + b).value);
      var x, y := RenderStatements(a[1..]).value, RenderStatements(b).value;
      assert h + (x + y) == (h + x) + y;
    }
  }

  function StatementTokenLiteral(s: Statement): Result<string, RenderError>
  {
    match s
    case Let(tok, _, _) => Success(tok.literal)
    case Return(tok, _) => Success(tok.literal)
    case ExpressionStatement(tok, _) => Success(tok.literal)
    case NilLet => Failure(NilDereference)
  }

  /** A program's token literal: its first statement's, or empty. What it
      yields for a parsed program is `Parser.ParsedProgramTokenLiteral`. */
  function ProgramTokenLiteral(p: Program): Result<string, RenderError>
  {
    if |p.statements| > 0 then StatementTokenLiteral(p.statements[0]) else Success("")
  }

  /** An expression with no nil child anywhere: what an error-free parse
      produces. */
  predicate CompleteExpr(e: Expr)
  {
    match e
    case Ident(_) => true
    case IntegerLiteral(_, _) => true
    case Boolean(_, _) => true
    case Prefix(_, _, right) => right.Some? && CompleteExpr(right.value)
    case Infix(_, left, _, right) =>
      left.Some? && right.Some? && CompleteExpr(left.value) && CompleteExpr(right.value)
    case If(_, condition, consequence, alternative) =>
      condition.Some? && CompleteExpr(condition.value)
      && CompleteBlock(consequence)
      && (alternative.Some? ==> CompleteBlock(alternative.value))
  }

  /** A statement that is not a failed `let` and whose expression, if it is an
      expression statement, is present and complete. */
  predicate CompleteStatement(s: Statement)
  {
    match s
    case Let(_, _, value) => value.Some? ==> CompleteExpr(value.value)
    case Return(_, value) => value.Some? ==> CompleteExpr(value.value)
    case ExpressionStatement(_, e) => e.Some? && CompleteExpr(e.value)
    case NilLet => false
  }

  predicate CompleteStatements(ss: seq<Statement>)
  {
    forall i | 0 <= i < |ss| :: CompleteStatement(ss[i])
  }

  predicate CompleteBlock(b: Block)
  {
    CompleteStatements(b.statements)
  }

  /** Number of `(` in a string. */
  function OpenParens(s: string): nat
  {
    if |s| == 0 then 0 else (if s[0] == '(' then 1 else 0) + OpenParens(s[1..])
  }

  /** Number of operator nodes in an expression. */
  function OperatorNodes(e: Expr): nat
  {
    match e
    case Prefix(_, _, right) => 1 + (if right.Some? then OperatorNodes(right.value) else 0)
    case Infix(_, left, _, right) =>
      1 + (if left.Some? then OperatorNodes(left.value) else 0)
        + (if right.Some? then OperatorNodes(right.value) else 0)
    case _ => 0
  }

  /** Identifier names, literal texts and operators contain no `(`. */
  predicate NoParenText(e: Expr)
  {
    match e
    case Ident(id) => OpenParens(id.value) == 0
    case IntegerLiteral(tok, _) => OpenParens(tok.literal) == 0
    case Boolean(_, _) => true
    case Prefix(_, op, right) => OpenParens(op) == 0 && (right.Some? ==> NoParenText(right.value))
    case Infix(_, left, op, right) =>
      OpenParens(op) == 0 && (left.Some? ==> NoParenText(left.value))
      && (right.Some? ==> NoParenText(right.value))
    case If(_, _, _, _) => true
  }

  lemma {:induction false} OpenParensAppend(a: string, b: string)
    ensures OpenParens(a + b) == OpenParens(a) + OpenParens(b)
    decreases |a|
  {
    if |a| == 0 {
      assert a + b == b;
    } else {
      assert (a + b)[1..] == a[1..] + b;
      OpenParensAppend(a[1..], b);
    }
  }

  /** The canonical text is fully parenthesised: it holds exactly one `(` per
      operator node, so every prefix and infix node is wrapped. */
  lemma {:induction false} RenderIsFullyParenthesised(e: Expr)
    requires Renderable(e) && NoParenText(e)
    ensures OpenParens(RenderExpr(e).value) == OperatorNodes(e)
    decreases e
  {
    match e
    case Ident(_) =>
    case IntegerLiteral(_, _) =>
    case Prefix(_, op, right) =>
      var r := RenderExpr(right.value).value;
      RenderIsFullyParenthesised(right.value);
      OpenParensAppend("(" + op, r);
      OpenParensAppend("(", op);
      OpenParensAppend("(" + op + r, ")");
    case Infix(_, left, op, right) =>
      var l := RenderExpr(left.value).value;
      var r := RenderExpr(right.value).value;
      RenderIsFullyParenthesised(left.value);
      RenderIsFullyParenthesised(right.value);
      OpenParensAppend("(", l);
      OpenParensAppend("(" + l, " ");
      OpenParensAppend("(" + l + " ", op);
      OpenParensAppend("(" + l + " " + op, " ");
      OpenParensAppend("(" + l + " " + op + " ", r);
      OpenParensAppend("(" + l + " " + op + " " + r, ")");
  }
}
