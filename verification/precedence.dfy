/**
 * What precedence climbing computes. For a chain `a0 o0 a1 o1 ... an` of
 * operands and binary operators, `Tree` is an independent reference: the
 * root is the LAST operator of the weakest binding power, and each side is
 * the tree of its own sub-chain. The theorems below show that the parser
 * builds exactly this tree, so equal operators group to the left and
 * stronger ones bind tighter.
 */
module Precedence {
  import opened Wrappers
  import opened Token
  import opened Lexer
  import opened Ast
  import opened IntLiteral
  import opened Parser

  /** Tokens that form an expression on their own. */
  predicate IsOperand(t: Token)
  {
    t.kind in {IDENT, TRUE, FALSE} || (t.kind == INT && ParseInt(t.literal).Success?)
  }

  /** The leaf the parser builds for an operand token. */
  function Leaf(t: Token): Expr
  {
    if t.kind == INT then
      IntegerLiteral(t, if ParseInt(t.literal).Success? then ParseInt(t.literal).value else 0)
    else if t.kind in {TRUE, FALSE} then Boolean(t, t.kind == TRUE)
    else Ident(Identifier(t, t.literal))
  }

  predicate IsInfixOp(t: Token)
  {
    InfixParseFns(t.kind).Some?
  }

  function OpPrec(t: Token): nat
  {
    PrecedenceOf(t.kind)
  }

  /** `k` is the last position of a weakest operator among `ops[i..e]`. */
  predicate IsLastWeakest(ops: seq<Token>, i: nat, e: nat, k: nat)
  {
    i <= k < e <= |ops|
    && (forall t | i <= t < k :: OpPrec(ops[t]) >= OpPrec(ops[k]))
    && (forall t | k < t < e :: OpPrec(ops[t]) > OpPrec(ops[k]))
  }

  lemma LastWeakestUnique(ops: seq<Token>, i: nat, e: nat, k1: nat, k2: nat)
    requires IsLastWeakest(ops, i, e, k1) && IsLastWeakest(ops, i, e, k2)
    ensures k1 == k2
  {
    assert OpPrec(ops[k1]) == OpPrec(ops[k2]);
  }

  function LastWeakest(ops: seq<Token>, i: nat, e: nat): (k: nat)
    requires i < e <= |ops|
    ensures IsLastWeakest(ops, i, e, k)
    decreases e - i
  {
    if e == i + 1 then i
    else
      var k := LastWeakest(ops, i, e - 1);
      if OpPrec(ops[e - 1]) <= OpPrec(ops[k]) then e - 1 else k
  }

  /** The reference tree of the sub-chain from operand `i` to operand `e`:
      a lone operand is its own tree; otherwise the last weakest operator is
      the root and each side is the tree of its own sub-chain. */
  function Sub(leaves: seq<Expr>, ops: seq<Token>, i: nat, e: nat): Expr
    requires |leaves| == |ops| + 1 && i <= e <= |ops|
    decreases e - i
  {
    if i == e then leaves[i]
    else
      var k := LastWeakest(ops, i, e);
      Infix(ops[k], Some(Sub(leaves, ops, i, k)), ops[k].literal, Some(Sub(leaves, ops, k + 1, e)))
  }

  /** The reference tree of a chain of `|ops| + 1` operands. */
  function Tree(leaves: seq<Expr>, ops: seq<Token>): Expr
    requires |leaves| == |ops| + 1
  {
    Sub(leaves, ops, 0, |ops|)
  }

  /** Splitting a sub-chain at an operator that is weakest on its left and
      strictly weakest on its right: that operator is the root. */
  lemma SubSplit(leaves: seq<Expr>, ops: seq<Token>, i: nat, j: nat, e: nat)
    requires |leaves| == |ops| + 1 && IsLastWeakest(ops, i, e, j)
    ensures Sub(leaves, ops, i, e)
            == Infix(ops[j], Some(Sub(leaves, ops, i, j)), ops[j].literal, Some(Sub(leaves, ops, j + 1, e)))
  {
    var k := LastWeakest(ops, i, e);
    LastWeakestUnique(ops, i, e, j, k);
  }

  /** Three operands: the second operator takes the middle operand only if
      it binds strictly tighter; otherwise the first pair groups first, so
      operators of equal precedence associate to the left. */
  lemma ThreeOperands(a: Expr, b: Expr, c: Expr, o1: Token, o2: Token)
    ensures OpPrec(o1) >= OpPrec(o2) ==>
              Tree([a, b, c], [o1, o2])
              == Infix(o2, Some(Infix(o1, Some(a), o1.literal, Some(b))), o2.literal, Some(c))
    ensures OpPrec(o1) < OpPrec(o2) ==>
              Tree([a, b, c], [o1, o2])
              == Infix(o1, Some(a), o1.literal, Some(Infix(o2, Some(b), o2.literal, Some(c))))
  {
    var leaves, ops := [a, b, c], [o1, o2];
    if OpPrec(o1) >= OpPrec(o2) {
      SubSplit(leaves, ops, 0, 1, 2);
      SubSplit(leaves, ops, 0, 0, 1);
    } else {
      SubSplit(leaves, ops, 0, 0, 2);
      SubSplit(leaves, ops, 1, 1, 2);
    }
  }

  /** The first operator at or after `j` that binds no tighter than `m`; the
      end of the chain if there is none. */
  function StopAt(ops: seq<Token>, j: nat, m: nat): (e: nat)
    requires j <= |ops|
    ensures j <= e <= |ops|
    ensures forall t | j <= t < e :: OpPrec(ops[t]) > m
    ensures e < |ops| ==> OpPrec(ops[e]) <= m
    decreases |ops| - j
  {
    if j == |ops| || OpPrec(ops[j]) <= m then j else StopAt(ops, j + 1, m)
  }

  lemma StopAtSkip(ops: seq<Token>, j: nat, e: nat, m: nat)
    requires j <= e <= |ops|
    requires forall t | j <= t < e :: OpPrec(ops[t]) > m
    ensures StopAt(ops, e, m) == StopAt(ops, j, m)
  {
  }

  /** After operator `j` has taken its right side, the loop resumes at the
      stop of that side with the same invariant and the same final stop. */
  lemma StopAtNext(ops: seq<Token>, i: nat, j: nat, m: nat)
    requires i <= j < |ops| && OpPrec(ops[j]) > m
    requires forall t | i <= t < j :: OpPrec(ops[t]) > m
    requires forall t | i <= t < j :: OpPrec(ops[t]) >= OpPrec(ops[j])
    ensures var e := StopAt(ops, j + 1, OpPrec(ops[j]));
            && StopAt(ops, e, m) == StopAt(ops, j, m)
            && (forall t | i <= t < e :: OpPrec(ops[t]) > m)
            && (e < |ops| ==> forall t | i <= t < e :: OpPrec(ops[t]) >= OpPrec(ops[e]))
  {
    var e := StopAt(ops, j + 1, OpPrec(ops[j]));
    assert forall t | j <= t < e :: OpPrec(ops[t]) > m;
    StopAtSkip(ops, j, e, m);
  }

  function AtomPos(start: nat, k: nat): nat
  {
    start + 2 * k
  }

  function OpPos(start: nat, k: nat): nat
  {
    start + 2 * k + 1
  }

  /** From `start` on, `toks` alternates operands and infix operators: operand
      `k` (for `k >= 1`) sits at `AtomPos(start, k)` and stands for
      `leaves[k]`, operator `k` sits at `OpPos(start, k)`, and the token after
      the last operand is no infix operator. Operand 0 is left open so that
      prefix and grouped first operands fit the same shape. */
  predicate ChainAt(toks: seq<Token>, start: nat, leaves: seq<Expr>, ops: seq<Token>)
  {
    && |leaves| == |ops| + 1
    && (forall k | 1 <= k < |leaves| ::
          IsOperand(TokenAt(toks, AtomPos(start, k))) && leaves[k] == Leaf(TokenAt(toks, AtomPos(start, k))))
    && (forall k | 0 <= k < |ops| :: TokenAt(toks, OpPos(start, k)) == ops[k] && IsInfixOp(ops[k]))
    && !IsInfixOp(TokenAt(toks, OpPos(start, |ops|)))
  }

  /** One round of the infix loop, when the peek token is an operator that
      binds tighter than `m`. */
  lemma LoopContinues(left: Option<Expr>, p: Parser, m: nat)
    requires IsInfixOp(PeekToken(p)) && PeekPrecedence(p) > m
    ensures var r := ParseInfixExpression(left, Advance(p));
            ParseInfixLoop(left, p, m) == if r.Hangs? then Hangs else ParseInfixLoop(r.value, r.p, m)
  {
    PrecedenceKeysAreInfixKeys(PeekToken(p).kind);
  }

  /** The infix loop stops at once when the peek token is no operator or one
      that binds no tighter than `m`. */
  lemma LoopStops(left: Option<Expr>, p: Parser, m: nat)
    requires m >= LOWEST
    requires !IsInfixOp(PeekToken(p)) || PeekPrecedence(p) <= m
    ensures ParseInfixLoop(left, p, m) == Parsed(left, p)
  {
    PrecedenceKeysAreInfixKeys(PeekToken(p).kind);
  }

  /** `parseExpression` hands the current token to its registered prefix
      handler, then runs the loop on what the handler returns. */
  lemma ExpressionDispatch(p: Parser, fn: PrefixParseFn, m: nat)
    requires PrefixParseFns(CurToken(p).kind) == Some(fn)
    ensures var r := ApplyPrefix(fn, p);
            ParseExpression(p, m) == if r.Hangs? then Hangs else ParseInfixLoop(r.value, r.p, m)
  {
  }

  /** The handler of an operand token builds its leaf and consumes nothing. */
  lemma OperandIsLeaf(p: Parser)
    requires IsOperand(CurToken(p))
    ensures PrefixParseFns(CurToken(p).kind).Some?
    ensures ApplyPrefix(PrefixParseFns(CurToken(p).kind).value, p) == Parsed(Some(Leaf(CurToken(p))), p)
  {
  }

  /** An operand token is its own leaf, and the loop takes over from it. */
  lemma OperandStarts(p: Parser, m: nat)
    requires IsOperand(CurToken(p))
    ensures ParseExpression(p, m) == ParseInfixLoop(Some(Leaf(CurToken(p))), p, m)
  {
    OperandIsLeaf(p);
    ExpressionDispatch(p, PrefixParseFns(CurToken(p).kind).value, m);
  }

  /** The infix handler at operator `j` of a chain: its right operand runs
      up to the first later operator that binds no tighter than operator `j`. */
  lemma {:induction false} InfixOnChain(toks: seq<Token>, start: nat, leaves: seq<Expr>, ops: seq<Token>,
                                        errs: seq<string>, left: Expr, j: nat)
    requires ChainAt(toks, start, leaves, ops) && j < |ops|
    ensures var e := StopAt(ops, j + 1, OpPrec(ops[j]));
            ParseInfixExpression(Some(left), Parser(toks, OpPos(start, j), errs))
            == Parsed(Some(Infix(ops[j], Some(left), ops[j].literal, Some(Sub(leaves, ops, j + 1, e)))),
                      Parser(toks, AtomPos(start, e), errs))
    decreases |ops| - j, 0
  {
    var q := Parser(toks, OpPos(start, j), errs);
    var e := StopAt(ops, j + 1, OpPrec(ops[j]));
    assert CurToken(q) == ops[j];
    PrecedenceKeysAreInfixKeys(ops[j].kind);
    assert ParseExpression(Advance(q), CurPrecedence(q))
           == Parsed(Some(Sub(leaves, ops, j + 1, e)), Parser(toks, AtomPos(start, e), errs)) by {
      assert Advance(q) == Parser(toks, AtomPos(start, j + 1), errs);
      assert CurPrecedence(q) == OpPrec(ops[j]);
      assert IsOperand(TokenAt(toks, AtomPos(start, j + 1))) && leaves[j + 1] == Leaf(TokenAt(toks, AtomPos(start, j + 1)));
      ParseOnChain(toks, start, leaves, ops, errs, j + 1, OpPrec(ops[j]));
    }
  }

  /** One round of the loop at chain level: operator `j` binds tighter than
      `m`, so it takes the tree so far as its left side and the operands up
      to the first later operator no tighter than itself as its right. */
  lemma {:induction false} FoldOperator(toks: seq<Token>, start: nat, leaves: seq<Expr>, ops: seq<Token>,
                                        errs: seq<string>, i: nat, j: nat, m: nat)
    requires ChainAt(toks, start, leaves, ops)
    requires i <= j < |ops| && OpPrec(ops[j]) > m
    requires forall t | i <= t < j :: OpPrec(ops[t]) >= OpPrec(ops[j])
    ensures var e := StopAt(ops, j + 1, OpPrec(ops[j]));
            ParseInfixLoop(Some(Sub(leaves, ops, i, j)), Parser(toks, AtomPos(start, j), errs), m)
            == ParseInfixLoop(Some(Sub(leaves, ops, i, e)), Parser(toks, AtomPos(start, e), errs), m)
    decreases |ops| - j, 1
  {
    var p := Parser(toks, AtomPos(start, j), errs);
    var left := Sub(leaves, ops, i, j);
    assert PeekToken(p) == ops[j];
    LoopContinues(Some(left), p, m);
    assert Advance(p) == Parser(toks, OpPos(start, j), errs);
    InfixOnChain(toks, start, leaves, ops, errs, left, j);
    var e := StopAt(ops, j + 1, OpPrec(ops[j]));
    assert IsLastWeakest(ops, i, e, j);
    SubSplit(leaves, ops, i, j, e);
  }

  /** The parser's loop at chain level: with the tree of operands `i..j` as
      its left expression, it folds in operators until the first one no
      tighter than `m`, building the tree of operands `i..StopAt(ops, j, m)`. */
  lemma {:induction false} LoopOnChain(toks: seq<Token>, start: nat, leaves: seq<Expr>, ops: seq<Token>,
                                       errs: seq<string>, i: nat, j: nat, m: nat)
    requires ChainAt(toks, start, leaves, ops)
    requires i <= j <= |ops| && m >= LOWEST
    requires forall t | i <= t < j :: OpPrec(ops[t]) > m
    requires j < |ops| ==> forall t | i <= t < j :: OpPrec(ops[t]) >= OpPrec(ops[j])
    ensures var e := StopAt(ops, j, m);
            ParseInfixLoop(Some(Sub(leaves, ops, i, j)), Parser(toks, AtomPos(start, j), errs), m)
            == Parsed(Some(Sub(leaves, ops, i, e)), Parser(toks, AtomPos(start, e), errs))
    decreases |ops| - j, 2
  {
    if j == |ops| || OpPrec(ops[j]) <= m {
      var p := Parser(toks, AtomPos(start, j), errs);
      assert PeekToken(p) == TokenAt(toks, OpPos(start, j));
      LoopStops(Some(Sub(leaves, ops, i, j)), p, m);
    } else {
      var e' := StopAt(ops, j + 1, OpPrec(ops[j]));
      StopAtNext(ops, i, j, m);
      FoldOperator(toks, start, leaves, ops, errs, i, j, m);
      LoopOnChain(toks, start, leaves, ops, errs, i, e', m);
    }
  }

  /** `parseExpression(m)` at operand `i` of a chain parses exactly operands
      `i..StopAt(ops, i, m)` into their reference tree and records no error. */
  lemma {:induction false} ParseOnChain(toks: seq<Token>, start: nat, leaves: seq<Expr>, ops: seq<Token>,
                                        errs: seq<string>, i: nat, m: nat)
    requires ChainAt(toks, start, leaves, ops)
    requires i <= |ops| && m >= LOWEST
    requires IsOperand(TokenAt(toks, AtomPos(start, i))) && leaves[i] == Leaf(TokenAt(toks, AtomPos(start, i)))
    ensures var e := StopAt(ops, i, m);
            ParseExpression(Parser(toks, AtomPos(start, i), errs), m)
            == Parsed(Some(Sub(leaves, ops, i, e)), Parser(toks, AtomPos(start, e), errs))
    decreases |ops| - i, 3
  {
    var p := Parser(toks, AtomPos(start, i), errs);
    assert Sub(leaves, ops, i, i) == leaves[i];
    OperandStarts(p, m);
    LoopOnChain(toks, start, leaves, ops, errs, i, i, m);
  }

  /** Every operator precedence is above LOWEST, so at LOWEST the whole chain
      is consumed. */
  lemma StopAtLowest(ops: seq<Token>)
    requires forall k | 0 <= k < |ops| :: IsInfixOp(ops[k])
    ensures StopAt(ops, 0, LOWEST) == |ops|
  {
    var e := StopAt(ops, 0, LOWEST);
    if e < |ops| {
      PrecedenceKeysAreInfixKeys(ops[e].kind);
    }
  }

  /** With operand 0 already parsed into `leaves[0]`, the loop at LOWEST
      consumes the whole chain and yields its reference tree. */
  lemma LoopOnWholeChain(toks: seq<Token>, start: nat, leaves: seq<Expr>, ops: seq<Token>, errs: seq<string>)
    requires ChainAt(toks, start, leaves, ops)
    ensures ParseInfixLoop(Some(leaves[0]), Parser(toks, start, errs), LOWEST)
            == Parsed(Some(Tree(leaves, ops)), Parser(toks, AtomPos(start, |ops|), errs))
  {
    StopAtLowest(ops);
    assert Sub(leaves, ops, 0, 0) == leaves[0];
    LoopOnChain(toks, start, leaves, ops, errs, 0, 0, LOWEST);
  }

  /** Precedence climbing on an operator chain whose first operand is a plain
      operand builds the reference tree, consumes the whole chain and records
      no error. */
  lemma ParseChain(toks: seq<Token>, start: nat, leaves: seq<Expr>, ops: seq<Token>, errs: seq<string>)
    requires ChainAt(toks, start, leaves, ops)
    requires IsOperand(TokenAt(toks, start)) && leaves[0] == Leaf(TokenAt(toks, start))
    ensures ParseExpression(Parser(toks, start, errs), LOWEST)
            == Parsed(Some(Tree(leaves, ops)), Parser(toks, AtomPos(start, |ops|), errs))
  {
    OperandStarts(Parser(toks, start, errs), LOWEST);
    LoopOnWholeChain(toks, start, leaves, ops, errs);
  }

  /** An operand followed by nothing that binds tighter than `m` is parsed
      alone. */
  lemma OperandAlone(p: Parser, m: nat)
    requires IsOperand(CurToken(p)) && m >= LOWEST
    requires !IsInfixOp(PeekToken(p)) || PeekPrecedence(p) <= m
    ensures ParseExpression(p, m) == Parsed(Some(Leaf(CurToken(p))), p)
  {
    OperandStarts(p, m);
    LoopStops(Some(Leaf(CurToken(p))), p, m);
  }

  /** `-x` and `!x` start with the prefix handler, and the loop takes over
      from what it returns. */
  lemma PrefixStarts(p: Parser, m: nat)
    requires CurToken(p).kind in {MINUS, BANG}
    ensures var r := ParsePrefixExpression(p);
            ParseExpression(p, m) == if r.Hangs? then Hangs else ParseInfixLoop(r.value, r.p, m)
  {
    assert PrefixParseFns(CurToken(p).kind) == Some(ParsePrefixExpressionFn);
    ExpressionDispatch(p, ParsePrefixExpressionFn, m);
  }

  /** A group whose inside parses to `e` and is followed by `)` yields `e`
      itself, with `)` as the current token. */
  lemma GroupCloses(p: Parser, e: Expr, q: Parser)
    requires ParseExpression(Advance(p), LOWEST) == Parsed(Some(e), q)
    requires PeekToken(q).kind == RPAREN
    ensures ParseGroupedExpression(p) == Parsed(Some(e), Advance(q))
  {
  }

  /** A group whose inside is not followed by `)` yields nil, stays on the
      inside's last token and records one "expected next token" error. */
  lemma GroupUnclosed(p: Parser, e: Option<Expr>, q: Parser)
    requires ParseExpression(Advance(p), LOWEST) == Parsed(e, q)
    requires PeekToken(q).kind != RPAREN
    ensures ParseGroupedExpression(p) == Parsed(None, AddError(q, PeekErrorMessage(RPAREN, PeekToken(q).kind)))
  {
  }

  /** A group whose inside parses to `e` and is followed by `)` stands for
      `e` itself: the loop takes over from `)` with `e` as left expression. */
  lemma GroupIsOperand(p: Parser, e: Expr, q: Parser, m: nat)
    requires CurToken(p).kind == LPAREN
    requires ParseExpression(Advance(p), LOWEST) == Parsed(Some(e), q)
    requires PeekToken(q).kind == RPAREN
    ensures ParseExpression(p, m) == ParseInfixLoop(Some(e), Advance(q), m)
  {
    GroupCloses(p, e, q);
    assert PrefixParseFns(CurToken(p).kind) == Some(ParseGroupedExpressionFn);
    assert ApplyPrefix(ParseGroupedExpressionFn, p) == ParseGroupedExpression(p);
    ExpressionDispatch(p, ParseGroupedExpressionFn, m);
  }

  /** A prefix operator binds tighter than every infix operator: `-a` (or
      `!a`) as the first operand of a chain becomes one leaf of the tree. */
  lemma ParsePrefixedChain(toks: seq<Token>, start: nat, leaves: seq<Expr>, ops: seq<Token>, errs: seq<string>)
    requires start >= 1 && TokenAt(toks, start - 1).kind in {MINUS, BANG}
    requires ChainAt(toks, start, leaves, ops) && IsOperand(TokenAt(toks, start))
    requires var op := TokenAt(toks, start - 1);
             leaves[0] == Prefix(op, op.literal, Some(Leaf(TokenAt(toks, start))))
    ensures ParseExpression(Parser(toks, start - 1, errs), LOWEST)
            == Parsed(Some(Tree(leaves, ops)), Parser(toks, AtomPos(start, |ops|), errs))
  {
    var p := Parser(toks, start - 1, errs);
    var q := Parser(toks, start, errs);
    assert Advance(p) == q;
    if |ops| > 0 {
      assert PeekToken(q) == ops[0];
      PrecedenceKeysAreInfixKeys(ops[0].kind);
    }
    OperandAlone(q, PREFIX);
    assert ParsePrefixExpression(p) == Parsed(Some(leaves[0]), q);
    PrefixStarts(p, LOWEST);
    LoopOnWholeChain(toks, start, leaves, ops, errs);
  }

  /** A parenthesised chain followed by `)` is parsed into its own tree, and
      the loop takes over from `)` with that tree as left expression. */
  lemma GroupedChainIsOperand(toks: seq<Token>, open: nat, inner: seq<Expr>, innerOps: seq<Token>,
                              errs: seq<string>)
    requires TokenAt(toks, open).kind == LPAREN
    requires ChainAt(toks, open + 1, inner, innerOps) && IsOperand(TokenAt(toks, open + 1))
    requires inner[0] == Leaf(TokenAt(toks, open + 1))
    requires TokenAt(toks, OpPos(open + 1, |innerOps|)).kind == RPAREN
    ensures ParseExpression(Parser(toks, open, errs), LOWEST)
            == ParseInfixLoop(Some(Tree(inner, innerOps)), Parser(toks, OpPos(open + 1, |innerOps|), errs), LOWEST)
  {
    var p := Parser(toks, open, errs);
    var afterInner := Parser(toks, AtomPos(open + 1, |innerOps|), errs);
    assert Advance(p) == Parser(toks, open + 1, errs);
    assert afterInner.pos + 1 == OpPos(open + 1, |innerOps|);
    assert PeekToken(afterInner).kind == RPAREN;
    ParseChain(toks, open + 1, inner, innerOps, errs);
    GroupIsOperand(p, Tree(inner, innerOps), afterInner, LOWEST);
  }

  /** A parenthesised chain is one operand of the enclosing chain: the group
      adds no node of its own, and its inside is grouped first whatever the
      operators outside. */
  lemma ParseGroupedChain(toks: seq<Token>, open: nat, inner: seq<Expr>, innerOps: seq<Token>,
                          leaves: seq<Expr>, ops: seq<Token>, errs: seq<string>)
    requires TokenAt(toks, open).kind == LPAREN
    requires ChainAt(toks, open + 1, inner, innerOps) && IsOperand(TokenAt(toks, open + 1))
    requires inner[0] == Leaf(TokenAt(toks, open + 1))
    requires TokenAt(toks, OpPos(open + 1, |innerOps|)).kind == RPAREN
    requires ChainAt(toks, OpPos(open + 1, |innerOps|), leaves, ops)
    requires leaves[0] == Tree(inner, innerOps)
    ensures ParseExpression(Parser(toks, open, errs), LOWEST)
            == Parsed(Some(Tree(leaves, ops)), Parser(toks, AtomPos(OpPos(open + 1, |innerOps|), |ops|), errs))
  {
    GroupedChainIsOperand(toks, open, inner, innerOps, errs);
    LoopOnWholeChain(toks, OpPos(open + 1, |innerOps|), leaves, ops, errs);
  }
}
