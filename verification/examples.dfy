/**
 * The parser on concrete programs: the canonical renderings of the
 * precedence examples and the shape of an if/else, each stated on its source
 * text through `ParseSource`.
 *
 * Each text is lexed by the same ladder of lemmas, which keeps every proof
 * obligation small:
 *  - `<X>Spelling` turns the text literal into facts about its bytes (in
 *    chunks of eight for the long if/else text);
 *  - `<X>Entries` reads the expected stream `<X>` entry by entry;
 *  - `<X>Token<k>`, from the last token down to the first, extends the
 *    byte-level description `Lexer.Lexes` by one token and the blanks after it;
 *  - `<X>Stream` chains them and applies `Lexer.LexesTokens`;
 *  - `<X>Lexes` is the result: `Lexer.Tokens` of the text is `<X>`.
 * The parse of `<X>` is proved separately on the token list, and the headline
 * lemma puts the two together.
 */
module Examples {
  import opened Wrappers
  import opened Token
  import Lexer
  import opened Ast
  import opened IntLiteral
  import opened Parser
  import opened Precedence

  function Int(lit: string): Token { Token(INT, lit) }
  function Name(lit: string): Token { Token(IDENT, lit) }
  const Plus: Token := Token(PLUS, "+")
  const Star: Token := Token(ASTERISK, "*")
  const Minus: Token := Token(MINUS, "-")
  const Less: Token := Token(LT, "<")
  const Greater: Token := Token(GT, ">")
  const Equal: Token := Token(EQ, "==")
  const False: Token := Token(FALSE, "false")
  const Open: Token := Token(LPAREN, "(")
  const Close: Token := Token(RPAREN, ")")
  const Begin: Token := Token(LBRACE, "{")
  const End: Token := Token(RBRACE, "}")
  const Semi: Token := Token(SEMICOLON, ";")

  /** A one-digit literal other than `0` is its decimal value. */
  lemma OneDigit(c: char)
    requires '1' <= c <= '9'
    ensures ParseInt([c]) == Success(DigitValue(c))
  {
    assert [c][1..] == [];
    assert AllDigits([c]);
    assert Fold([c], 10, 0) == Fold([], 10, DigitValue(c));
  }

  function Num(c: char): Expr
    requires '1' <= c <= '9'
  {
    IntegerLiteral(Int([c]), DigitValue(c))
  }

  function Var(x: string): Expr
  {
    Ident(Identifier(Name(x), x))
  }

  lemma NumIsLeaf(c: char)
    requires '1' <= c <= '9'
    ensures IsOperand(Int([c])) && Leaf(Int([c])) == Num(c)
    ensures RenderExpr(Num(c)) == Success([c])
  {
    OneDigit(c);
  }

  function Bin(op: Token, l: Expr, r: Expr): Expr
  {
    Infix(op, Some(l), op.literal, Some(r))
  }

  /** An expression statement whose expression ends at `n`: the statement
      ends there too, or on the `;` right after it. */
  lemma ExpressionStatementAt(toks: seq<Token>, e: Expr, n: nat)
    requires |toks| == n + 1 || (|toks| == n + 2 && toks[n + 1] == Semi)
    requires toks[0].kind !in {LET, RETURN, EOF}
    requires ParseExpression(Parser(toks, 0, []), LOWEST) == Parsed(Some(e), Parser(toks, n, []))
    ensures ParseStatement(Parser(toks, 0, []))
            == Parsed(ExpressionStatement(toks[0], Some(e)), Parser(toks, |toks| - 1, []))
  {
    var p := Parser(toks, 0, []);
    var q := Parser(toks, n, []);
    assert CurToken(p) == toks[0];
    ExpressionStatementStep(p, Some(e), q);
    if |toks| == n + 2 {
      assert PeekToken(q) == Semi;
    } else {
      assert PeekToken(q).kind == EOF;
    }
  }

  /** A program that is one expression, with or without a closing `;`, is
      one expression statement and records no error. */
  lemma ExpressionProgram(toks: seq<Token>, e: Expr, n: nat)
    requires |toks| == n + 1 || (|toks| == n + 2 && toks[n + 1] == Semi)
    requires toks[0].kind !in {LET, RETURN, EOF}
    requires ParseExpression(Parser(toks, 0, []), LOWEST) == Parsed(Some(e), Parser(toks, n, []))
    ensures ParseProgram(toks)
            == Parsed(Program([ExpressionStatement(toks[0], Some(e))]), Parser(toks, |toks|, []))
  {
    var p := Parser(toks, 0, []);
    var s := ExpressionStatement(toks[0], Some(e));
    var after := Parser(toks, |toks| - 1, []);
    ExpressionStatementAt(toks, e, n);
    ProgramLoopStep(p, [], s, after);
    assert CurToken(Advance(after)).kind == EOF;
    assert [] + [s] == [s];
  }

  // 5 + 5 * 2;

  const SumProduct: seq<Token> := [Int("5"), Plus, Int("5"), Star, Int("2"), Semi]

  // One lemma per token of `5 + 5 * 2;`: the bytes it reads, the token it
  // makes, and the blanks up to the next token.

  lemma SumProductToken5(t: seq<Lexer.Byte>, toks: seq<Token>)
    requires |t| == 10 && t[9] == ';'
    requires |toks| == 6 && toks[5] == Semi
    requires Lexer.Lexes(t, 10, 10, toks[6..])
    ensures Lexer.Lexes(t, 9, 10, toks[5..])
  {
    Lexer.LexesSymbolAt(t, 9, 10, toks, 5);
  }

  lemma SumProductToken4(t: seq<Lexer.Byte>, toks: seq<Token>)
    requires |t| == 10 && t[8] == '2' && t[9] == ';'
    requires |toks| == 6 && toks[4] == Int("2")
    requires Lexer.Lexes(t, 9, 10, toks[5..])
    ensures Lexer.Lexes(t, 8, 10, toks[4..])
  {
    assert t[8..9] == "2";
    Lexer.LexesNumberAt(t, 8, 9, 10, toks, 4);
  }

  lemma SumProductToken3(t: seq<Lexer.Byte>, toks: seq<Token>)
    requires |t| == 10 && t[6] == '*' && t[7] == ' ' && t[8] == '2'
    requires |toks| == 6 && toks[3] == Star
    requires Lexer.Lexes(t, 8, 10, toks[4..])
    ensures Lexer.Lexes(t, 6, 10, toks[3..])
  {
    Lexer.LexesBlankAt(t, 7, 10, toks, 4);
    Lexer.LexesSymbolAt(t, 6, 10, toks, 3);
  }

  lemma SumProductToken2(t: seq<Lexer.Byte>, toks: seq<Token>)
    requires |t| == 10 && t[4] == '5' && t[5] == ' ' && t[6] == '*'
    requires |toks| == 6 && toks[2] == Int("5")
    requires Lexer.Lexes(t, 6, 10, toks[3..])
    ensures Lexer.Lexes(t, 4, 10, toks[2..])
  {
    Lexer.LexesBlankAt(t, 5, 10, toks, 3);
    assert t[4..5] == "5";
    Lexer.LexesNumberAt(t, 4, 5, 10, toks, 2);
  }

  lemma SumProductToken1(t: seq<Lexer.Byte>, toks: seq<Token>)
    requires |t| == 10 && t[2] == '+' && t[3] == ' ' && t[4] == '5'
    requires |toks| == 6 && toks[1] == Plus
    requires Lexer.Lexes(t, 4, 10, toks[2..])
    ensures Lexer.Lexes(t, 2, 10, toks[1..])
  {
    Lexer.LexesBlankAt(t, 3, 10, toks, 2);
    Lexer.LexesSymbolAt(t, 2, 10, toks, 1);
  }

  lemma SumProductToken0(t: seq<Lexer.Byte>, toks: seq<Token>)
    requires |t| == 10 && t[0] == '5' && t[1] == ' ' && t[2] == '+'
    requires |toks| == 6 && toks[0] == Int("5")
    requires Lexer.Lexes(t, 2, 10, toks[1..])
    ensures Lexer.Lexes(t, 0, 10, toks[0..])
  {
    Lexer.LexesBlankAt(t, 1, 10, toks, 1);
    assert t[0..1] == "5";
    Lexer.LexesNumberAt(t, 0, 1, 10, toks, 0);
  }

  /** The entries of `SumProduct`, one by one. */
  lemma SumProductEntries(toks: seq<Token>)
    requires toks == SumProduct
    ensures |toks| == 6 && toks[0] == Int("5") && toks[1] == Plus && toks[2] == Int("5") && toks[3] == Star && toks[4] == Int("2") && toks[5] == Semi
  {
  }

  /** The bytes of `5 + 5 * 2;`, one by one. */
  lemma SumProductSpelling(t: seq<Lexer.Byte>)
    requires t == "5 + 5 * 2;"
    ensures |t| == 10 && t[0] == '5' && t[1] == ' ' && t[2] == '+' && t[3] == ' ' && t[4] == '5' && t[5] == ' ' && t[6] == '*' && t[7] == ' ' && t[8] == '2' && t[9] == ';'
  {
  }

  /** The lexer turns the bytes of `5 + 5 * 2;` into exactly this stream. */
  lemma SumProductStream(t: seq<Lexer.Byte>)
    requires |t| == 10 && t[0] == '5' && t[1] == ' ' && t[2] == '+' && t[3] == ' ' && t[4] == '5' && t[5] == ' ' && t[6] == '*' && t[7] == ' ' && t[8] == '2' && t[9] == ';'
    ensures Lexer.Tokens(t) == SumProduct
  {
    SumProductEntries(SumProduct);
    assert SumProduct[6..] == [];
    SumProductToken5(t, SumProduct);
    SumProductToken4(t, SumProduct);
    SumProductToken3(t, SumProduct);
    SumProductToken2(t, SumProduct);
    SumProductToken1(t, SumProduct);
    SumProductToken0(t, SumProduct);
    assert SumProduct[0..] == SumProduct;
    Lexer.LexesTokens(t, SumProduct);
  }

  /** The lexer turns `5 + 5 * 2;` into exactly this stream. */
  lemma SumProductLexes(t: seq<Lexer.Byte>)
    requires t == "5 + 5 * 2;"
    ensures Lexer.Tokens(t) == SumProduct
  {
    SumProductSpelling(t);
    SumProductStream(t);
  }

  lemma SumProductChain()
    ensures IsOperand(Int("5")) && Leaf(Int("5")) == Num('5')
    ensures ChainAt(SumProduct, 0, [Num('5'), Num('5'), Num('2')], [Plus, Star])
  {
    NumIsLeaf('5');
    NumIsLeaf('2');
  }

  lemma SumProductTree()
    ensures ParseExpression(Parser(SumProduct, 0, []), LOWEST)
            == Parsed(Some(Bin(Plus, Num('5'), Bin(Star, Num('5'), Num('2')))), Parser(SumProduct, 4, []))
  {
    SumProductChain();
    ParseChain(SumProduct, 0, [Num('5'), Num('5'), Num('2')], [Plus, Star], []);
    SumProductReference();
  }

  lemma SumProductReference()
    ensures Tree([Num('5'), Num('5'), Num('2')], [Plus, Star]) == Bin(Plus, Num('5'), Bin(Star, Num('5'), Num('2')))
  {
    ThreeOperands(Num('5'), Num('5'), Num('2'), Plus, Star);
  }

  lemma SumProductText()
    ensures RenderExpr(Bin(Plus, Num('5'), Bin(Star, Num('5'), Num('2')))) == Success("(5 + (5 * 2))")
  {
    NumIsLeaf('5');
    NumIsLeaf('2');
    assert RenderExpr(Bin(Star, Num('5'), Num('2'))) == Success("(5 * 2)") by {
      assert "(" + "5" + " " + "*" + " " + "2" + ")" == "(5 * 2)";
    }
    assert "(" + "5" + " " + "+" + " " + "(5 * 2)" + ")" == "(5 + (5 * 2))";
  }

  /** `5 + 5 * 2;` renders as `(5 + (5 * 2))`: the product binds tighter. */
  lemma ProductBindsTighter()
    ensures var r := ParseSource("5 + 5 * 2;");
            r.Parsed? && r.p.errors == [] && RenderProgram(r.value) == Success("(5 + (5 * 2))")
  {
    var e := Bin(Plus, Num('5'), Bin(Star, Num('5'), Num('2')));
    SumProductLexes("5 + 5 * 2;");
    SumProductTree();
    ExpressionProgram(SumProduct, e, 4);
    SumProductText();
    RenderExpressionProgram(Int("5"), e);
  }

  // a + b + c;

  const SumSum: seq<Token> := [Name("a"), Plus, Name("b"), Plus, Name("c"), Semi]

  // One lemma per token of `a + b + c;`: the bytes it reads, the token it
  // makes, and the blanks up to the next token.

  lemma SumSumToken5(t: seq<Lexer.Byte>, toks: seq<Token>)
    requires |t| == 10 && t[9] == ';'
    requires |toks| == 6 && toks[5] == Semi
    requires Lexer.Lexes(t, 10, 10, toks[6..])
    ensures Lexer.Lexes(t, 9, 10, toks[5..])
  {
    Lexer.LexesSymbolAt(t, 9, 10, toks, 5);
  }

  lemma SumSumToken4(t: seq<Lexer.Byte>, toks: seq<Token>)
    requires |t| == 10 && t[8] == 'c' && t[9] == ';'
    requires |toks| == 6 && toks[4] == Name("c")
    requires Lexer.Lexes(t, 9, 10, toks[5..])
    ensures Lexer.Lexes(t, 8, 10, toks[4..])
  {
    assert t[8..9] == "c";
    Lexer.LexesWordAt(t, 8, 9, 10, toks, 4);
  }

  lemma SumSumToken3(t: seq<Lexer.Byte>, toks: seq<Token>)
    requires |t| == 10 && t[6] == '+' && t[7] == ' ' && t[8] == 'c'
    requires |toks| == 6 && toks[3] == Plus
    requires Lexer.Lexes(t, 8, 10, toks[4..])
    ensures Lexer.Lexes(t, 6, 10, toks[3..])
  {
    Lexer.LexesBlankAt(t, 7, 10, toks, 4);
    Lexer.LexesSymbolAt(t, 6, 10, toks, 3);
  }

  lemma SumSumToken2(t: seq<Lexer.Byte>, toks: seq<Token>)
    requires |t| == 10 && t[4] == 'b' && t[5] == ' ' && t[6] == '+'
    requires |toks| == 6 && toks[2] == Name("b")
    requires Lexer.Lexes(t, 6, 10, toks[3..])
    ensures Lexer.Lexes(t, 4, 10, toks[2..])
  {
    Lexer.LexesBlankAt(t, 5, 10, toks, 3);
    assert t[4..5] == "b";
    Lexer.LexesWordAt(t, 4, 5, 10, toks, 2);
  }

  lemma SumSumToken1(t: seq<Lexer.Byte>, toks: seq<Token>)
    requires |t| == 10 && t[2] == '+' && t[3] == ' ' && t[4] == 'b'
    requires |toks| == 6 && toks[1] == Plus
    requires Lexer.Lexes(t, 4, 10, toks[2..])
    ensures Lexer.Lexes(t, 2, 10, toks[1..])
  {
    Lexer.LexesBlankAt(t, 3, 10, toks, 2);
    Lexer.LexesSymbolAt(t, 2, 10, toks, 1);
  }

  lemma SumSumToken0(t: seq<Lexer.Byte>, toks: seq<Token>)
    requires |t| == 10 && t[0] == 'a' && t[1] == ' ' && t[2] == '+'
    requires |toks| == 6 && toks[0] == Name("a")
    requires Lexer.Lexes(t, 2, 10, toks[1..])
    ensures Lexer.Lexes(t, 0, 10, toks[0..])
  {
    Lexer.LexesBlankAt(t, 1, 10, toks, 1);
    assert t[0..1] == "a";
    Lexer.LexesWordAt(t, 0, 1, 10, toks, 0);
  }

  /** The entries of `SumSum`, one by one. */
  lemma SumSumEntries(toks: seq<Token>)
    requires toks == SumSum
    ensures |toks| == 6 && toks[0] == Name("a") && toks[1] == Plus && toks[2] == Name("b") && toks[3] == Plus && toks[4] == Name("c") && toks[5] == Semi
  {
  }

  /** The bytes of `a + b + c;`, one by one. */
  lemma SumSumSpelling(t: seq<Lexer.Byte>)
    requires t == "a + b + c;"
    ensures |t| == 10 && t[0] == 'a' && t[1] == ' ' && t[2] == '+' && t[3] == ' ' && t[4] == 'b' && t[5] == ' ' && t[6] == '+' && t[7] == ' ' && t[8] == 'c' && t[9] == ';'
  {
  }

  /** The lexer turns the bytes of `a + b + c;` into exactly this stream. */
  lemma SumSumStream(t: seq<Lexer.Byte>)
    requires |t| == 10 && t[0] == 'a' && t[1] == ' ' && t[2] == '+' && t[3] == ' ' && t[4] == 'b' && t[5] == ' ' && t[6] == '+' && t[7] == ' ' && t[8] == 'c' && t[9] == ';'
    ensures Lexer.Tokens(t) == SumSum
  {
    SumSumEntries(SumSum);
    assert SumSum[6..] == [];
    SumSumToken5(t, SumSum);
    SumSumToken4(t, SumSum);
    SumSumToken3(t, SumSum);
    SumSumToken2(t, SumSum);
    SumSumToken1(t, SumSum);
    SumSumToken0(t, SumSum);
    assert SumSum[0..] == SumSum;
    Lexer.LexesTokens(t, SumSum);
  }

  /** The lexer turns `a + b + c;` into exactly this stream. */
  lemma SumSumLexes(t: seq<Lexer.Byte>)
    requires t == "a + b + c;"
    ensures Lexer.Tokens(t) == SumSum
  {
    SumSumSpelling(t);
    SumSumStream(t);
  }

  lemma SumSumTree()
    ensures ParseExpression(Parser(SumSum, 0, []), LOWEST)
            == Parsed(Some(Bin(Plus, Bin(Plus, Var("a"), Var("b")), Var("c"))), Parser(SumSum, 4, []))
  {
    var leaves, ops := [Var("a"), Var("b"), Var("c")], [Plus, Plus];
    assert ChainAt(SumSum, 0, leaves, ops);
    ParseChain(SumSum, 0, leaves, ops, []);
    SumSumReference();
  }

  lemma SumSumReference()
    ensures Tree([Var("a"), Var("b"), Var("c")], [Plus, Plus]) == Bin(Plus, Bin(Plus, Var("a"), Var("b")), Var("c"))
  {
    ThreeOperands(Var("a"), Var("b"), Var("c"), Plus, Plus);
  }

  lemma SumSumText()
    ensures RenderExpr(Bin(Plus, Bin(Plus, Var("a"), Var("b")), Var("c"))) == Success("((a + b) + c)")
  {
    assert RenderExpr(Bin(Plus, Var("a"), Var("b"))) == Success("(a + b)") by {
      assert "(" + "a" + " " + "+" + " " + "b" + ")" == "(a + b)";
    }
    assert "(" + "(a + b)" + " " + "+" + " " + "c" + ")" == "((a + b) + c)";
  }

  /** `a + b + c;` renders as `((a + b) + c)`: equal operators associate to
      the left. */
  lemma SumIsLeftAssociative()
    ensures var r := ParseSource("a + b + c;");
            r.Parsed? && r.p.errors == [] && RenderProgram(r.value) == Success("((a + b) + c)")
  {
    var e := Bin(Plus, Bin(Plus, Var("a"), Var("b")), Var("c"));
    SumSumLexes("a + b + c;");
    SumSumTree();
    ExpressionProgram(SumSum, e, 4);
    SumSumText();
    RenderExpressionProgram(Name("a"), e);
  }

  // -a * b;

  const NegProduct: seq<Token> := [Minus, Name("a"), Star, Name("b"), Semi]

  // One lemma per token of `-a * b;`: the bytes it reads, the token it
  // makes, and the blanks up to the next token.

  lemma NegProductToken4(t: seq<Lexer.Byte>, toks: seq<Token>)
    requires |t| == 7 && t[6] == ';'
    requires |toks| == 5 && toks[4] == Semi
    requires Lexer.Lexes(t, 7, 7, toks[5..])
    ensures Lexer.Lexes(t, 6, 7, toks[4..])
  {
    Lexer.LexesSymbolAt(t, 6, 7, toks, 4);
  }

  lemma NegProductToken3(t: seq<Lexer.Byte>, toks: seq<Token>)
    requires |t| == 7 && t[5] == 'b' && t[6] == ';'
    requires |toks| == 5 && toks[3] == Name("b")
    requires Lexer.Lexes(t, 6, 7, toks[4..])
    ensures Lexer.Lexes(t, 5, 7, toks[3..])
  {
    assert t[5..6] == "b";
    Lexer.LexesWordAt(t, 5, 6, 7, toks, 3);
  }

  lemma NegProductToken2(t: seq<Lexer.Byte>, toks: seq<Token>)
    requires |t| == 7 && t[3] == '*' && t[4] == ' ' && t[5] == 'b'
    requires |toks| == 5 && toks[2] == Star
    requires Lexer.Lexes(t, 5, 7, toks[3..])
    ensures Lexer.Lexes(t, 3, 7, toks[2..])
  {
    Lexer.LexesBlankAt(t, 4, 7, toks, 3);
    Lexer.LexesSymbolAt(t, 3, 7, toks, 2);
  }

  lemma NegProductToken1(t: seq<Lexer.Byte>, toks: seq<Token>)
    requires |t| == 7 && t[1] == 'a' && t[2] == ' ' && t[3] == '*'
    requires |toks| == 5 && toks[1] == Name("a")
    requires Lexer.Lexes(t, 3, 7, toks[2..])
    ensures Lexer.Lexes(t, 1, 7, toks[1..])
  {
    Lexer.LexesBlankAt(t, 2, 7, toks, 2);
    assert t[1..2] == "a";
    Lexer.LexesWordAt(t, 1, 2, 7, toks, 1);
  }

  lemma NegProductToken0(t: seq<Lexer.Byte>, toks: seq<Token>)
    requires |t| == 7 && t[0] == '-' && t[1] == 'a'
    requires |toks| == 5 && toks[0] == Minus
    requires Lexer.Lexes(t, 1, 7, toks[1..])
    ensures Lexer.Lexes(t, 0, 7, toks[0..])
  {
    Lexer.LexesSymbolAt(t, 0, 7, toks, 0);
  }

  /** The entries of `NegProduct`, one by one. */
  lemma NegProductEntries(toks: seq<Token>)
    requires toks == NegProduct
    ensures |toks| == 5 && toks[0] == Minus && toks[1] == Name("a") && toks[2] == Star && toks[3] == Name("b") && toks[4] == Semi
  {
  }

  /** The bytes of `-a * b;`, one by one. */
  lemma NegProductSpelling(t: seq<Lexer.Byte>)
    requires t == "-a * b;"
    ensures |t| == 7 && t[0] == '-' && t[1] == 'a' && t[2] == ' ' && t[3] == '*' && t[4] == ' ' && t[5] == 'b' && t[6] == ';'
  {
  }

  /** The lexer turns the bytes of `-a * b;` into exactly this stream. */
  lemma NegProductStream(t: seq<Lexer.Byte>)
    requires |t| == 7 && t[0] == '-' && t[1] == 'a' && t[2] == ' ' && t[3] == '*' && t[4] == ' ' && t[5] == 'b' && t[6] == ';'
    ensures Lexer.Tokens(t) == NegProduct
  {
    NegProductEntries(NegProduct);
    assert NegProduct[5..] == [];
    NegProductToken4(t, NegProduct);
    NegProductToken3(t, NegProduct);
    NegProductToken2(t, NegProduct);
    NegProductToken1(t, NegProduct);
    NegProductToken0(t, NegProduct);
    assert NegProduct[0..] == NegProduct;
    Lexer.LexesTokens(t, NegProduct);
  }

  /** The lexer turns `-a * b;` into exactly this stream. */
  lemma NegProductLexes(t: seq<Lexer.Byte>)
    requires t == "-a * b;"
    ensures Lexer.Tokens(t) == NegProduct
  {
    NegProductSpelling(t);
    NegProductStream(t);
  }

  function Neg(e: Expr): Expr
  {
    Prefix(Minus, "-", Some(e))
  }

  lemma NegProductTree()
    ensures ParseExpression(Parser(NegProduct, 0, []), LOWEST)
            == Parsed(Some(Bin(Star, Neg(Var("a")), Var("b"))), Parser(NegProduct, 3, []))
  {
    var leaves, ops := [Neg(Var("a")), Var("b")], [Star];
    assert ChainAt(NegProduct, 1, leaves, ops);
    ParsePrefixedChain(NegProduct, 1, leaves, ops, []);
    TwoOperands(Neg(Var("a")), Var("b"), Star);
  }

  lemma NegProductText()
    ensures RenderExpr(Bin(Star, Neg(Var("a")), Var("b"))) == Success("((-a) * b)")
  {
    assert RenderExpr(Neg(Var("a"))) == Success("(-a)") by {
      assert "(" + "-" + "a" + ")" == "(-a)";
    }
    assert "(" + "(-a)" + " " + "*" + " " + "b" + ")" == "((-a) * b)";
  }

  /** `-a * b;` renders as `((-a) * b)`: a prefix operator takes only its
      operand. */
  lemma PrefixBindsTighter()
    ensures var r := ParseSource("-a * b;");
            r.Parsed? && r.p.errors == [] && RenderProgram(r.value) == Success("((-a) * b)")
  {
    var e := Bin(Star, Neg(Var("a")), Var("b"));
    NegProductLexes("-a * b;");
    NegProductTree();
    ExpressionProgram(NegProduct, e, 3);
    NegProductText();
    RenderExpressionProgram(Minus, e);
  }

  // (5 + 5) * 2;

  const GroupedSum: seq<Token> := [Open, Int("5"), Plus, Int("5"), Close, Star, Int("2"), Semi]

  // One lemma per token of `(5 + 5) * 2;`: the bytes it reads, the token it
  // makes, and the blanks up to the next token.

  lemma GroupedSumToken7(t: seq<Lexer.Byte>, toks: seq<Token>)
    requires |t| == 12 && t[11] == ';'
    requires |toks| == 8 && toks[7] == Semi
    requires Lexer.Lexes(t, 12, 12, toks[8..])
    ensures Lexer.Lexes(t, 11, 12, toks[7..])
  {
    Lexer.LexesSymbolAt(t, 11, 12, toks, 7);
  }

  lemma GroupedSumToken6(t: seq<Lexer.Byte>, toks: seq<Token>)
    requires |t| == 12 && t[10] == '2' && t[11] == ';'
    requires |toks| == 8 && toks[6] == Int("2")
    requires Lexer.Lexes(t, 11, 12, toks[7..])
    ensures Lexer.Lexes(t, 10, 12, toks[6..])
  {
    assert t[10..11] == "2";
    Lexer.LexesNumberAt(t, 10, 11, 12, toks, 6);
  }

  lemma GroupedSumToken5(t: seq<Lexer.Byte>, toks: seq<Token>)
    requires |t| == 12 && t[8] == '*' && t[9] == ' ' && t[10] == '2'
    requires |toks| == 8 && toks[5] == Star
    requires Lexer.Lexes(t, 10, 12, toks[6..])
    ensures Lexer.Lexes(t, 8, 12, toks[5..])
  {
    Lexer.LexesBlankAt(t, 9, 12, toks, 6);
    Lexer.LexesSymbolAt(t, 8, 12, toks, 5);
  }

  lemma GroupedSumToken4(t: seq<Lexer.Byte>, toks: seq<Token>)
    requires |t| == 12 && t[6] == ')' && t[7] == ' ' && t[8] == '*'
    requires |toks| == 8 && toks[4] == Close
    requires Lexer.Lexes(t, 8, 12, toks[5..])
    ensures Lexer.Lexes(t, 6, 12, toks[4..])
  {
    Lexer.LexesBlankAt(t, 7, 12, toks, 5);
    Lexer.LexesSymbolAt(t, 6, 12, toks, 4);
  }

  lemma GroupedSumToken3(t: seq<Lexer.Byte>, toks: seq<Token>)
    requires |t| == 12 && t[5] == '5' && t[6] == ')'
    requires |toks| == 8 && toks[3] == Int("5")
    requires Lexer.Lexes(t, 6, 12, toks[4..])
    ensures Lexer.Lexes(t, 5, 12, toks[3..])
  {
    assert t[5..6] == "5";
    Lexer.LexesNumberAt(t, 5, 6, 12, toks, 3);
  }

  lemma GroupedSumToken2(t: seq<Lexer.Byte>, toks: seq<Token>)
    requires |t| == 12 && t[3] == '+' && t[4] == ' ' && t[5] == '5'
    requires |toks| == 8 && toks[2] == Plus
    requires Lexer.Lexes(t, 5, 12, toks[3..])
    ensures Lexer.Lexes(t, 3, 12, toks[2..])
  {
    Lexer.LexesBlankAt(t, 4, 12, toks, 3);
    Lexer.LexesSymbolAt(t, 3, 12, toks, 2);
  }

  lemma GroupedSumToken1(t: seq<Lexer.Byte>, toks: seq<Token>)
    requires |t| == 12 && t[1] == '5' && t[2] == ' ' && t[3] == '+'
    requires |toks| == 8 && toks[1] == Int("5")
    requires Lexer.Lexes(t, 3, 12, toks[2..])
    ensures Lexer.Lexes(t, 1, 12, toks[1..])
  {
    Lexer.LexesBlankAt(t, 2, 12, toks, 2);
    assert t[1..2] == "5";
    Lexer.LexesNumberAt(t, 1, 2, 12, toks, 1);
  }

  lemma GroupedSumToken0(t: seq<Lexer.Byte>, toks: seq<Token>)
    requires |t| == 12 && t[0] == '(' && t[1] == '5'
    requires |toks| == 8 && toks[0] == Open
    requires Lexer.Lexes(t, 1, 12, toks[1..])
    ensures Lexer.Lexes(t, 0, 12, toks[0..])
  {
    Lexer.LexesSymbolAt(t, 0, 12, toks, 0);
  }

  /** The entries of `GroupedSum`, one by one. */
  lemma GroupedSumEntries(toks: seq<Token>)
    requires toks == GroupedSum
    ensures |toks| == 8 && toks[0] == Open && toks[1] == Int("5") && toks[2] == Plus && toks[3] == Int("5") && toks[4] == Close && toks[5] == Star && toks[6] == Int("2") && toks[7] == Semi
  {
  }

  /** The bytes of `(5 + 5) * 2;`, one by one. */
  lemma GroupedSumSpelling(t: seq<Lexer.Byte>)
    requires t == "(5 + 5) * 2;"
    ensures |t| == 12 && t[0] == '(' && t[1] == '5' && t[2] == ' ' && t[3] == '+' && t[4] == ' ' && t[5] == '5' && t[6] == ')' && t[7] == ' ' && t[8] == '*' && t[9] == ' ' && t[10] == '2' && t[11] == ';'
  {
  }

  /** The lexer turns the bytes of `(5 + 5) * 2;` into exactly this stream. */
  lemma GroupedSumStream(t: seq<Lexer.Byte>)
    requires |t| == 12 && t[0] == '(' && t[1] == '5' && t[2] == ' ' && t[3] == '+' && t[4] == ' ' && t[5] == '5' && t[6] == ')' && t[7] == ' ' && t[8] == '*' && t[9] == ' ' && t[10] == '2' && t[11] == ';'
    ensures Lexer.Tokens(t) == GroupedSum
  {
    GroupedSumEntries(GroupedSum);
    assert GroupedSum[8..] == [];
    GroupedSumToken7(t, GroupedSum);
    GroupedSumToken6(t, GroupedSum);
    GroupedSumToken5(t, GroupedSum);
    GroupedSumToken4(t, GroupedSum);
    GroupedSumToken3(t, GroupedSum);
    GroupedSumToken2(t, GroupedSum);
    GroupedSumToken1(t, GroupedSum);
    GroupedSumToken0(t, GroupedSum);
    assert GroupedSum[0..] == GroupedSum;
    Lexer.LexesTokens(t, GroupedSum);
  }

  /** The lexer turns `(5 + 5) * 2;` into exactly this stream. */
  lemma GroupedSumLexes(t: seq<Lexer.Byte>)
    requires t == "(5 + 5) * 2;"
    ensures Lexer.Tokens(t) == GroupedSum
  {
    GroupedSumSpelling(t);
    GroupedSumStream(t);
  }

  lemma GroupedSumChains()
    ensures IsOperand(Int("5")) && Leaf(Int("5")) == Num('5')
    ensures ChainAt(GroupedSum, 1, [Num('5'), Num('5')], [Plus])
    ensures ChainAt(GroupedSum, 4, [Bin(Plus, Num('5'), Num('5')), Num('2')], [Star])
  {
    NumIsLeaf('5');
    NumIsLeaf('2');
  }

  /** The reference tree of a single operator is that operator's node. */
  lemma TwoOperands(a: Expr, b: Expr, op: Token)
    ensures Tree([a, b], [op]) == Bin(op, a, b)
  {
    SubSplit([a, b], [op], 0, 0, 1);
  }

  lemma GroupedSumTree()
    ensures ParseExpression(Parser(GroupedSum, 0, []), LOWEST)
            == Parsed(Some(Bin(Star, Bin(Plus, Num('5'), Num('5')), Num('2'))), Parser(GroupedSum, 6, []))
  {
    var sum := Bin(Plus, Num('5'), Num('5'));
    GroupedSumChains();
    TwoOperands(Num('5'), Num('5'), Plus);
    TwoOperands(sum, Num('2'), Star);
    ParseGroupedChain(GroupedSum, 0, [Num('5'), Num('5')], [Plus], [sum, Num('2')], [Star], []);
  }

  lemma GroupedSumText()
    ensures RenderExpr(Bin(Star, Bin(Plus, Num('5'), Num('5')), Num('2'))) == Success("((5 + 5) * 2)")
  {
    NumIsLeaf('5');
    NumIsLeaf('2');
    assert RenderExpr(Bin(Plus, Num('5'), Num('5'))) == Success("(5 + 5)") by {
      assert "(" + "5" + " " + "+" + " " + "5" + ")" == "(5 + 5)";
    }
    assert "(" + "(5 + 5)" + " " + "*" + " " + "2" + ")" == "((5 + 5) * 2)";
  }

  /** `(5 + 5) * 2;` renders as `((5 + 5) * 2)`: parentheses override
      precedence and add no node of their own. */
  lemma GroupingOverridesPrecedence()
    ensures var r := ParseSource("(5 + 5) * 2;");
            r.Parsed? && r.p.errors == [] && RenderProgram(r.value) == Success("((5 + 5) * 2)")
  {
    var e := Bin(Star, Bin(Plus, Num('5'), Num('5')), Num('2'));
    GroupedSumLexes("(5 + 5) * 2;");
    GroupedSumTree();
    ExpressionProgram(GroupedSum, e, 6);
    GroupedSumText();
    RenderExpressionProgram(Open, e);
  }

  // 3 > 5 == false;

  const Comparison: seq<Token> := [Int("3"), Greater, Int("5"), Equal, False, Semi]

  // One lemma per token of `3 > 5 == false;`: the bytes it reads, the token it
  // makes, and the blanks up to the next token.

  lemma ComparisonToken5(t: seq<Lexer.Byte>, toks: seq<Token>)
    requires |t| == 15 && t[14] == ';'
    requires |toks| == 6 && toks[5] == Semi
    requires Lexer.Lexes(t, 15, 15, toks[6..])
    ensures Lexer.Lexes(t, 14, 15, toks[5..])
  {
    Lexer.LexesSymbolAt(t, 14, 15, toks, 5);
  }

  lemma ComparisonToken4(t: seq<Lexer.Byte>, toks: seq<Token>)
    requires |t| == 15 && t[9] == 'f' && t[10] == 'a' && t[11] == 'l' && t[12] == 's' && t[13] == 'e' && t[14] == ';'
    requires |toks| == 6 && toks[4] == False
    requires Lexer.Lexes(t, 14, 15, toks[5..])
    ensures Lexer.Lexes(t, 9, 15, toks[4..])
  {
    assert t[9..14] == "false";
    Lexer.LexesWordAt(t, 9, 14, 15, toks, 4);
  }

  lemma ComparisonToken3(t: seq<Lexer.Byte>, toks: seq<Token>)
    requires |t| == 15 && t[6] == '=' && t[7] == '=' && t[8] == ' ' && t[9] == 'f'
    requires |toks| == 6 && toks[3] == Equal
    requires Lexer.Lexes(t, 9, 15, toks[4..])
    ensures Lexer.Lexes(t, 6, 15, toks[3..])
  {
    Lexer.LexesBlankAt(t, 8, 15, toks, 4);
    Lexer.LexesPairAt(t, 6, 15, toks, 3);
  }

  lemma ComparisonToken2(t: seq<Lexer.Byte>, toks: seq<Token>)
    requires |t| == 15 && t[4] == '5' && t[5] == ' ' && t[6] == '='
    requires |toks| == 6 && toks[2] == Int("5")
    requires Lexer.Lexes(t, 6, 15, toks[3..])
    ensures Lexer.Lexes(t, 4, 15, toks[2..])
  {
    Lexer.LexesBlankAt(t, 5, 15, toks, 3);
    assert t[4..5] == "5";
    Lexer.LexesNumberAt(t, 4, 5, 15, toks, 2);
  }

  lemma ComparisonToken1(t: seq<Lexer.Byte>, toks: seq<Token>)
    requires |t| == 15 && t[2] == '>' && t[3] == ' ' && t[4] == '5'
    requires |toks| == 6 && toks[1] == Greater
    requires Lexer.Lexes(t, 4, 15, toks[2..])
    ensures Lexer.Lexes(t, 2, 15, toks[1..])
  {
    Lexer.LexesBlankAt(t, 3, 15, toks, 2);
    Lexer.LexesSymbolAt(t, 2, 15, toks, 1);
  }

  lemma ComparisonToken0(t: seq<Lexer.Byte>, toks: seq<Token>)
    requires |t| == 15 && t[0] == '3' && t[1] == ' ' && t[2] == '>'
    requires |toks| == 6 && toks[0] == Int("3")
    requires Lexer.Lexes(t, 2, 15, toks[1..])
    ensures Lexer.Lexes(t, 0, 15, toks[0..])
  {
    Lexer.LexesBlankAt(t, 1, 15, toks, 1);
    assert t[0..1] == "3";
    Lexer.LexesNumberAt(t, 0, 1, 15, toks, 0);
  }

  /** The entries of `Comparison`, one by one. */
  lemma ComparisonEntries(toks: seq<Token>)
    requires toks == Comparison
    ensures |toks| == 6 && toks[0] == Int("3") && toks[1] == Greater && toks[2] == Int("5") && toks[3] == Equal && toks[4] == False && toks[5] == Semi
  {
  }

  /** The bytes of `3 > 5 == false;`, one by one. */
  lemma ComparisonSpelling(t: seq<Lexer.Byte>)
    requires t == "3 > 5 == false;"
    ensures |t| == 15 && t[0] == '3' && t[1] == ' ' && t[2] == '>' && t[3] == ' ' && t[4] == '5' && t[5] == ' ' && t[6] == '=' && t[7] == '=' && t[8] == ' ' && t[9] == 'f' && t[10] == 'a' && t[11] == 'l' && t[12] == 's' && t[13] == 'e' && t[14] == ';'
  {
  }

  /** The lexer turns the bytes of `3 > 5 == false;` into exactly this stream. */
  lemma ComparisonStream(t: seq<Lexer.Byte>)
    requires |t| == 15 && t[0] == '3' && t[1] == ' ' && t[2] == '>' && t[3] == ' ' && t[4] == '5' && t[5] == ' ' && t[6] == '=' && t[7] == '=' && t[8] == ' ' && t[9] == 'f' && t[10] == 'a' && t[11] == 'l' && t[12] == 's' && t[13] == 'e' && t[14] == ';'
    ensures Lexer.Tokens(t) == Comparison
  {
    ComparisonEntries(Comparison);
    assert Comparison[6..] == [];
    ComparisonToken5(t, Comparison);
    ComparisonToken4(t, Comparison);
    ComparisonToken3(t, Comparison);
    ComparisonToken2(t, Comparison);
    ComparisonToken1(t, Comparison);
    ComparisonToken0(t, Comparison);
    assert Comparison[0..] == Comparison;
    Lexer.LexesTokens(t, Comparison);
  }

  /** The lexer turns `3 > 5 == false;` into exactly this stream. */
  lemma ComparisonLexes(t: seq<Lexer.Byte>)
    requires t == "3 > 5 == false;"
    ensures Lexer.Tokens(t) == Comparison
  {
    ComparisonSpelling(t);
    ComparisonStream(t);
  }

  lemma ComparisonChain()
    ensures IsOperand(Int("3")) && Leaf(Int("3")) == Num('3')
    ensures ChainAt(Comparison, 0, [Num('3'), Num('5'), Boolean(False, false)], [Greater, Equal])
  {
    NumIsLeaf('3');
    NumIsLeaf('5');
  }

  lemma ComparisonTree()
    ensures ParseExpression(Parser(Comparison, 0, []), LOWEST)
            == Parsed(Some(Bin(Equal, Bin(Greater, Num('3'), Num('5')), Boolean(False, false))),
                      Parser(Comparison, 4, []))
  {
    ComparisonChain();
    ParseChain(Comparison, 0, [Num('3'), Num('5'), Boolean(False, false)], [Greater, Equal], []);
    ComparisonReference();
  }

  lemma ComparisonReference()
    ensures Tree([Num('3'), Num('5'), Boolean(False, false)], [Greater, Equal])
            == Bin(Equal, Bin(Greater, Num('3'), Num('5')), Boolean(False, false))
  {
    ThreeOperands(Num('3'), Num('5'), Boolean(False, false), Greater, Equal);
  }

  lemma ComparisonLeftText()
    ensures RenderExpr(Bin(Greater, Num('3'), Num('5'))) == Success("(3 > 5)")
  {
    NumIsLeaf('3');
    NumIsLeaf('5');
    assert "(" + "3" + " " + ">" + " " + "5" + ")" == "(3 > 5)";
  }

  /** `3 > 5 == false;` groups as `((3 > 5) == false)` with no error. A
      Boolean node has no rendering rule, so the shape is stated on the tree
      and the text on its left side. */
  lemma ComparisonGroupsFirst()
    ensures ParseSource("3 > 5 == false;")
            == Parsed(Program([ExpressionStatement(Int("3"), Some(Bin(Equal, Bin(Greater, Num('3'), Num('5')), Boolean(False, false))))]),
                      Parser(Comparison, 6, []))
    ensures RenderExpr(Bin(Greater, Num('3'), Num('5'))) == Success("(3 > 5)")
  {
    ComparisonLexes("3 > 5 == false;");
    ComparisonTree();
    ExpressionProgram(Comparison, Bin(Equal, Bin(Greater, Num('3'), Num('5')), Boolean(False, false)), 4);
    ComparisonLeftText();
  }

  // if (x < y) { x } else { y }

  const IfTok: Token := Token(IF, "if")
  const ElseTok: Token := Token(ELSE, "else")
  const IfElse: seq<Token> :=
    [IfTok, Open, Name("x"), Less, Name("y"), Close, Begin, Name("x"), End, ElseTok, Begin, Name("y"), End]

  // One lemma per token of `if (x < y) { x } else { y }`: the bytes it reads, the token it
  // makes, and the blanks up to the next token.

  lemma IfElseToken12(t: seq<Lexer.Byte>, toks: seq<Token>)
    requires |t| == 27 && t[26] == '}'
    requires |toks| == 13 && toks[12] == End
    requires Lexer.Lexes(t, 27, 27, toks[13..])
    ensures Lexer.Lexes(t, 26, 27, toks[12..])
  {
    Lexer.LexesSymbolAt(t, 26, 27, toks, 12);
  }

  lemma IfElseToken11(t: seq<Lexer.Byte>, toks: seq<Token>)
    requires |t| == 27 && t[24] == 'y' && t[25] == ' ' && t[26] == '}'
    requires |toks| == 13 && toks[11] == Name("y")
    requires Lexer.Lexes(t, 26, 27, toks[12..])
    ensures Lexer.Lexes(t, 24, 27, toks[11..])
  {
    Lexer.LexesBlankAt(t, 25, 27, toks, 12);
    assert t[24..25] == "y";
    Lexer.LexesWordAt(t, 24, 25, 27, toks, 11);
  }

  lemma IfElseToken10(t: seq<Lexer.Byte>, toks: seq<Token>)
    requires |t| == 27 && t[22] == '{' && t[23] == ' ' && t[24] == 'y'
    requires |toks| == 13 && toks[10] == Begin
    requires Lexer.Lexes(t, 24, 27, toks[11..])
    ensures Lexer.Lexes(t, 22, 27, toks[10..])
  {
    Lexer.LexesBlankAt(t, 23, 27, toks, 11);
    Lexer.LexesSymbolAt(t, 22, 27, toks, 10);
  }

  lemma IfElseToken9(t: seq<Lexer.Byte>, toks: seq<Token>)
    requires |t| == 27 && t[17] == 'e' && t[18] == 'l' && t[19] == 's' && t[20] == 'e' && t[21] == ' ' && t[22] == '{'
    requires |toks| == 13 && toks[9] == ElseTok
    requires Lexer.Lexes(t, 22, 27, toks[10..])
    ensures Lexer.Lexes(t, 17, 27, toks[9..])
  {
    Lexer.LexesBlankAt(t, 21, 27, toks, 10);
    assert t[17..21] == "else";
    Lexer.LexesWordAt(t, 17, 21, 27, toks, 9);
  }

  lemma IfElseToken8(t: seq<Lexer.Byte>, toks: seq<Token>)
    requires |t| == 27 && t[15] == '}' && t[16] == ' ' && t[17] == 'e'
    requires |toks| == 13 && toks[8] == End
    requires Lexer.Lexes(t, 17, 27, toks[9..])
    ensures Lexer.Lexes(t, 15, 27, toks[8..])
  {
    Lexer.LexesBlankAt(t, 16, 27, toks, 9);
    Lexer.LexesSymbolAt(t, 15, 27, toks, 8);
  }

  lemma IfElseToken7(t: seq<Lexer.Byte>, toks: seq<Token>)
    requires |t| == 27 && t[13] == 'x' && t[14] == ' ' && t[15] == '}'
    requires |toks| == 13 && toks[7] == Name("x")
    requires Lexer.Lexes(t, 15, 27, toks[8..])
    ensures Lexer.Lexes(t, 13, 27, toks[7..])
  {
    Lexer.LexesBlankAt(t, 14, 27, toks, 8);
    assert t[13..14] == "x";
    Lexer.LexesWordAt(t, 13, 14, 27, toks, 7);
  }

  lemma IfElseToken6(t: seq<Lexer.Byte>, toks: seq<Token>)
    requires |t| == 27 && t[11] == '{' && t[12] == ' ' && t[13] == 'x'
    requires |toks| == 13 && toks[6] == Begin
    requires Lexer.Lexes(t, 13, 27, toks[7..])
    ensures Lexer.Lexes(t, 11, 27, toks[6..])
  {
    Lexer.LexesBlankAt(t, 12, 27, toks, 7);
    Lexer.LexesSymbolAt(t, 11, 27, toks, 6);
  }

  lemma IfElseToken5(t: seq<Lexer.Byte>, toks: seq<Token>)
    requires |t| == 27 && t[9] == ')' && t[10] == ' ' && t[11] == '{'
    requires |toks| == 13 && toks[5] == Close
    requires Lexer.Lexes(t, 11, 27, toks[6..])
    ensures Lexer.Lexes(t, 9, 27, toks[5..])
  {
    Lexer.LexesBlankAt(t, 10, 27, toks, 6);
    Lexer.LexesSymbolAt(t, 9, 27, toks, 5);
  }

  lemma IfElseToken4(t: seq<Lexer.Byte>, toks: seq<Token>)
    requires |t| == 27 && t[8] == 'y' && t[9] == ')'
    requires |toks| == 13 && toks[4] == Name("y")
    requires Lexer.Lexes(t, 9, 27, toks[5..])
    ensures Lexer.Lexes(t, 8, 27, toks[4..])
  {
    assert t[8..9] == "y";
    Lexer.LexesWordAt(t, 8, 9, 27, toks, 4);
  }

  lemma IfElseToken3(t: seq<Lexer.Byte>, toks: seq<Token>)
    requires |t| == 27 && t[6] == '<' && t[7] == ' ' && t[8] == 'y'
    requires |toks| == 13 && toks[3] == Less
    requires Lexer.Lexes(t, 8, 27, toks[4..])
    ensures Lexer.Lexes(t, 6, 27, toks[3..])
  {
    Lexer.LexesBlankAt(t, 7, 27, toks, 4);
    Lexer.LexesSymbolAt(t, 6, 27, toks, 3);
  }

  lemma IfElseToken2(t: seq<Lexer.Byte>, toks: seq<Token>)
    requires |t| == 27 && t[4] == 'x' && t[5] == ' ' && t[6] == '<'
    requires |toks| == 13 && toks[2] == Name("x")
    requires Lexer.Lexes(t, 6, 27, toks[3..])
    ensures Lexer.Lexes(t, 4, 27, toks[2..])
  {
    Lexer.LexesBlankAt(t, 5, 27, toks, 3);
    assert t[4..5] == "x";
    Lexer.LexesWordAt(t, 4, 5, 27, toks, 2);
  }

  lemma IfElseToken1(t: seq<Lexer.Byte>, toks: seq<Token>)
    requires |t| == 27 && t[3] == '(' && t[4] == 'x'
    requires |toks| == 13 && toks[1] == Open
    requires Lexer.Lexes(t, 4, 27, toks[2..])
    ensures Lexer.Lexes(t, 3, 27, toks[1..])
  {
    Lexer.LexesSymbolAt(t, 3, 27, toks, 1);
  }

  lemma IfElseToken0(t: seq<Lexer.Byte>, toks: seq<Token>)
    requires |t| == 27 && t[0] == 'i' && t[1] == 'f' && t[2] == ' ' && t[3] == '('
    requires |toks| == 13 && toks[0] == IfTok
    requires Lexer.Lexes(t, 3, 27, toks[1..])
    ensures Lexer.Lexes(t, 0, 27, toks[0..])
  {
    Lexer.LexesBlankAt(t, 2, 27, toks, 1);
    assert t[0..2] == "if";
    Lexer.LexesWordAt(t, 0, 2, 27, toks, 0);
  }

  lemma IfElseEntries0(toks: seq<Token>)
    requires toks == IfElse
    ensures |toks| == 13 && toks[0] == IfTok && toks[1] == Open && toks[2] == Name("x") && toks[3] == Less && toks[4] == Name("y")
  {
  }

  lemma IfElseEntries5(toks: seq<Token>)
    requires toks == IfElse
    ensures |toks| == 13 && toks[5] == Close && toks[6] == Begin && toks[7] == Name("x") && toks[8] == End && toks[9] == ElseTok
  {
  }

  lemma IfElseEntries10(toks: seq<Token>)
    requires toks == IfElse
    ensures |toks| == 13 && toks[10] == Begin && toks[11] == Name("y") && toks[12] == End
  {
  }

  /** The entries of `IfElse`, one by one. */
  lemma IfElseEntries(toks: seq<Token>)
    requires toks == IfElse
    ensures |toks| == 13 && toks[0] == IfTok && toks[1] == Open && toks[2] == Name("x") && toks[3] == Less && toks[4] == Name("y") && toks[5] == Close && toks[6] == Begin && toks[7] == Name("x") && toks[8] == End && toks[9] == ElseTok && toks[10] == Begin && toks[11] == Name("y") && toks[12] == End
  {
    IfElseEntries0(toks);
    IfElseEntries5(toks);
    IfElseEntries10(toks);
  }

  lemma IfElseSpelling0(t: seq<Lexer.Byte>)
    requires t == "if (x < y) { x } else { y }"
    ensures t[0] == 'i' && t[1] == 'f' && t[2] == ' ' && t[3] == '(' && t[4] == 'x' && t[5] == ' ' && t[6] == '<' && t[7] == ' '
  {
  }

  lemma IfElseSpelling8(t: seq<Lexer.Byte>)
    requires t == "if (x < y) { x } else { y }"
    ensures t[8] == 'y' && t[9] == ')' && t[10] == ' ' && t[11] == '{' && t[12] == ' ' && t[13] == 'x' && t[14] == ' ' && t[15] == '}'
  {
  }

  lemma IfElseSpelling16(t: seq<Lexer.Byte>)
    requires t == "if (x < y) { x } else { y }"
    ensures t[16] == ' ' && t[17] == 'e' && t[18] == 'l' && t[19] == 's' && t[20] == 'e' && t[21] == ' ' && t[22] == '{' && t[23] == ' '
  {
  }

  lemma IfElseSpelling24(t: seq<Lexer.Byte>)
    requires t == "if (x < y) { x } else { y }"
    ensures t[24] == 'y' && t[25] == ' ' && t[26] == '}'
  {
  }

  /** The bytes of `if (x < y) { x } else { y }`, one by one. */
  lemma IfElseSpelling(t: seq<Lexer.Byte>)
    requires t == "if (x < y) { x } else { y }"
    ensures |t| == 27 && t[0] == 'i' && t[1] == 'f' && t[2] == ' ' && t[3] == '(' && t[4] == 'x' && t[5] == ' ' && t[6] == '<' && t[7] == ' ' && t[8] == 'y' && t[9] == ')' && t[10] == ' ' && t[11] == '{' && t[12] == ' ' && t[13] == 'x' && t[14] == ' ' && t[15] == '}' && t[16] == ' ' && t[17] == 'e' && t[18] == 'l' && t[19] == 's' && t[20] == 'e' && t[21] == ' ' && t[22] == '{' && t[23] == ' ' && t[24] == 'y' && t[25] == ' ' && t[26] == '}'
  {
    IfElseSpelling0(t);
    IfElseSpelling8(t);
    IfElseSpelling16(t);
    IfElseSpelling24(t);
  }

  /** The lexer turns the bytes of `if (x < y) { x } else { y }` into exactly this stream. */
  lemma IfElseStream(t: seq<Lexer.Byte>)
    requires |t| == 27 && t[0] == 'i' && t[1] == 'f' && t[2] == ' ' && t[3] == '(' && t[4] == 'x' && t[5] == ' ' && t[6] == '<' && t[7] == ' ' && t[8] == 'y' && t[9] == ')' && t[10] == ' ' && t[11] == '{' && t[12] == ' ' && t[13] == 'x' && t[14] == ' ' && t[15] == '}' && t[16] == ' ' && t[17] == 'e' && t[18] == 'l' && t[19] == 's' && t[20] == 'e' && t[21] == ' ' && t[22] == '{' && t[23] == ' ' && t[24] == 'y' && t[25] == ' ' && t[26] == '}'
    ensures Lexer.Tokens(t) == IfElse
  {
    IfElseEntries(IfElse);
    assert IfElse[13..] == [];
    IfElseToken12(t, IfElse);
    IfElseToken11(t, IfElse);
    IfElseToken10(t, IfElse);
    IfElseToken9(t, IfElse);
    IfElseToken8(t, IfElse);
    IfElseToken7(t, IfElse);
    IfElseToken6(t, IfElse);
    IfElseToken5(t, IfElse);
    IfElseToken4(t, IfElse);
    IfElseToken3(t, IfElse);
    IfElseToken2(t, IfElse);
    IfElseToken1(t, IfElse);
    IfElseToken0(t, IfElse);
    assert IfElse[0..] == IfElse;
    Lexer.LexesTokens(t, IfElse);
  }

  /** The lexer turns `if (x < y) { x } else { y }` into exactly this stream. */
  lemma IfElseLexes(t: seq<Lexer.Byte>)
    requires t == "if (x < y) { x } else { y }"
    ensures Lexer.Tokens(t) == IfElse
  {
    IfElseSpelling(t);
    IfElseStream(t);
  }

  /** The block of one expression statement `x`. */
  function NameBlock(x: string): Block
  {
    Block(Begin, [ExpressionStatement(Name(x), Some(Var(x)))])
  }

  /** `{ x }` parses as a block of one expression statement and stops on
      its closing brace. */
  lemma NameBlockParses(toks: seq<Token>, b: nat, x: string, errs: seq<string>)
    requires b + 2 < |toks| && toks[b] == Begin && toks[b + 1] == Name(x) && toks[b + 2] == End
    ensures ParseBlockStatement(Parser(toks, b, errs)) == Parsed(NameBlock(x), Parser(toks, b + 2, errs))
  {
    var p := Parser(toks, b + 1, errs);
    var s := ExpressionStatement(Name(x), Some(Var(x)));
    OperandAlone(p, LOWEST);
    assert ParseStatement(p) == Parsed(s, p);
    assert ParseBlockLoop(Parser(toks, b + 2, errs), [s]) == Parsed([s], Parser(toks, b + 2, errs));
    assert [] + [s] == [s];
    assert ParseBlockLoop(p, []) == Parsed([s], Parser(toks, b + 2, errs));
  }

  lemma IfElseCondition()
    ensures ParseExpression(Parser(IfElse, 2, []), LOWEST) == Parsed(Some(Bin(Less, Var("x"), Var("y"))), Parser(IfElse, 4, []))
  {
    var leaves, ops := [Var("x"), Var("y")], [Less];
    assert ChainAt(IfElse, 2, leaves, ops);
    ParseChain(IfElse, 2, leaves, ops, []);
    TwoOperands(Var("x"), Var("y"), Less);
  }

  function IfElseExpr(): Expr
  {
    If(IfTok, Some(Bin(Less, Var("x"), Var("y"))), NameBlock("x"), Some(NameBlock("y")))
  }

  lemma IfElseAlternative()
    ensures ParseElse(IfTok, Some(Bin(Less, Var("x"), Var("y"))), NameBlock("x"), Parser(IfElse, 8, []))
            == Parsed(Some(IfElseExpr()), Parser(IfElse, 12, []))
  {
    assert ExpectPeek(Parser(IfElse, 9, []), LBRACE) == (true, Parser(IfElse, 10, []));
    NameBlockParses(IfElse, 10, "y", []);
  }

  lemma IfElseBody()
    ensures ParseIfBody(IfTok, Some(Bin(Less, Var("x"), Var("y"))), Parser(IfElse, 4, []))
            == Parsed(Some(IfElseExpr()), Parser(IfElse, 12, []))
  {
    assert ExpectPeek(Parser(IfElse, 4, []), RPAREN) == (true, Parser(IfElse, 5, []));
    assert ExpectPeek(Parser(IfElse, 5, []), LBRACE) == (true, Parser(IfElse, 6, []));
    IfElseBlocks();
  }

  lemma IfElseBlocks()
    ensures ParseIfBlocks(IfTok, Some(Bin(Less, Var("x"), Var("y"))), Parser(IfElse, 6, []))
            == Parsed(Some(IfElseExpr()), Parser(IfElse, 12, []))
  {
    NameBlockParses(IfElse, 6, "x", []);
    assert PeekToken(Parser(IfElse, 8, [])).kind == ELSE;
    IfElseAlternative();
  }

  /** `parseIfExpression` on the whole stream: `(`, the condition, then the
      blocks. */
  lemma IfElseParse()
    ensures ParseIfExpression(Parser(IfElse, 0, [])) == Parsed(Some(IfElseExpr()), Parser(IfElse, 12, []))
  {
    assert ExpectPeek(Parser(IfElse, 0, []), LPAREN) == (true, Parser(IfElse, 1, []));
    IfElseCondition();
    IfElseBody();
  }

  /** The handler registered for `if` is `parseIfExpression`. */
  lemma IfElseHandler()
    ensures ApplyPrefix(ParseIfExpressionFn, Parser(IfElse, 0, [])) == ParseIfExpression(Parser(IfElse, 0, []))
  {
  }

  /** An if-expression followed by no operator is the whole expression. */
  lemma IfAlone(p: Parser, e: Expr, q: Parser)
    requires CurToken(p).kind == IF && ApplyPrefix(ParseIfExpressionFn, p) == Parsed(Some(e), q)
    requires !IsInfixOp(PeekToken(q))
    ensures ParseExpression(p, LOWEST) == Parsed(Some(e), q)
  {
    assert PrefixParseFns(CurToken(p).kind) == Some(ParseIfExpressionFn);
    ExpressionDispatch(p, ParseIfExpressionFn, LOWEST);
    LoopStops(Some(e), q, LOWEST);
  }

  lemma IfElseTree()
    ensures ParseExpression(Parser(IfElse, 0, []), LOWEST) == Parsed(Some(IfElseExpr()), Parser(IfElse, 12, []))
  {
    var p, q := Parser(IfElse, 0, []), Parser(IfElse, 12, []);
    IfElseParse();
    IfElseHandler();
    assert PeekToken(q) == Token(EOF, "");
    IfAlone(p, IfElseExpr(), q);
  }

  lemma IfElseConditionText()
    ensures RenderExpr(IfElseExpr().condition.value) == Success("(x < y)")
  {
    assert "(" + "x" + " " + "<" + " " + "y" + ")" == "(x < y)";
  }

  /** The stream is one expression statement holding the if-expression. */
  lemma IfElseProgram()
    ensures ParseProgram(IfElse) == Parsed(Program([ExpressionStatement(IfTok, Some(IfElseExpr()))]), Parser(IfElse, 13, []))
  {
    IfElseTree();
    ExpressionProgram(IfElse, IfElseExpr(), 12);
  }

  /** `if (x < y) { x } else { y }` is one expression statement holding an
      if-expression whose condition renders as `(x < y)`, whose consequence
      is the block `{ x }` and whose alternative is the block `{ y }`; no
      error is recorded. */
  lemma IfElseShape()
    ensures ParseSource("if (x < y) { x } else { y }")
            == Parsed(Program([ExpressionStatement(IfTok, Some(IfElseExpr()))]), Parser(IfElse, 13, []))
    ensures RenderExpr(IfElseExpr().condition.value) == Success("(x < y)")
  {
    IfElseLexes("if (x < y) { x } else { y }");
    IfElseProgram();
    IfElseConditionText();
  }
}
