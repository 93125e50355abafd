/**
 * The errors the parser records on two faulty inputs: `let = 5;`, where the
 * name is missing, and a lone `@`, a byte no token starts with.
 */
module Diagnostics {
  import opened Wrappers
  import opened Token
  import Lexer
  import opened Ast
  import opened Parser
  import opened Precedence
  import opened Examples
  import opened Programs

  // let = 5;

  const Assign: Token := Token(ASSIGN, "=")
  const NamelessLet: seq<Token> := [LetToken(), Assign, Int("5"), Semi]

  // One lemma per token of `let = 5;`: the bytes it reads, the token it
  // makes, and the blanks up to the next token.

  lemma NamelessLetToken3(t: seq<Lexer.Byte>, toks: seq<Token>)
    requires |t| == 8 && t[7] == ';'
    requires |toks| == 4 && toks[3] == Semi
    requires Lexer.Lexes(t, 8, 8, toks[4..])
    ensures Lexer.Lexes(t, 7, 8, toks[3..])
  {
    Lexer.LexesSymbolAt(t, 7, 8, toks, 3);
  }

  lemma NamelessLetToken2(t: seq<Lexer.Byte>, toks: seq<Token>)
    requires |t| == 8 && t[6] == '5' && t[7] == ';'
    requires |toks| == 4 && toks[2] == Int("5")
    requires Lexer.Lexes(t, 7, 8, toks[3..])
    ensures Lexer.Lexes(t, 6, 8, toks[2..])
  {
    assert t[6..7] == "5";
    Lexer.LexesNumberAt(t, 6, 7, 8, toks, 2);
  }

  lemma NamelessLetToken1(t: seq<Lexer.Byte>, toks: seq<Token>)
    requires |t| == 8 && t[4] == '=' && t[5] == ' ' && t[6] == '5'
    requires |toks| == 4 && toks[1] == Assign
    requires Lexer.Lexes(t, 6, 8, toks[2..])
    ensures Lexer.Lexes(t, 4, 8, toks[1..])
  {
    Lexer.LexesBlankAt(t, 5, 8, toks, 2);
    Lexer.LexesSingleAt(t, 4, 8, toks, 1);
  }

  lemma NamelessLetToken0(t: seq<Lexer.Byte>, toks: seq<Token>)
    requires |t| == 8 && t[0] == 'l' && t[1] == 'e' && t[2] == 't' && t[3] == ' ' && t[4] == '='
    requires |toks| == 4 && toks[0] == LetToken()
    requires Lexer.Lexes(t, 4, 8, toks[1..])
    ensures Lexer.Lexes(t, 0, 8, toks[0..])
  {
    Lexer.LexesBlankAt(t, 3, 8, toks, 1);
    assert t[0..3] == "let";
    Lexer.LexesWordAt(t, 0, 3, 8, toks, 0);
  }

  /** The entries of `NamelessLet`, one by one. */
  lemma NamelessLetEntries(toks: seq<Token>)
    requires toks == NamelessLet
    ensures |toks| == 4 && toks[0] == LetToken() && toks[1] == Assign && toks[2] == Int("5") && toks[3] == Semi
  {
  }

  /** The bytes of `let = 5;`, one by one. */
  lemma NamelessLetSpelling(t: seq<Lexer.Byte>)
    requires t == "let = 5;"
    ensures |t| == 8 && t[0] == 'l' && t[1] == 'e' && t[2] == 't' && t[3] == ' ' && t[4] == '=' && t[5] == ' ' && t[6] == '5' && t[7] == ';'
  {
  }

  /** The lexer turns the bytes of `let = 5;` into exactly this stream. */
  lemma NamelessLetStream(t: seq<Lexer.Byte>)
    requires |t| == 8 && t[0] == 'l' && t[1] == 'e' && t[2] == 't' && t[3] == ' ' && t[4] == '=' && t[5] == ' ' && t[6] == '5' && t[7] == ';'
    ensures Lexer.Tokens(t) == NamelessLet
  {
    NamelessLetEntries(NamelessLet);
    assert NamelessLet[4..] == [];
    NamelessLetToken3(t, NamelessLet);
    NamelessLetToken2(t, NamelessLet);
    NamelessLetToken1(t, NamelessLet);
    NamelessLetToken0(t, NamelessLet);
    assert NamelessLet[0..] == NamelessLet;
    Lexer.LexesTokens(t, NamelessLet);
  }

  /** The lexer turns `let = 5;` into exactly this stream. */
  lemma NamelessLetLexes(t: seq<Lexer.Byte>)
    requires t == "let = 5;"
    ensures Lexer.Tokens(t) == NamelessLet
  {
    NamelessLetSpelling(t);
    NamelessLetStream(t);
  }

  const MissingName: string := "expected next token to be IDENT, got = instead"
  const AssignHasNoPrefix: string := "no prefix parse function for = found"

  /** The `let` without a name: one error, the placeholder, no move. */
  lemma NamelessLetFails()
    ensures ParseStatement(Parser(NamelessLet, 0, [])) == Parsed(NilLet, Parser(NamelessLet, 0, [MissingName]))
  {
    assert PeekErrorMessage(IDENT, ASSIGN) == MissingName by {
      assert "expected next token to be " + "IDENT" + ", got " + "=" + " instead" == MissingName;
    }
  }

  /** The `=` left behind starts an expression statement with no expression. */
  lemma StrayAssign(errs: seq<string>)
    ensures ParseStatement(Parser(NamelessLet, 1, errs))
            == Parsed(ExpressionStatement(Assign, None), Parser(NamelessLet, 1, errs + [AssignHasNoPrefix]))
  {
    MissingPrefixHandler(Parser(NamelessLet, 1, errs), LOWEST);
    assert "no prefix parse function for " + "=" + " found" == AssignHasNoPrefix;
  }

  /** The value `5;` is an expression statement of its own. */
  lemma StrayValue(errs: seq<string>)
    ensures ParseStatement(Parser(NamelessLet, 2, errs))
            == Parsed(ExpressionStatement(Int("5"), Some(Num('5'))), Parser(NamelessLet, 3, errs))
  {
    NumIsLeaf('5');
    OperandAlone(Parser(NamelessLet, 2, errs), LOWEST);
  }

  /** `let = 5;` holds no Let statement: the placeholder of the failed `let`,
      an empty expression statement for `=`, and one for `5`. Two errors are
      recorded, the missing name first. */
  lemma NamelessLetProgram()
    ensures ParseProgram(NamelessLet)
            == Parsed(Program([NilLet, ExpressionStatement(Assign, None), ExpressionStatement(Int("5"), Some(Num('5')))]),
                      Parser(NamelessLet, 4, [MissingName, AssignHasNoPrefix]))
  {
    var errs := [MissingName, AssignHasNoPrefix];
    var s0, s1, s2 := NilLet, ExpressionStatement(Assign, None), ExpressionStatement(Int("5"), Some(Num('5')));
    NamelessLetFails();
    StrayAssign([MissingName]);
    StrayValue(errs);
    assert [MissingName] + [AssignHasNoPrefix] == errs;
    calc {
      ParseProgramLoop(Parser(NamelessLet, 0, []), []);
    == { ProgramLoopStep(Parser(NamelessLet, 0, []), [], s0, Parser(NamelessLet, 0, [MissingName])); }
      ParseProgramLoop(Parser(NamelessLet, 1, [MissingName]), [] + [s0]);
    == { ProgramLoopStep(Parser(NamelessLet, 1, [MissingName]), [] + [s0], s1, Parser(NamelessLet, 1, errs)); }
      ParseProgramLoop(Parser(NamelessLet, 2, errs), [] + [s0] + [s1]);
    == { ProgramLoopStep(Parser(NamelessLet, 2, errs), [] + [s0] + [s1], s2, Parser(NamelessLet, 3, errs)); }
      ParseProgramLoop(Parser(NamelessLet, 4, errs), [] + [s0] + [s1] + [s2]);
    == { assert [] + [s0] + [s1] + [s2] == [s0, s1, s2]; assert CurToken(Parser(NamelessLet, 4, errs)).kind == EOF; }
      Parsed([s0, s1, s2], Parser(NamelessLet, 4, errs));
    }
  }

  /** The same outcome from the text `let = 5;` itself. */
  lemma NamelessLetSource()
    ensures ParseSource("let = 5;")
            == Parsed(Program([NilLet, ExpressionStatement(Assign, None), ExpressionStatement(Int("5"), Some(Num('5')))]),
                      Parser(NamelessLet, 4, [MissingName, AssignHasNoPrefix]))
  {
    NamelessLetLexes("let = 5;");
    NamelessLetProgram();
  }

  // @

  const At: Token := Token(ILLEGAL, "@")

  /** A lone `@` lexes to one ILLEGAL token holding it. */
  lemma AtLexes()
    ensures Lexer.Tokens(['@']) == [At]
  {
    var input: seq<Lexer.Byte> := ['@'];
    var l := Lexer.New(input);
    assert l == Lexer.Lexer(input, 0, 1, '@');
    assert Lexer.SkipWhitespace(l) == l;
    assert Lexer.Punctuation('@').None?;
    assert Lexer.NextToken(l) == Lexer.Scan(Lexer.Lexer(input, 1, 2, Lexer.NUL), At);
    assert Lexer.Run(Lexer.Lexer(input, 1, 2, Lexer.NUL)) == [];
  }

  /** The source text `@` parses to one expression statement with no
      expression, and the error names the ILLEGAL kind. */
  lemma AtHasNoPrefix()
    ensures ParseSource(['@'])
            == Parsed(Program([ExpressionStatement(At, None)]),
                      Parser([At], 1, ["no prefix parse function for ILLEGAL found"]))
  {
    var msg := "no prefix parse function for ILLEGAL found";
    var s := ExpressionStatement(At, None);
    AtLexes();
    MissingPrefixHandler(Parser([At], 0, []), LOWEST);
    assert "no prefix parse function for " + "ILLEGAL" + " found" == msg;
    assert ParseStatement(Parser([At], 0, [])) == Parsed(s, Parser([At], 0, [msg]));
    ProgramLoopStep(Parser([At], 0, []), [], s, Parser([At], 0, [msg]));
    assert [] + [s] == [s];
  }

  // "\0x"

  /** A NUL byte ends the program: the lexer still produces the tokens after
      it, but the parser stops at the first EOF, so `x` is dropped without an
      error. */
  lemma NulStopsParsing()
    ensures ParseSource(['\0', 'x'])
            == Parsed(Program([]), Parser([Token(EOF, ""), Token(IDENT, "x")], 0, []))
  {
    Lexer.NulByteEndsInputEarly();
    assert CurToken(New([Token(EOF, ""), Token(IDENT, "x")])).kind == EOF;
  }
}
