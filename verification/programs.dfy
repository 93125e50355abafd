/**
 * Whole-program properties of the parser: a missing prefix handler, and
 * programs made only of well-formed `let` statements.
 */
module Programs {
  import opened Wrappers
  import opened Token
  import Lexer
  import opened Ast
  import opened Parser

  /** A token with no prefix handler: `parseExpression` records exactly one
      error naming its kind, yields nil and consumes nothing. */
  lemma MissingPrefixHandler(p: Parser, m: nat)
    requires PrefixParseFns(CurToken(p).kind).None?
    ensures ParseExpression(p, m)
            == Parsed(None, p.(errors := p.errors + ["no prefix parse function for " + KindName(CurToken(p).kind) + " found"]))
  {
  }

  /** The bound name and the (unparsed) value literal of `let <name> = <value>;`. */
  datatype Binding = Binding(name: string, value: string)

  function LetToken(): Token { Token(LET, "let") }

  /** Tokens `i` to `i + 4` of `toks` are `let <name> = <value> ;`. */
  predicate LetLineAt(toks: seq<Token>, i: nat, b: Binding)
  {
    && i + 4 < |toks|
    && toks[i] == LetToken() && toks[i + 1] == Token(IDENT, b.name) && toks[i + 2] == Token(ASSIGN, "=")
    && toks[i + 3] == Token(INT, b.value) && toks[i + 4] == Token(SEMICOLON, ";")
  }

  /** Line `k` of `bs` occupies tokens `5 * k` to `5 * k + 4` of `toks`. */
  predicate LineNumber(toks: seq<Token>, bs: seq<Binding>, k: nat)
    requires k < |bs|
  {
    LetLineAt(toks, 5 * k, bs[k])
  }

  /** `toks` is the stream of the lines `bs`, one after the other. */
  predicate LetLines(toks: seq<Token>, bs: seq<Binding>)
  {
    |toks| == 5 * |bs| && forall k: nat | k < |bs| :: LineNumber(toks, bs, k)
  }

  /** The statement the parser builds for one line: the value is skipped. */
  function LetOf(b: Binding): Statement
  {
    Let(LetToken(), Identifier(Token(IDENT, b.name), b.name), None)
  }

  function LetsOf(bs: seq<Binding>): (ss: seq<Statement>)
    ensures |ss| == |bs| && forall i | 0 <= i < |bs| :: ss[i] == LetOf(bs[i])
  {
    if |bs| == 0 then [] else [LetOf(bs[0])] + LetsOf(bs[1..])
  }

  /** The skip loop from `=` over one value token stops on the `;` after it. */
  lemma SkipOneToken(toks: seq<Token>, j: nat, errs: seq<string>)
    requires j + 2 < |toks| && toks[j].kind != SEMICOLON && toks[j + 1].kind != SEMICOLON
    requires toks[j + 2].kind == SEMICOLON
    ensures SkipToSemicolon(Parser(toks, j, errs)) == Some(Parser(toks, j + 2, errs))
  {
    assert FirstSemicolon(toks, j + 2) == Some(j + 2);
    assert FirstSemicolon(toks, j + 1) == Some(j + 2);
  }

  /** `let <name> = v ;` with any single value token `v`: the statement
      binds `name`, records no error and stops on the `;`. */
  lemma WellFormedLet(toks: seq<Token>, i: nat, name: string, errs: seq<string>)
    requires i + 4 < |toks|
    requires toks[i] == LetToken() && toks[i + 1] == Token(IDENT, name) && toks[i + 2].kind == ASSIGN
    requires toks[i + 3].kind != SEMICOLON && toks[i + 4].kind == SEMICOLON
    ensures ParseStatement(Parser(toks, i, errs))
            == Parsed(Let(LetToken(), Identifier(Token(IDENT, name), name), None), Parser(toks, i + 4, errs))
  {
    var p := Parser(toks, i, errs);
    SkipOneToken(toks, i + 2, errs);
    assert ExpectPeek(p, IDENT) == (true, Parser(toks, i + 1, errs));
    assert ExpectPeek(Parser(toks, i + 1, errs), ASSIGN) == (true, Parser(toks, i + 2, errs));
    assert ParseLetStatement(p) == Parsed(Let(LetToken(), Identifier(Token(IDENT, name), name), None), Parser(toks, i + 4, errs));
  }

  /** `return v ;` with any single value token `v`: a return without value,
      no error, stopping on the `;`. */
  lemma WellFormedReturn(toks: seq<Token>, i: nat, errs: seq<string>)
    requires i + 2 < |toks| && toks[i].kind == RETURN
    requires toks[i + 1].kind != SEMICOLON && toks[i + 2].kind == SEMICOLON
    ensures ParseStatement(Parser(toks, i, errs)) == Parsed(Return(toks[i], None), Parser(toks, i + 2, errs))
  {
    assert FirstSemicolon(toks, i + 2) == Some(i + 2);
    assert FirstSemicolon(toks, i + 1) == Some(i + 2);
  }

  lemma LetsOfPrefix(bs: seq<Binding>, k: nat)
    requires k < |bs|
    ensures LetsOf(bs[..k]) + [LetOf(bs[k])] == LetsOf(bs[..k + 1])
  {
  }

  /** One round of the program loop on a well-formed line starting at `i`. */
  lemma LetStep(toks: seq<Token>, i: nat, b: Binding, acc: seq<Statement>)
    requires LetLineAt(toks, i, b)
    ensures ParseProgramLoop(Parser(toks, i, []), acc) == ParseProgramLoop(Parser(toks, i + 5, []), acc + [LetOf(b)])
  {
    WellFormedLet(toks, i, b.name, []);
    ProgramLoopStep(Parser(toks, i, []), acc, LetOf(b), Parser(toks, i + 4, []));
  }

  lemma {:induction false} LetLoop(toks: seq<Token>, bs: seq<Binding>, k: nat)
    requires LetLines(toks, bs) && k <= |bs|
    ensures ParseProgramLoop(Parser(toks, 5 * k, []), LetsOf(bs[..k]))
            == Parsed(LetsOf(bs), Parser(toks, 5 * |bs|, []))
    decreases |bs| - k
  {
    if k == |bs| {
      assert bs[..k] == bs;
    } else {
      var i, acc := 5 * k, LetsOf(bs[..k]);
      assert LetLineAt(toks, i, bs[k]) by {
        assert LineNumber(toks, bs, k);
      }
      calc {
        ParseProgramLoop(Parser(toks, i, []), acc);
      == { LetStep(toks, i, bs[k], acc); }
        ParseProgramLoop(Parser(toks, i + 5, []), acc + [LetOf(bs[k])]);
      == { LetsOfPrefix(bs, k); assert i + 5 == 5 * (k + 1); }
        ParseProgramLoop(Parser(toks, 5 * (k + 1), []), LetsOf(bs[..k + 1]));
      == { LetLoop(toks, bs, k + 1); }
        Parsed(LetsOf(bs), Parser(toks, 5 * |bs|, []));
      }
    }
  }

  /** A program made only of well-formed `let <name> = <value>;` lines parses
      into one Let statement per line, in source order, each binding its own
      name, with no error. */
  lemma LetProgram(toks: seq<Token>, bs: seq<Binding>)
    requires LetLines(toks, bs)
    ensures ParseProgram(toks) == Parsed(Program(LetsOf(bs)), Parser(toks, |toks|, []))
  {
    assert bs[..0] == [];
    LetLoop(toks, bs, 0);
  }

  /** The text of parsed let lines: each prints as `let <name> = ;`, since the
      value is never parsed. */
  function LetTexts(bs: seq<Binding>): string
  {
    if |bs| == 0 then "" else "let " + bs[0].name + " = ;" + LetTexts(bs[1..])
  }

  lemma {:induction false} RenderLets(bs: seq<Binding>)
    ensures RenderStatements(LetsOf(bs)) == Success(LetTexts(bs))
    decreases |bs|
  {
    if |bs| > 0 {
      var ss := LetsOf(bs);
      assert ss[0] == LetOf(bs[0]);
      assert ss[1..] == LetsOf(bs[1..]);
      LetWithoutValueText(LetToken(), Identifier(Token(IDENT, bs[0].name), bs[0].name));
      assert LetToken().literal + " " + bs[0].name + " = ;" == "let " + bs[0].name + " = ;";
      assert RenderStatement(ss[0]) == Success("let " + bs[0].name + " = ;");
      RenderLets(bs[1..]);
      assert RenderStatements(ss) == Success("let " + bs[0].name + " = ;" + LetTexts(bs[1..]));
    }
  }

  /** The canonical text of a program of let lines drops every value: it is
      `let <name> = ;` once per line. */
  lemma LetProgramText(toks: seq<Token>, bs: seq<Binding>)
    requires LetLines(toks, bs)
    ensures ParseProgram(toks).Parsed? && RenderProgram(ParseProgram(toks).value) == Success(LetTexts(bs))
  {
    LetProgram(toks, bs);
    RenderLets(bs);
  }
}
