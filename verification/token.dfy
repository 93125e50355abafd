/**
 * The token vocabulary of the Monkey language: a closed set of token kinds,
 * the token record, and the keyword table with its lookup function.
 */
module Token {
  import opened Wrappers

  /** Every kind the lexer can produce. In the Go source a kind is a string
      constant; `KindName` gives that string. */
  datatype TokenType =
    | ILLEGAL | EOF
    | IDENT | INT
    | ASSIGN | PLUS | MINUS | BANG | ASTERISK | SLASH
    | LT | GT | EQ | NOT_EQ
    | COMMA | SEMICOLON | LPAREN | RPAREN | LBRACE | RBRACE
    | FUNCTION | LET | TRUE | FALSE | IF | ELSE | RETURN

  /** A classified lexical unit: its kind and the exact source text it came from. */
  datatype Token = Token(kind: TokenType, literal: string)

  /** The string value of each kind constant; this is what diagnostics print. */
  function KindName(k: TokenType): string
  {
    match k
    case ILLEGAL => "ILLEGAL"
    case EOF => "EOF"
    case IDENT => "IDENT"
    case INT => "INT"
    case ASSIGN => "="
    case PLUS => "+"
    case MINUS => "-"
    case BANG => "!"
    case ASTERISK => "*"
    case SLASH => "/"
    case LT => "<"
    case GT => ">"
    case EQ => "=="
    case NOT_EQ => "!="
    case COMMA => ","
    case SEMICOLON => ";"
    case LPAREN => "("
    case RPAREN => ")"
    case LBRACE => "{"
    case RBRACE => "}"
    case FUNCTION => "FUNCTION"
    case LET => "LET"
    case TRUE => "TRUE"
    case FALSE => "FALSE"
    case IF => "IF"
    case ELSE => "ELSE"
    case RETURN => "RETURN"
  }

  /** The kinds whose constant is an upper-case word. */
  function KindOfWord(s: string): (r: Option<TokenType>)
    ensures r.Some? ==> KindName(r.value) == s
  {
    if s == "ILLEGAL" then Some(ILLEGAL)
    else if s == "EOF" then Some(EOF)
    else if s == "IDENT" then Some(IDENT)
    else if s == "INT" then Some(INT)
    else if s == "FUNCTION" then Some(FUNCTION)
    else if s == "LET" then Some(LET)
    else if s == "TRUE" then Some(TRUE)
    else if s == "FALSE" then Some(FALSE)
    else if s == "IF" then Some(IF)
    else if s == "ELSE" then Some(ELSE)
    else if s == "RETURN" then Some(RETURN)
    else None
  }

  /** The kinds whose constant is the operator or delimiter itself. */
  function KindOfSymbol(s: string): (r: Option<TokenType>)
    ensures r.Some? ==> KindName(r.value) == s
  {
    if s == "=" then Some(ASSIGN)
    else if s == "+" then Some(PLUS)
    else if s == "-" then Some(MINUS)
    else if s == "!" then Some(BANG)
    else if s == "*" then Some(ASTERISK)
    else if s == "/" then Some(SLASH)
    else if s == "<" then Some(LT)
    else if s == ">" then Some(GT)
    else if s == "==" then Some(EQ)
    else if s == "!=" then Some(NOT_EQ)
    else if s == "," then Some(COMMA)
    else if s == ";" then Some(SEMICOLON)
    else if s == "(" then Some(LPAREN)
    else if s == ")" then Some(RPAREN)
    else if s == "{" then Some(LBRACE)
    else if s == "}" then Some(RBRACE)
    else None
  }

  /** Reads a kind back from its constant string, the inverse of `KindName`. */
  function KindOfName(s: string): (r: Option<TokenType>)
    ensures r.Some? ==> KindName(r.value) == s
  {
    if |s| > 0 && 'A' <= s[0] <= 'Z' then KindOfWord(s) else KindOfSymbol(s)
  }

  /** Each kind's constant string reads back as that kind. */
  lemma KindNameRoundTrip(k: TokenType)
    ensures KindOfName(KindName(k)) == Some(k)
  {
    match k
    case ILLEGAL =>
    case EOF =>
    case IDENT =>
    case INT =>
    case ASSIGN =>
    case PLUS =>
    case MINUS =>
    case BANG =>
    case ASTERISK =>
    case SLASH =>
    case LT =>
    case GT =>
    case EQ =>
    case NOT_EQ =>
    case COMMA =>
    case SEMICOLON =>
    case LPAREN =>
    case RPAREN =>
    case LBRACE =>
    case RBRACE =>
    case FUNCTION =>
    case LET =>
    case TRUE =>
    case FALSE =>
    case IF =>
    case ELSE =>
    case RETURN =>
  }

  /** All kind constants are distinct strings; in particular `==` is not `=`
      and `!=` is not `!`. */
  lemma KindNamesDistinct(a: TokenType, b: TokenType)
    requires a != b
    ensures KindName(a) != KindName(b)
  {
    KindNameRoundTrip(a);
    KindNameRoundTrip(b);
  }

  /** The keyword table: the seven reserved words and their kinds. */
  function Keywords(): map<string, TokenType>
  {
    map["fn" := FUNCTION, "let" := LET, "true" := TRUE, "false" := FALSE,
        "if" := IF, "else" := ELSE, "return" := RETURN]
  }

  /** The kinds a keyword can have. */
  predicate IsKeywordKind(k: TokenType)
  {
    k in {FUNCTION, LET, TRUE, FALSE, IF, ELSE, RETURN}
  }

  /** The kind of an identifier-shaped word: its keyword kind when the word is
      in the table, IDENT otherwise. */
  function LookupIdent(ident: string): (k: TokenType)
    ensures k == IDENT || IsKeywordKind(k)
    ensures k != IDENT <==> ident in {"fn", "let", "true", "false", "if", "else", "return"}
    ensures k == FUNCTION <==> ident == "fn"
    ensures k == LET <==> ident == "let"
    ensures k == TRUE <==> ident == "true"
    ensures k == FALSE <==> ident == "false"
    ensures k == IF <==> ident == "if"
    ensures k == ELSE <==> ident == "else"
    ensures k == RETURN <==> ident == "return"
  {
    var keywords := Keywords();
    if ident in keywords then keywords[ident] else IDENT
  }

  /** The keyword table is injective: distinct keywords have distinct kinds. */
  lemma KeywordsInjective(a: string, b: string)
    requires a in Keywords() && b in Keywords()
    requires a != b
    ensures Keywords()[a] != Keywords()[b]
  {
  }

  /** Keyword lookup is case-sensitive: a word with an upper-case first letter is
      never a keyword. */
  lemma UpperCaseIsIdent(ident: string)
    requires |ident| > 0 && 'A' <= ident[0] <= 'Z'
    ensures LookupIdent(ident) == IDENT
  {
  }
}
