# Monkey front end: lexer, AST and Pratt parser

This project models the front end of the Monkey interpreter in Dafny:

- **Token** — the token kinds and their names, the keyword table, and `LookupIdent`.
- **Lexer** — the byte-cursor lexer. `readChar`, `peekChar`, `skipWhitespace`,
  `readIdentifier`, `readNumber` and `NextToken` each become pure functions
  from one lexer state to the next.
- **Ast** — the syntax tree and its `String` and `TokenLiteral` renderings.
- **Parser** — the Pratt parser. It has prefix and infix registries, a
  precedence table and `expectPeek`. It parses let, return and expression
  statements, and prefix, infix, grouped, boolean and `if` expressions, and
  records errors as messages.

Go's mutable receivers become immutable states threaded through functions.
A parser state is `Parser(toks, pos, errors)`. The peek token is the one
after `pos`, and every position past the end reads as EOF.

Some parses loop forever in Go. The let and return statements skip tokens
until a `;`, and if there is none they never stop. Such a parse has the
outcome `Hangs`.

A nil child of a node is `None`. A failed `let` makes `parseLetStatement`
return a typed nil. That value still passes the `stmt != nil` test in
`ParseProgram`, so it is appended to the program. The model keeps it as the
`NilLet` statement. Rendering it, like calling `String()` through any nil
child, is `Failure(NilDereference)` where Go would panic.

The model is organised as follows:

- **Modules that follow the source files:** `Token`, `Lexer`, `IntLiteral`,
  `Ast` and `Parser`. `IntLiteral` is the part of Go's `strconv.ParseInt`
  with base 0 that the parser relies on: the digit loop of `ParseUint`, its
  64-bit accumulator, its octal reading after a leading `0`, and the order in
  which it reports syntax and range errors.
- **`Precedence`:** an independent reference for precedence climbing. An
  operator chain becomes a tree whose root is the last operator of weakest
  binding power. The module proves that the parser builds exactly that tree
  for every chain of operands and infix operators, with or without a leading
  prefix operator or a parenthesised first operand.
- **`Examples`, `Programs` and `Diagnostics`:** whole-program statements.
  They cover the examples the parser is known for, sequences of well-formed
  `let` statements of any length, and the error paths. Each example is stated
  on its source text, through `Parser.ParseSource`, which lexes the text and
  parses the resulting tokens.

## Model

| member | source | states |
|---|---|---|
| Token.KindOfName | lexerStudy1/src/monkey/token/token.go:10-48 | whenever a string is recognised as a kind's name, it is exactly the name constant of the kind returned |
| Token.KindNameRoundTrip | lexerStudy1/src/monkey/token/token.go:10-48 | every token kind is recovered from its name string, so the names identify the kinds |
| Token.KindNamesDistinct | lexerStudy1/src/monkey/token/token.go:10-48 | two different token kinds never share a name string |
| Token.LookupIdent | lexerStudy1/src/monkey/token/token.go:54-73 | each keyword kind is returned exactly for its own keyword: FUNCTION for `fn`, LET for `let`, TRUE for `true`, FALSE for `false`, IF for `if`, ELSE for `else`, RETURN for `return`. Every other word is IDENT |
| Token.KeywordsInjective | lexerStudy1/src/monkey/token/token.go:54-62 | different keywords map to different token kinds |
| Token.UpperCaseIsIdent | lexerStudy1/src/monkey/token/token.go:54-73 | a word that starts with an upper-case letter is never a keyword; keyword lookup is case-sensitive |
| Lexer.New | lexerStudy1/src/monkey/lexer/lexer.go:16-20 | a new lexer is a consistent state on its input with the cursor on the first byte |
| Lexer.ReadChar | lexerStudy1/src/monkey/lexer/lexer.go:23-39 | the cursor moves to the read position, one byte further on a consistent state, and the current byte is the input byte there or NUL past the end |
| Lexer.PeekChar | lexerStudy1/src/monkey/lexer/lexer.go:118-124 | the lookahead byte is the one `readChar` would make current, that is, the input byte after the cursor or NUL past the end |
| Lexer.SkipWhitespace | lexerStudy1/src/monkey/lexer/lexer.go:148-152 | the cursor passes only space, tab, newline and carriage-return bytes, and it stops on a byte that is none of them |
| Lexer.ReadIdentifier | lexerStudy1/src/monkey/lexer/lexer.go:133-139 | it consumes the longest run of letters and `_` from the cursor, and the returned text is exactly those bytes |
| Lexer.ReadNumber | lexerStudy1/src/monkey/lexer/lexer.go:154-160 | it consumes the longest run of decimal digits from the cursor, and the returned text is exactly those bytes |
| Lexer.RuneString | lexerStudy1/src/monkey/lexer/lexer.go:127-130 | Go's `string(ch)` on a byte below 0x80 is that one character. A byte from 0x80 up becomes its two-byte UTF-8 encoding: a lead byte 0xC0-0xDF and a continuation byte 0x80-0xBF whose payload bits spell the byte |
| Lexer.ScanOperator | lexerStudy1/src/monkey/lexer/lexer.go:50-73 | `=` and `!` produce a token whose literal is exactly the one or two input bytes consumed from the cursor |
| Lexer.ScanWord | lexerStudy1/src/monkey/lexer/lexer.go:97-105 | a letter or a digit starts a token whose literal is exactly the printable ASCII bytes consumed from the cursor |
| Lexer.NextToken | lexerStudy1/src/monkey/lexer/lexer.go:42-113 | a token starts after the whitespace and always consumes at least one byte. It is EOF exactly on a NUL byte, with an empty literal. ILLEGAL consumes a single byte whose literal is that byte's `string`. Any other token has a non-empty literal equal to the input bytes it consumed |
| Lexer.LiteralIsVisibleText | lexerStudy1/src/monkey/lexer/lexer.go:42-113 | every token's literal is the visible text of the bytes consumed after the whitespace |
| Lexer.EofIsIdempotent | lexerStudy1/src/monkey/lexer/lexer.go:94-96 | once the cursor is past the input, every further call yields EOF with an empty literal and stays past the end |
| Lexer.TwoByteOperators | lexerStudy1/src/monkey/lexer/lexer.go:50-73 | `=` or `!` followed by `=` is the two-byte EQ or NOT_EQ token; otherwise it is the single-byte ASSIGN or BANG |
| Lexer.SymbolKindIsLiteral | lexerStudy1/src/monkey/lexer/lexer.go:61-93 | for every operator and punctuation token, the literal is exactly its kind's name string, and the name maps back to the kind |
| Lexer.IdentifierIsMaximalRun | lexerStudy1/src/monkey/lexer/lexer.go:98-101 | a token starting with a letter is the longest letter run there, and its kind is the keyword lookup of that run |
| Lexer.NumberIsMaximalRun | lexerStudy1/src/monkey/lexer/lexer.go:102-105 | a token starting with a digit is the longest digit run there, kept verbatim as an INT literal |
| Lexer.IllegalIsSingleByte | lexerStudy1/src/monkey/lexer/lexer.go:106-108 | a token is ILLEGAL exactly when its first byte is non-NUL and starts no other token, and it then consumes that byte alone |
| Lexer.Run | lexerStudy1/src/monkey/lexer/lexer.go:42-113 | lexing to the end of the input yields no more tokens than remaining bytes, and no token in the stream other than EOF has an empty literal |
| Lexer.StreamMatchesLexer | lexerStudy1/src/monkey/lexer/lexer.go:42-113 | the k-th token of the stream the parser reads is the token of the k-th successive `NextToken` call, EOF included |
| Lexer.ScanCovers | lexerStudy1/src/monkey/lexer/lexer.go:42-113 | one call splits the visible rest of the input into the token's literal followed by the visible text after the new cursor |
| Lexer.RunCoversInput | lexerStudy1/src/monkey/lexer/lexer.go:42-113 | the literals of all tokens from a cursor on, concatenated, are the visible text of the input from that cursor on |
| Lexer.TokensCoverInput | lexerStudy1/src/monkey/lexer/lexer.go:16-113 | lexing loses and invents no text: the concatenated literals are the input with whitespace and NUL bytes removed and each byte from 0x80 up written as Go's `string` of it |
| Lexer.NulByteEndsInputEarly | lexerStudy1/src/monkey/lexer/lexer.go:94-111 | the input NUL then `x` lexes to EOF followed by the identifier `x`: the NUL reads as EOF, yet the lexer moves past it and `x` still becomes a token |
| Lexer.SkipBlank | lexerStudy1/src/monkey/lexer/lexer.go:148-152 | a blank byte before the end adds no token: the stream from it is the stream from the next byte |
| Lexer.ScannedRun | lexerStudy1/src/monkey/lexer/lexer.go:42-113 | from any byte that starts a token, the stream is the token read directly off the input (an operator, punctuation, a keyword lookup of the letter run, or the digit run) followed by the stream after it |
| Lexer.LexesRun | lexerStudy1/src/monkey/lexer/lexer.go:42-113 | a byte-by-byte description of an input suffix (blanks skipped, each other byte starting the next listed token) is exactly the lexer's stream from that byte |
| Lexer.LexesTokens | lexerStudy1/src/monkey/lexer/lexer.go:16-113 | an input fully covered by such a description lexes to exactly the listed tokens |
| Lexer.NulThenLetter | lexerStudy1/src/monkey/lexer/lexer.go:94-113 | an input of a NUL followed by any one letter lexes to EOF and then the identifier made of that letter |
| Lexer.NulAt | lexerStudy1/src/monkey/lexer/lexer.go:94-112 | a NUL byte before the end of the input is an EOF token with an empty literal, and the stream goes on from the next byte |
| Lexer.LoneLetter | lexerStudy1/src/monkey/lexer/lexer.go:97-101 | a letter as the last byte is an identifier of its own and ends the stream, since no keyword is one byte long |
| IntLiteral.ParseInt | parserStudy2/src/monkey/parser/parser.go:367-380 | an accepted literal is a non-empty digit run whose value is between 0 and 2^63-1. After a leading `0` it must be octal and is read in base 8; otherwise it is read in base 10. It succeeds exactly in that case. A well-formed literal fails only with a range error |
| IntLiteral.Accumulate | parserStudy2/src/monkey/parser/parser.go:369 | the digit loop succeeds exactly when every digit is below the base and the running value stays within 2^64-1, and its value is the positional value. On digits that are all valid, the only failure is a range error |
| IntLiteral.ParseUint | parserStudy2/src/monkey/parser/parser.go:369 | base 0 accepts exactly the non-empty texts that are octal after a leading `0` or decimal otherwise, with a value within 2^64-1, and returns that value. A well-formed text fails only with a range error |
| IntLiteral.ParseDecimalRoundTrip | parserStudy2/src/monkey/parser/parser.go:367-380 | the decimal text of every value from 0 to 2^63-1 parses back to that value |
| IntLiteral.OverflowIsRangeError | parserStudy2/src/monkey/parser/parser.go:367-380 | a decimal digit run without a leading zero converts to its value when that is at most 2^63-1, and is a range error otherwise |
| IntLiteral.OctalLiteral | parserStudy2/src/monkey/parser/parser.go:367-380 | `0` followed by octal digits converts to their base-8 value when that is at most 2^63-1, and is a range error otherwise |
| IntLiteral.OverflowBeforeBadDigit | parserStudy2/src/monkey/parser/parser.go:369 | once the running value has passed 2^64-1, the digit loop reports a range error, whatever digits follow |
| IntLiteral.OctalOverflowHidesLaterDigits | parserStudy2/src/monkey/parser/parser.go:367-380 | an octal prefix whose value exceeds 2^64-1 makes the literal a range error, even when a non-octal digit follows |
| IntLiteral.RangeErrorBeforeSyntaxError | parserStudy2/src/monkey/parser/parser.go:367-380 | `0` followed by twenty-two `7`s and an `8` is a range error, not a syntax error |
| IntLiteral.LeadingZeroMeansOctal | parserStudy2/src/monkey/parser/parser.go:369 | base 0 makes `010` the value eight and `08` a syntax error |
| Ast.RenderExpr | parserStudy2/src/monkey/ast/ast.go:41-120 | an expression has a text exactly when it is renderable (identifiers, integers, and prefix or infix nodes with every child present). An identifier renders as its name and an integer as its literal |
| Ast.RenderOptional | parserStudy2/src/monkey/ast/ast.go:163-189 | a missing value renders as the empty text, and a present one has a text exactly when it is renderable |
| Ast.RenderStatement | parserStudy2/src/monkey/ast/ast.go:163-196 | a statement has a text exactly when it is not a failed `let` and its value or expression, if present, has one |
| Ast.LetWithoutValueText | parserStudy2/src/monkey/ast/ast.go:163-176 | a let statement with no value renders as its token literal, a space, the name, and ` = ;` |
| Ast.ReturnWithoutValueText | parserStudy2/src/monkey/ast/ast.go:178-189 | a return statement with no value renders as its token literal followed by ` ;` |
| Ast.RenderStatements | parserStudy2/src/monkey/ast/ast.go:102-111 | a statement list has a text exactly when each of its statements has one |
| Ast.RenderExpressionProgram | parserStudy2/src/monkey/ast/ast.go:102-111 | a program of one expression statement renders as that expression's text |
| Ast.RenderStatementsAppend | parserStudy2/src/monkey/ast/ast.go:102-111 | the text of two statement lists joined is the two texts joined |
| Parser.ParsedProgramTokenLiteral | parserStudy2/src/monkey/ast/ast.go:50-56 | a program parsed from a stream that does not start at EOF has a first statement. Its token literal is the first token's literal, except when that statement is a failed `let`: asking for it then dereferences nil |
| Ast.RenderIsFullyParenthesised | parserStudy2/src/monkey/ast/ast.go:67-98 | the canonical text has exactly one `(` per prefix and infix node, so every operator application is wrapped in parentheses |
| Parser.PrecedenceKeysAreInfixKeys | parserStudy2/src/monkey/parser/parser.go:13-82 | a kind has a precedence exactly when it has an infix handler, and every such precedence lies strictly between LOWEST and PREFIX |
| Parser.ExpectPeek | parserStudy2/src/monkey/parser/parser.go:386-396 | it succeeds exactly when the peek token has the wanted kind, and then it advances onto it. Otherwise it leaves the position and records the "expected next token" message |
| Parser.SkipToSemicolon | parserStudy2/src/monkey/parser/parser.go:167-169 | the skip loop stops exactly on the first `;` at or after the cursor. It never stops when there is none |
| Parser.ParseIdentifier | parserStudy2/src/monkey/parser/parser.go:144-146 | the current token becomes an identifier named by its literal |
| Parser.ParseBoolean | parserStudy2/src/monkey/parser/parser.go:257-259 | the current token becomes a boolean that is true exactly on a TRUE token |
| Parser.ParseIntegerLiteral | parserStudy2/src/monkey/parser/parser.go:367-380 | it never moves. It yields a literal exactly when the text converts, and the node then carries the current token and the converted value. Otherwise it records the "could not parse" message |
| Parser.ParseExpression | parserStudy2/src/monkey/parser/parser.go:343-365 | it never moves backwards or loses errors, and it terminates on every stream in which every `let` and `return` token has a `;` somewhere after it. An error-free result is a complete tree. It stops only where the peek token is `;`, binds no tighter, or has no infix handler |
| Parser.ApplyPrefix | parserStudy2/src/monkey/parser/parser.go:343-350 | the registered prefix handler never moves backwards or loses errors, and an error-free result is a complete tree |
| Parser.ParseInfixLoop | parserStudy2/src/monkey/parser/parser.go:353-362 | the operator loop keeps a complete left operand complete when no error is added, and it stops exactly at `;`, at a weaker or equal operator, or at a token with no infix handler |
| Parser.ParsePrefixExpression | parserStudy2/src/monkey/parser/parser.go:129-142 | a prefix node always results, carrying the current token's operator, and its operand is complete when no error is added |
| Parser.ParseInfixExpression | parserStudy2/src/monkey/parser/parser.go:97-111 | an infix node always results with the given left operand and the current operator. Its right side is complete when no error is added |
| Parser.ParseGroupedExpression | parserStudy2/src/monkey/parser/parser.go:192-201 | a successful group ends on its `)` and holds a complete inner expression when no error is added |
| Parser.ParseIfExpression | parserStudy2/src/monkey/parser/parser.go:204-236 | a successful `if` ends on a `}` (or EOF) and is complete when no error is added. An `if` without an alternative is not followed by `else` |
| Parser.IfNeedsParen | parserStudy2/src/monkey/parser/parser.go:204-209 | without `(` after `if`, no expression results and only the "expected next token to be (" message is added |
| Parser.IfThen | parserStudy2/src/monkey/parser/parser.go:204-236 | `if (c) { ... }` not followed by `else` yields an `if` node with that condition, that block and no alternative, ending where the block ends |
| Parser.IfThenElse | parserStudy2/src/monkey/parser/parser.go:204-236 | `if (c) { ... } else { ... }` yields an `if` node with that condition and both blocks, ending where the alternative ends |
| Parser.ParseIfBody | parserStudy2/src/monkey/parser/parser.go:215-236 | after the condition come `)` and `{`. The result keeps the condition and ends on a `}` (or EOF) |
| Parser.ParseIfBlocks | parserStudy2/src/monkey/parser/parser.go:223-236 | after the consequence block, an `else` leads to an alternative. Without one the `if` has none, and the next token is not `else` |
| Parser.ParseElse | parserStudy2/src/monkey/parser/parser.go:225-233 | after `else`, a successful parse carries the condition, the consequence and an alternative block, and it ends on a `}` (or EOF) |
| Parser.ParseBlockStatement | parserStudy2/src/monkey/parser/parser.go:240-255 | a block keeps its opening token, ends on `}` or EOF, and holds only complete statements when no error is added |
| Parser.ParseBlockLoop | parserStudy2/src/monkey/parser/parser.go:246-252 | the block loop only appends statements, stops on `}` or EOF, and keeps the list complete when no error is added |
| Parser.BlockLoopStep | parserStudy2/src/monkey/parser/parser.go:246-252 | each round of the block loop appends the statement parsed at the cursor and resumes one token after where that statement ended |
| Parser.BlockLoopIsProgramLoop | parserStudy2/src/monkey/parser/parser.go:246-252 | where no `}` is left in the stream, the block loop and the program loop parse the same statements and stop at the same EOF |
| Parser.ParseStatement | parserStudy2/src/monkey/parser/parser.go:308-320 | a statement parse never moves backwards or loses errors, and its result is complete when no error is added. The statement keeps the current token, and a failed `let` arises only on a LET token |
| Parser.ParseLetStatement | parserStudy2/src/monkey/parser/parser.go:148-174 | a let statement results exactly when an identifier and `=` follow `let`. It then ends on the first `;` after the `=`, with the name and no value. Without a name, the result is the failed `let`, the cursor stays on `let` and the one new error is "expected next token to be IDENT, got X instead". Without `=`, the cursor stays on the name and the error names ASSIGN. The statement never returns exactly when name and `=` are present and no `;` follows |
| Parser.ParseLetAfterName | parserStudy2/src/monkey/parser/parser.go:158-174 | from the name: a let with that name when `=` follows, ending on the first `;` after it; otherwise the failed `let` with the ASSIGN error and no move; never returns exactly when no `;` follows the `=` |
| Parser.ParseReturnStatement | parserStudy2/src/monkey/parser/parser.go:179-189 | a return statement carrying the `return` token and no value results, with no error added. It ends exactly on the first `;` after `return`, and it hangs exactly when there is none |
| Parser.ParseExpressionStatement | parserStudy2/src/monkey/parser/parser.go:324-334 | an expression statement keeps its first token, and it is complete when no error is added |
| Parser.ExpressionStatementStep | parserStudy2/src/monkey/parser/parser.go:324-334 | a statement starting with neither `let` nor `return` holds exactly the expression parsed at LOWEST from its first token, and ends on a `;` right after that expression or else where the expression ended |
| Parser.ParseProgramLoop | parserStudy2/src/monkey/parser/parser.go:290-298 | the program loop only appends statements, stops on EOF, and keeps the list complete when no error is added |
| Parser.ProgramLoopStep | parserStudy2/src/monkey/parser/parser.go:290-298 | each round appends the parsed statement and resumes one token after where the statement ended |
| Parser.ParseProgram | parserStudy2/src/monkey/parser/parser.go:284-301 | it terminates whenever every `let` and `return` token has a `;` somewhere after it, and it ends on EOF. An error-free program has only complete statements |
| Precedence.ThreeOperands | parserStudy2/src/monkey/parser/parser.go:13-34 | in the reference tree of `a o1 b o2 c`, the first operator is the root exactly when the second binds strictly tighter than it; otherwise the second is the root, so equal operators associate to the left |
| Precedence.LoopContinues | parserStudy2/src/monkey/parser/parser.go:353-362 | while the peek token is an infix operator that binds tighter, the loop takes it and continues with the grown left operand |
| Precedence.LoopStops | parserStudy2/src/monkey/parser/parser.go:353-362 | at a non-operator, or at an operator that binds no tighter, the loop returns its left operand without moving |
| Precedence.ExpressionDispatch | parserStudy2/src/monkey/parser/parser.go:343-365 | an expression parse applies the registered prefix handler and passes its result to the operator loop |
| Precedence.OperandIsLeaf | parserStudy2/src/monkey/parser/parser.go:68-86 | identifiers, integers and booleans have a handler that yields their leaf without moving |
| Precedence.OperandStarts | parserStudy2/src/monkey/parser/parser.go:343-365 | an expression that starts with an operand runs the operator loop on that operand's leaf |
| Precedence.InfixOnChain | parserStudy2/src/monkey/parser/parser.go:97-111 | on an operator chain, an infix node's right side is the reference subtree that extends over every later operator binding tighter than it |
| Precedence.FoldOperator | parserStudy2/src/monkey/parser/parser.go:353-362 | one round of the loop on a chain replaces the left subtree by the reference subtree rooted at the next operator |
| Precedence.LoopOnChain | parserStudy2/src/monkey/parser/parser.go:353-362 | from any point of a chain, the loop builds the reference subtree up to the first operator not binding tighter than the floor, and stops there |
| Precedence.ParseOnChain | parserStudy2/src/monkey/parser/parser.go:343-365 | from any operand of a chain, an expression parse at a given binding power yields the reference subtree up to the first operator binding no tighter than that power |
| Precedence.StopAtLowest | parserStudy2/src/monkey/parser/parser.go:13-34 | at LOWEST binding power, every infix operator of a chain is taken |
| Precedence.LoopOnWholeChain | parserStudy2/src/monkey/parser/parser.go:353-362 | the loop at LOWEST turns a whole chain into its reference tree and stops on its last operand |
| Precedence.ParseChain | parserStudy2/src/monkey/parser/parser.go:343-365 | every chain of operands and infix operators parses, at LOWEST and without errors, to the reference tree: the weakest last operator at the root, left association among equals |
| Precedence.OperandAlone | parserStudy2/src/monkey/parser/parser.go:353-362 | an operand followed by no tighter operator parses to its leaf without moving |
| Precedence.PrefixStarts | parserStudy2/src/monkey/parser/parser.go:129-142 | an expression starting with `!` or `-` runs the prefix handler first, and the operator loop continues from the node it returns |
| Precedence.GroupCloses | parserStudy2/src/monkey/parser/parser.go:192-201 | a group whose inner expression is followed by `)` yields that expression and ends on the `)` |
| Precedence.GroupUnclosed | parserStudy2/src/monkey/parser/parser.go:192-201 | a group whose inner expression is not followed by `)` gives no expression and adds the "expected next token to be )" message |
| Precedence.GroupIsOperand | parserStudy2/src/monkey/parser/parser.go:192-201 | a closed group enters the operator loop as one operand |
| Precedence.ParsePrefixedChain | parserStudy2/src/monkey/parser/parser.go:129-142 | a chain whose first operand carries `!` or `-` parses to the reference tree with the prefix node as first leaf |
| Precedence.GroupedChainIsOperand | parserStudy2/src/monkey/parser/parser.go:192-201 | a parenthesised chain enters the outer operator loop as its own reference tree |
| Precedence.ParseGroupedChain | parserStudy2/src/monkey/parser/parser.go:192-201 | a chain whose first operand is a parenthesised chain parses to the reference tree with the inner tree as first leaf |
| Examples.ExpressionProgram | parserStudy2/src/monkey/parser/parser.go:284-334 | a token stream holding one expression, optionally ended by `;`, parses to a one-statement program of that expression |
| Examples.ProductBindsTighter | parserStudy2/src/monkey/parser/parser.go:13-22 | `5 + 5 * 2;` parses without errors to a program whose text is `(5 + (5 * 2))` |
| Examples.SumIsLeftAssociative | parserStudy2/src/monkey/parser/parser.go:353-362 | `a + b + c;` parses without errors to a program whose text is `((a + b) + c)` |
| Examples.PrefixBindsTighter | parserStudy2/src/monkey/parser/parser.go:129-142 | `-a * b;` parses without errors to a program whose text is `((-a) * b)` |
| Examples.GroupingOverridesPrecedence | parserStudy2/src/monkey/parser/parser.go:192-201 | `(5 + 5) * 2;` parses without errors to a program whose text is `((5 + 5) * 2)` |
| Examples.ComparisonGroupsFirst | parserStudy2/src/monkey/parser/parser.go:13-22 | `3 > 5 == false` parses without errors to the equality of `(3 > 5)` with `false` |
| Examples.NameBlockParses | parserStudy2/src/monkey/parser/parser.go:240-255 | the block `{ x }` parses to one expression statement and ends on its `}` |
| Examples.IfAlone | parserStudy2/src/monkey/parser/parser.go:343-365 | an `if` expression followed by no operator is the whole expression |
| Examples.IfElseShape | parserStudy2/src/monkey/parser/parser.go:204-236 | `if (x < y) { x } else { y }` parses without errors to one `if` with condition `(x < y)` and the blocks `{ x }` and `{ y }` |
| Programs.MissingPrefixHandler | parserStudy2/src/monkey/parser/parser.go:336-348 | a token with no prefix handler gives no expression, stays put and records the "no prefix parse function" message |
| Programs.WellFormedLet | parserStudy2/src/monkey/parser/parser.go:148-174 | `let x = v;` parses to a let statement named `x`, ends on its `;` and records no error |
| Programs.LetLoop | parserStudy2/src/monkey/parser/parser.go:284-301 | from the start of any line of a sequence of let lines, the program loop appends exactly one let statement per remaining line |
| Programs.LetProgram | parserStudy2/src/monkey/parser/parser.go:284-301 | any number of `let name = value;` lines parses without errors to one let statement per line, in order |
| Programs.WellFormedReturn | parserStudy2/src/monkey/parser/parser.go:179-189 | `return v;` parses to a return statement with no value, ends on its `;` and records no error |
| Programs.RenderLets | parserStudy2/src/monkey/ast/ast.go:102-111 | the let statements of a list of bindings render as `let name = ;` for each binding, in order |
| Programs.LetProgramText | parserStudy2/src/monkey/ast/ast.go:102-111 | a program of let lines parses and renders as `let name = ;` for each line, concatenated |
| Diagnostics.NamelessLetFails | parserStudy2/src/monkey/parser/parser.go:148-156 | on the tokens of `let = 5;`, the `let` fails at the missing name: a failed `let` with the "expected next token to be IDENT" message, the cursor unmoved |
| Diagnostics.NamelessLetProgram | parserStudy2/src/monkey/parser/parser.go:284-301 | the tokens of `let = 5;` parse to the failed `let`, then an empty expression for `=`, then `5`, with two error messages in order |
| Diagnostics.NamelessLetLexes | lexerStudy1/src/monkey/lexer/lexer.go:42-113 | the text `let = 5;` lexes to LET, ASSIGN, the integer 5 and `;` |
| Diagnostics.NamelessLetSource | parserStudy2/src/monkey/parser/parser.go:284-301 | the text `let = 5;` parses to the failed `let`, an empty expression for `=`, and `5`, with the two messages in order |
| Diagnostics.AtLexes | lexerStudy1/src/monkey/lexer/lexer.go:106-108 | the source `@` lexes to one ILLEGAL token |
| Diagnostics.AtHasNoPrefix | parserStudy2/src/monkey/parser/parser.go:336-348 | the source `@` parses to one empty expression statement and the message "no prefix parse function for ILLEGAL found" |
| Diagnostics.NulStopsParsing | parserStudy2/src/monkey/parser/parser.go:284-301 | the text NUL followed by `x` parses to an empty program with no error: the NUL reads as EOF, so `x` is never parsed |

## Left out

- The checkpoint copies `lexer/lexer.go`, `monkey/lexer/lexer.go` and
  `monkey/token/token.go` are not part of this model. It follows the
  `lexerStudy1` lexer and token files.
- Go's `fmt` `%q` quoting in the integer error message is modelled only for
  digit runs, where it is the literal in double quotes. Those are the only
  literals the lexer gives an INT token.
- `strconv.ParseInt`'s signs, `0x`/`0b`/`0o` prefixes and `_` separators are
  not modelled. Such text never reaches it, because INT literals are digit
  runs.
- Tracing calls, the `Errors()` accessor and the `curTokenIs`/`peekTokenIs`
  helpers are inlined, not modelled as members.
- The registries and the precedence table are total functions on token kinds,
  not Go maps. Node identity is not modelled.
- `BlockStatement`, `Boolean` and `IfExpression` are not declared in
  `ast.go` at all, although the parser builds them. The model gives them
  the fields the parser fills in and no rendering: rendering them is
  `Failure(NoRenderingRule)`. So the `3 > 5 == false` and if/else examples state their trees, and render
  only the parts that have a text.
- The source never parses let and return values: it skips to `;`. The model
  does the same, and those statements carry no value.
- A let or return statement with no `;` after it makes the Go parser loop
  forever. The model returns `Hangs` for it and proves termination only for
  streams in which every `let` and `return` token has a `;` somewhere after
  it (`Parser.SemicolonAfterSkips`).
- Programs.LetProgram: stated on token streams (five tokens per line), not on
  source text.
- The parser reads a lexer's tokens as a stream in which every position past
  the end is EOF. `Lexer.StreamMatchesLexer` connects that stream to
  successive `NextToken` calls.
- Parser.ParseIfExpression: its own contract states only one direction
  about `else`: without an alternative, no `else` follows. The node built
  for each shape is stated by `Parser.IfNeedsParen`, `Parser.IfThen` and
  `Parser.IfThenElse`; the error paths after `)` and `{` are left to the
  contracts of `ExpectPeek`.
- Parser.ParseExpression: the exact tree is stated for operator chains
  (`Precedence.ParseChain` and its prefixed and grouped variants), not for
  every token stream.
- The `CALL` precedence level is declared but unused: LPAREN has no infix
  handler, so call expressions do not parse. The model keeps the constant and
  registers no call handler.
- Behaviour worth knowing: a failed `let` is kept in the program as a typed
  nil, not dropped, because the `stmt != nil` test at `parserStudy2/src/monkey/parser/parser.go:293`
  compares an interface holding a nil `*LetStatement` with nil. The model
  follows the code (`NilLet`).
- The example texts are lexed through `Lexer.Lexes`, a byte-by-byte
  description that covers inputs with no ILLEGAL byte, no NUL and no
  trailing whitespace. Texts outside it are covered by the general lexer
  lemmas, not by this description.
