/**
 * The byte-cursor lexer. A `Lexer` value is the Go struct's state (input,
 * position, readPosition, ch); each Go method becomes a pure function from
 * one state to the next.
 */
module Lexer {
  import opened Wrappers
  import opened Token

  /** A byte of the source text. Go strings are byte strings; a byte is
      modelled as a character no larger than 0xFF. */
  type Byte = c: char | c <= '\U{FF}' witness '\0'

  /** The byte the lexer uses as its end-of-input sentinel. */
  const NUL: Byte := '\0'

  datatype Lexer = Lexer(input: seq<Byte>, position: nat, readPosition: nat, ch: Byte)

  /** The byte at index `i`, or NUL past the end of the input. */
  function ByteAt(input: seq<Byte>, i: nat): Byte
  {
    if i < |input| then input[i] else NUL
  }

  /** The cursor invariant: `readPosition` is one past `position`, and `ch` is
      the byte under `position` (NUL once the input is exhausted). */
  predicate Valid(l: Lexer)
  {
    l.readPosition == l.position + 1 && l.ch == ByteAt(l.input, l.position)
  }

  predicate IsLetter(c: Byte)
  {
    'a' <= c <= 'z' || 'A' <= c <= 'Z' || c == '_'
  }

  predicate IsDigit(c: Byte)
  {
    '0' <= c <= '9'
  }

  predicate IsWhitespace(c: Byte)
  {
    c == ' ' || c == '\t' || c == '\n' || c == '\r'
  }

  /** Bytes that never appear in a literal: whitespace and the NUL sentinel. */
  predicate IsBlank(c: Byte)
  {
    IsWhitespace(c) || c == NUL
  }

  /** Moves the cursor one byte forward, loading NUL past the end. */
  function ReadChar(l: Lexer): (r: Lexer)
    ensures Valid(r)
    ensures r.input == l.input && r.position == l.readPosition
    ensures Valid(l) ==> r.position == l.position + 1
  {
    var ch := if l.readPosition >= |l.input| then NUL else l.input[l.readPosition];
    Lexer(l.input, l.readPosition, l.readPosition + 1, ch)
  }

  /** A fresh lexer positioned on the first byte of `input`. */
  function New(input: seq<Byte>): (l: Lexer)
    ensures Valid(l) && l.input == input && l.position == 0
  {
    ReadChar(Lexer(input, 0, 0, NUL))
  }

  /** The byte after the current one, without moving the cursor. */
  function PeekChar(l: Lexer): (c: Byte)
    ensures Valid(l) ==> c == ReadChar(l).ch && c == ByteAt(l.input, l.position + 1)
  {
    if l.readPosition >= |l.input| then NUL else l.input[l.readPosition]
  }

  /** Advances over the longest run of bytes satisfying `inRun`; the shared
      loop of `skipWhitespace`, `readIdentifier` and `readNumber`. */
  function ReadWhile(l: Lexer, inRun: Byte -> bool): (r: Lexer)
    requires Valid(l)
    requires !inRun(NUL)
    ensures Valid(r) && r.input == l.input
    ensures l.position <= r.position
    ensures !inRun(r.ch)
    ensures r.position > l.position ==> r.position <= |l.input|
    ensures forall i | l.position <= i < r.position :: i < |l.input| && inRun(l.input[i])
    decreases |l.input| - l.position
  {
    if inRun(l.ch) then ReadWhile(ReadChar(l), inRun) else l
  }

  /** Skips spaces, tabs, line feeds and carriage returns. */
  function SkipWhitespace(l: Lexer): (r: Lexer)
    requires Valid(l)
    ensures Valid(r) && r.input == l.input && l.position <= r.position
    ensures !IsWhitespace(r.ch)
    ensures forall i | l.position <= i < r.position :: i < |l.input| && IsWhitespace(l.input[i])
  {
    ReadWhile(l, IsWhitespace)
  }

  /** `input[from..to]`, clamped to the end of the input. */
  function Slice(input: seq<Byte>, from: nat, to: nat): seq<Byte>
  {
    if from >= |input| || to <= from then [] else input[from..if to <= |input| then to else |input|]
  }

  /** True when `input[from..to]` is a run of `inRun` bytes that cannot be
      extended to the right. */
  predicate MaximalRun(input: seq<Byte>, from: nat, to: nat, inRun: Byte -> bool)
  {
    from <= to <= |input|
    && (forall i | from <= i < to :: inRun(input[i]))
    && !inRun(ByteAt(input, to))
  }

  /** Reads the identifier starting at the cursor. */
  function ReadIdentifier(l: Lexer): (r: (Lexer, string))
    requires Valid(l) && l.position <= |l.input|
    ensures Valid(r.0) && r.0.input == l.input
    ensures MaximalRun(l.input, l.position, r.0.position, IsLetter)
    ensures r.1 == l.input[l.position..r.0.position]
  {
    var l' := ReadWhile(l, IsLetter);
    (l', l.input[l.position..l'.position])
  }

  /** Reads the digit run starting at the cursor. */
  function ReadNumber(l: Lexer): (r: (Lexer, string))
    requires Valid(l) && l.position <= |l.input|
    ensures Valid(r.0) && r.0.input == l.input
    ensures MaximalRun(l.input, l.position, r.0.position, IsDigit)
    ensures r.1 == l.input[l.position..r.0.position]
  {
    var l' := ReadWhile(l, IsDigit);
    (l', l.input[l.position..l'.position])
  }

  /** The kinds of the one-byte punctuation tokens other than `=` and `!`. */
  function Punctuation(c: Byte): Option<TokenType>
  {
    if c == '+' then Some(PLUS)
    else if c == '-' then Some(MINUS)
    else if c == '/' then Some(SLASH)
    else if c == '*' then Some(ASTERISK)
    else if c == '<' then Some(LT)
    else if c == '>' then Some(GT)
    else if c == ';' then Some(SEMICOLON)
    else if c == ',' then Some(COMMA)
    else if c == '{' then Some(LBRACE)
    else if c == '}' then Some(RBRACE)
    else if c == '(' then Some(LPAREN)
    else if c == ')' then Some(RPAREN)
    else None
  }

  /** Go's `string(ch)` on a byte: the UTF-8 encoding of the code point with
      that value, one byte below 0x80 and two bytes from 0x80 on. */
  function RuneString(c: Byte): (s: string)
    ensures |s| >= 1 && (c < '\U{80}' <==> s == [c])
    ensures forall i | 0 <= i < |s| :: '\U{80}' <= s[i] <= '\U{FF}' || s == [c]
    ensures c >= '\U{80}' ==> && |s| == 2
                              && 0xC0 <= s[0] as int < 0xE0 && 0x80 <= s[1] as int < 0xC0
                              && (s[0] as int - 0xC0) * 64 + (s[1] as int - 0x80) == c as int
  {
    if c < '\U{80}' then [c]
    else [(0xC0 + c as int / 64) as char, (0x80 + c as int % 64) as char]
  }

  /** The text a byte run contributes to token literals: blanks vanish, every
      other byte becomes `RuneString` of itself. */
  function Visible(bs: seq<Byte>): string
  {
    if |bs| == 0 then ""
    else (if IsBlank(bs[0]) then "" else RuneString(bs[0])) + Visible(bs[1..])
  }

  /** The result of one `NextToken` call: the advanced lexer and the token. */
  datatype Scan = Scan(lexer: Lexer, tok: Token)

  /** The position where the next token starts: after the whitespace run. */
  function Start(l: Lexer): nat
    requires Valid(l)
  {
    SkipWhitespace(l).position
  }

  /** Bytes that stand for themselves in a literal: printable, non-blank ASCII. */
  predicate Plain(bs: seq<Byte>)
  {
    forall i | 0 <= i < |bs| :: !IsBlank(bs[i]) && bs[i] < '\U{80}'
  }

  /** `s` is a token read from the cursor of `l` on: it covers the bytes from
      the cursor up to the new position, and its literal is exactly them. */
  predicate ReadsLiteral(l: Lexer, s: Scan)
  {
    && Valid(s.lexer) && s.lexer.input == l.input
    && l.position < s.lexer.position <= |l.input|
    && s.tok.kind !in {EOF, ILLEGAL}
    && s.tok.literal == l.input[l.position..s.lexer.position]
    && Plain(s.tok.literal)
  }

  /** The tokens starting with `=` or `!`: two bytes when `=` follows,
      otherwise the one byte alone. */
  function ScanOperator(l: Lexer): (s: Scan)
    requires Valid(l) && (l.ch == '=' || l.ch == '!')
    ensures ReadsLiteral(l, s)
  {
    var c := l.ch;
    if PeekChar(l) == '=' then
      var l2 := ReadChar(l);
      Scan(ReadChar(l2), Token(if c == '=' then EQ else NOT_EQ, [c, l2.ch]))
    else
      Scan(ReadChar(l), Token(if c == '=' then ASSIGN else BANG, [c]))
  }

  /** An identifier (or keyword) or an integer: the run of letters or digits
      from the cursor. */
  function ScanWord(l: Lexer): (s: Scan)
    requires Valid(l) && (IsLetter(l.ch) || IsDigit(l.ch))
    ensures ReadsLiteral(l, s)
  {
    if IsLetter(l.ch) then
      var (l2, lit) := ReadIdentifier(l);
      Scan(l2, Token(LookupIdent(lit), lit))
    else
      var (l2, lit) := ReadNumber(l);
      Scan(l2, Token(INT, lit))
  }

  /** Scans the next token. Every token covers the bytes from `Start(l)` up to
      the new position; its literal is their visible text. */
  function NextToken(l: Lexer): (s: Scan)
    requires Valid(l)
    ensures Valid(s.lexer) && s.lexer.input == l.input
    ensures l.position <= Start(l) < s.lexer.position
    ensures s.tok.kind == EOF <==> ByteAt(l.input, Start(l)) == NUL
    ensures s.tok.kind == EOF ==> s.tok.literal == "" && s.lexer.position == Start(l) + 1
    ensures s.tok.kind != EOF ==> s.lexer.position <= |l.input| && s.tok.literal != ""
    ensures s.tok.kind !in {EOF, ILLEGAL} ==> s.tok.literal == l.input[Start(l)..s.lexer.position] && Plain(s.tok.literal)
    ensures s.tok.kind == ILLEGAL ==>
              s.lexer.position == Start(l) + 1 && s.tok.literal == RuneString(l.input[Start(l)])
  {
    var l1 := SkipWhitespace(l);
    var c := l1.ch;
    if c == '=' || c == '!' then ScanOperator(l1)
    else if c == NUL then Scan(ReadChar(l1), Token(EOF, ""))
    else if Punctuation(c).Some? then Scan(ReadChar(l1), Token(Punctuation(c).value, [c]))
    else if IsLetter(c) || IsDigit(c) then ScanWord(l1)
    else Scan(ReadChar(l1), Token(ILLEGAL, RuneString(c)))
  }

  lemma {:induction false} VisiblePlain(bs: seq<Byte>)
    requires Plain(bs)
    ensures Visible(bs) == bs
    decreases |bs|
  {
    if |bs| > 0 {
      VisiblePlain(bs[1..]);
    }
  }

  lemma {:induction false} VisibleAppend(a: seq<Byte>, b: seq<Byte>)
    ensures Visible(a + b) == Visible(a) + Visible(b)
    decreases |a|
  {
    if |a| > 0 {
      assert (a + b)[1..] == a[1..] + b;
      VisibleAppend(a[1..], b);
    } else {
      assert a + b == b;
    }
  }

  lemma {:induction false} VisibleBlank(bs: seq<Byte>)
    requires forall i | 0 <= i < |bs| :: IsBlank(bs[i])
    ensures Visible(bs) == ""
    decreases |bs|
  {
    if |bs| > 0 {
      VisibleBlank(bs[1..]);
    }
  }

  /** Every token's literal is exactly the visible text of the bytes it
      covers, the end-of-input token included. */
  lemma LiteralIsVisibleText(l: Lexer)
    requires Valid(l)
    ensures NextToken(l).tok.literal == Visible(Slice(l.input, Start(l), NextToken(l).lexer.position))
  {
    var s := NextToken(l);
    var start := Start(l);
    var bs := Slice(l.input, start, s.lexer.position);
    if s.tok.kind == EOF {
      VisibleBlank(bs);
    } else if s.tok.kind == ILLEGAL {
      assert bs == [l.input[start]];
    } else {
      assert bs == s.tok.literal;
      VisiblePlain(bs);
    }
  }

  /** Once the cursor is past the end of the input, `NextToken` returns
      `{EOF, ""}` and leaves the cursor past the end with `ch` still NUL. */
  lemma EofIsIdempotent(l: Lexer)
    requires Valid(l) && l.position >= |l.input|
    ensures NextToken(l).tok == Token(EOF, "")
    ensures NextToken(l).lexer.position >= |l.input| && NextToken(l).lexer.ch == NUL
  {
  }

  /** `=` and `!` take one byte of lookahead: followed by `=` they form the
      two-byte EQ or NOT_EQ token, otherwise they stand alone. */
  lemma TwoByteOperators(l: Lexer)
    requires Valid(l)
    requires ByteAt(l.input, Start(l)) in {'=', '!'}
    ensures var start := Start(l);
            var s := NextToken(l);
            var c := l.input[start];
            if ByteAt(l.input, start + 1) == '=' then
              s.lexer.position == start + 2
              && s.tok == (if c == '=' then Token(EQ, "==") else Token(NOT_EQ, "!="))
            else
              s.lexer.position == start + 1
              && s.tok == (if c == '=' then Token(ASSIGN, "=") else Token(BANG, "!"))
  {
  }

  /** An identifier is the longest run of letters at the start position, and
      its kind is the keyword lookup of that run; a digit ends it. */
  lemma IdentifierIsMaximalRun(l: Lexer)
    requires Valid(l) && IsLetter(ByteAt(l.input, Start(l)))
    ensures var s := NextToken(l);
            && MaximalRun(l.input, Start(l), s.lexer.position, IsLetter)
            && s.tok.literal == l.input[Start(l)..s.lexer.position]
            && s.tok.kind == LookupIdent(s.tok.literal)
  {
  }

  /** A number is the longest run of digits at the start position, kept
      verbatim as an INT literal. */
  lemma NumberIsMaximalRun(l: Lexer)
    requires Valid(l) && IsDigit(ByteAt(l.input, Start(l)))
    ensures var s := NextToken(l);
            && MaximalRun(l.input, Start(l), s.lexer.position, IsDigit)
            && s.tok == Token(INT, l.input[Start(l)..s.lexer.position])
  {
  }

  /** Bytes that start some token other than ILLEGAL and EOF. */
  predicate StartsToken(c: Byte)
  {
    c == '=' || c == '!' || Punctuation(c).Some? || IsLetter(c) || IsDigit(c)
  }

  /** A non-NUL byte that starts no token is ILLEGAL, consumed alone; no other
      byte yields ILLEGAL. */
  lemma IllegalIsSingleByte(l: Lexer)
    requires Valid(l)
    ensures var c := ByteAt(l.input, Start(l));
            var s := NextToken(l);
            (s.tok.kind == ILLEGAL <==> c != NUL && !StartsToken(c))
            && (s.tok.kind == ILLEGAL ==>
                  s.tok.literal == RuneString(c) && s.lexer.position == Start(l) + 1)
  {
  }

  /** Operator and delimiter tokens are named by their own text: the kind's
      constant string is the literal read, and reading that name back gives
      the kind. */
  lemma SymbolKindIsLiteral(l: Lexer)
    requires Valid(l)
    ensures var c := ByteAt(l.input, Start(l));
            var s := NextToken(l);
            c != NUL && StartsToken(c) && !IsLetter(c) && !IsDigit(c) ==>
              KindName(s.tok.kind) == s.tok.literal && KindOfName(s.tok.literal) == Some(s.tok.kind)
  {
    KindNameRoundTrip(NextToken(l).tok.kind);
  }

  /** The tokens the lexer produces from `l` until its cursor passes the end of
      the input. Past that point every call yields EOF (`EofIsIdempotent`), so
      this finite sequence followed by EOF forever is the whole token stream. */
  function Run(l: Lexer): (toks: seq<Token>)
    requires Valid(l)
    ensures l.position < |l.input| ==> |toks| <= |l.input| - l.position
    ensures l.position >= |l.input| ==> toks == []
    ensures forall i | 0 <= i < |toks| :: toks[i].kind != EOF ==> toks[i].literal != ""
    decreases |l.input| - l.position
  {
    if l.position >= |l.input| then []
    else
      var s := NextToken(l);
      [s.tok] + Run(s.lexer)
  }

  /** The token stream of a whole source text. */
  function Tokens(input: seq<Byte>): seq<Token>
  {
    Run(New(input))
  }

  /** The `i`-th token of a materialised stream, EOF past its end. */
  function TokenAt(toks: seq<Token>, i: nat): Token
  {
    if i < |toks| then toks[i] else Token(EOF, "")
  }

  /** The result of the `k`-th call (counting from 0) of `NextToken` on `l`. */
  function Pull(l: Lexer, k: nat): Scan
    requires Valid(l)
    decreases k
  {
    var s := NextToken(l);
    if k == 0 then s else Pull(s.lexer, k - 1)
  }

  /** Reading the materialised stream at any index gives exactly what that
      many repeated `NextToken` calls give. */
  lemma {:induction false} StreamMatchesLexer(l: Lexer, k: nat)
    requires Valid(l)
    ensures TokenAt(Run(l), k) == Pull(l, k).tok
    decreases k
  {
    var s := NextToken(l);
    if l.position >= |l.input| {
      EofIsIdempotent(l);
      if k > 0 {
        StreamMatchesLexer(s.lexer, k - 1);
      }
    } else if k > 0 {
      StreamMatchesLexer(s.lexer, k - 1);
    }
  }

  /** All literals of a token sequence, concatenated. */
  function Literals(toks: seq<Token>): string
  {
    if |toks| == 0 then "" else toks[0].literal + Literals(toks[1..])
  }

  lemma VisibleSplit(bs: seq<Byte>, a: nat, b: nat, c: nat)
    requires a <= b <= c <= |bs|
    ensures Visible(bs[a..c]) == Visible(bs[a..b]) + Visible(bs[b..c])
  {
    assert bs[a..c] == bs[a..b] + bs[b..c];
    VisibleAppend(bs[a..b], bs[b..c]);
  }

  /** Blanks, then a run of bytes, then the rest: the visible text is that
      of the run followed by that of the rest. */
  lemma VisibleAfterBlanks(input: seq<Byte>, pos: nat, start: nat, end: nat)
    requires pos <= start <= end <= |input|
    requires forall i | pos <= i < start :: IsBlank(input[i])
    ensures Visible(input[pos..|input|]) == Visible(input[start..end]) + Visible(input[end..|input|])
  {
    VisibleSplit(input, pos, start, |input|);
    VisibleSplit(input, start, end, |input|);
    VisibleBlank(input[pos..start]);
  }

  /** One `NextToken` step splits the visible rest of the input into the
      token's literal and the visible text after the new cursor. */
  lemma ScanCovers(l: Lexer)
    requires Valid(l) && l.position < |l.input|
    ensures var s := NextToken(l);
            Visible(Slice(l.input, l.position, |l.input|))
            == s.tok.literal + Visible(Slice(l.input, s.lexer.position, |l.input|))
  {
    var input := l.input;
    var s := NextToken(l);
    var start := Start(l);
    var end := s.lexer.position;
    LiteralIsVisibleText(l);
    assert Slice(input, l.position, |input|) == input[l.position..|input|];
    if start >= |input| {
      VisibleBlank(input[l.position..|input|]);
      assert Slice(input, end, |input|) == [];
    } else {
      assert Slice(input, start, end) == input[start..end];
      assert Slice(input, end, |input|) == input[end..|input|];
      VisibleAfterBlanks(input, l.position, start, end);
    }
  }

  /** No byte is lost or duplicated: the literals of the tokens produced from
      `l` concatenate to the visible text of the rest of the input. */
  lemma {:induction false} RunCoversInput(l: Lexer)
    requires Valid(l)
    ensures Literals(Run(l)) == Visible(Slice(l.input, l.position, |l.input|))
    decreases |l.input| - l.position
  {
    if l.position < |l.input| {
      var s := NextToken(l);
      var toks := Run(l);
      assert toks == [s.tok] + Run(s.lexer);
      assert toks[1..] == Run(s.lexer);
      RunCoversInput(s.lexer);
      ScanCovers(l);
    }
  }

  /** The lexer's literals concatenate to the source text with whitespace and
      NUL bytes removed (and bytes from 0x80 on re-encoded by `RuneString`). */
  lemma TokensCoverInput(input: seq<Byte>)
    ensures Literals(Tokens(input)) == Visible(input)
  {
    RunCoversInput(New(input));
    assert Slice(input, 0, |input|) == input;
  }

  /** The lexer whose cursor is on byte `i` of `input`; every valid state is
      one of these. */
  function At(input: seq<Byte>, i: nat): (l: Lexer)
    ensures Valid(l) && l.input == input && l.position == i
  {
    Lexer(input, i, i + 1, ByteAt(input, i))
  }

  /** A token starts on the cursor byte when that byte is not whitespace. */
  lemma StartsHere(input: seq<Byte>, i: nat)
    requires i < |input| && !IsWhitespace(input[i])
    ensures SkipWhitespace(At(input, i)) == At(input, i) && Start(At(input, i)) == i
  {
  }

  /** Before the end of the input, the stream from byte `i` is the token
      scanned there followed by the stream from where that scan stopped. */
  lemma RunAt(input: seq<Byte>, i: nat)
    requires i < |input|
    ensures var s := NextToken(At(input, i));
            s.lexer == At(input, s.lexer.position) && Run(At(input, i)) == [s.tok] + Run(At(input, s.lexer.position))
  {
  }

  /** Before the last byte, a whitespace byte contributes nothing to the
      stream. */
  lemma SkipBlank(input: seq<Byte>, i: nat)
    requires i + 1 < |input| && IsWhitespace(input[i])
    ensures Run(At(input, i)) == Run(At(input, i + 1))
  {
    assert ReadChar(At(input, i)) == At(input, i + 1);
    assert SkipWhitespace(At(input, i)) == SkipWhitespace(At(input, i + 1));
    assert NextToken(At(input, i)) == NextToken(At(input, i + 1));
    RunAt(input, i);
    RunAt(input, i + 1);
  }

  /** A punctuation byte is a token of its own, and the stream goes on from
      the next byte. */
  lemma ScanPunctuation(input: seq<Byte>, i: nat)
    requires i < |input| && Punctuation(input[i]).Some?
    ensures Run(At(input, i)) == [Token(Punctuation(input[i]).value, [input[i]])] + Run(At(input, i + 1))
  {
    StartsHere(input, i);
    assert ReadChar(At(input, i)) == At(input, i + 1);
    assert NextToken(At(input, i)) == Scan(At(input, i + 1), Token(Punctuation(input[i]).value, [input[i]]));
    RunAt(input, i);
  }

  /** `=` or `!` on byte `i`: with `=` after it a two-byte token, otherwise a
      one-byte one, and the stream goes on after it. */
  lemma ScanOperatorAt(input: seq<Byte>, i: nat)
    requires i < |input| && input[i] in {'=', '!'}
    ensures var c := input[i];
            if ByteAt(input, i + 1) == '=' then
              Run(At(input, i)) == [if c == '=' then Token(EQ, "==") else Token(NOT_EQ, "!=")] + Run(At(input, i + 2))
            else
              Run(At(input, i)) == [if c == '=' then Token(ASSIGN, "=") else Token(BANG, "!")] + Run(At(input, i + 1))
  {
    StartsHere(input, i);
    TwoByteOperators(At(input, i));
    RunAt(input, i);
  }

  /** Two maximal runs from the same byte end at the same byte. */
  lemma MaximalRunUnique(input: seq<Byte>, from: nat, j: nat, k: nat, inRun: Byte -> bool)
    requires MaximalRun(input, from, j, inRun) && MaximalRun(input, from, k, inRun)
    ensures j == k
  {
  }

  /** A maximal letter run `input[i..j]` is one identifier or keyword token,
      and the stream goes on from byte `j`. */
  lemma ScanIdentifier(input: seq<Byte>, i: nat, j: nat)
    requires i < j && MaximalRun(input, i, j, IsLetter)
    ensures Run(At(input, i)) == [Token(LookupIdent(input[i..j]), input[i..j])] + Run(At(input, j))
  {
    StartsHere(input, i);
    IdentifierIsMaximalRun(At(input, i));
    MaximalRunUnique(input, i, NextToken(At(input, i)).lexer.position, j, IsLetter);
    RunAt(input, i);
  }

  /** A maximal digit run `input[i..j]` is one INT token, and the stream goes
      on from byte `j`. */
  lemma ScanNumber(input: seq<Byte>, i: nat, j: nat)
    requires i < j && MaximalRun(input, i, j, IsDigit)
    ensures Run(At(input, i)) == [Token(INT, input[i..j])] + Run(At(input, j))
  {
    StartsHere(input, i);
    NumberIsMaximalRun(At(input, i));
    MaximalRunUnique(input, i, NextToken(At(input, i)).lexer.position, j, IsDigit);
    RunAt(input, i);
  }

  /** The stream of a whole text is the stream from its first byte. */
  lemma TokensFromStart(input: seq<Byte>)
    ensures Tokens(input) == Run(At(input, 0))
  {
  }

  /** The end of the longest run of `inRun` bytes starting at byte `i`. */
  function RunEnd(input: seq<Byte>, i: nat, inRun: Byte -> bool): (j: nat)
    requires i <= |input| && !inRun(NUL)
    ensures i <= j <= |input| && MaximalRun(input, i, j, inRun)
    decreases |input| - i
  {
    if i < |input| && inRun(input[i]) then
      var j := RunEnd(input, i + 1, inRun);
      assert forall k | i < k < j :: inRun(input[k]);
      j
    else i
  }

  lemma RunEndAt(input: seq<Byte>, i: nat, j: nat, inRun: Byte -> bool)
    requires MaximalRun(input, i, j, inRun) && !inRun(NUL)
    ensures RunEnd(input, i, inRun) == j
  {
    MaximalRunUnique(input, i, RunEnd(input, i, inRun), j, inRun);
  }

  /** The token a legal non-blank byte starts and the byte after it, read
      off the input directly: the reference the stepping lemmas above
      connect `NextToken` to. */
  function Scanned(input: seq<Byte>, i: nat): (r: (Token, nat))
    requires i < |input| && StartsToken(input[i])
    ensures i < r.1 <= |input|
  {
    var c := input[i];
    if c == '=' || c == '!' then
      if ByteAt(input, i + 1) == '=' then ((if c == '=' then Token(EQ, "==") else Token(NOT_EQ, "!=")), i + 2)
      else ((if c == '=' then Token(ASSIGN, "=") else Token(BANG, "!")), i + 1)
    else if Punctuation(c).Some? then (Token(Punctuation(c).value, [c]), i + 1)
    else if IsLetter(c) then
      var j := RunEnd(input, i, IsLetter);
      (Token(LookupIdent(input[i..j]), input[i..j]), j)
    else
      var j := RunEnd(input, i, IsDigit);
      (Token(INT, input[i..j]), j)
  }

  /** From a byte that starts a token, the stream is the `Scanned` token
      followed by the stream after it. */
  lemma ScannedRun(input: seq<Byte>, i: nat)
    requires i < |input| && StartsToken(input[i])
    ensures Run(At(input, i)) == [Scanned(input, i).0] + Run(At(input, Scanned(input, i).1))
  {
    var c := input[i];
    if c == '=' || c == '!' {
      ScanOperatorAt(input, i);
    } else if Punctuation(c).Some? {
      ScanPunctuation(input, i);
    } else if IsLetter(c) {
      ScanIdentifier(input, i, RunEnd(input, i, IsLetter));
    } else {
      ScanNumber(input, i, RunEnd(input, i, IsDigit));
    }
  }

  /** A byte-by-byte description of the bytes from `i` up to `j`: they lex to
      `toks` when blanks are skipped and every other byte starts the next
      token of `toks`. It covers inputs with no ILLEGAL byte, no NUL and no
      whitespace at the very end. */
  predicate Lexes(input: seq<Byte>, i: nat, j: nat, toks: seq<Token>)
    decreases |input| - i
  {
    if i == j then toks == []
    else if j < i || |input| <= i then false
    else if IsWhitespace(input[i]) then i + 1 < |input| && Lexes(input, i + 1, j, toks)
    else
      && StartsToken(input[i]) && |toks| > 0
      && toks[0] == Scanned(input, i).0 && Lexes(input, Scanned(input, i).1, j, toks[1..])
  }

  /** Two described stretches in a row describe their concatenation. */
  lemma {:induction false} LexesAppend(input: seq<Byte>, i: nat, j: nat, k: nat, a: seq<Token>, b: seq<Token>)
    requires Lexes(input, i, j, a) && Lexes(input, j, k, b)
    ensures Lexes(input, i, k, a + b)
    decreases |input| - i
  {
    if i == j {
      assert a + b == b;
    } else if IsWhitespace(input[i]) {
      LexesAppend(input, i + 1, j, k, a, b);
    } else {
      LexesAppend(input, Scanned(input, i).1, j, k, a[1..], b);
      assert (a + b)[1..] == a[1..] + b;
    }
  }

  // One step of the description each, read from the right: what `toks[k..]`
  // needs at byte `i` given what the rest of the input is known to lex to.

  /** A blank byte adds no token. */
  lemma LexesBlankAt(input: seq<Byte>, i: nat, end: nat, toks: seq<Token>, k: nat)
    requires i < end && i + 1 < |input| && IsWhitespace(input[i])
    requires k <= |toks| && Lexes(input, i + 1, end, toks[k..])
    ensures Lexes(input, i, end, toks[k..])
  {
  }

  /** A maximal letter run is the identifier or keyword `toks[k]`. */
  lemma LexesWordAt(input: seq<Byte>, i: nat, j: nat, end: nat, toks: seq<Token>, k: nat)
    requires i < j <= end && MaximalRun(input, i, j, IsLetter)
    requires k < |toks| && toks[k] == Token(LookupIdent(input[i..j]), input[i..j])
    requires Lexes(input, j, end, toks[k + 1..])
    ensures Lexes(input, i, end, toks[k..])
  {
    RunEndAt(input, i, j, IsLetter);
    assert toks[k..][1..] == toks[k + 1..];
  }

  /** A maximal digit run is the integer `toks[k]`. */
  lemma LexesNumberAt(input: seq<Byte>, i: nat, j: nat, end: nat, toks: seq<Token>, k: nat)
    requires i < j <= end && MaximalRun(input, i, j, IsDigit)
    requires k < |toks| && toks[k] == Token(INT, input[i..j])
    requires Lexes(input, j, end, toks[k + 1..])
    ensures Lexes(input, i, end, toks[k..])
  {
    RunEndAt(input, i, j, IsDigit);
    assert toks[k..][1..] == toks[k + 1..];
  }

  /** A one-byte punctuation token. */
  lemma LexesSymbolAt(input: seq<Byte>, i: nat, end: nat, toks: seq<Token>, k: nat)
    requires i < end && i < |input| && Punctuation(input[i]).Some?
    requires k < |toks| && toks[k] == Token(Punctuation(input[i]).value, [input[i]])
    requires Lexes(input, i + 1, end, toks[k + 1..])
    ensures Lexes(input, i, end, toks[k..])
  {
    assert toks[k..][1..] == toks[k + 1..];
  }

  /** `=` or `!` followed by a byte other than `=`. */
  lemma LexesSingleAt(input: seq<Byte>, i: nat, end: nat, toks: seq<Token>, k: nat)
    requires i < end && i < |input| && input[i] in {'=', '!'} && ByteAt(input, i + 1) != '='
    requires k < |toks| && toks[k] == (if input[i] == '=' then Token(ASSIGN, "=") else Token(BANG, "!"))
    requires Lexes(input, i + 1, end, toks[k + 1..])
    ensures Lexes(input, i, end, toks[k..])
  {
    assert toks[k..][1..] == toks[k + 1..];
  }

  /** `==` or `!=`. */
  lemma LexesPairAt(input: seq<Byte>, i: nat, end: nat, toks: seq<Token>, k: nat)
    requires i + 1 < end && i + 1 < |input| && input[i] in {'=', '!'} && input[i + 1] == '='
    requires k < |toks| && toks[k] == (if input[i] == '=' then Token(EQ, "==") else Token(NOT_EQ, "!="))
    requires Lexes(input, i + 2, end, toks[k + 1..])
    ensures Lexes(input, i, end, toks[k..])
  {
    assert toks[k..][1..] == toks[k + 1..];
  }

  /** The description is sound: where it reaches the end of the input, it is
      the lexer's stream. */
  lemma {:induction false} LexesRun(input: seq<Byte>, i: nat, toks: seq<Token>)
    requires Lexes(input, i, |input|, toks)
    ensures Run(At(input, i)) == toks
    decreases |input| - i
  {
    if i < |input| {
      if IsWhitespace(input[i]) {
        SkipBlank(input, i);
        LexesRun(input, i + 1, toks);
      } else {
        ScannedRun(input, i);
        LexesRun(input, Scanned(input, i).1, toks[1..]);
        assert toks == [toks[0]] + toks[1..];
      }
    }
  }

  /** Where the description covers the whole text, it is its token stream. */
  lemma LexesTokens(input: seq<Byte>, toks: seq<Token>)
    requires Lexes(input, 0, |input|, toks)
    ensures Tokens(input) == toks
  {
    LexesRun(input, 0, toks);
  }

  /** A NUL byte ends the input early: `NextToken` reports EOF at it, but the
      cursor moves on, so the following call scans the bytes after it. */
  lemma NulByteEndsInputEarly()
    ensures Tokens(['\0', 'x']) == [Token(EOF, ""), Token(IDENT, "x")]
  {
    NulThenLetter(['\0', 'x']);
  }

  /** The same for any letter after the NUL: the lexer reports EOF, then an
      identifier made of that letter. */
  lemma NulThenLetter(input: seq<Byte>)
    requires |input| == 2 && input[0] == '\0' && IsLetter(input[1])
    ensures Tokens(input) == [Token(EOF, ""), Token(IDENT, [input[1]])]
  {
    LoneLetter(input);
    assert Run(At(input, 1)) == [Token(IDENT, [input[1]])];
    NulAt(input, 0);
    TokensFromStart(input);
  }

  /** A letter as the last byte is an identifier of its own, and the stream
      ends with it. */
  lemma LoneLetter(input: seq<Byte>)
    requires |input| >= 1 && IsLetter(input[|input| - 1])
    ensures Run(At(input, |input| - 1)) == [Token(IDENT, [input[|input| - 1]])]
  {
    var i := |input| - 1;
    LastByteRun(input, IsLetter);
    ScanIdentifier(input, i, i + 1);
    assert input[i..i + 1] == [input[i]];
    OneByteIsIdent(input[i]);
  }

  /** No keyword is one byte long. */
  lemma OneByteIsIdent(c: Byte)
    ensures LookupIdent([c]) == IDENT
  {
  }

  /** A last byte in the run is a maximal run of its own. */
  lemma LastByteRun(input: seq<Byte>, inRun: Byte -> bool)
    requires |input| >= 1 && inRun(input[|input| - 1]) && !inRun(NUL)
    ensures MaximalRun(input, |input| - 1, |input|, inRun)
  {
  }

  /** A NUL byte before the end is an EOF token, and the stream goes on from
      the next byte. */
  lemma NulAt(input: seq<Byte>, i: nat)
    requires i < |input| && input[i] == NUL
    ensures Run(At(input, i)) == [Token(EOF, "")] + Run(At(input, i + 1))
  {
    StartsHere(input, i);
    RunAt(input, i);
  }
}
