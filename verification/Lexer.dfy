// The lexer (src/lexer.cc): characters to tokens.
module Lexing {
  import opened Digits

  datatype Kind = EOF | LPAREN | SYMBOL | NUMBER | RPAREN | PERIOD | STRING | BOOL | QUOTE

  datatype Token = Token(kind: Kind, text: string)

  /** What nextToken does: a token, an exception, or a loop that never ends because the end of
      the input is not a delimiter. */
  datatype Outcome = Got(token: Token) | Thrown | Endless

  /** The same, with the number of characters it takes. */
  datatype Lexed = Lexed(outcome: Outcome, length: nat)

  const END_TOKEN := Token(EOF, "<EOF>")
  const RAISES := Lexed(Thrown, 0)
  const LOOPS := Lexed(Endless, 0)

  function Lex(kind: Kind, text: string, length: nat): Lexed { Lexed(Got(Token(kind, text)), length) }

  /** What curChar gives at the end of the input. */
  const END: char := '\U{FF}'

  function Peek(s: string, i: nat): char { if i < |s| then s[i] else END }

  predicate IsBlank(c: char) { c == ' ' || c == '\t' || c == '\n' || c == '\r' }

  predicate IsNewline(c: char) { c == '\n' || c == '\r' }

  predicate IsDelimiter(c: char) { IsBlank(c) || c == '"' || c == '(' || c == ')' || c == ';' }

  predicate IsLetter(c: char) { 'a' <= c <= 'z' || 'A' <= c <= 'Z' }

  predicate IsSpecialInitial(c: char) {
    c == '!' || c == '$' || c == '%' || c == '&' || c == '*' || c == '/' || c == ':' || c == '<' || c == '=' ||
    c == '>' || c == '?' || c == '^' || c == '_' || c == '~'
  }

  predicate IsInitial(c: char) { IsLetter(c) || IsSpecialInitial(c) }

  predicate IsSubsequent(c: char) { IsDecimal(c) || c == '+' || c == '-' || c == '.' || c == '@' || IsInitial(c) }

  predicate IsRadixOrExactness(c: char) { c == 'b' || c == 'o' || c == 'd' || c == 'x' || c == 'i' || c == 'e' }

  // ---- the tokens of a text ---------------------------------------------------------------------

  /** The characters up to the next delimiter are a number, unless there is no delimiter. */
  function NumberToken(s: string): Lexed {
    var w := Span(s, c => !IsDelimiter(c));
    if w == |s| then LOOPS else Lex(NUMBER, s[..w], w)
  }

  function IdentifierToken(s: string): Lexed {
    var w := Span(s, IsSubsequent);
    if IsDelimiter(Peek(s, w)) then Lex(SYMBOL, s[..w], w) else RAISES
  }

  function StringToken(s: string): Lexed
    requires s != ""
  {
    var w := Span(s[1..], c => c != '"');
    if 1 + w == |s| then LOOPS else Lex(STRING, s[1..1 + w], w + 2)
  }

  function DotToken(s: string): Lexed {
    if IsDelimiter(Peek(s, 1)) then Lex(PERIOD, ".", 1)
    else if Peek(s, 1) != '.' then NumberToken(s)
    else if Peek(s, 2) == '.' && IsDelimiter(Peek(s, 3)) then Lex(SYMBOL, "...", 3)
    else RAISES
  }

  function PoundToken(s: string): Lexed
    requires s != ""
  {
    var c := Peek(s, 1);
    if c == 't' || c == 'f' then
      if IsDelimiter(Peek(s, 2)) then Lex(BOOL, [s[0], c], 2) else RAISES
    else if IsRadixOrExactness(c) then NumberToken(s)
    else RAISES
  }

  /** The token a text starts with. */
  function TokenAt(s: string): Lexed
    requires s != ""
  {
    var c := s[0];
    if c == '(' then Lex(LPAREN, "(", 1)
    else if c == ')' then Lex(RPAREN, ")", 1)
    else if c == '\'' then Lex(QUOTE, "'", 1)
    else if c == '+' || c == '-' then
      if IsDelimiter(Peek(s, 1)) then Lex(SYMBOL, [c], 1) else NumberToken(s)
    else if c == '.' then DotToken(s)
    else if c == '"' then StringToken(s)
    else if c == '#' then PoundToken(s)
    else if IsDecimal(c) then NumberToken(s)
    else if IsInitial(c) then IdentifierToken(s)
    else RAISES
  }

  function CommentLength(s: string): (k: nat)
    requires s != ""
    ensures 1 <= k <= |s|
  {
    1 + Span(s[1..], c => !IsNewline(c))
  }

  function Skip(n: nat, r: Lexed): Lexed { if r.outcome.Got? then r.(length := n + r.length) else r }

  /** nextToken: blanks and comments are passed over. */
  function Next(s: string): (r: Lexed)
    ensures r.outcome.Got? ==> r.length <= |s| && (r.outcome.token.kind != EOF ==> r.length > 0)
    ensures r.outcome.Got? && r.outcome.token.kind == EOF ==> r.outcome.token == END_TOKEN
    decreases |s|
  {
    if Peek(s, 0) == END then Lexed(Got(END_TOKEN), 0)
    else if IsBlank(s[0]) then Skip(1, Next(s[1..]))
    else if s[0] == ';' then
      var k := CommentLength(s);
      if k == |s| then LOOPS else Skip(k + 1, Next(s[k + 1..]))
    else TokenAt(s)
  }

  /** How a run of nextToken ends. */
  datatype Ending = AtEnd | Failing | Forever

  datatype Stream = Stream(tokens: seq<Token>, ending: Ending)

  function Onto(ts: seq<Token>, s: Stream): Stream { Stream(ts + s.tokens, s.ending) }

  function LexAll(s: string): (r: Stream)
    ensures forall i :: 0 <= i < |r.tokens| ==> r.tokens[i].kind != EOF
    decreases |s|
  {
    var l := Next(s);
    match l.outcome
    case Thrown => Stream([], Failing)
    case Endless => Stream([], Forever)
    case Got(t) => if t.kind == EOF then Stream([], AtEnd) else Onto([t], LexAll(s[l.length..]))
  }

  // ---- the lexer --------------------------------------------------------------------------------

  class Lexer {
    const input: string
    var pos: nat

    ghost predicate Valid() reads this { pos <= |input| }

    ghost function Rest(): string
      requires Valid()
      reads this
    {
      input[pos..]
    }

    constructor (input: string)
      ensures Valid() && Rest() == input
    {
      this.input, pos := input, 0;
    }

    function CurChar(): char
      reads this
    {
      Peek(input, pos)
    }

    /** Past the end, the stream stays where it is. */
    method Consume()
      requires Valid()
      modifies this
      ensures Valid() && pos == if old(pos) < |input| then old(pos) + 1 else old(pos)
    {
      if pos < |input| { pos := pos + 1; }
    }

    method GetNumber(prefix: string, ghost start: nat) returns (r: Outcome)
      requires Valid() && start <= pos && prefix == input[start..pos] && !IsDelimiter(CurChar())
      requires forall i :: start <= i < pos ==> !IsDelimiter(input[i])
      modifies this
      ensures Valid() && r == NumberToken(input[start..]).outcome
      ensures r.Got? ==> pos == start + NumberToken(input[start..]).length
    {
      var number := prefix;
      while !IsDelimiter(CurChar())
        invariant Valid() && start <= pos && number == input[start..pos]
        invariant forall i :: start <= i < pos ==> !IsDelimiter(input[i])
        decreases |input| - pos
      {
        if pos == |input| {
          SpanIs(input[start..], c => !IsDelimiter(c), pos - start);
          return Endless;
        }
        number := number + [CurChar()];
        Consume();
      }
      SpanIs(input[start..], c => !IsDelimiter(c), pos - start);
      return Got(Token(NUMBER, number));
    }

    method GetIdentifier() returns (r: Outcome)
      requires Valid() && IsInitial(CurChar())
      modifies this
      ensures Valid() && r == IdentifierToken(old(Rest())).outcome
      ensures r.Got? ==> pos == old(pos) + IdentifierToken(old(Rest())).length
    {
      ghost var start := pos;
      var sym := [CurChar()];
      Consume();
      while IsSubsequent(CurChar())
        invariant Valid() && start < pos && sym == input[start..pos]
        invariant forall i :: start <= i < pos ==> IsSubsequent(input[i])
        decreases |input| - pos
      {
        sym := sym + [CurChar()];
        Consume();
      }
      SpanIs(input[start..], IsSubsequent, pos - start);
      if !IsDelimiter(CurChar()) {
        return Thrown;
      }
      return Got(Token(SYMBOL, sym));
    }

    method GetPeculiarIdentifier() returns (r: Outcome)
      requires Valid() && (CurChar() == '+' || CurChar() == '-')
      modifies this
      ensures Valid() && r == TokenAt(old(Rest())).outcome
      ensures r.Got? ==> pos == old(pos) + TokenAt(old(Rest())).length
    {
      ghost var start := pos;
      var sym := [CurChar()];
      Consume();
      if !IsDelimiter(CurChar()) {
        r := GetNumber(sym, start);
      } else {
        r := Got(Token(SYMBOL, sym));
      }
    }

    method GetDot() returns (r: Outcome)
      requires Valid() && CurChar() == '.'
      modifies this
      ensures Valid() && r == DotToken(old(Rest())).outcome
      ensures r.Got? ==> pos == old(pos) + DotToken(old(Rest())).length
    {
      ghost var start := pos;
      Consume();
      if IsDelimiter(CurChar()) {
        return Got(Token(PERIOD, "."));
      }
      if CurChar() == '.' {
        Consume();
        if CurChar() == '.' {
          Consume();
          if IsDelimiter(CurChar()) {
            return Got(Token(SYMBOL, "..."));
          }
        }
      } else {
        r := GetNumber(".", start);
        return;
      }
      return Thrown;
    }

    method GetString() returns (r: Outcome)
      requires Valid() && CurChar() == '"'
      modifies this
      ensures Valid() && r == StringToken(old(Rest())).outcome
      ensures r.Got? ==> pos == old(pos) + StringToken(old(Rest())).length
    {
      ghost var start := pos + 1;
      ghost var s := Rest();
      assert s[1..] == input[start..];
      var str := "";
      Consume();
      while CurChar() != '"'
        invariant Valid() && start <= pos && str == input[start..pos]
        invariant forall i :: start <= i < pos ==> input[i] != '"'
        decreases |input| - pos
      {
        if pos == |input| {
          SpanIs(input[start..], c => c != '"', pos - start);
          return Endless;
        }
        str := str + [CurChar()];
        Consume();
      }
      SpanIs(input[start..], c => c != '"', pos - start);
      assert s[1..1 + |str|] == str;
      Consume();
      return Got(Token(STRING, str));
    }

    method GetPoundSpecial() returns (r: Outcome)
      requires Valid() && CurChar() == '#'
      modifies this
      ensures Valid() && r == PoundToken(old(Rest())).outcome
      ensures r.Got? ==> pos == old(pos) + PoundToken(old(Rest())).length
    {
      ghost var start := pos;
      var special := "#";
      Consume();
      var c := CurChar();
      if c == 't' || c == 'f' {
        special := special + [c];
        Consume();
        if !IsDelimiter(CurChar()) {
          return Thrown;
        }
        return Got(Token(BOOL, special));
      } else if IsRadixOrExactness(c) {
        r := GetNumber("#", start);
      } else {
        r := Thrown;
      }
    }

    /** Behind the comment, or false when it never ends. */
    method SkipComment() returns (ended: bool)
      requires Valid() && CurChar() == ';'
      modifies this
      ensures Valid()
      ensures var k := CommentLength(old(Rest()));
              (ended <==> k < |old(Rest())|) && (ended ==> pos == old(pos) + k + 1)
    {
      ghost var start := pos + 1;
      ghost var s := Rest();
      assert s[1..] == input[start..];
      Consume();
      while !IsNewline(CurChar())
        invariant Valid() && start <= pos
        invariant forall i :: start <= i < pos ==> !IsNewline(input[i])
        decreases |input| - pos
      {
        if pos == |input| {
          SpanIs(input[start..], c => !IsNewline(c), pos - start);
          return false;
        }
        Consume();
      }
      SpanIs(input[start..], c => !IsNewline(c), pos - start);
      Consume();
      return true;
    }

    /** The switch of nextToken behind blanks and comments. */
    method TokenHere(c: char) returns (r: Outcome)
      requires Valid() && c == CurChar() && pos < |input| && c != END && !IsBlank(c) && c != ';'
      modifies this
      ensures Valid() && r == TokenAt(old(Rest())).outcome
      ensures r.Got? ==> pos == old(pos) + TokenAt(old(Rest())).length
    {
      hide NumberToken, IdentifierToken, StringToken, DotToken, PoundToken;
      if c == '(' {
        Consume();
        r := Got(Token(LPAREN, "("));
      } else if c == ')' {
        Consume();
        r := Got(Token(RPAREN, ")"));
      } else if c == '\'' {
        Consume();
        r := Got(Token(QUOTE, "'"));
      } else if c == '+' || c == '-' {
        r := GetPeculiarIdentifier();
      } else if c == '.' {
        r := GetDot();
      } else if c == '"' {
        r := GetString();
      } else if c == '#' {
        r := GetPoundSpecial();
      } else if IsDecimal(c) {
        r := GetNumber("", pos);
      } else if IsInitial(c) {
        r := GetIdentifier();
      } else {
        r := Thrown;
      }
    }

    /** One token, as the text that is left says. */
    method NextToken() returns (r: Outcome)
      requires Valid()
      modifies this
      ensures Valid() && r == Next(old(Rest())).outcome
      ensures r.Got? ==> pos == old(pos) + Next(old(Rest())).length
    {
      hide TokenAt, CommentLength;
      ghost var start := pos;
      while CurChar() != END
        invariant Valid() && start <= pos
        invariant Next(input[start..]) == Skip(pos - start, Next(Rest()))
        decreases |input| - pos
      {
        var c := CurChar();
        ghost var here := pos;
        ghost var s := Rest();
        if IsBlank(c) {
          Consume();
          assert s[1..] == Rest();
        } else if c == ';' {
          var ended := SkipComment();
          if !ended {
            return Endless;
          }
          assert s[pos - here..] == Rest();
        } else {
          r := TokenHere(c);
          return;
        }
      }
      return Got(END_TOKEN);
    }
  }
}
