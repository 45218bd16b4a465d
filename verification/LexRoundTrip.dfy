// Tokens and their texts: what the lexer returns is exactly what can be written down as a
// token, printed tokens come back as they were, and only an open string can keep the lexer
// from ending on a text that ends with a newline (src/lexer.cc:42-219).
module LexRoundTrip {
  import opened Digits
  import opened Lexing

  // ---- character classes ------------------------------------------------------------------------

  lemma SmallClasses(c: char)
    ensures IsBlank(c) <==> c in " \t\n\r"
    ensures IsNewline(c) <==> c in "\n\r"
    ensures IsDelimiter(c) <==> c in " \t\n\r\"();"
    ensures IsDecimal(c) <==> c in "0123456789"
    ensures IsRadixOrExactness(c) <==> c in "bodxei"
  {
  }

  lemma Letters(c: char)
    ensures IsLetter(c) <==>
            c in "abcdefghijklm" || c in "nopqrstuvwxyz" || c in "ABCDEFGHIJKLM" || c in "NOPQRSTUVWXYZ"
  {
  }

  lemma IdentifierClasses(c: char)
    ensures IsInitial(c) <==> IsLetter(c) || c in "!$%&*/:<=>?^_~"
    ensures IsSubsequent(c) <==> IsInitial(c) || c in "0123456789" || c in "+-.@"
  {
  }

  // ---- tokens as text ---------------------------------------------------------------------------

  function Spelling(t: Token): string { if t.kind == STRING then "\"" + t.text + "\"" else t.text }

  /** A token nothing needs to follow. */
  predicate SelfDelimiting(t: Token) { t.kind == LPAREN || t.kind == RPAREN || t.kind == QUOTE || t.kind == STRING }

  predicate NoDelimiter(w: string) { forall i :: 0 <= i < |w| ==> !IsDelimiter(w[i]) }

  /** What starts like a number, up to a delimiter. */
  predicate NumberWord(w: string) {
    && w != "" && NoDelimiter(w)
    && (|| IsDecimal(w[0])
        || (|w| >= 2 &&
            (|| w[0] == '+' || w[0] == '-'
             || (w[0] == '.' && w[1] != '.')
             || (w[0] == '#' && IsRadixOrExactness(w[1])))))
  }

  predicate Identifier(w: string) {
    w != "" && IsInitial(w[0]) && forall i :: 0 <= i < |w| ==> IsSubsequent(w[i])
  }

  predicate Proper(t: Token) {
    match t.kind
    case EOF => false
    case LPAREN => t.text == "("
    case RPAREN => t.text == ")"
    case QUOTE => t.text == "'"
    case PERIOD => t.text == "."
    case BOOL => t.text == "#t" || t.text == "#f"
    case STRING => '"' !in t.text
    case NUMBER => NumberWord(t.text)
    case SYMBOL => t.text == "+" || t.text == "-" || t.text == "..." || Identifier(t.text)
  }

  /** What must follow a token. */
  predicate Delimited(t: Token, rest: string) { SelfDelimiting(t) || IsDelimiter(Peek(rest, 0)) }

  lemma NumberLexes(w: string, rest: string)
    requires NumberWord(w) && IsDelimiter(Peek(rest, 0))
    ensures TokenAt(w + rest) == Lex(NUMBER, w, |w|)
  {
    var s := w + rest;
    SpanIs(s, c => !IsDelimiter(c), |w|);
    assert s[..|w|] == w;
    assert NumberToken(s) == Lex(NUMBER, w, |w|);
    assert |w| == 1 ==> Peek(s, 1) == Peek(rest, 0);
  }

  lemma IdentifierLexes(w: string, rest: string)
    requires Identifier(w) && IsDelimiter(Peek(rest, 0))
    ensures TokenAt(w + rest) == Lex(SYMBOL, w, |w|)
  {
    var s := w + rest;
    SpanIs(s, IsSubsequent, |w|);
    assert s[..|w|] == w;
    assert Peek(s, |w|) == Peek(rest, 0);
  }

  lemma StringLexes(w: string, rest: string)
    requires '"' !in w
    ensures TokenAt("\"" + w + "\"" + rest) == Lex(STRING, w, |w| + 2)
  {
    var s := "\"" + w + "\"" + rest;
    assert s[1..] == w + "\"" + rest;
    SpanIs(s[1..], c => c != '"', |w|);
    assert s[1..1 + |w|] == w;
  }

  lemma ShortLexes(w: string, rest: string)
    requires w == "." || w == "+" || w == "-" || w == "..." || w == "#t" || w == "#f"
    requires IsDelimiter(Peek(rest, 0))
    ensures TokenAt(w + rest) ==
            Lex(if w == "." then PERIOD else if w[0] == '#' then BOOL else SYMBOL, w, |w|)
  {
    var s := w + rest;
    assert Peek(s, |w|) == Peek(rest, 0);
  }

  /** A token that is printed, and delimited, is read back. */
  lemma TokenRoundTrip(t: Token, rest: string)
    requires Proper(t) && Delimited(t, rest)
    ensures Next(Spelling(t) + rest) == Lexed(Got(t), |Spelling(t)|)
  {
    hide TokenAt, NumberToken, IdentifierToken, StringToken;
    var s := Spelling(t) + rest;
    if t.kind == NUMBER {
      NumberLexes(t.text, rest);
    } else if t.kind == STRING {
      StringLexes(t.text, rest);
    } else if t.kind == SYMBOL && Identifier(t.text) {
      IdentifierLexes(t.text, rest);
    } else if SelfDelimiting(t) {
      BracketLexes(t, rest);
    } else {
      ShortLexes(t.text, rest);
    }
  }

  lemma BracketLexes(t: Token, rest: string)
    requires Proper(t) && SelfDelimiting(t) && t.kind != STRING
    ensures TokenAt(t.text + rest) == Lexed(Got(t), 1)
  {
  }

  /** The lexer returns nothing else: a token is proper, stands in the text and is delimited. */
  lemma TokenShape(s: string)
    requires s != "" && TokenAt(s).outcome.Got?
    ensures var t, n := TokenAt(s).outcome.token, TokenAt(s).length;
            n <= |s| && Proper(t) && s[..n] == Spelling(t) && Delimited(t, s[n..])
  {
    var c := s[0];
    if c == '(' || c == ')' || c == '\'' {
    } else if c == '"' {
      var w := Span(s[1..], d => d != '"');
      assert s[..w + 2] == "\"" + s[1..1 + w] + "\"";
    } else if IsDecimal(c) || ((c == '+' || c == '-') && !IsDelimiter(Peek(s, 1))) || c == '.' || c == '#' {
      WordShape(s);
    } else if IsInitial(c) {
      var w := Span(s, IsSubsequent);
      assert w > 0;
    }
  }

  lemma WordShape(s: string)
    requires s != "" && TokenAt(s).outcome.Got?
    requires IsDecimal(s[0]) || ((s[0] == '+' || s[0] == '-') && !IsDelimiter(Peek(s, 1))) || s[0] == '.' || s[0] == '#'
    ensures var t, n := TokenAt(s).outcome.token, TokenAt(s).length;
            n <= |s| && Proper(t) && s[..n] == Spelling(t) && Delimited(t, s[n..])
  {
    if TokenAt(s) == NumberToken(s) {
      var w := Span(s, d => !IsDelimiter(d));
      assert !IsDelimiter(s[0]) && w > 0;
      assert IsDecimal(s[0]) || w >= 2;
    } else {
      var n := TokenAt(s).length;
      assert n < |s| && IsDelimiter(s[n]);
    }
  }

  // ---- blanks and comments ----------------------------------------------------------------------

  /** Blanks and comments that end. */
  predicate Atmosphere(a: string)
    decreases |a|
  {
    || a == ""
    || (IsBlank(a[0]) && Atmosphere(a[1..]))
    || (a[0] == ';' && CommentLength(a) < |a| && Atmosphere(a[CommentLength(a) + 1..]))
  }

  lemma {:induction false} AtmosphereSkipped(a: string, s: string)
    requires Atmosphere(a)
    ensures Next(a + s) == Skip(|a|, Next(s))
    decreases |a|
  {
    hide TokenAt, CommentLength;
    if a == "" {
      assert a + s == s;
    } else if IsBlank(a[0]) {
      AtmosphereSkipped(a[1..], s);
      assert (a + s)[1..] == a[1..] + s;
    } else {
      AtmosphereSkipped(a[CommentLength(a) + 1..], s);
      CommentStays(a, s);
    }
  }

  lemma CommentStays(a: string, s: string)
    requires a != "" && CommentLength(a) < |a|
    ensures CommentLength(a + s) == CommentLength(a)
    ensures (a + s)[CommentLength(a) + 1..] == a[CommentLength(a) + 1..] + s
  {
    assert (a + s)[1..] == a[1..] + s;
    SpanIs((a + s)[1..], c => !IsNewline(c), CommentLength(a) - 1);
  }

  /** A comment with no newline, a string with no closing quote, or a number with no delimiter. */
  predicate Open(u: string) {
    && u != ""
    && (|| (u[0] == ';' && forall i :: 0 <= i < |u| ==> !IsNewline(u[i]))
        || (u[0] == '"' && '"' !in u[1..])
        || OpenNumber(u))
  }

  predicate OpenNumber(u: string) {
    && u != "" && NoDelimiter(u)
    && (IsDecimal(u[0]) || u[0] == '+' || u[0] == '-' || (u[0] == '.' && Peek(u, 1) != '.') ||
        (u[0] == '#' && IsRadixOrExactness(Peek(u, 1))))
  }

  lemma OpenAt(u: string)
    requires u != "" && u[0] != ';'
    ensures TokenAt(u).outcome.Endless? <==> Open(u)
  {
    var c := u[0];
    if c == '"' {
      var w := Span(u[1..], d => d != '"');
      assert 1 + w < |u| ==> u[1..][w] == '"';
    } else if IsDecimal(c) || c == '+' || c == '-' || c == '.' || c == '#' {
      var w := Span(u, d => !IsDelimiter(d));
      assert NumberToken(u).outcome.Endless? <==> NoDelimiter(u);
    }
  }

  lemma NoAtmosphere(s: string)
    ensures Atmosphere("") && "" + s == s && Skip(0, Next(s)) == Next(s)
  {
  }

  lemma AtmosphereMore(s: string, k: nat, b: string)
    requires s != "" && Atmosphere(b)
    requires if IsBlank(s[0]) then k == 1 else s[0] == ';' && CommentLength(s) < |s| && k == CommentLength(s) + 1
    ensures Atmosphere(s[..k] + b)
  {
    var a := s[..k] + b;
    if IsBlank(s[0]) {
      assert a[1..] == b;
    } else {
      assert a[1..] == s[1..k] + b;
      SpanIs(a[1..], c => !IsNewline(c), k - 2) by {
        assert forall i :: 0 <= i < k - 2 ==> a[1..][i] == s[1..][i];
        assert a[1..][k - 2] == s[1..][k - 2];
      }
      assert a[k..] == b;
    }
  }

  /** Every text is blanks and comments, and then a token, or the end, or something that fails. */
  lemma {:induction false} Split(s: string) returns (a: string, u: string)
    ensures s == a + u && Atmosphere(a) && Next(s) == Skip(|a|, Next(u))
    ensures u == "" || !(IsBlank(u[0]) || (u[0] == ';' && CommentLength(u) < |u|))
    decreases |s|
  {
    hide Next, Atmosphere, CommentLength;
    if s != "" && (IsBlank(s[0]) || (s[0] == ';' && CommentLength(s) < |s|)) {
      var k := if IsBlank(s[0]) then 1 else CommentLength(s) + 1;
      var b;
      b, u := Split(s[k..]);
      a := s[..k] + b;
      assert s == s[..k] + s[k..] == a + u;
      AtmosphereMore(s, k, b);
      AtmosphereSkipped(a, u);
    } else {
      a, u := "", s;
      NoAtmosphere(s);
    }
  }

  /** The lexer loops for ever exactly when something open is left. */
  lemma EndlessExactly(a: string, u: string)
    requires Atmosphere(a) && (u == "" || !(IsBlank(u[0]) || (u[0] == ';' && CommentLength(u) < |u|)))
    ensures Next(a + u).outcome.Endless? <==> Open(u)
  {
    hide TokenAt;
    AtmosphereSkipped(a, u);
    if u != "" && u[0] != ';' && u[0] != END {
      OpenAt(u);
    } else if u != "" && u[0] == ';' {
      assert forall i :: 1 <= i < |u| ==> u[i] == u[1..][i - 1];
    }
  }

  /** Three texts the lexer never ends on; an identifier at the end is an error instead. */
  lemma EndOfInputIsNoDelimiter()
    ensures Next(";a").outcome.Endless? && Next("12").outcome.Endless? && Next("\"a").outcome.Endless?
    ensures Next("ab").outcome.Thrown?
  {
    hide Next, TokenAt, CommentLength;
    assert "" + ";a" == ";a" && "" + "12" == "12" && "" + "\"a" == "\"a";
    OpenComment();
    EndlessExactly("", ";a");
    EndlessExactly("", "12");
    EndlessExactly("", "\"a");
    IdentifierAtEnd();
  }

  lemma OpenComment()
    ensures CommentLength(";a") == 2
  {
    SpanIs(";a"[1..], c => !IsNewline(c), 1);
  }

  lemma IdentifierAtEnd()
    ensures Next("ab").outcome.Thrown?
  {
    SpanIs("ab", IsSubsequent, 2);
    assert IdentifierToken("ab") == RAISES;
  }

  // ---- all the tokens of a text -----------------------------------------------------------------

  /** A separator and a token. */
  datatype Item = Item(before: string, token: Token)

  function Printed(items: seq<Item>, tail: string): string {
    if items == [] then tail else items[0].before + Spelling(items[0].token) + Printed(items[1..], tail)
  }

  function TokensOf(items: seq<Item>): (ts: seq<Token>)
    ensures |ts| == |items|
  {
    seq(|items|, i requires 0 <= i < |items| => items[i].token)
  }

  /** Separators are blanks and comments, and what needs a delimiter has one. */
  predicate Separated(items: seq<Item>, tail: string) {
    items == [] ||
    (&& Atmosphere(items[0].before) && Proper(items[0].token)
     && Delimited(items[0].token, Printed(items[1..], tail))
     && Separated(items[1..], tail))
  }

  lemma LexPrefix(a: string, t: Token, rest: string)
    requires Atmosphere(a) && Proper(t) && Delimited(t, rest)
    ensures LexAll(a + Spelling(t) + rest) == Onto([t], LexAll(rest))
  {
    hide Proper, Spelling, Next;
    var w := Spelling(t);
    TokenRoundTrip(t, rest);
    AtmosphereSkipped(a, w + rest);
    assert a + w + rest == a + (w + rest);
    assert (a + (w + rest))[|a| + |w|..] == rest;
    assert t.kind != EOF by { ProperIsNotEnd(t); }
  }

  lemma ProperIsNotEnd(t: Token)
    requires Proper(t)
    ensures t.kind != EOF && Spelling(t) != ""
  {
  }

  lemma TokensOfMore(items: seq<Item>)
    requires items != []
    ensures TokensOf(items) == [items[0].token] + TokensOf(items[1..])
  {
  }

  /** Printed tokens are read back, kinds and texts, and the lexer goes on behind them. */
  lemma {:induction false} PrintedTokensReadBack(items: seq<Item>, tail: string)
    requires Separated(items, tail)
    ensures LexAll(Printed(items, tail)) == Onto(TokensOf(items), LexAll(tail))
  {
    hide Proper, Spelling, Next, Atmosphere, Delimited, LexAll, TokensOf;
    if items == [] {
      assert TokensOf(items) == [];
    } else {
      PrintedTokensReadBack(items[1..], tail);
      LexPrefix(items[0].before, items[0].token, Printed(items[1..], tail));
      TokensOfMore(items);
      assert Printed(items, tail) == items[0].before + Spelling(items[0].token) + Printed(items[1..], tail);
    }
  }

  /** One step of the lexer behind its atmosphere. */
  lemma LexStep(s: string, a: string, u: string)
    requires s == a + u && Next(s) == Skip(|a|, Next(u))
    ensures var l := Next(u);
            if l.outcome.Got? && l.outcome.token.kind != EOF
            then LexAll(s) == Onto([l.outcome.token], LexAll(u[l.length..]))
            else LexAll(s).tokens == [] && (LexAll(s).ending == Forever ==> l.outcome.Endless?)
  {
    hide Next;
    var l := Next(u);
    if l.outcome.Got? {
      assert s[|a| + l.length..] == u[l.length..];
    }
  }

  lemma NextIsToken(u: string)
    requires u == "" || !(IsBlank(u[0]) || (u[0] == ';' && CommentLength(u) < |u|))
    requires Next(u).outcome.Got? && Next(u).outcome.token.kind != EOF
    ensures u != "" && Next(u) == TokenAt(u)
  {
    hide TokenAt;
  }

  lemma OneMore(a: string, u: string, n: nat, items: seq<Item>, tail: string)
    requires items != [] && items[0].before == a && n <= |u| && Spelling(items[0].token) == u[..n]
    requires Printed(items[1..], tail) == u[n..]
    ensures Printed(items, tail) == a + u
  {
    hide Spelling;
    assert a + u == a + u[..n] + u[n..];
  }

  /** And what it read was a printed sequence of tokens. */
  lemma {:induction false} ReadTokensWerePrinted(s: string) returns (items: seq<Item>, tail: string)
    ensures Printed(items, tail) == s && Separated(items, tail)
    ensures LexAll(s) == Onto(TokensOf(items), LexAll(tail)) && LexAll(tail).tokens == []
    decreases |s|
  {
    hide TokenAt, Next, LexAll, TokensOf, Delimited, Proper, Spelling, Atmosphere, CommentLength;
    var a, u := Split(s);
    var l := Next(u);
    LexStep(s, a, u);
    if l.outcome.Got? && l.outcome.token.kind != EOF {
      NextIsToken(u);
      TokenShape(u);
      var n := l.length;
      var more;
      more, tail := ReadTokensWerePrinted(u[n..]);
      items := [Item(a, l.outcome.token)] + more;
      assert items[1..] == more;
      OneMore(a, u, n, items, tail);
      TokensOfMore(items);
    } else {
      assert TokensOf([]) == [];
      items, tail := [], s;
    }
  }

  /** On a text that ends with a newline, only a string that is still open can keep the lexer
      running. */
  lemma {:induction false} OnlyAnOpenStringLoops(s: string) returns (before: string, text: string)
    requires s != "" && s[|s| - 1] == '\n' && LexAll(s).ending == Forever
    ensures s == before + "\"" + text && '"' !in text
    decreases |s|
  {
    hide Next, Atmosphere, Open, CommentLength, LexAll;
    var a, u := Split(s);
    var l := Next(u);
    LexStep(s, a, u);
    if l.outcome.Got? && l.outcome.token.kind != EOF {
      var n := l.length;
      LexNothing();
      assert u[n..] != "";
      before, text := OnlyAnOpenStringLoops(u[n..]);
      before := a + u[..n] + before;
      assert u == u[..n] + u[n..];
    } else {
      EndlessExactly(a, u);
      OpenWithNewline(a, u);
      before, text := a, u[1..];
      assert u == "\"" + text;
    }
  }

  lemma OpenWithNewline(a: string, u: string)
    requires Open(u) && (a + u)[|a + u| - 1] == '\n'
    ensures u != "" && u[0] == '"' && '"' !in u[1..]
  {
  }

  lemma LexNothing()
    ensures LexAll("") == Stream([], AtEnd)
  {
  }
}
