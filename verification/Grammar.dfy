// The external representations the parser accepts (sections 7.1.2 of R5RS and src/parser.cc:68-128)
// as a grammar, and their canonical text. The parser accepts exactly the derivations, and the
// lexer reads the text of a derivation back as its tokens.
module Grammar {
  import opened Lexing
  import opened LexRoundTrip
  import opened Parsing
  import opened Syntax

  datatype Cst =
    | Single(token: Token)
    | Quoted(datum: Cst)
    | List(items: seq<Cst>)
    | Dotted(items: seq<Cst>, last: Cst)

  const OPEN_TOKEN := Token(LPAREN, "(")
  const CLOSE_TOKEN := Token(RPAREN, ")")
  const QUOTE_TOKEN := Token(QUOTE, "'")
  const PERIOD_TOKEN := Token(PERIOD, ".")

  predicate WellFormed(c: Cst) {
    match c
    case Single(t) => IsLeaf(t.kind) && Proper(t)
    case Quoted(d) => WellFormed(d)
    case List(items) => AllWellFormed(items)
    case Dotted(items, last) => AllWellFormed(items) && WellFormed(last)
  }

  predicate AllWellFormed(cs: seq<Cst>) { cs == [] || (WellFormed(cs[0]) && AllWellFormed(cs[1..])) }

  function Yield(c: Cst): (ts: seq<Token>)
    ensures ts != []
  {
    match c
    case Single(t) => [t]
    case Quoted(d) => [QUOTE_TOKEN] + Yield(d)
    case List(items) => [OPEN_TOKEN] + YieldAll(items) + [CLOSE_TOKEN]
    case Dotted(items, last) => [OPEN_TOKEN] + YieldAll(items) + [PERIOD_TOKEN] + Yield(last) + [CLOSE_TOKEN]
  }

  function YieldAll(cs: seq<Cst>): seq<Token> { if cs == [] then [] else Yield(cs[0]) + YieldAll(cs[1..]) }

  function AstOf(c: Cst): Ast {
    match c
    case Single(t) => Leaf(t)
    case Quoted(d) => Quotation(AstOf(d))
    case List(items) => SExpr(AstAll(items), false)
    case Dotted(items, last) => SExpr(AstAll(items) + [AstOf(last)], true)
  }

  function AstAll(cs: seq<Cst>): seq<Ast> { if cs == [] then [] else [AstOf(cs[0])] + AstAll(cs[1..]) }

  // ---- the parser accepts the derivations -------------------------------------------------------

  lemma YieldStarts(c: Cst)
    requires WellFormed(c)
    ensures Yield(c)[0].kind != RPAREN && Yield(c)[0].kind != PERIOD
  {
  }

  lemma RestItem(ts: seq<Token>, e: Ending, args: seq<Ast>)
    requires ts != [] && ts[0].kind != RPAREN && ts[0].kind != PERIOD
    ensures var d := ParseDatum(ts, e);
            ParseRest(ts, e, args) == if d.answer.Tree? then ParseRest(d.rest, e, args + [d.answer.ast]) else d
  {
    hide ParseDatum;
  }

  lemma RestCloses(args: seq<Ast>, rest: seq<Token>, e: Ending)
    ensures ParseRest([CLOSE_TOKEN] + rest, e, args) == Parse(Tree(SExpr(args, false)), rest)
  {
    assert ([CLOSE_TOKEN] + rest)[1..] == rest;
  }

  lemma RestPoint(ts: seq<Token>, e: Ending, args: seq<Ast>)
    ensures var d := ParseDatum(ts, e);
            ParseRest([PERIOD_TOKEN] + ts, e, args) ==
            if d.answer.Tree? then Match(SExpr(args + [d.answer.ast], true), d.rest, e) else d
  {
    hide ParseDatum;
    assert ([PERIOD_TOKEN] + ts)[1..] == ts;
  }

  lemma DatumOpens(ts: seq<Token>, e: Ending)
    ensures ParseDatum([OPEN_TOKEN] + ts, e) == ParseRest(ts, e, [])
  {
    hide ParseRest;
    assert ([OPEN_TOKEN] + ts)[1..] == ts;
  }

  /** Every derivation is parsed, up to its last token. */
  lemma {:induction false} DerivationParses(c: Cst, rest: seq<Token>, e: Ending)
    requires WellFormed(c)
    ensures ParseDatum(Yield(c) + rest, e) == Parse(Tree(AstOf(c)), rest)
    decreases c
  {
    hide Proper, ParseDatum, ParseRest;
    var ts := Yield(c) + rest;
    if c.Single? {
      LeafNext(ts, e);
      assert ts[1..] == rest;
    } else if c.Quoted? {
      DerivationParses(c.datum, rest, e);
      QuoteNext(ts, e);
      assert ts[1..] == Yield(c.datum) + rest;
    } else {
      hide AllWellFormed, YieldAll, AstAll;
      var closing := [CLOSE_TOKEN] + rest;
      var tail := if c.List? then closing else [PERIOD_TOKEN] + (Yield(c.last) + closing);
      ListTokens(c, rest);
      DatumOpens(YieldAll(c.items) + tail, e);
      ItemsParse(c.items, [], tail, e);
      assert [] + AstAll(c.items) == AstAll(c.items);
      if c.List? {
        RestCloses(AstAll(c.items), rest, e);
      } else {
        assert closing[1..] == rest;
        RestPoint(Yield(c.last) + closing, e, AstAll(c.items));
        DerivationParses(c.last, closing, e);
      }
    }
  }

  lemma ListTokens(c: Cst, rest: seq<Token>)
    ensures c.List? ==> Yield(c) + rest == [OPEN_TOKEN] + (YieldAll(c.items) + ([CLOSE_TOKEN] + rest))
    ensures c.Dotted? ==>
              Yield(c) + rest ==
              [OPEN_TOKEN] + (YieldAll(c.items) + ([PERIOD_TOKEN] + (Yield(c.last) + ([CLOSE_TOKEN] + rest))))
  {
    hide YieldAll;
  }

  lemma {:induction false} ItemsParse(cs: seq<Cst>, args: seq<Ast>, tail: seq<Token>, e: Ending)
    requires AllWellFormed(cs)
    ensures ParseRest(YieldAll(cs) + tail, e, args) == ParseRest(tail, e, args + AstAll(cs))
    decreases cs
  {
    hide ParseDatum, ParseRest, Yield, AstOf, WellFormed;
    if cs == [] {
      assert YieldAll(cs) + tail == tail && args + AstAll(cs) == args;
    } else {
      var more := YieldAll(cs[1..]) + tail;
      DerivationParses(cs[0], more, e);
      YieldStarts(cs[0]);
      RestItem(Yield(cs[0]) + more, e, args);
      ItemsParse(cs[1..], args + [AstOf(cs[0])], tail, e);
      assert YieldAll(cs) + tail == Yield(cs[0]) + more;
      assert args + [AstOf(cs[0])] + AstAll(cs[1..]) == args + AstAll(cs);
    }
  }

  // ---- how parsing fails ------------------------------------------------------------------------

  /** Where no datum starts: at the end of the input there is no result, behind a lexer that failed
      or never ends it is like the lexer; a parenthesis or a point too many is an error. */
  lemma NoDatum(t: Token, ts: seq<Token>, e: Ending)
    requires t.kind == RPAREN || t.kind == PERIOD
    ensures ParseDatum([], AtEnd).answer == NoResult
    ensures ParseDatum([], Failing).answer == Raised
    ensures ParseDatum([], Forever).answer == Waiting
    ensures ParseDatum([t] + ts, e).answer == Raised
  {
  }

  /** A quotation mark or a list that is still open at the end is like nothing at all. */
  lemma OpenAtTheEnd(items: seq<Cst>, e: Ending)
    requires AllWellFormed(items)
    ensures ParseDatum([QUOTE_TOKEN], e).answer == ParseDatum([], e).answer
    ensures ParseDatum([OPEN_TOKEN] + YieldAll(items), e).answer == ParseDatum([], e).answer
    ensures ParseDatum([OPEN_TOKEN] + YieldAll(items) + [PERIOD_TOKEN], e).answer == ParseDatum([], e).answer
  {
    hide AllWellFormed, YieldAll;
    QuoteNext([QUOTE_TOKEN], e);
    assert [QUOTE_TOKEN][1..] == [];
    DatumOpens(YieldAll(items), e);
    ItemsParse(items, [], [], e);
    assert YieldAll(items) + [] == YieldAll(items);
    DatumOpens(YieldAll(items) + [PERIOD_TOKEN], e);
    ItemsParse(items, [], [PERIOD_TOKEN], e);
    assert [PERIOD_TOKEN] + [] == [PERIOD_TOKEN];
    RestPoint([], e, [] + AstAll(items));
    assert [OPEN_TOKEN] + YieldAll(items) + [PERIOD_TOKEN] == [OPEN_TOKEN] + (YieldAll(items) + [PERIOD_TOKEN]);
  }

  /** Behind a point there is one datum: anything but a closing parenthesis behind it is an error,
      also the end of the input. */
  lemma OneBehindThePoint(items: seq<Cst>, last: Cst, rest: seq<Token>, e: Ending)
    requires AllWellFormed(items) && WellFormed(last)
    requires if rest == [] then e != Forever else rest[0].kind != RPAREN
    ensures ParseDatum([OPEN_TOKEN] + YieldAll(items) + [PERIOD_TOKEN] + Yield(last) + rest, e).answer == Raised
  {
    hide AllWellFormed, YieldAll, Yield, WellFormed, AstOf, AstAll, ParseDatum, ParseRest;
    var behind := Yield(last) + rest;
    DatumOpens(YieldAll(items) + ([PERIOD_TOKEN] + behind), e);
    ItemsParse(items, [], [PERIOD_TOKEN] + behind, e);
    RestPoint(behind, e, [] + AstAll(items));
    DerivationParses(last, rest, e);
    FourJoined([OPEN_TOKEN], YieldAll(items), [PERIOD_TOKEN], Yield(last), rest);
  }

  lemma FourJoined(a: seq<Token>, b: seq<Token>, c: seq<Token>, d: seq<Token>, e: seq<Token>)
    ensures a + b + c + d + e == a + (b + (c + (d + e)))
  {
  }

  predicate AllProper(ts: seq<Token>) { forall i :: 0 <= i < |ts| ==> Proper(ts[i]) }

  lemma ProperBrackets(t: Token)
    requires Proper(t)
    ensures t.kind == LPAREN ==> t == OPEN_TOKEN
    ensures t.kind == RPAREN ==> t == CLOSE_TOKEN
    ensures t.kind == QUOTE ==> t == QUOTE_TOKEN
    ensures t.kind == PERIOD ==> t == PERIOD_TOKEN
  {
  }

  /** The inside of a list; `last` holds what stands behind a point, if anything. */
  function Inside(items: seq<Cst>, last: seq<Cst>): seq<Token> {
    YieldAll(items) + (if last == [] then [] else [PERIOD_TOKEN] + Yield(last[0])) + [CLOSE_TOKEN]
  }

  function Listed(items: seq<Cst>, last: seq<Cst>): Cst {
    if last == [] then List(items) else Dotted(items, last[0])
  }

  lemma ListedParts(items: seq<Cst>, last: seq<Cst>)
    requires |last| <= 1
    ensures Yield(Listed(items, last)) == [OPEN_TOKEN] + Inside(items, last)
    ensures AstOf(Listed(items, last)) ==
            SExpr(AstAll(items) + (if last == [] then [] else [AstOf(last[0])]), last != [])
    ensures WellFormed(Listed(items, last)) <==> AllWellFormed(items) && (last != [] ==> WellFormed(last[0]))
  {
  }

  /** What the parser accepts has a derivation, and its tree is the one returned. */
  lemma {:induction false} ParsedHasDerivation(ts: seq<Token>, e: Ending) returns (c: Cst)
    requires AllProper(ts) && ParseDatum(ts, e).answer.Tree?
    ensures var p := ParseDatum(ts, e);
            WellFormed(c) && ts == Yield(c) + p.rest && AstOf(c) == p.answer.ast
    decreases |ts|, 0
  {
    hide Proper, ParseRest, Inside, Listed, AllWellFormed, WellFormed, Yield, AstOf, RestDerived;
    ProperBrackets(ts[0]);
    assert ts == [ts[0]] + ts[1..];
    if IsLeaf(ts[0].kind) {
      c := Single(ts[0]);
      SingleDerived(ts[0], ts[1..]);
    } else if ts[0].kind == QUOTE {
      var d := ParsedHasDerivation(ts[1..], e);
      c := Quoted(d);
      QuotedDerived(d, ParseDatum(ts[1..], e).rest);
    } else {
      DatumOpens(ts[1..], e);
      var items, last := ItemsHaveDerivations(ts[1..], e, []);
      c := Listed(items, last);
      ListDerived(ts[1..], ParseRest(ts[1..], e, []), items, last);
    }
  }

  lemma SingleDerived(t: Token, rest: seq<Token>)
    requires Proper(t) && IsLeaf(t.kind)
    ensures WellFormed(Single(t)) && [t] + rest == Yield(Single(t)) + rest && AstOf(Single(t)) == Leaf(t)
  {
  }

  lemma QuotedDerived(d: Cst, rest: seq<Token>)
    requires WellFormed(d)
    ensures WellFormed(Quoted(d)) && AstOf(Quoted(d)) == Quotation(AstOf(d))
    ensures [QUOTE_TOKEN] + (Yield(d) + rest) == Yield(Quoted(d)) + rest
  {
  }

  lemma ListDerived(ts: seq<Token>, p: Parse, items: seq<Cst>, last: seq<Cst>)
    requires RestDerived(ts, [], p, items, last)
    ensures var c := Listed(items, last);
            WellFormed(c) && [OPEN_TOKEN] + ts == Yield(c) + p.rest && p.answer == Tree(AstOf(c))
  {
    hide WellFormed, Yield, AstOf, Inside, Listed;
    ListedParts(items, last);
    assert [] + AstAll(items) == AstAll(items);
    assert [OPEN_TOKEN] + (Inside(items, last) + p.rest) == [OPEN_TOKEN] + Inside(items, last) + p.rest;
  }

  /** The inside of a list that ParseRest accepted behind `args`. */
  predicate RestDerived(ts: seq<Token>, args: seq<Ast>, p: Parse, items: seq<Cst>, last: seq<Cst>) {
    && AllWellFormed(items) && |last| <= 1 && (last != [] ==> WellFormed(last[0]))
    && ts == Inside(items, last) + p.rest
    && p.answer == Tree(SExpr(args + AstAll(items) + (if last == [] then [] else [AstOf(last[0])]), last != []))
  }

  lemma {:induction false} ItemsHaveDerivations(ts: seq<Token>, e: Ending, args: seq<Ast>)
    returns (items: seq<Cst>, last: seq<Cst>)
    requires AllProper(ts) && ParseRest(ts, e, args).answer.Tree?
    ensures RestDerived(ts, args, ParseRest(ts, e, args), items, last)
    decreases |ts|, 1
  {
    hide Proper, ParseDatum, ParseRest, RestDerived, WellFormed, Yield, AstOf;
    RestNotEmpty(ts, e, args);
    ProperBrackets(ts[0]);
    if ts[0].kind == RPAREN {
      items, last := [], [];
      CloseDerived(ts, e, args);
    } else if ts[0].kind == PERIOD {
      assert ts == [PERIOD_TOKEN] + ts[1..];
      RestPoint(ts[1..], e, args);
      var d := ParsedHasDerivation(ts[1..], e);
      items, last := [], [d];
      PointDerived(ts[1..], e, args, d);
    } else {
      RestItem(ts, e, args);
      var d := ParsedHasDerivation(ts, e);
      var p := ParseDatum(ts, e);
      ProperSuffix(Yield(d), p.rest);
      var more;
      more, last := ItemsHaveDerivations(p.rest, e, args + [p.answer.ast]);
      items := [d] + more;
      ItemDerived(d, p.rest, args, ParseRest(ts, e, args), more, last);
    }
  }

  lemma CloseDerived(ts: seq<Token>, e: Ending, args: seq<Ast>)
    requires ts != [] && ts[0] == CLOSE_TOKEN
    ensures RestDerived(ts, args, ParseRest(ts, e, args), [], [])
  {
    assert ts == [CLOSE_TOKEN] + ts[1..];
    RestCloses(args, ts[1..], e);
    assert args + AstAll([]) + [] == args;
  }

  lemma PointDerived(ts: seq<Token>, e: Ending, args: seq<Ast>, d: Cst)
    requires AllProper(ts) && WellFormed(d)
    requires ParseRest([PERIOD_TOKEN] + ts, e, args).answer.Tree?
    requires ParseDatum(ts, e).answer == Tree(AstOf(d)) && ts == Yield(d) + ParseDatum(ts, e).rest
    ensures RestDerived([PERIOD_TOKEN] + ts, args, ParseRest([PERIOD_TOKEN] + ts, e, args), [], [d])
  {
    hide Proper, ParseDatum, ParseRest, WellFormed, Yield, AstOf;
    RestPoint(ts, e, args);
    var rest := ParseDatum(ts, e).rest;
    ProperSuffix(Yield(d), rest);
    ProperBrackets(rest[0]);
    assert rest == [CLOSE_TOKEN] + rest[1..];
    assert Inside([], [d]) + rest[1..] == [PERIOD_TOKEN] + ts;
    assert args + AstAll([]) + [AstOf(d)] == args + [AstOf(d)];
  }

  lemma ItemDerived(d: Cst, rest: seq<Token>, args: seq<Ast>, p: Parse, more: seq<Cst>, last: seq<Cst>)
    requires WellFormed(d) && RestDerived(rest, args + [AstOf(d)], p, more, last)
    ensures RestDerived(Yield(d) + rest, args, p, [d] + more, last)
  {
    hide WellFormed, Yield, AstOf, Inside;
    InsideMore(d, more, last);
    assert Yield(d) + (Inside(more, last) + p.rest) == Yield(d) + Inside(more, last) + p.rest;
    assert args + [AstOf(d)] + AstAll(more) == args + AstAll([d] + more);
  }

  lemma ProperSuffix(a: seq<Token>, b: seq<Token>)
    requires AllProper(a + b)
    ensures AllProper(b)
  {
    hide Proper;
    forall i | 0 <= i < |b| ensures Proper(b[i]) { assert b[i] == (a + b)[|a| + i]; }
  }

  lemma RestNotEmpty(ts: seq<Token>, e: Ending, args: seq<Ast>)
    requires ParseRest(ts, e, args).answer.Tree?
    ensures ts != []
  {
  }

  lemma InsideMore(d: Cst, more: seq<Cst>, last: seq<Cst>)
    ensures var items := [d] + more;
            && Inside(items, last) == Yield(d) + Inside(more, last)
            && AstAll(items) == [AstOf(d)] + AstAll(more)
            && (AllWellFormed(items) <==> WellFormed(d) && AllWellFormed(more))
  {
    hide Yield, AstOf, WellFormed;
    assert ([d] + more)[1..] == more;
  }

  /** No sequence of tokens has two readings. */
  lemma Unambiguous(c: Cst, d: Cst, s: seq<Token>, t: seq<Token>)
    requires WellFormed(c) && WellFormed(d) && Yield(c) + s == Yield(d) + t
    ensures AstOf(c) == AstOf(d) && s == t
  {
    DerivationParses(c, s, AtEnd);
    DerivationParses(d, t, AtEnd);
  }

  /** 'x and (quote x) are one tree. */
  lemma QuoteIsQuotation(d: Cst)
    ensures AstOf(Quoted(d)) == AstOf(List([Single(Token(SYMBOL, "quote")), d]))
  {
    var cs := [Single(Token(SYMBOL, "quote")), d];
    assert cs[1..] == [d] && AstAll([d]) == [AstOf(d)] + AstAll([]);
    assert AstAll(cs) == [Ast.Symbol("quote"), AstOf(d)];
  }

  /** The tokens the parser is given are proper. */
  lemma {:induction false} LexedAreProper(s: string)
    ensures AllProper(LexAll(s).tokens)
    decreases |s|
  {
    hide TokenAt, Proper;
    var l := Next(s);
    if l.outcome.Got? && l.outcome.token.kind != EOF {
      var a, u := Split(s);
      TokenShape(u);
      LexedAreProper(s[l.length..]);
    }
  }

  // ---- text -------------------------------------------------------------------------------------

  function Text(c: Cst): string {
    match c
    case Single(t) => Spelling(t)
    case Quoted(d) => "'" + Text(d)
    case List(items) => "(" + SpacedOut(items) + ")"
    case Dotted(items, last) => "(" + SpacedOut(items) + " . " + Text(last) + ")"
  }

  function SpacedOut(cs: seq<Cst>): string { if cs == [] then "" else Text(cs[0]) + Spaced(cs[1..]) }

  function Spaced(cs: seq<Cst>): string { if cs == [] then "" else " " + Text(cs[0]) + Spaced(cs[1..]) }

  lemma LexBlank(c: char, s: string)
    requires IsBlank(c)
    ensures LexAll([c] + s) == LexAll(s)
  {
    assert ([c] + s)[1..] == s;
    var l := Next(s);
    if l.outcome.Got? { assert ([c] + s)[1 + l.length..] == s[l.length..]; }
  }

  lemma LexBracket(t: Token, rest: string)
    requires t == OPEN_TOKEN || t == CLOSE_TOKEN || t == QUOTE_TOKEN
    ensures LexAll(t.text + rest) == Onto([t], LexAll(rest))
  {
    hide LexAll;
    LexPrefix("", t, rest);
    assert "" + Spelling(t) + rest == t.text + rest;
  }

  /** What is behind a text ends its last token. */
  predicate Ended(rest: string) { IsDelimiter(Peek(rest, 0)) }

  /** The text of a derivation is read back as its tokens. */
  lemma {:induction false} TextLexes(c: Cst, rest: string)
    requires WellFormed(c) && Ended(rest)
    ensures LexAll(Text(c) + rest) == Onto(Yield(c), LexAll(rest))
    decreases c
  {
    hide LexAll, Proper, Spelling, SpacedOut, YieldAll, AllWellFormed, Onto;
    if c.Single? {
      LexPrefix("", c.token, rest);
      assert "" + Spelling(c.token) + rest == Text(c) + rest;
    } else if c.Quoted? {
      TextLexes(c.datum, rest);
      LexBracket(QUOTE_TOKEN, Text(c.datum) + rest);
      assert Text(c) + rest == "'" + (Text(c.datum) + rest);
      OntoBoth([QUOTE_TOKEN], Yield(c.datum), LexAll(rest));
    } else if c.List? {
      var tail := ")" + rest;
      LexBracket(CLOSE_TOKEN, rest);
      ListLexes(c.items, tail);
      LexBracket(OPEN_TOKEN, SpacedOut(c.items) + tail);
      ListJoined(c.items, rest, LexAll(rest));
    } else {
      var tail := ")" + rest;
      LexBracket(CLOSE_TOKEN, rest);
      TextLexes(c.last, tail);
      PeriodLexes(Text(c.last) + tail);
      ListLexes(c.items, " . " + (Text(c.last) + tail));
      LexBracket(OPEN_TOKEN, SpacedOut(c.items) + (" . " + (Text(c.last) + tail)));
      DottedJoined(c.items, c.last, rest, LexAll(rest));
    }
  }

  lemma OntoBoth(a: seq<Token>, b: seq<Token>, s: Stream)
    ensures Onto(a + b, s) == Onto(a, Onto(b, s))
  {
  }

  lemma ListJoined(items: seq<Cst>, rest: string, s: Stream)
    ensures Text(List(items)) + rest == "(" + (SpacedOut(items) + (")" + rest))
    ensures Onto(Yield(List(items)), s) == Onto([OPEN_TOKEN], Onto(YieldAll(items), Onto([CLOSE_TOKEN], s)))
  {
    hide SpacedOut, YieldAll;
  }

  lemma DottedJoined(items: seq<Cst>, last: Cst, rest: string, s: Stream)
    ensures Text(Dotted(items, last)) + rest == "(" + (SpacedOut(items) + (" . " + (Text(last) + (")" + rest))))
    ensures Onto(Yield(Dotted(items, last)), s) ==
            Onto([OPEN_TOKEN], Onto(YieldAll(items), Onto([PERIOD_TOKEN], Onto(Yield(last), Onto([CLOSE_TOKEN], s)))))
  {
    hide SpacedOut, YieldAll;
    FiveJoined("(", SpacedOut(items), " . ", Text(last), ")", rest);
    FiveJoined([OPEN_TOKEN], YieldAll(items), [PERIOD_TOKEN], Yield(last), [CLOSE_TOKEN], s.tokens);
  }

  lemma FiveJoined<T>(a: seq<T>, b: seq<T>, c: seq<T>, d: seq<T>, e: seq<T>, f: seq<T>)
    ensures a + b + c + d + e + f == a + (b + (c + (d + (e + f))))
  {
  }

  lemma PeriodLexes(rest: string)
    ensures LexAll(" . " + rest) == Onto([PERIOD_TOKEN], LexAll(rest))
  {
    hide LexAll;
    LexPrefix("", PERIOD_TOKEN, " " + rest);
    LexBlank(' ', "." + (" " + rest));
    LexBlank(' ', rest);
    assert " . " + rest == " " + ("." + (" " + rest)) && "" + "." + (" " + rest) == "." + (" " + rest);
  }

  lemma {:induction false} ListLexes(cs: seq<Cst>, tail: string)
    requires AllWellFormed(cs) && Ended(tail)
    ensures LexAll(SpacedOut(cs) + tail) == Onto(YieldAll(cs), LexAll(tail))
    decreases cs, 1
  {
    hide LexAll, WellFormed, Text, Yield;
    if cs == [] {
      assert SpacedOut(cs) + tail == tail;
    } else {
      var more := Spaced(cs[1..]) + tail;
      assert Ended(more);
      TextLexes(cs[0], more);
      SpacedLexes(cs[1..], tail);
      assert SpacedOut(cs) + tail == Text(cs[0]) + more;
    }
  }

  lemma {:induction false} SpacedLexes(cs: seq<Cst>, tail: string)
    requires AllWellFormed(cs) && Ended(tail)
    ensures LexAll(Spaced(cs) + tail) == Onto(YieldAll(cs), LexAll(tail))
    decreases cs, 0
  {
    hide LexAll, WellFormed, Text, Yield;
    if cs == [] {
      assert Spaced(cs) + tail == tail;
    } else {
      var more := Spaced(cs[1..]) + tail;
      assert Ended(more);
      TextLexes(cs[0], more);
      SpacedLexes(cs[1..], tail);
      LexBlank(' ', Text(cs[0]) + more);
      assert Spaced(cs) + tail == " " + (Text(cs[0]) + more);
    }
  }

  // ---- from text to tree ------------------------------------------------------------------------

  /** The first tree of a text. */
  function Read(s: string): Answer { ParseDatum(LexAll(s).tokens, LexAll(s).ending).answer }

  /** The text of a derivation reads as its tree. */
  lemma TextReads(c: Cst, rest: string)
    requires WellFormed(c) && Ended(rest)
    ensures Read(Text(c) + rest) == Tree(AstOf(c))
  {
    hide LexAll, ParseDatum, Text, Yield, AstOf;
    TextLexes(c, rest);
    DerivationParses(c, LexAll(rest).tokens, LexAll(rest).ending);
  }

  /** The lexer and the parser at work on a text. */
  method ReadFirst(s: string) returns (r: Answer)
    ensures r == Read(s)
  {
    hide LexAll, ParseDatum;
    var lexer := new Lexer(s);
    var parser := new Parser(lexer);
    r := parser.ParseSExp();
  }
}
