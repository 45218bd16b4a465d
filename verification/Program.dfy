// The driver's reading loop (src/main.cc:102-118): one datum after another until the end of the
// input. A whole text is accepted exactly when it is a sequence of external representations.
module Program {
  import opened Lexing
  import opened LexRoundTrip
  import opened Parsing
  import opened Syntax
  import opened Grammar
  import opened Session

  /** The trees read, and why the loop stopped: at the end of the input, or without a tree. */
  datatype Reading = Reading(trees: seq<Ast>, stop: Stop)

  datatype Stop = Finished | Stopped(answer: Answer)

  function ParseAll(ts: seq<Token>, e: Ending): Reading
    decreases |ts|
  {
    if ts == [] then Reading([], if e == AtEnd then Finished else Stopped(AtEnding(e)))
    else
      var d := ParseDatum(ts, e);
      if d.answer.Tree? then OntoTrees([d.answer.ast], ParseAll(d.rest, e)) else Reading([], Stopped(d.answer))
  }

  function OntoTrees(trees: seq<Ast>, r: Reading): Reading { Reading(trees + r.trees, r.stop) }

  function ReadAll(s: string): Reading { ParseAll(LexAll(s).tokens, LexAll(s).ending) }

  /** The loop over lexer and parser. */
  method ReadProgram(s: string) returns (r: Reading)
    ensures r == ReadAll(s)
  {
    hide LexAll, ParseDatum, ParseAll, OntoTrees, Ahead, Live;
    var lexer := new Lexer(s);
    var parser := new Parser(lexer);
    ghost var ts, e := LexAll(s).tokens, LexAll(s).ending;
    var trees := [];
    NoTrees(ParseAll(ts, e));
    while true
      invariant parser.Valid() && parser.Pending() == Stream(ts, e)
      invariant fresh(parser) && fresh(parser.input)
      invariant ReadAll(s) == OntoTrees(trees, ParseAll(ts, e))
      decreases |ts|
    {
      NextTree(trees, ts, e);
      var front := parser.PeekToken(1);
      if !front.Got? || front.token.kind == EOF {
        FrontEnds(Stream(ts, e));
        return Reading(trees, if front.Got? then Finished else Stopped(Interrupted(front)));
      }
      FrontIs(Stream(ts, e), front.token);
      var datum := parser.ParseSExp();
      if !datum.Tree? {
        return Reading(trees, Stopped(datum));
      }
      trees := trees + [datum.ast];
      ts := ParseDatum(ts, e).rest;
    }
  }

  lemma NoTrees(r: Reading)
    ensures OntoTrees([], r) == r
  {
  }

  lemma NextTree(trees: seq<Ast>, ts: seq<Token>, e: Ending)
    ensures var d, r := ParseDatum(ts, e), OntoTrees(trees, ParseAll(ts, e));
            if ts == [] then r == Reading(trees, if e == AtEnd then Finished else Stopped(AtEnding(e)))
            else if d.answer.Tree? then r == OntoTrees(trees + [d.answer.ast], ParseAll(d.rest, e))
            else r == Reading(trees, Stopped(d.answer))
  {
    hide ParseDatum;
  }

  /** A sequence of derivations is read as its trees, and the loop goes on behind it. */
  lemma {:induction false} DerivationsParse(cs: seq<Cst>, rest: seq<Token>, e: Ending)
    requires AllWellFormed(cs)
    ensures ParseAll(YieldAll(cs) + rest, e) == OntoTrees(AstAll(cs), ParseAll(rest, e))
    decreases |cs|
  {
    hide WellFormed, Yield, AstOf, ParseDatum;
    if cs == [] {
      assert YieldAll(cs) + rest == rest;
    } else {
      var more := YieldAll(cs[1..]) + rest;
      DerivationParses(cs[0], more, e);
      DerivationsParse(cs[1..], rest, e);
      assert YieldAll(cs) + rest == Yield(cs[0]) + more;
    }
  }

  /** The trees read come from derivations; what is left behind them holds no further datum. */
  lemma {:induction false} ParsedHaveDerivations(ts: seq<Token>, e: Ending) returns (cs: seq<Cst>, rest: seq<Token>)
    requires AllProper(ts)
    ensures AllWellFormed(cs) && ts == YieldAll(cs) + rest && AstAll(cs) == ParseAll(ts, e).trees
    ensures ParseAll(rest, e) == Reading([], ParseAll(ts, e).stop)
    ensures ParseAll(ts, e).stop.Finished? <==> rest == [] && e == AtEnd
    decreases |ts|
  {
    hide WellFormed, Yield, AstOf, ParseDatum, AllProper;
    if ts == [] || !ParseDatum(ts, e).answer.Tree? {
      cs, rest := [], ts;
    } else {
      var c := ParsedHasDerivation(ts, e);
      var p := ParseDatum(ts, e);
      ProperSuffix(Yield(c), p.rest);
      var more;
      more, rest := ParsedHaveDerivations(p.rest, e);
      cs := [c] + more;
      assert cs[1..] == more;
      assert YieldAll(cs) + rest == Yield(c) + (YieldAll(more) + rest);
    }
  }

  /** One text of a program: a line for each datum. */
  function Lines(cs: seq<Cst>): string { if cs == [] then "" else Text(cs[0]) + "\n" + Lines(cs[1..]) }

  lemma {:induction false} LinesLex(cs: seq<Cst>)
    requires AllWellFormed(cs)
    ensures LexAll(Lines(cs)) == Stream(YieldAll(cs), AtEnd)
  {
    hide LexAll, WellFormed, Text, Yield;
    if cs == [] {
      LexNothing();
    } else {
      var more := Lines(cs[1..]);
      LinesLex(cs[1..]);
      TextLexes(cs[0], "\n" + more);
      LexBlank('\n', more);
      assert Lines(cs) == Text(cs[0]) + ("\n" + more);
    }
  }

  /** A text is read to its end exactly when its tokens are those of some derivations, and then
      it is read like their lines, to the same trees. */
  lemma ProgramsAreDerivations(s: string) returns (cs: seq<Cst>)
    ensures AllWellFormed(cs) && ReadAll(s).trees == AstAll(cs)
    ensures ReadAll(s).stop.Finished? <==> LexAll(s) == Stream(YieldAll(cs), AtEnd)
    ensures ReadAll(Lines(cs)) == Reading(ReadAll(s).trees, Finished)
  {
    hide LexAll, WellFormed, Yield, AstOf, ParseDatum, AllProper;
    LexedAreProper(s);
    var rest;
    cs, rest := ParsedHaveDerivations(LexAll(s).tokens, LexAll(s).ending);
    LinesLex(cs);
    DerivationsParse(cs, [], AtEnd);
    assert YieldAll(cs) + [] == YieldAll(cs) && AstAll(cs) + [] == AstAll(cs);
  }

  // ---- the names of the language ----------------------------------------------------------------

  /** The lexer reads it as a symbol, with this text. */
  predicate IsName(w: string) { Proper(Token(SYMBOL, w)) }

  lemma NumberNames()
    ensures forall w :: w in NUMBER_PROCS ==> IsName(w)
  {
  }

  lemma ArithmeticNames()
    ensures forall w :: w in ARITHMETIC_PROCS ==> IsName(w)
  {
  }

  lemma ListNames()
    ensures forall w :: w in LIST_PROCS ==> IsName(w)
  {
  }

  lemma VectorNames()
    ensures forall w :: w in VECTOR_PROCS ==> IsName(w)
  {
  }

  lemma StringNames()
    ensures forall w :: w in STRING_PROCS ==> IsName(w)
  {
  }

  /** Every builtin and every keyword can be written: the lexer reads it as a symbol. */
  lemma NamesAreSymbols(w: string)
    requires w in BUILTIN_PROCS || w in KEYWORDS
    ensures IsName(w)
    ensures forall rest :: Ended(rest) ==> Next(w + rest) == Lexed(Got(Token(SYMBOL, w)), |w|)
  {
    hide Proper, Next, IsName, NUMBER_PROCS, ARITHMETIC_PROCS, LIST_PROCS, VECTOR_PROCS, STRING_PROCS;
    NumberNames();
    ArithmeticNames();
    ListNames();
    VectorNames();
    StringNames();
    assert IsName("display") by { DisplayName(); }
    KeywordNames();
    NameLexes(w);
  }

  lemma DisplayName()
    ensures IsName("display")
  {
  }

  lemma KeywordNames()
    ensures forall w :: w in KEYWORDS ==> IsName(w)
  {
  }

  lemma NameLexes(w: string)
    requires IsName(w)
    ensures forall rest :: Ended(rest) ==> Next(w + rest) == Lexed(Got(Token(SYMBOL, w)), |w|)
  {
    hide Proper, Next;
    forall rest | Ended(rest) ensures Next(w + rest) == Lexed(Got(Token(SYMBOL, w)), |w|) {
      TokenRoundTrip(Token(SYMBOL, w), rest);
    }
  }
}
