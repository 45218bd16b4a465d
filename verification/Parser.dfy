// The parser (src/parser.cc, src/include/astnodes.hh): a loop over an explicit stack of open
// nodes that calls itself for quoted and dotted parts, proved equal to recursive descent.
module Parsing {
  import opened Lexing
  import opened Syntax

  // ---- recursive descent ------------------------------------------------------------------------

  /** parseSExp returns a tree, throws, runs off its end without a value, or is kept waiting by
      a lexer that does not end. */
  datatype Answer = Tree(ast: Ast) | Raised | NoResult | Waiting

  datatype Parse = Parse(answer: Answer, rest: seq<Token>)

  function Failed(a: Answer): Parse { Parse(a, []) }

  function AtEnding(e: Ending): Answer {
    match e
    case AtEnd => NoResult
    case Failing => Raised
    case Forever => Waiting
  }

  predicate IsLeaf(k: Kind) { k == BOOL || k == STRING || k == NUMBER || k == SYMBOL }

  function Leaf(t: Token): Ast {
    if t.kind == BOOL then Ast.Boolean(t.text == "#t")
    else if t.kind == STRING then Ast.Str(t.text)
    else if t.kind == NUMBER then Ast.Number(t.text)
    else Ast.Symbol(t.text)
  }

  function Quotation(d: Ast): Ast { SExpr([Ast.Symbol("quote"), d], false) }

  function ParseDatum(ts: seq<Token>, e: Ending): (r: Parse)
    ensures r.answer.Tree? ==> |r.rest| < |ts|
    decreases |ts|, 0
  {
    if ts == [] then Failed(AtEnding(e))
    else if IsLeaf(ts[0].kind) then Parse(Tree(Leaf(ts[0])), ts[1..])
    else if ts[0].kind == QUOTE then
      var d := ParseDatum(ts[1..], e);
      if d.answer.Tree? then Parse(Tree(Quotation(d.answer.ast)), d.rest) else d
    else if ts[0].kind == LPAREN then ParseRest(ts[1..], e, [])
    else Failed(Raised)
  }

  /** Behind an open parenthesis, with the arguments so far. */
  function ParseRest(ts: seq<Token>, e: Ending, args: seq<Ast>): (r: Parse)
    ensures r.answer.Tree? ==> |r.rest| < |ts|
    decreases |ts|, 1
  {
    if ts == [] then Failed(AtEnding(e))
    else if ts[0].kind == RPAREN then Parse(Tree(SExpr(args, false)), ts[1..])
    else if ts[0].kind == PERIOD then
      var d := ParseDatum(ts[1..], e);
      if d.answer.Tree? then Match(SExpr(args + [d.answer.ast], true), d.rest, e) else d
    else
      var d := ParseDatum(ts, e);
      if d.answer.Tree? then ParseRest(d.rest, e, args + [d.answer.ast]) else d
  }

  /** match(RPAREN) */
  function Match(ast: Ast, ts: seq<Token>, e: Ending): (r: Parse)
    ensures r.answer.Tree? ==> |r.rest| < |ts|
  {
    if ts == [] then Failed(if e == Forever then Waiting else Raised)
    else if ts[0].kind == RPAREN then Parse(Tree(ast), ts[1..])
    else Failed(Raised)
  }

  // ---- the stack as what remains to be done -----------------------------------------------------

  /** The rest of the parse when the nodes in stk, top last, are open. */
  function Run(stk: seq<seq<Ast>>, ts: seq<Token>, e: Ending): Parse
    decreases |ts|, 0
  {
    if stk == [] then ParseDatum(ts, e)
    else
      var r := ParseRest(ts, e, stk[|stk| - 1]);
      if r.answer.Tree? then Reduce(stk[..|stk| - 1], r.answer.ast, r.rest, e) else r
  }

  /** REDUCE_STK: a finished node goes into the node below. */
  function Reduce(stk: seq<seq<Ast>>, ast: Ast, ts: seq<Token>, e: Ending): Parse
    decreases |ts|, 1
  {
    if stk == [] then Parse(Tree(ast), ts) else Run(Added(stk, ast), ts, e)
  }

  function Added(stk: seq<seq<Ast>>, ast: Ast): seq<seq<Ast>>
    requires stk != []
  {
    stk[..|stk| - 1] + [stk[|stk| - 1] + [ast]]
  }

  function Continue(stk: seq<seq<Ast>>, r: Parse, e: Ending): Parse {
    if r.answer.Tree? then Reduce(stk, r.answer.ast, r.rest, e) else r
  }

  /** Whatever the stack, the next thing to parse is a datum. */
  lemma NextDatum(stk: seq<seq<Ast>>, ts: seq<Token>, e: Ending)
    requires ts != [] && (stk == [] || (ts[0].kind != RPAREN && ts[0].kind != PERIOD))
    ensures Run(stk, ts, e) == Continue(stk, ParseDatum(ts, e), e)
  {
    hide ParseDatum;
    if stk != [] {
      var d := ParseDatum(ts, e);
      if d.answer.Tree? {
        var next := Added(stk, d.answer.ast);
        assert next[..|next| - 1] == stk[..|stk| - 1];
        assert next[|next| - 1] == stk[|stk| - 1] + [d.answer.ast];
        assert Reduce(stk, d.answer.ast, d.rest, e) == Run(next, d.rest, e);
      }
    }
  }

  lemma Opening(stk: seq<seq<Ast>>, ts: seq<Token>, e: Ending)
    requires ts != [] && ts[0].kind == LPAREN
    ensures Run(stk, ts, e) == Run(stk + [[]], ts[1..], e)
  {
    hide ParseRest, Run;
    NextDatum(stk, ts, e);
    RunTop(stk, [], ts[1..], e);
  }

  lemma RunTop(stk: seq<seq<Ast>>, top: seq<Ast>, ts: seq<Token>, e: Ending)
    ensures Run(stk + [top], ts, e) == Continue(stk, ParseRest(ts, e, top), e)
  {
    hide ParseRest;
    assert (stk + [top])[..|stk|] == stk;
  }

  // ---- the parser -------------------------------------------------------------------------------

  class Node {
    var args: seq<Ast>
    var dotted: bool
    ghost const depth: nat

    constructor (ghost depth: nat)
      ensures args == [] && !dotted && this.depth == depth
    {
      args, dotted, this.depth := [], false, depth;
    }

    method AddArgument(arg: Ast)
      modifies this
      ensures args == old(args) + [arg] && dotted == old(dotted)
    {
      args := args + [arg];
    }

    method TagDotted()
      modifies this
      ensures dotted && args == old(args)
    {
      dotted := true;
    }

    function ToAst(): Ast
      reads this
    {
      SExpr(args, dotted)
    }
  }

  /** The token k places ahead in a stream; the end of the input is seen again and again. */
  function Ahead(s: Stream, k: nat): Outcome {
    if k < |s.tokens| then Got(s.tokens[k])
    else match s.ending
      case AtEnd => Got(END_TOKEN)
      case Failing => Thrown
      case Forever => Endless
  }

  function Front(s: Stream): Outcome { Ahead(s, 0) }

  /** The tokens in front of the end of the input. */
  function Live(ts: seq<Token>): seq<Token> {
    if ts == [] || ts[0].kind == EOF then [] else [ts[0]] + Live(ts[1..])
  }

  /** Tokens looked at in front of a stream: behind one for the end of the input there are only
      such tokens. */
  predicate Held(ts: seq<Token>, s: Stream) {
    var n := |Live(ts)|;
    && n <= |ts| && (n < |ts| ==> s == Stream([], AtEnd))
    && forall i :: n <= i < |ts| ==> ts[i] == END_TOKEN
  }

  lemma {:induction false} LiveIs(ts: seq<Token>)
    ensures |Live(ts)| <= |ts| && Live(ts) == ts[..|Live(ts)|]
    ensures forall i :: 0 <= i < |Live(ts)| ==> Live(ts)[i].kind != EOF
    ensures |Live(ts)| < |ts| ==> ts[|Live(ts)|].kind == EOF
  {
    if ts != [] && ts[0].kind != EOF {
      LiveIs(ts[1..]);
    }
  }

  lemma {:induction false} LiveMore(ts: seq<Token>, t: Token)
    ensures Live(ts + [t]) == if Live(ts) == ts && t.kind != EOF then ts + [t] else Live(ts)
  {
    if ts != [] {
      assert (ts + [t])[1..] == ts[1..] + [t];
      LiveMore(ts[1..], t);
    }
  }

  function Interrupted(o: Outcome): Answer
    requires !o.Got?
  {
    if o.Thrown? then Raised else Waiting
  }

  lemma FrontIs(s: Stream, t: Token)
    requires Front(s) == Got(t) && t.kind != EOF
    ensures s.tokens != [] && s.tokens[0] == t
  {
  }

  lemma FrontEnds(s: Stream)
    requires forall i :: 0 <= i < |s.tokens| ==> s.tokens[i].kind != EOF
    requires !Front(s).Got? || Front(s).token.kind == EOF
    ensures s.tokens == []
    ensures AtEnding(s.ending) == if Front(s).Got? then NoResult else Interrupted(Front(s))
  {
  }

  class Parser {
    const input: Lexer
    var lookahead: seq<Token>

    ghost predicate Valid() reads this, input {
      input.Valid() && Held(lookahead, LexAll(input.Rest()))
    }

    /** What is still to be parsed. */
    ghost function Pending(): (s: Stream)
      requires Valid()
      reads this, input
      ensures forall i :: 0 <= i < |s.tokens| ==> s.tokens[i].kind != EOF
    {
      LiveIs(lookahead);
      Onto(Live(lookahead), LexAll(input.Rest()))
    }

    constructor (input: Lexer)
      requires input.Valid()
      ensures Valid() && this.input == input && Pending() == LexAll(input.Rest())
    {
      this.input, lookahead := input, [];
    }

    /** More tokens are looked at, until the lexer fails; r is its failure or the last of them. */
    method FillToken(count: nat) returns (r: Outcome)
      requires Valid() && count > 0
      modifies this, input
      ensures r == Ahead(old(Pending()), |old(lookahead)| + count - 1)
      ensures r.Got? ==> Valid() && |lookahead| == |old(lookahead)| + count && Pending() == old(Pending())
    {
      hide LexAll, Live, Next, Held, Ahead;
      var i := 0;
      r := Thrown;
      while i < count
        invariant 0 <= i <= count
        invariant Valid() && |lookahead| == |old(lookahead)| + i && Pending() == old(Pending())
        invariant i > 0 ==> r == Ahead(Pending(), |lookahead| - 1)
      {
        ghost var s, before := input.Rest(), lookahead;
        Looked(before, s, |before| + count - i - 1);
        r := input.NextToken();
        if !r.Got? {
          return;
        }
        lookahead := lookahead + [r.token];
        i := i + 1;
      }
    }

    method PeekToken(idx: nat) returns (r: Outcome)
      requires Valid() && idx > 0
      modifies this, input
      ensures r == Ahead(old(Pending()), idx - 1)
      ensures r.Got? ==> Valid() && Pending() == old(Pending())
      ensures r.Got? ==> |lookahead| >= idx && lookahead[idx - 1] == r.token
    {
      hide LexAll, Live;
      r := Thrown;
      if |lookahead| < idx {
        r := FillToken(idx - |lookahead|);
        if !r.Got? {
          return;
        }
      }
      LiveIs(lookahead);
      r := Got(lookahead[idx - 1]);
    }

    /** The next token is dropped; if it was not looked at yet, the lexer may fail. */
    method Consume() returns (r: Outcome)
      requires Valid()
      modifies this, input
      ensures r == Front(old(Pending()))
      ensures var s := old(Pending());
              r.Got? ==> Valid() && Pending() == if s.tokens == [] then s else Stream(s.tokens[1..], s.ending)
    {
      hide LexAll;
      r := PeekToken(1);
      if r.Got? {
        lookahead := lookahead[1..];
      }
    }

    /** The answer r, and the tokens left behind it, are those of `goal`. */
    ghost predicate Answers(r: Answer, goal: Parse, e: Ending)
      reads this, input
    {
      r == goal.answer && (r.Tree? ==> Valid() && Pending() == Stream(goal.rest, e))
    }

    /** parseSExp. The nodes on the stack are those still open. */
    method ParseSExp() returns (r: Answer)
      requires Valid()
      modifies this, input
      ensures Answers(r, ParseDatum(old(Pending().tokens), old(Pending().ending)), old(Pending().ending))
      decreases |Pending().tokens|, 2
    {
      hide ParseDatum, ParseRest, Run, Continue, Added, Ahead, Closed, Match, LexAll, Live, OpenNodes, Frames;
      ghost var ts, e := Pending().tokens, Pending().ending;
      ghost var goal := ParseDatum(ts, e);
      var stk: seq<Node> := [];
      ghost var frames := [];
      RunEmpty(ts, e);
      NoNodes();
      while true
        invariant Valid() && Pending() == Stream(ts, e) && |ts| <= |old(Pending().tokens)|
        invariant OpenNodes(stk) && Frames(stk) == frames && forall i :: 0 <= i < |stk| ==> fresh(stk[i])
        invariant Run(frames, ts, e) == goal
        decreases |ts|
      {
        var front := PeekToken(1);
        if !front.Got? || front.token.kind == EOF {
          FrontEnds(Stream(ts, e));
          RunOut(frames, e);
          return if front.Got? then NoResult else Interrupted(front);
        }
        FrontIs(Stream(ts, e), front.token);
        if front.token.kind == LPAREN {
          Opening(frames, ts, e);
          var _ := Consume();
          stk := Push(stk);
          frames := frames + [[]];
        } else {
          ghost var p;
          r, stk, p := ParseItem(front.token, stk, frames, ts, e);
          frames := Frames(stk);
          Finished(frames, p, e);
          if stk == [] || !r.Tree? {
            return;
          }
          AddToTop(stk, r.ast);
          frames := Added(frames, r.ast);
        }
        ts := Pending().tokens;
      }
    }

    /** A leaf, a quoted datum, or the end of the top node, which leaves the stack. */
    method ParseItem(token: Token, stk: seq<Node>, ghost frames: seq<seq<Ast>>, ghost ts: seq<Token>, ghost e: Ending)
      returns (r: Answer, below: seq<Node>, ghost p: Parse)
      requires Valid() && Front(Pending()) == Got(token) && token.kind != EOF && token.kind != LPAREN
      requires Pending() == Stream(ts, e) && OpenNodes(stk) && Frames(stk) == frames
      modifies this, input, if stk == [] then {} else {stk[|stk| - 1]}
      ensures (below == stk || (stk != [] && below == stk[..|stk| - 1])) && OpenNodes(below)
      ensures Answers(r, p, e) && (r.Tree? ==> |p.rest| < |ts|)
      ensures Run(frames, ts, e) == Continue(Frames(below), p, e)
      decreases |Pending().tokens|, 1
    {
      hide ParseDatum, ParseRest, Run, Continue, Match, LexAll, Live;
      below := stk;
      if IsLeaf(token.kind) || token.kind == QUOTE {
        NextDatum(frames, ts, e);
        p := ParseDatum(ts, e);
        if token.kind == QUOTE {
          r := ParseQuoted();
        } else {
          LeafNext(ts, e);
          var _ := Consume();
          r := Tree(Leaf(token));
        }
        assert Frames(below) == frames;
      } else if stk == [] {
        StrayNext(ts, e);
        NextDatum(frames, ts, e);
        return Raised, [], Failed(Raised);
      } else {
        var top := stk[|stk| - 1];
        Closing(frames, ts, e);
        p := Closed(frames, ts, e);
        if token.kind == PERIOD {
          r := ParseDotted(top);
        } else {
          var _ := Consume();
          r := Tree(top.ToAst());
        }
        below := stk[..|stk| - 1];
        assert Frames(below) == frames[..|stk| - 1];
      }
    }

    /** 'x becomes (quote x). */
    method ParseQuoted() returns (r: Answer)
      requires Valid() && Front(Pending()).Got? && Front(Pending()).token.kind == QUOTE
      modifies this, input
      ensures Answers(r, ParseDatum(old(Pending().tokens), old(Pending().ending)), old(Pending().ending))
      decreases |Pending().tokens|, 0
    {
      hide ParseDatum, LexAll, Live;
      QuoteNext(Pending().tokens, Pending().ending);
      ghost var d := ParseDatum(Pending().tokens[1..], Pending().ending);
      var node := new Node(0);
      var _ := Consume();
      node.AddArgument(Ast.Symbol("quote"));
      r := ParseSExp();
      if r.Tree? {
        node.AddArgument(r.ast);
        assert node.ToAst() == Quotation(r.ast);
        r := Tree(node.ToAst());
      }
    }

    /** What stands behind a point, and the parenthesis that closes the node. */
    method ParseDotted(node: Node) returns (r: Answer)
      requires Valid() && Front(Pending()).Got? && Front(Pending()).token.kind == PERIOD
      modifies this, input, node
      ensures var e := old(Pending().ending);
              var d := ParseDatum(old(Pending().tokens)[1..], e);
              Answers(r, if d.answer.Tree? then Match(SExpr(old(node.args) + [d.answer.ast], true), d.rest, e)
                      else d, e)
      decreases |Pending().tokens|, 0
    {
      hide ParseDatum, LexAll, Live, Match;
      var _ := Consume();
      node.TagDotted();
      r := ParseSExp();
      if !r.Tree? {
        return;
      }
      node.AddArgument(r.ast);
      r := MatchClosing(node);
    }

    /** match, for the parenthesis that closes a node. */
    method MatchClosing(node: Node) returns (r: Answer)
      requires Valid()
      modifies this, input
      ensures var s := old(Pending());
              Answers(r, Match(old(node.ToAst()), s.tokens, s.ending), s.ending)
    {
      hide LexAll, Live;
      var close := PeekToken(1);
      if !close.Got? {
        return Interrupted(close);
      }
      if close.token.kind != RPAREN {
        return Raised;
      }
      var _ := Consume();
      return Tree(node.ToAst());
    }
  }

  lemma NoNodes()
    ensures OpenNodes([]) && Frames([]) == []
  {
  }

  method Push(stk: seq<Node>) returns (next: seq<Node>)
    requires OpenNodes(stk)
    ensures |next| == |stk| + 1 && next[..|stk|] == stk && fresh(next[|stk|])
    ensures OpenNodes(next) && Frames(next) == Frames(stk) + [[]]
  {
    var node := new Node(|stk|);
    next := stk + [node];
  }

  method AddToTop(stk: seq<Node>, ast: Ast)
    requires stk != [] && OpenNodes(stk)
    modifies stk[|stk| - 1]
    ensures OpenNodes(stk) && Frames(stk) == Added(old(Frames(stk)), ast)
  {
    stk[|stk| - 1].AddArgument(ast);
  }

  /** Nodes still open; the depths tell them apart. */
  ghost predicate OpenNodes(stk: seq<Node>)
    reads stk
  {
    forall i :: 0 <= i < |stk| ==> !stk[i].dotted && stk[i].depth == i
  }

  ghost function Frames(stk: seq<Node>): (f: seq<seq<Ast>>)
    reads stk
    ensures |f| == |stk|
  {
    seq(|stk|, i requires 0 <= i < |stk| reads stk => stk[i].args)
  }

  lemma RunEmpty(ts: seq<Token>, e: Ending)
    ensures Run([], ts, e) == ParseDatum(ts, e)
  {
  }

  lemma RunOut(stk: seq<seq<Ast>>, e: Ending)
    ensures Run(stk, [], e) == Failed(AtEnding(e))
  {
  }

  lemma LeafNext(ts: seq<Token>, e: Ending)
    requires ts != [] && IsLeaf(ts[0].kind)
    ensures ParseDatum(ts, e) == Parse(Tree(Leaf(ts[0])), ts[1..])
  {
  }

  lemma QuoteNext(ts: seq<Token>, e: Ending)
    requires ts != [] && ts[0].kind == QUOTE
    ensures var d := ParseDatum(ts[1..], e);
            ParseDatum(ts, e) == if d.answer.Tree? then Parse(Tree(Quotation(d.answer.ast)), d.rest) else d
  {
  }

  lemma StrayNext(ts: seq<Token>, e: Ending)
    requires ts != [] && (ts[0].kind == RPAREN || ts[0].kind == PERIOD)
    ensures ParseDatum(ts, e) == Failed(Raised)
  {
  }

  /** The node a point or a closing parenthesis finishes. */
  function Closed(stk: seq<seq<Ast>>, ts: seq<Token>, e: Ending): Parse
    requires stk != [] && ts != []
  {
    if ts[0].kind == RPAREN then Parse(Tree(SExpr(stk[|stk| - 1], false)), ts[1..])
    else
      var d := ParseDatum(ts[1..], e);
      if d.answer.Tree? then Match(SExpr(stk[|stk| - 1] + [d.answer.ast], true), d.rest, e) else d
  }

  lemma Closing(stk: seq<seq<Ast>>, ts: seq<Token>, e: Ending)
    requires stk != [] && ts != [] && (ts[0].kind == RPAREN || ts[0].kind == PERIOD)
    ensures Run(stk, ts, e) == Continue(stk[..|stk| - 1], Closed(stk, ts, e), e)
  {
    hide ParseDatum;
  }

  lemma Finished(stk: seq<seq<Ast>>, r: Parse, e: Ending)
    ensures Continue(stk, r, e) ==
            if stk == [] || !r.answer.Tree? then r else Run(Added(stk, r.answer.ast), r.rest, e)
  {
    hide Run, Added;
  }

  /** The end of the input stays the end. */
  lemma {:induction false} EndStays(s: string)
    requires Next(s).outcome.Got? && Next(s).outcome.token.kind == EOF
    ensures LexAll(s[Next(s).length..]) == Stream([], AtEnd)
    decreases |s|
  {
    if Peek(s, 0) == END {
      assert s[0..] == s;
    } else if IsBlank(s[0]) {
      EndStays(s[1..]);
      assert s[1..][Next(s[1..]).length..] == s[Next(s).length..];
    } else {
      var k := CommentLength(s) + 1;
      EndStays(s[k..]);
      assert s[k..][Next(s[k..]).length..] == s[Next(s).length..];
    }
  }

  /** One more token is looked at. */
  lemma Looked(ts: seq<Token>, s: string, k: nat)
    requires Held(ts, LexAll(s)) && k >= |ts|
    ensures var l, all := Next(s), Onto(Live(ts), LexAll(s));
            if l.outcome.Got?
            then l.length <= |s| && Ahead(all, |ts|) == l.outcome
                 && Held(ts + [l.outcome.token], LexAll(s[l.length..]))
                 && Onto(Live(ts + [l.outcome.token]), LexAll(s[l.length..])) == all
            else Ahead(all, k) == l.outcome
  {
    hide LexAll, Live, Next;
    var l := Next(s);
    LiveIs(ts);
    LexFront(s);
    if l.outcome.Got? {
      LiveMore(ts, l.outcome.token);
    }
  }

  /** What the lexer gives next is in front of all it gives. */
  lemma LexFront(s: string)
    ensures var l := Next(s);
            && Front(LexAll(s)) == l.outcome
            && (l.outcome.Got? ==> l.length <= |s|)
            && (l.outcome.Got? && l.outcome.token.kind != EOF ==>
                LexAll(s) == Onto([l.outcome.token], LexAll(s[l.length..])))
            && (l.outcome.Got? && l.outcome.token.kind == EOF ==>
                l.outcome.token == END_TOKEN
                && LexAll(s) == Stream([], AtEnd) && LexAll(s[l.length..]) == Stream([], AtEnd))
  {
    hide Next;
    if Next(s).outcome.Got? && Next(s).outcome.token.kind == EOF {
      EndStays(s);
    }
  }
}
