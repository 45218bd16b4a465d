// finePrint (src/include/astnodes.hh:48-50,74-77,104-106,133-135,207-228): the text of a tree,
// and that text read back.
module Printer {
  import opened Digits
  import opened Lexing
  import opened LexRoundTrip
  import opened Parsing
  import opened Syntax
  import opened Grammar

  // ---- the tree's own derivation ----------------------------------------------------------------

  function CstFor(a: Ast): Cst
    decreases a
  {
    match a
    case Number(text) => Single(Token(NUMBER, text))
    case Boolean(value) => Single(Token(BOOL, if value then "#t" else "#f"))
    case Symbol(name) => Single(Token(SYMBOL, name))
    case Str(chars) => Single(Token(STRING, chars))
    case SExpr(args, dotted) =>
      var all := CstsFor(args);
      if dotted && args != [] then Dotted(all[..|all| - 1], all[|all| - 1]) else List(all)
  }

  function CstsFor(args: seq<Ast>): (cs: seq<Cst>)
    ensures |cs| == |args|
    decreases args
  {
    if args == [] then [] else [CstFor(args[0])] + CstsFor(args[1..])
  }

  /** The text finePrint is meant to write. */
  function Fine(a: Ast): string { Text(CstFor(a)) }

  /** No list has exactly one element: there finePrint reads behind the end of its arguments. */
  predicate NoSingletons(a: Ast)
    decreases a
  {
    a.SExpr? ==> |a.args| != 1 && AllNoSingletons(a.args)
  }

  predicate AllNoSingletons(args: seq<Ast>)
    decreases args
  {
    args == [] || (NoSingletons(args[0]) && AllNoSingletons(args[1..]))
  }

  lemma {:induction false} CstsForAt(args: seq<Ast>, i: nat)
    requires i < |args|
    ensures CstsFor(args)[i] == CstFor(args[i]) && Text(CstsFor(args)[i]) == Fine(args[i])
    ensures AllNoSingletons(args) ==> NoSingletons(args[i])
  {
    hide Text;
    if i > 0 { CstsForAt(args[1..], i - 1); }
  }

  lemma {:induction false} NoSingletonsEach(args: seq<Ast>)
    ensures AllNoSingletons(args) <==> forall i :: 0 <= i < |args| ==> NoSingletons(args[i])
  {
    hide NoSingletons;
    if args != [] {
      NoSingletonsEach(args[1..]);
      assert (forall i :: 0 <= i < |args| ==> NoSingletons(args[i])) ==>
             forall i :: 0 <= i < |args[1..]| ==> NoSingletons(args[1..][i]);
      forall i | 1 <= i < |args| && AllNoSingletons(args) ensures NoSingletons(args[i]) {
        assert args[i] == args[1..][i - 1];
      }
    }
  }

  lemma {:induction false} SpacedAppend(cs: seq<Cst>, c: Cst)
    ensures Spaced(cs + [c]) == Spaced(cs) + " " + Text(c)
    ensures cs != [] ==> SpacedOut(cs + [c]) == SpacedOut(cs) + " " + Text(c)
  {
    hide Text;
    SpacedCons(cs + [c]);
    if cs == [] {
      assert cs + [c] == [c] && [c][1..] == [] && Spaced([]) == "";
    } else {
      SpacedCons(cs);
      SpacedAppend(cs[1..], c);
      assert (cs + [c])[1..] == cs[1..] + [c];
      hide Spaced, SpacedOut;
      Reassociate(Text(cs[0]), Spaced(cs[1..]), Text(c));
    }
  }

  lemma SpacedCons(cs: seq<Cst>)
    requires cs != []
    ensures Spaced(cs) == " " + Text(cs[0]) + Spaced(cs[1..]) && SpacedOut(cs) == Text(cs[0]) + Spaced(cs[1..])
  {
    hide Text;
  }

  lemma Reassociate(a: string, b: string, c: string)
    ensures " " + a + (b + " " + c) == " " + a + b + " " + c
    ensures a + (b + " " + c) == a + b + " " + c
  {
  }

  // ---- the printer ------------------------------------------------------------------------------

  class StringStream {
    var text: string

    constructor ()
      ensures text == ""
    {
      text := "";
    }

    method Put(s: string)
      modifies this
      ensures text == old(text) + s
    {
      text := text + s;
    }
  }

  /** finePrint; false where it reads behind the end. */
  method FinePrint(a: Ast, ss: StringStream) returns (ok: bool)
    modifies ss
    ensures ok <==> NoSingletons(a)
    ensures ok ==> ss.text == old(ss.text) + Fine(a)
    decreases a
  {
    if a.Number? {
      ss.Put(a.text);
      ok := true;
    } else if a.Boolean? {
      ss.Put(if a.value then "#t" else "#f");
      ok := true;
    } else if a.Symbol? {
      ss.Put(a.name);
      ok := true;
    } else if a.Str? {
      ss.Put("\"");
      ss.Put(a.chars);
      ss.Put("\"");
      ok := true;
    } else {
      ok := FinePrintList(a, ss);
    }
  }

  /** The first i elements of a list, as printed. */
  function Front(cs: seq<Cst>, i: nat): string
    requires i <= |cs|
  {
    SpacedOut(cs[..i])
  }

  lemma FrontStep(cs: seq<Cst>, i: nat)
    requires i < |cs|
    ensures Front(cs, i + 1) == if i == 0 then Text(cs[0]) else Front(cs, i) + " " + Text(cs[i])
  {
    hide Text;
    assert cs[..i + 1] == cs[..i] + [cs[i]];
    if i == 0 {
      var first := cs[..1];
      assert first[0] == cs[0] && first[1..] == [] && Spaced([]) == "";
      assert SpacedOut(first) == Text(cs[0]) + "";
    } else {
      SpacedAppend(cs[..i], cs[i]);
    }
  }

  lemma ListForm(a: Ast)
    requires a.SExpr?
    ensures NoSingletons(a) <==> |a.args| != 1 && AllNoSingletons(a.args)
    ensures var all := CstsFor(a.args);
            var n := |all|;
            Fine(a) ==
            if a.dotted && n > 0 then "(" + Front(all, n - 1) + " . " + Text(all[n - 1]) + ")"
            else "(" + Front(all, n) + ")"
  {
    var all := CstsFor(a.args);
    assert all[..|all|] == all;
  }

  /** A list of which i elements are printed, behind what was there. */
  function Printing(before: string, cs: seq<Cst>, i: nat): string
    requires i <= |cs|
  {
    before + "(" + Front(cs, i)
  }

  lemma PrintingStep(before: string, cs: seq<Cst>, i: nat)
    requires i < |cs|
    ensures i == 0 ==> Printing(before, cs, 1) == before + "(" + Text(cs[0])
    ensures i > 0 ==> Printing(before, cs, i + 1) == Printing(before, cs, i) + " " + Text(cs[i])
  {
    hide Front, Text;
    FrontStep(cs, i);
    if i > 0 { Associative(before + "(", Front(cs, i), " ", Text(cs[i])); }
  }

  lemma PrintingEnds(before: string, a: Ast)
    requires a.SExpr? && a.args != []
    ensures var all := CstsFor(a.args);
            var n := |all|;
            before + Fine(a) == if a.dotted then Printing(before, all, n - 1) + " ." + " " + Text(all[n - 1]) + ")"
                                else Printing(before, all, n) + ")"
  {
    hide Front, Text, Fine;
    ListForm(a);
    var all := CstsFor(a.args);
    PointJoined(before, Front(all, |all| - 1), Text(all[|all| - 1]));
    Enclosed(before, Front(all, |all|));
  }

  lemma Enclosed(s: string, t: string)
    ensures s + "(" + t + ")" == s + ("(" + t + ")")
  {
  }

  lemma PointJoined(s: string, t: string, u: string)
    ensures s + "(" + t + " ." + " " + u + ")" == s + ("(" + t + " . " + u + ")")
  {
  }

  /** None of the first i elements has a list of one element in it. */
  predicate FirstPlain(args: seq<Ast>, i: nat)
    requires i <= |args|
  {
    forall k :: 0 <= k < i ==> NoSingletons(args[k])
  }

  lemma FirstPlainStep(args: seq<Ast>, i: nat)
    requires i < |args|
    ensures FirstPlain(args, i + 1) <==> FirstPlain(args, i) && NoSingletons(args[i])
    ensures !NoSingletons(args[i]) ==> !FirstPlain(args, |args|)
  {
    hide NoSingletons;
  }

  lemma NothingBefore(args: seq<Ast>)
    ensures FirstPlain(args, 0)
  {
  }

  lemma ListSingletons(a: Ast)
    requires a.SExpr?
    ensures NoSingletons(a) <==> |a.args| != 1 && FirstPlain(a.args, |a.args|)
  {
    hide AllNoSingletons;
    NoSingletonsEach(a.args);
  }

  method FinePrintList(a: Ast, ss: StringStream) returns (ok: bool)
    requires a.SExpr?
    modifies ss
    ensures ok <==> NoSingletons(a)
    ensures ok ==> ss.text == old(ss.text) + Fine(a)
    decreases a, 0
  {
    hide Text, CstFor, Fine, Printing, NoSingletons, FirstPlain;
    var args, size := a.args, |a.args|;
    ghost var all := CstsFor(args);
    ghost var before := ss.text;
    ListSingletons(a);
    assert FirstPlain(args, 0) by { NothingBefore(args); }
    ss.Put("(");
    if size > 0 {
      FirstPlainStep(args, 0);
      ok := FinePrint(args[0], ss);
      if !ok {
        return;
      }
      CstsForAt(args, 0);
      PrintingStep(before, all, 0);
      var i := 1;
      while i < size - 1
        invariant 1 <= i <= size && (size > 1 ==> i <= size - 1)
        invariant FirstPlain(args, i)
        invariant ss.text == Printing(before, all, i)
      {
        FirstPlainStep(args, i);
        ss.Put(" ");
        ok := FinePrint(args[i], ss);
        if !ok {
          return;
        }
        CstsForAt(args, i);
        PrintingStep(before, all, i);
        i := i + 1;
      }
      if a.dotted {
        ss.Put(" .");
      }
      ss.Put(" ");
      if i == size {
        return false;
      }
      FirstPlainStep(args, i);
      ok := FinePrint(args[i], ss);
      if !ok {
        return;
      }
      CstsForAt(args, i);
      PrintingStep(before, all, i);
      PrintingEnds(before, a);
    }
    ss.Put(")");
    ok := true;
    if size == 0 { EmptyFine(a); }
  }

  lemma Associative(s: string, t: string, u: string, v: string)
    ensures s + t + u + v == s + (t + u + v)
  {
  }

  lemma EmptyFine(a: Ast)
    requires a.SExpr? && a.args == []
    ensures forall s: string :: s + "(" + ")" == s + Fine(a)
    ensures NoSingletons(a)
  {
    assert CstFor(a) == List([]) && SpacedOut([]) == "";
    assert Fine(a) == "(" + "" + ")" == "()";
    forall s: string ensures s + "(" + ")" == s + Fine(a) { assert s + "(" + ")" == s + "()"; }
  }

  // ---- reading it back --------------------------------------------------------------------------

  /** Trees whose leaves are tokens, and whose dotted nodes have something behind the point. */
  predicate Lexable(a: Ast)
    decreases a
  {
    match a
    case Number(text) => Proper(Token(NUMBER, text))
    case Boolean(value) => true
    case Symbol(name) => Proper(Token(SYMBOL, name))
    case Str(chars) => Proper(Token(STRING, chars))
    case SExpr(args, dotted) => (dotted ==> args != []) && AllLexable(args)
  }

  predicate AllLexable(args: seq<Ast>)
    decreases args
  {
    args == [] || (Lexable(args[0]) && AllLexable(args[1..]))
  }

  lemma {:induction false} CstForIsDerivation(a: Ast)
    requires Lexable(a)
    ensures WellFormed(CstFor(a)) && AstOf(CstFor(a)) == a
    decreases a
  {
    if a.SExpr? {
      hide Proper, WellFormed, AstOf, AllWellFormed, AstAll, AllLexable;
      CstsForAreDerivations(a.args);
      if a.dotted {
        DottedIsDerivation(a.args);
      } else {
        ListIsDerivation(CstsFor(a.args));
      }
    } else {
      hide Proper;
      BooleanProper();
    }
  }

  lemma ListIsDerivation(cs: seq<Cst>)
    ensures WellFormed(List(cs)) == AllWellFormed(cs) && AstOf(List(cs)) == SExpr(AstAll(cs), false)
  {
  }

  lemma DottedIsDerivation(args: seq<Ast>)
    requires args != [] && AllWellFormed(CstsFor(args)) && AstAll(CstsFor(args)) == args
    ensures var all, n := CstsFor(args), |args| - 1;
            var c := Dotted(all[..n], all[n]);
            WellFormed(c) && AstOf(c) == SExpr(args, true)
  {
    hide *;
    var all, n := CstsFor(args), |args| - 1;
    AstAllPrefix(all, n);
    DottedParts(all[..n], all[n]);
    InitAndLast(args);
  }

  lemma DottedParts(cs: seq<Cst>, last: Cst)
    ensures WellFormed(Dotted(cs, last)) == (AllWellFormed(cs) && WellFormed(last))
    ensures AstOf(Dotted(cs, last)) == SExpr(AstAll(cs) + [AstOf(last)], true)
  {
    hide AllWellFormed, AstAll;
  }

  lemma BooleanProper()
    ensures Proper(Token(BOOL, "#t")) && Proper(Token(BOOL, "#f"))
  {
  }

  lemma {:induction false} CstsForAreDerivations(args: seq<Ast>)
    requires AllLexable(args)
    ensures AllWellFormed(CstsFor(args)) && AstAll(CstsFor(args)) == args
    ensures args != [] ==> Lexable(args[|args| - 1])
    decreases args
  {
    hide Lexable, WellFormed, AstOf, CstFor;
    if args != [] {
      CstForIsDerivation(args[0]);
      CstsForAreDerivations(args[1..]);
      var cs := CstsFor(args);
      assert cs[1..] == CstsFor(args[1..]);
      assert AstAll(cs) == [args[0]] + args[1..];
    }
  }

  lemma {:induction false} AstAllPrefix(cs: seq<Cst>, n: nat)
    requires n <= |cs|
    ensures |AstAll(cs)| == |cs| && AstAll(cs[..n]) == AstAll(cs)[..n]
    ensures AllWellFormed(cs) ==> AllWellFormed(cs[..n])
    ensures n < |cs| ==> AstAll(cs)[n] == AstOf(cs[n]) && (AllWellFormed(cs) ==> WellFormed(cs[n]))
  {
    hide AstOf, WellFormed;
    if cs != [] {
      AstAllPrefix(cs[1..], if n == 0 then 0 else n - 1);
      if n > 0 { assert cs[..n][1..] == cs[1..][..n - 1] && cs[..n][0] == cs[0]; }
    }
  }

  /** A printed tree is read back as it was. */
  lemma FinePrintReadsBack(a: Ast, rest: string)
    requires Lexable(a) && Ended(rest)
    ensures Read(Fine(a) + rest) == Tree(a)
  {
    hide Read, Text, Lexable, WellFormed;
    CstForIsDerivation(a);
    TextReads(CstFor(a), rest);
  }

  /** Whatever was read can be printed and read again. */
  lemma ReadPrintRead(s: string, a: Ast, rest: string)
    requires Read(s) == Tree(a) && Ended(rest)
    ensures Lexable(a) && Read(Fine(a) + rest) == Tree(a)
  {
    hide Lexable, WellFormed, AstOf, Yield, Fine, LexAll, ParseDatum;
    LexedAreProper(s);
    var c := ParsedHasDerivation(LexAll(s).tokens, LexAll(s).ending);
    TreesAreLexable(c);
    FinePrintReadsBack(a, rest);
  }

  lemma {:induction false} TreesAreLexable(c: Cst)
    requires WellFormed(c)
    ensures Lexable(AstOf(c))
    decreases c
  {
    hide Proper;
    if c.Single? {
      LeafLexable(c.token);
    } else if c.Quoted? {
      TreesAreLexable(c.datum);
      QuotationLexable(AstOf(c.datum));
    } else {
      AllTreesAreLexable(c.items);
      if c.Dotted? {
        TreesAreLexable(c.last);
        LexableAppend(AstAll(c.items), AstOf(c.last));
      }
    }
  }

  lemma LeafLexable(t: Token)
    requires IsLeaf(t.kind) && Proper(t)
    ensures Lexable(Leaf(t))
  {
    assert t == Token(t.kind, t.text);
  }

  lemma QuotationLexable(d: Ast)
    requires Lexable(d)
    ensures Lexable(Quotation(d))
  {
    var args := [Ast.Symbol("quote"), d];
    assert Lexable(args[0]) by { assert Identifier("quote"); }
    assert args[1..] == [d] && [d][1..] == [];
    assert AllLexable([d]);
  }

  lemma {:induction false} AllTreesAreLexable(cs: seq<Cst>)
    requires AllWellFormed(cs)
    ensures AllLexable(AstAll(cs))
    decreases cs
  {
    hide Lexable, WellFormed, AstOf;
    if cs != [] {
      TreesAreLexable(cs[0]);
      AllTreesAreLexable(cs[1..]);
      assert AstAll(cs)[1..] == AstAll(cs[1..]);
    }
  }

  lemma {:induction false} LexableAppend(args: seq<Ast>, a: Ast)
    requires AllLexable(args) && Lexable(a)
    ensures AllLexable(args + [a])
  {
    hide Lexable;
    if args == [] {
      assert [a][1..] == [] && args + [a] == [a];
    } else {
      LexableAppend(args[1..], a);
      assert (args + [a])[1..] == args[1..] + [a];
    }
  }
}
