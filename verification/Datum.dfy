// Data: what quote makes of a tree (src/codegen.cc:48-77,216-253), what display prints
// (src/runtime/io.c:39-116), and that printing and reading undo each other.
module Data {
  import opened Wrappers
  import opened Rational
  import opened Complex
  import opened Digits
  import opened NumberText
  import opened NumberRoundTrip
  import opened Radixes
  import opened NotNumbers
  import opened Lexing
  import opened LexRoundTrip
  import opened Syntax
  import opened Grammar
  import Printer

  datatype Datum =
    | NumberValue(n: Parts)
    | BooleanValue(b: bool)
    | SymbolValue(name: string)
    | StringValue(chars: string)
    | Pair(car: Datum, cdr: Datum)
    | Nil

  // ---- quote ------------------------------------------------------------------------------------

  /** What a C string holds of a text. */
  function CString(s: string): (r: string)
    ensures '\0' !in r && |r| <= |s| && r == s[..|r|] && (|r| < |s| ==> s[|r|] == '\0')
    ensures '\0' !in s ==> r == s
    ensures '"' !in s ==> '"' !in r
  {
    s[..Span(s, c => c != '\0')]
  }

  /** A number literal: nine digits at most are made by the compiler, everything else by
      string->number, which answers #f to what is no number. */
  function NumberDatum(text: string): Option<Datum> {
    if |text| <= 9 && AllDecimal(text) then
      DecimalDigits(text);
      Some(NumberValue(Parts(Small(ValueOf(text, 10)), Small(0))))
    else
      match Ston(CString(text), 10)
      case Parsed(ExactPart(x), ExactPart(y)) => Some(NumberValue(Parts(x, y)))
      case NotANumber => Some(BooleanValue(false))
      case _ => None
  }

  function Chain(ds: seq<Datum>, tail: Datum): Datum {
    if ds == [] then tail else Pair(ds[0], Chain(ds[1..], tail))
  }

  /** SExprASTNode::codeGen and codeGenNoBind; None where a number is out of the model, and
      where a dotted node has nothing in front of the point, so that the code reads behind
      its arguments. */
  function DatumOf(a: Ast): Option<Datum>
    decreases a
  {
    match a
    case Number(text) => NumberDatum(text)
    case Boolean(b) => Some(BooleanValue(b))
    case Symbol(name) => Some(SymbolValue(name))
    case Str(chars) => Some(StringValue(CString(chars)))
    case SExpr(args, dotted) =>
      if args == [] then Some(Nil)
      else if dotted && |args| == 1 then None
      else
        match DataOf(args)
        case None => None
        case Some(ds) => Some(if dotted then Chain(ds[..|ds| - 1], ds[|ds| - 1]) else Chain(ds, Nil))
  }

  function DataOf(args: seq<Ast>): (r: Option<seq<Datum>>)
    ensures r.Some? ==> |r.value| == |args|
    decreases args
  {
    if args == [] then Some([])
    else
      match (DatumOf(args[0]), DataOf(args[1..]))
      case (Some(d), Some(ds)) => Some([d] + ds)
      case _ => None
  }

  /** Every number literal in a tree is one the model has a datum for. */
  predicate NumbersKnown(a: Ast) {
    && (a.Number? ==> NumberDatum(a.text).Some?)
    && (a.SExpr? ==> forall i :: 0 <= i < |a.args| ==> NumbersKnown(a.args[i]))
  }

  /** A tree has a datum exactly when the compiler can quote it and its numbers are known. */
  lemma {:induction false} DatumIsQuotable(a: Ast)
    ensures DatumOf(a).Some? <==> Quotable(a) && NumbersKnown(a)
    decreases a
  {
    hide NumberDatum, DataOf, Chain;
    if a.SExpr? {
      DataAreQuotable(a.args);
    }
  }

  lemma {:induction false} DataAreQuotable(args: seq<Ast>)
    ensures DataOf(args).Some? <==> forall i :: 0 <= i < |args| ==> Quotable(args[i]) && NumbersKnown(args[i])
    decreases args
  {
    hide DatumOf, Quotable, NumbersKnown;
    if args != [] {
      DatumIsQuotable(args[0]);
      DataAreQuotable(args[1..]);
      assert forall i :: 1 <= i < |args| ==> args[i] == args[1..][i - 1];
    }
  }

  // ---- display ----------------------------------------------------------------------------------

  /** %d for a number that is small and real, _ntos for every other. */
  function NumberShown(n: Parts): string
    requires CanonicalParts(n)
  {
    if n.re.Small? && n.im == Small(0) then IntText(n.re.v) else Ntos(n)
  }

  predicate Displayable(d: Datum) {
    match d
    case NumberValue(n) => CanonicalParts(n)
    case Pair(car, cdr) => Displayable(car) && Displayable(cdr)
    case _ => true
  }

  /** _display; fp says that the parenthesis is already there. */
  function Display(d: Datum, fp: bool): string
    requires Displayable(d)
  {
    match d
    case NumberValue(n) => NumberShown(n)
    case BooleanValue(b) => if b then "#t" else "#f"
    case SymbolValue(name) => name
    case StringValue(chars) => "\"" + chars + "\""
    case Pair(car, cdr) =>
      (if fp then "" else "(") + Display(car, false) +
      (if cdr.Nil? then "" else (if cdr.Pair? then " " else " . ") + Display(cdr, true)) +
      (if fp then "" else ")")
    case Nil => "()"
  }

  /** A chain prints as one list, with a point in front of what ends it if that is not (). */
  lemma DisplayExamples()
    ensures var a, b := SymbolValue("a"), BooleanValue(true);
            && Display(Pair(a, Pair(b, Nil)), false) == "(a #t)"
            && Display(Pair(a, b), false) == "(a . #t)"
            && Display(Pair(Pair(a, Nil), b), false) == "((a) . #t)"
  {
    hide NumberShown;
    var a, b := SymbolValue("a"), BooleanValue(true);
    assert Display(a, false) == "a" && Display(b, true) == "#t";
    assert Display(Pair(b, Nil), true) == "#t" && Display(Pair(a, Nil), false) == "(a)";
  }

  lemma PairForm(s: string, d: Datum, fp: bool)
    requires d.Pair? && Displayable(d)
    ensures var front := if fp then s else s + "(";
            var elements := if d.cdr.Nil? then front + Display(d.car, false)
                            else front + Display(d.car, false) + (if d.cdr.Pair? then " " else " . ") +
                                 Display(d.cdr, true);
            s + Display(d, fp) == if fp then elements else elements + ")"
  {
    Joins(s, "(", Display(d.car, false), if d.cdr.Pair? then " " else " . ",
          if d.cdr.Nil? then "" else Display(d.cdr, true), ")");
  }

  lemma Joins(s: string, a: string, b: string, c: string, d: string, e: string)
    ensures s + a + b + c + d + e == s + (a + b + (c + d) + e)
    ensures s + a + b + e == s + (a + b + "" + e)
    ensures s + b + c + d == s + ("" + b + (c + d) + "")
    ensures s + b == s + ("" + b + "" + "")
  {
  }

  // ---- what display prints is a derivation ------------------------------------------------------

  function CstOf(d: Datum): Cst
    requires Displayable(d)
    decreases d, 0
  {
    match d
    case NumberValue(n) => Single(Token(NUMBER, NumberShown(n)))
    case BooleanValue(b) => Single(Token(BOOL, if b then "#t" else "#f"))
    case SymbolValue(name) => Single(Token(SYMBOL, name))
    case StringValue(chars) => Single(Token(STRING, chars))
    case Pair(car, cdr) => Listed([CstOf(car)] + Items(cdr), Last(cdr))
    case Nil => List([])
  }

  /** The elements of the chain, and what ends the chain if that is not nil. */
  function Items(d: Datum): seq<Cst>
    requires Displayable(d)
    decreases d, 1
  {
    if d.Pair? then [CstOf(d.car)] + Items(d.cdr) else []
  }

  function Last(d: Datum): (r: seq<Cst>)
    requires Displayable(d)
    ensures |r| <= 1
    decreases d, 1
  {
    if d.Pair? then Last(d.cdr) else if d.Nil? then [] else [CstOf(d)]
  }

  function PointText(last: seq<Cst>): string { if last == [] then "" else " . " + Text(last[0]) }

  lemma ListedText(items: seq<Cst>, last: seq<Cst>)
    ensures Text(Listed(items, last)) == "(" + (SpacedOut(items) + PointText(last)) + ")"
  {
    hide SpacedOut;
    if last != [] {
      assert "(" + (SpacedOut(items) + (" . " + Text(last[0]))) + ")" ==
             "(" + SpacedOut(items) + " . " + Text(last[0]) + ")";
    } else {
      assert SpacedOut(items) + "" == SpacedOut(items);
    }
  }

  lemma NumberShownIsNtos(n: Parts)
    requires CanonicalParts(n)
    ensures NumberShown(n) == Ntos(n)
  {
    if n.re.Small? && n.im == Small(0) {
      assert Ntos(n) == (if n.re.v < 0 then "-" else "") + (NatText(Abs(n.re.v)) + "");
    }
  }

  lemma {:induction false} DisplayIsText(d: Datum)
    requires Displayable(d)
    ensures Display(d, false) == Text(CstOf(d))
    ensures d.Pair? ==> Display(d, true) == SpacedOut(Items(d)) + PointText(Last(d))
    decreases d, 1
  {
    hide Text, NumberShown, Display, RestShown, PointText;
    if d.Pair? {
      DisplayIsText(d.car);
      RestIsText(d.cdr);
      var items := Items(d);
      ListedText(items, Last(d.cdr));
      assert items[0] == CstOf(d.car) && items[1..] == Items(d.cdr);
      assert SpacedOut(items) == Text(CstOf(d.car)) + Spaced(Items(d.cdr));
      assert SpacedOut(items) + PointText(Last(d.cdr)) == Display(d.car, false) + RestShown(d.cdr);
      assert Display(d, true) == Display(d.car, false) + RestShown(d.cdr) by { PairShown(d); }
      assert Display(d, false) == "(" + Display(d, true) + ")" by { PairShown(d); }
    } else {
      LeafText(d);
    }
  }

  lemma LeafText(d: Datum)
    requires Displayable(d) && !d.Pair?
    ensures forall fp :: Display(d, fp) == Text(CstOf(d))
  {
  }

  /** Behind the first element. */
  function RestShown(d: Datum): string
    requires Displayable(d)
  {
    if d.Nil? then "" else (if d.Pair? then " " else " . ") + Display(d, true)
  }

  lemma PairShown(d: Datum)
    requires d.Pair? && Displayable(d)
    ensures Display(d, true) == Display(d.car, false) + RestShown(d.cdr)
    ensures Display(d, false) == "(" + Display(d, true) + ")"
  {
    hide NumberShown;
    Enclosed(Display(d.car, false), RestShown(d.cdr));
  }

  lemma Enclosed(a: string, b: string)
    ensures "" + a + b + "" == a + b && "(" + a + b + ")" == "(" + (a + b) + ")"
  {
  }

  lemma {:induction false} RestIsText(d: Datum)
    requires Displayable(d)
    ensures RestShown(d) == Spaced(Items(d)) + PointText(Last(d))
    decreases d, 2
  {
    hide Text, NumberShown, Display;
    if d.Pair? {
      DisplayIsText(d);
      assert Items(d)[1..] == Items(d.cdr);
      assert Spaced(Items(d)) == " " + SpacedOut(Items(d)) by {
        assert " " + Text(CstOf(d.car)) + Spaced(Items(d.cdr)) == " " + (Text(CstOf(d.car)) + Spaced(Items(d.cdr)));
      }
      assert " " + (SpacedOut(Items(d)) + PointText(Last(d))) == " " + SpacedOut(Items(d)) + PointText(Last(d));
    } else {
      LeafText(d);
      assert "" + PointText(Last(d)) == PointText(Last(d));
    }
  }

  // ---- reading back what was displayed ----------------------------------------------------------

  /** What display can print so that it can be read: symbols that are tokens, strings that hold
      neither a quotation mark nor a NUL, exact numbers. */
  predicate Readable(d: Datum) {
    match d
    case NumberValue(n) => CanonicalParts(n)
    case BooleanValue(_) => true
    case SymbolValue(name) => Proper(Token(SYMBOL, name))
    case StringValue(chars) => Proper(Token(STRING, chars)) && '\0' !in chars
    case Pair(car, cdr) => Readable(car) && Readable(cdr)
    case Nil => true
  }

  lemma {:induction false} ReadableIsDisplayable(d: Datum)
    requires Readable(d)
    ensures Displayable(d)
  {
    hide Proper, CanonicalParts;
    if d.Pair? {
      ReadableIsDisplayable(d.car);
      ReadableIsDisplayable(d.cdr);
    }
  }

  predicate NumberChars(s: string) {
    forall i :: 0 <= i < |s| ==> IsDecimal(s[i]) || s[i] == '/' || s[i] == '+' || s[i] == '-' || s[i] == 'i'
  }

  lemma RealChars(x: Exact)
    requires x.Rat? ==> x.den > 0
    ensures NumberChars(MagnitudeText(x)) && MagnitudeText(x) != "" && IsDecimal(MagnitudeText(x)[0])
    ensures NumberChars(RealText(x)) && NumberChars(SignedRealText(x))
    ensures NumberWord(RealText(x)) && NumberWord(SignedRealText(x))
  {
    hide NatText;
    var s := MagnitudeText(x);
    assert s[0] == NatText(Abs(Num(x)))[0];
  }

  lemma NtosIsWord(n: Parts)
    requires CanonicalParts(n)
    ensures NumberWord(Ntos(n)) && '\0' !in Ntos(n)
  {
    hide RealText, SignedRealText, MagnitudeText;
    RealChars(n.re);
    RealChars(n.im);
    assert NumberChars(Ntos(n));
  }

  /** A number literal with the text that was displayed is that number, whichever way it is made. */
  lemma ShownNumberReads(n: Parts)
    requires CanonicalParts(n)
    ensures Proper(Token(NUMBER, NumberShown(n))) && NumberDatum(NumberShown(n)) == Some(NumberValue(n))
  {
    hide Ston, Ntos, NumberShown;
    NumberShownIsNtos(n);
    NtosIsWord(n);
    RoundTrip(n);
    var text := Ntos(n);
    if |text| <= 9 && AllDecimal(text) {
      DecimalDigits(text);
      ShortcutAgrees(text);
    }
  }

  lemma LeafReads(d: Datum)
    requires Readable(d) && Displayable(d) && !d.Pair?
    ensures WellFormed(CstOf(d)) && DatumOf(AstOf(CstOf(d))) == Some(d)
  {
    hide NumberDatum, NumberShown, NumberWord, Identifier;
    if d.NumberValue? { ShownNumberReads(d.n); }
  }

  /** The arguments of the node a chain is written as. */
  function Arguments(d: Datum): seq<Ast>
    requires Displayable(d)
  {
    AstAll(Items(d)) + if Last(d) == [] then [] else [AstOf(Last(d)[0])]
  }

  function Linked(ds: seq<Datum>, dotted: bool): Datum
    requires dotted ==> ds != []
  {
    if dotted then Chain(ds[..|ds| - 1], ds[|ds| - 1]) else Chain(ds, Nil)
  }

  lemma LinkedMore(d: Datum, ds: seq<Datum>, dotted: bool)
    requires dotted ==> ds != []
    ensures Linked([d] + ds, dotted) == Pair(d, Linked(ds, dotted))
  {
    var all := [d] + ds;
    if dotted {
      assert all[..|all| - 1] == [d] + ds[..|ds| - 1];
      assert all[..|all| - 1][1..] == ds[..|ds| - 1];
    } else {
      assert all[1..] == ds;
    }
  }

  lemma ArgumentsMore(d: Datum)
    requires Displayable(d) && d.Pair?
    ensures Arguments(d) == [AstOf(CstOf(d.car))] + Arguments(d.cdr)
    ensures AllWellFormed(Items(d)) <==> WellFormed(CstOf(d.car)) && AllWellFormed(Items(d.cdr))
  {
    hide CstOf, AstOf, WellFormed;
    assert Items(d)[1..] == Items(d.cdr);
  }

  lemma DataOfMore(a: Ast, args: seq<Ast>)
    requires DatumOf(a).Some? && DataOf(args).Some?
    ensures DataOf([a] + args) == Some([DatumOf(a).value] + DataOf(args).value)
  {
    hide DatumOf;
    assert ([a] + args)[1..] == args;
  }

  lemma {:induction false} ChainReads(d: Datum)
    requires Readable(d) && Displayable(d)
    ensures AllWellFormed(Items(d)) && (Last(d) != [] ==> WellFormed(Last(d)[0]))
    ensures var ds := DataOf(Arguments(d));
            ds.Some? && (Last(d) != [] ==> ds.value != []) && Linked(ds.value, Last(d) != []) == d
    decreases d, 0
  {
    hide CstOf, AstOf, WellFormed, DatumOf, DataOf, Arguments, Linked, Proper, CanonicalParts;
    if d.Pair? {
      DatumReads(d.car);
      ChainReads(d.cdr);
      ArgumentsMore(d);
      DataOfMore(AstOf(CstOf(d.car)), Arguments(d.cdr));
      LinkedMore(d.car, DataOf(Arguments(d.cdr)).value, Last(d.cdr) != []);
    } else {
      LeafReads(d);
      LeafChain(d);
    }
  }

  lemma LeafChain(d: Datum)
    requires Displayable(d) && !d.Pair? && DatumOf(AstOf(CstOf(d))) == Some(d)
    ensures var ds := DataOf(Arguments(d));
            ds == Some(if d.Nil? then [] else [d]) && Linked(ds.value, Last(d) != []) == d
  {
    hide CstOf, AstOf, DatumOf;
    if d.Nil? {
      assert Arguments(d) == [];
    } else {
      var a := AstOf(CstOf(d));
      assert Arguments(d) == [a];
      assert [a] == [a] + [];
      DataOfMore(a, []);
      assert [d] + [] == [d] && [d][..0] == [];
    }
  }

  /** A datum, written as a derivation, quotes to itself. */
  lemma {:induction false} DatumReads(d: Datum)
    requires Readable(d) && Displayable(d)
    ensures WellFormed(CstOf(d)) && DatumOf(AstOf(CstOf(d))) == Some(d)
    decreases d, 1
  {
    if d.Pair? {
      hide AstOf, WellFormed, DatumOf, DataOf, Linked, Listed, Proper, CanonicalParts;
      ChainReads(d);
      ListedParts(Items(d), Last(d));
      assert CstOf(d) == Listed(Items(d), Last(d));
      ArgumentsMore(d);
      if Last(d) != [] { LongEnough(d); }
      NodeDatum(Arguments(d), Last(d) != []);
    } else {
      LeafReads(d);
    }
  }

  lemma LongEnough(d: Datum)
    requires Displayable(d) && d.Pair? && Last(d) != []
    ensures |Arguments(d)| > 1
  {
    hide CstOf, AstOf;
    ArgumentsMore(d);
    assert Arguments(d.cdr) != [] by { assert Last(d.cdr) == Last(d); }
  }

  lemma NodeDatum(args: seq<Ast>, dotted: bool)
    requires args != [] && (dotted ==> |args| > 1) && DataOf(args).Some?
    ensures DatumOf(SExpr(args, dotted)) == Some(Linked(DataOf(args).value, dotted))
  {
    hide DataOf, Chain;
  }

  /** What quoting the first datum of a text gives. */
  function Quoting(s: string): Option<Datum> {
    var r := Read(s);
    if r.Tree? then DatumOf(r.ast) else None
  }

  /** Display, then read and quote: the same datum, whatever readable datum it was. */
  lemma DisplayReadsBack(d: Datum, rest: string)
    requires Readable(d) && Ended(rest)
    ensures Displayable(d) && Quoting(Display(d, false) + rest) == Some(d)
  {
    hide Display, Text, Read, CstOf, AstOf, DatumOf, WellFormed, Proper, CanonicalParts;
    ReadableIsDisplayable(d);
    DisplayIsText(d);
    DatumReads(d);
    TextReads(CstOf(d), rest);
  }

  /** A number token that is no number quotes to #f: an integer with a letter behind it, say. */
  lemma JunkIsFalse(sign: string, digits: string, c: char, t: string, rest: string)
    requires IsSignText(sign) && digits != "" && AllDecimal(digits)
    requires EndsReal(c, 10) && c != '/' && c != 'i' && !IsSign(c) && c != '\0'
    requires NumberWord(sign + digits + ([c] + t)) && '\0' !in t && Ended(rest)
    ensures Quoting(sign + digits + ([c] + t) + rest) == Some(BooleanValue(false))
  {
    hide Ston, Read, Text, AstOf, NumberWord;
    var word := sign + digits + ([c] + t);
    DecimalDigits(digits);
    JunkBehind(sign, digits, c, t, 10);
    assert word[|sign + digits|] == c && !IsDecimal(c);
    assert '\0' !in sign && '\0' !in digits && '\0' !in word;
    var token := Single(Token(NUMBER, word));
    TextReads(token, rest);
    SingleText(NUMBER, word);
  }

  /** A decimal literal is inexact and has no datum here. */
  lemma InexactHasNone(l: Decimals.Literal, point: bool, whole: string, fraction: string)
    requires Decimals.WellFormed(l) && Decimals.Splits(l, point, whole, fraction) && (point || l.marker != "")
    ensures NumberDatum(Decimals.Text(l)) == None
  {
    hide Ston;
    DecimalIsInexact(l, point, whole, fraction);
    DecimalsAreWords(l, point, whole, fraction);
  }

  lemma DecimalsAreWords(l: Decimals.Literal, point: bool, whole: string, fraction: string)
    requires Decimals.WellFormed(l) && Decimals.Splits(l, point, whole, fraction) && (point || l.marker != "")
    ensures !AllDecimal(Decimals.Text(l)) && '\0' !in Decimals.Text(l)
  {
    var s := Decimals.Text(l);
    if point {
      assert (l.digits + Unpound(l.pounds))[|whole|] == '.';
      if |whole| < |l.digits| {
        assert s[|l.sign| + |whole|] == '.';
      } else {
        assert s[|l.sign| + |whole|] == l.pounds[|whole| - |l.digits|] == '.';
      }
    } else {
      assert s[|l.sign + l.digits + l.pounds|] == l.marker[0];
    }
  }

  lemma SingleText(kind: Kind, text: string)
    requires kind == NUMBER
    ensures Text(Single(Token(kind, text))) == text && AstOf(Single(Token(kind, text))) == Ast.Number(text)
  {
  }

  // ---- whatever was read is readable ------------------------------------------------------------

  predicate CanonicalPart(p: Part) { p.ExactPart? ==> Canonical(p.x) }

  lemma PassCanonical(s: string, exactness: Exactness, allowre: bool, allowim: bool, radix: int)
    ensures var p := OnePass(s, radix, exactness, allowre, allowim);
            p.Piece? ==> CanonicalPart(p.part)
  {
    hide ScanReal, OfRatio, DecimalValue, ParseInt;
  }

  lemma {:induction false} PiecesCanonical(s: string, radix: int, exactness: Exactness, allowre: bool,
          allowim: bool, re: Part, im: Part)
    requires CanonicalPart(re) && CanonicalPart(im)
    ensures var r := Pieces(s, radix, exactness, allowre, allowim, re, im);
            r.Parsed? ==> CanonicalPart(r.re) && CanonicalPart(r.im)
    decreases (if allowre then 1 else 0) + (if allowim then 1 else 0)
  {
    hide OnePass, CanonicalPart;
    var p := OnePass(s, radix, exactness, allowre, allowim);
    PassCanonical(s, exactness, allowre, allowim, radix);
    if p.Piece? && s[p.length..] != "" {
      PiecesCanonical(s[p.length..], radix, exactness, allowre && p.imaginary, allowim && !p.imaginary,
                      if p.imaginary then re else p.part, if p.imaginary then p.part else im);
    }
  }

  /** string->number makes canonical numbers only, whatever the text. */
  lemma StonIsCanonical(s: string, radix: int)
    ensures var r := Ston(s, radix);
            r.Parsed? ==> CanonicalPart(r.re) && CanonicalPart(r.im)
  {
    hide Pieces, ReadPrefix;
    var p := ReadPrefix(s, None, Either);
    if p.Prefix? {
      PiecesCanonical(s[p.length..], if p.radix.Some? then p.radix.value else radix,
                      p.exactness, true, true, ZERO_PART, ZERO_PART);
    }
  }

  lemma NumberDatumReadable(text: string)
    ensures NumberDatum(text).Some? ==> Readable(NumberDatum(text).value)
  {
    hide Ston;
    StonIsCanonical(CString(text), 10);
    if |text| <= 9 && AllDecimal(text) {
      DecimalDigits(text);
      ValueOfBound(text, 10);
      PowGrows(|text|, 9);
      assert Pow(10, 9) == 1000000000;
    }
  }

  lemma {:induction false} ChainReadable(ds: seq<Datum>, tail: Datum)
    requires Readable(tail) && forall i :: 0 <= i < |ds| ==> Readable(ds[i])
    ensures Readable(Chain(ds, tail))
  {
    hide Proper, CanonicalParts;
    if ds != [] { ChainReadable(ds[1..], tail); }
  }

  lemma CStringProper(s: string)
    requires Proper(Token(STRING, s))
    ensures Proper(Token(STRING, CString(s)))
  {
  }

  lemma {:induction false} QuotedIsReadable(a: Ast)
    requires Printer.Lexable(a) && DatumOf(a).Some?
    ensures Readable(DatumOf(a).value)
    decreases a
  {
    hide Proper, NumberDatum, CanonicalParts, Chain;
    if a.Number? {
      NumberDatumReadable(a.text);
    } else if a.Str? {
      CStringProper(a.chars);
    } else if a.SExpr? && a.args != [] {
      AllQuotedAreReadable(a.args);
      var ds := DataOf(a.args).value;
      if a.dotted {
        ChainReadable(ds[..|ds| - 1], ds[|ds| - 1]);
      } else {
        ChainReadable(ds, Nil);
      }
    }
  }

  lemma {:induction false} AllQuotedAreReadable(args: seq<Ast>)
    requires Printer.AllLexable(args) && DataOf(args).Some?
    ensures var ds := DataOf(args).value;
            forall i :: 0 <= i < |ds| ==> Readable(ds[i])
    decreases args
  {
    hide Readable, DatumOf, Printer.Lexable;
    if args != [] {
      QuotedIsReadable(args[0]);
      AllQuotedAreReadable(args[1..]);
      var ds := DataOf(args).value;
      assert ds == [DatumOf(args[0]).value] + DataOf(args[1..]).value;
    }
  }

  /** What was quoted from a text can be displayed and read. */
  lemma TextIsReadable(s: string)
    ensures Quoting(s).Some? ==> Readable(Quoting(s).value)
  {
    hide Read, DatumOf, Readable, Printer.Lexable;
    if Quoting(s).Some? {
      Printer.ReadPrintRead(s, Read(s).ast, "\n");
      QuotedIsReadable(Read(s).ast);
    }
  }

  /** Reading a text, displaying what was quoted and reading that again changes nothing. */
  lemma ReadDisplayRead(s: string, d: Datum, rest: string)
    requires Quoting(s) == Some(d) && Ended(rest)
    ensures Displayable(d) && Quoting(Display(d, false) + rest) == Some(d)
  {
    hide Quoting, Display, Readable;
    TextIsReadable(s);
    DisplayReadsBack(d, rest);
  }
}
