// The printer at work on objects of the heap (src/runtime/io.c:39-116), and what display, the
// reader and quote make of an object together.
module Console {
  import opened Rational
  import opened NumberRoundTrip
  import opened Digits
  import opened Grammar
  import opened Data
  import opened Pairs

  class Output {
    var text: string

    constructor ()
      ensures text == ""
    {
      text := "";
    }

    method Printf(s: string)
      modifies this
      ensures text == old(text) + s
    {
      text := text + s;
    }

    /** _display, as it prints: fp says that the parenthesis is already there. */
    method Show(o: LsObject, fp: bool, ghost d: Datum, ghost objects: set<LsObject>)
      requires Represents(o, d, objects) && Displayable(d)
      modifies this
      ensures text == old(text) + Display(d, fp)
      decreases d
    {
      match o.cell
      case Atom(NumberValue(n)) =>
        if n.re.Small? && n.im == Small(0) {
          Printf(IntText(n.re.v));
        } else {
          Printf(Ntos(n));
        }
      case Atom(BooleanValue(b)) => Printf(if b then "#t" else "#f");
      case Atom(SymbolValue(name)) => Printf(name);
      case Atom(StringValue(chars)) => Printf("\"" + chars + "\"");
      case NilCell => Printf("()");
      case PairCell(_, _) => ShowPair(o, fp, d, objects);
    }

    method ShowPair(o: LsObject, fp: bool, ghost d: Datum, ghost objects: set<LsObject>)
      requires d.Pair? && Represents(o, d, objects) && Displayable(d)
      modifies this
      ensures text == old(text) + Display(d, fp)
      decreases d, 0
    {
      hide Display;
      ghost var start := text;
      if !fp {
        Printf("(");
      }
      Show(o.cell.car, false, d.car, objects);
      if !o.cell.cdr.cell.NilCell? {
        if o.cell.cdr.cell.PairCell? {
          Printf(" ");
        } else {
          Printf(" . ");
        }
        Show(o.cell.cdr, true, d.cdr, objects);
      }
      if !fp {
        Printf(")");
      }
      PairForm(start, d, fp);
    }
  }

  /** display */
  method Displaying(o: LsObject, ghost d: Datum, ghost objects: set<LsObject>) returns (text: string)
    requires Represents(o, d, objects) && Displayable(d)
    ensures text == Display(d, false) + "\n"
  {
    var out := new Output();
    out.Show(o, false, d, objects);
    out.Printf("\n");
    text := out.text;
  }

  /** An object, displayed, read and quoted, comes back as another one of the same structure: both
      represent one datum, and no other. */
  method DisplayAndQuote(o: LsObject, ghost d: Datum, ghost objects: set<LsObject>)
    returns (p: LsObject, ghost copies: set<LsObject>)
    requires Represents(o, d, objects) && Readable(d)
    ensures fresh(copies) && Represents(p, d, copies)
    ensures forall e, many :: Represents(o, e, many) || Represents(p, e, many) ==> e == d
  {
    hide Display, Represents, Readable;
    ReadableIsDisplayable(d);
    DisplayReadsBack(d, "\n");
    var text := Displaying(o, d, objects);
    var r := ReadFirst(text);
    p, copies := Quote(r.ast);
    forall e, many | Represents(o, e, many) || Represents(p, e, many) ensures e == d {
      if Represents(o, e, many) { RepresentsOne(o, e, d, many, objects); }
      if Represents(p, e, many) { RepresentsOne(p, e, d, many, copies); }
    }
  }

  /** And so does what was quoted from any text. */
  method QuoteDisplayQuote(s: string) returns (o: LsObject, p: LsObject, ghost objects: set<LsObject>,
                                               ghost copies: set<LsObject>)
    requires Quoting(s).Some?
    ensures fresh(objects) && Represents(o, Quoting(s).value, objects)
    ensures fresh(copies) && Represents(p, Quoting(s).value, copies) && objects !! copies
  {
    hide Display, Represents, Readable, Read, DatumOf, Displayable;
    var r := ReadFirst(s);
    ghost var d := Quoting(s).value;
    o, objects := Quote(r.ast);
    TextIsReadable(s);
    p, copies := DisplayAndQuote(o, d, objects);
  }
}
