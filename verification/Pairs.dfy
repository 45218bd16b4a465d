// Pairs on the heap: the tail-pointer loop of quote (src/codegen.cc:216-253) and the list
// procedures of the runtime (src/runtime/pairlist.c:110-215).
module Pairs {
  import opened Wrappers
  import opened Rational
  import opened Complex
  import opened Numbers
  import opened Syntax
  import opened Data

  /** The contents of an object; a new pair has no cdr until one is stored. */
  datatype Cell = Atom(d: Datum) | NilCell | PairCell(car: LsObject, cdr: LsObject?)

  class LsObject {
    var cell: Cell

    constructor (cell: Cell)
      ensures this.cell == cell
    {
      this.cell := cell;
    }
  }

  // ---- chains -----------------------------------------------------------------------------------

  ghost function Behind(cells: seq<LsObject>, last: LsObject,
          i: nat): LsObject { if i < |cells| then cells[i] else last }

  /** From o, through the pairs `cells`, one reaches `last`. */
  ghost predicate Links(o: LsObject, cells: seq<LsObject>, elements: seq<LsObject>, last: LsObject)
    reads cells
  {
    && |cells| == |elements| && o == Behind(cells, last, 0)
    && forall i :: 0 <= i < |cells| ==> cells[i].cell == PairCell(elements[i], Behind(cells, last, i + 1))
  }

  /** All the way: `last` is no pair. */
  ghost predicate ChainOf(o: LsObject, cells: seq<LsObject>, elements: seq<LsObject>, last: LsObject)
    reads cells, last
  {
    Links(o, cells, elements, last) && !last.cell.PairCell?
  }

  /** An object has one chain. */
  lemma {:induction false} ChainUnique(o: LsObject, c: seq<LsObject>, xs: seq<LsObject>, l: LsObject,
                                       d: seq<LsObject>, ys: seq<LsObject>, m: LsObject)
    requires ChainOf(o, c, xs, l) && ChainOf(o, d, ys, m)
    ensures c == d && xs == ys && l == m
  {
    hide ChainOf, Behind;
    ChainEnds(o, c, xs, l);
    ChainEnds(o, d, ys, m);
    if c != [] && d != [] {
      ChainRest(o, c, xs, l);
      ChainRest(o, d, ys, m);
      ChainUnique(Behind(c, l, 1), c[1..], xs[1..], l, d[1..], ys[1..], m);
      assert c == [o] + c[1..] && d == [o] + d[1..];
      assert xs == [xs[0]] + xs[1..] && ys == [ys[0]] + ys[1..];
    }
  }

  lemma ChainEnds(o: LsObject, c: seq<LsObject>, xs: seq<LsObject>, l: LsObject)
    requires ChainOf(o, c, xs, l)
    ensures |xs| == |c| && (o.cell.PairCell? <==> c != []) && o == if c == [] then l else c[0]
  {
  }

  lemma ChainRest(o: LsObject, c: seq<LsObject>, xs: seq<LsObject>, l: LsObject)
    requires ChainOf(o, c, xs, l) && c != []
    ensures ChainOf(Behind(c, l, 1), c[1..], xs[1..], l)
    ensures o.cell == PairCell(xs[0], Behind(c, l, 1))
  {
  }

  /** A chain never comes back to a pair it went through. */
  lemma {:induction false} ChainIsAcyclic(o: LsObject, c: seq<LsObject>, xs: seq<LsObject>, l: LsObject, i: nat, j: nat)
    requires ChainOf(o, c, xs, l) && i < j < |c|
    ensures c[i] != c[j]
  {
    if c[i] == c[j] {
      ChainFrom(o, c, xs, l, i);
      ChainFrom(o, c, xs, l, j);
      ChainUnique(c[i], c[i..], xs[i..], l, c[j..], xs[j..], l);
    }
  }

  lemma ChainFrom(o: LsObject, c: seq<LsObject>, xs: seq<LsObject>, l: LsObject, i: nat)
    requires ChainOf(o, c, xs, l) && i <= |c|
    ensures ChainOf(Behind(c, l, i), c[i..], xs[i..], l)
  {
  }

  ghost predicate Circular(cycle: seq<LsObject>)
    reads cycle
  {
    cycle != [] &&
    forall i :: 0 <= i < |cycle| ==>
        cycle[i].cell.PairCell? && cycle[i].cell.cdr == cycle[if i + 1 < |cycle| then i + 1 else 0]
  }

  /** From a pair on a cycle there is no chain: _length and _listp never end on it. */
  lemma {:induction false} CycleHasNoChain(cycle: seq<LsObject>, k: nat, c: seq<LsObject>, xs: seq<LsObject>,
          l: LsObject)
    requires Circular(cycle) && k < |cycle|
    ensures !ChainOf(cycle[k], c, xs, l)
    decreases |c|
  {
    hide ChainOf, Behind;
    if ChainOf(cycle[k], c, xs, l) {
      ChainEnds(cycle[k], c, xs, l);
      ChainRest(cycle[k], c, xs, l);
      CycleHasNoChain(cycle, if k + 1 < |cycle| then k + 1 else 0, c[1..], xs[1..], l);
    }
  }

  // ---- the list procedures ----------------------------------------------------------------------

  lemma CountOne(n: nat)
    ensures Tower.Wrap(Tower.Wrap(n) + 1) == Tower.Wrap(n + 1)
  {
  }

  /** What _length says of a list of n elements: n as an int, which is n up to INT_MAX. */
  lemma CountIsExact(n: nat)
    ensures Tower.Wrap(n) == n <==> n <= INT_MAX
  {
  }

  /** _length: the number of pairs of a proper list, counted in an int; -1 for any other chain. */
  method Length(obj: LsObject, ghost cells: seq<LsObject>, ghost elements: seq<LsObject>, ghost last: LsObject)
    returns (len: int)
    requires ChainOf(obj, cells, elements, last)
    ensures len == if last.cell.NilCell? then Tower.Wrap(|elements|) else -1
  {
    hide Tower.Wrap;
    ghost var n := 0;
    len := 0;
    CountIsExact(0);
    var it := obj;
    while !it.cell.NilCell?
      invariant 0 <= n <= |cells| && it == Behind(cells, last, n) && len == Tower.Wrap(n)
      decreases |cells| - n
    {
      if it.cell.PairCell? {
        it := it.cell.cdr;
        len := Tower.Wrap(len + 1);
        CountOne(n);
        n := n + 1;
      } else {
        return -1;
      }
    }
  }

  /** _listp */
  method ListP(obj: LsObject, ghost cells: seq<LsObject>, ghost elements: seq<LsObject>, ghost last: LsObject)
    returns (r: bool)
    requires ChainOf(obj, cells, elements, last)
    ensures r <==> last.cell.NilCell?
  {
    var it := obj;
    ghost var n := 0;
    while !it.cell.NilCell?
      invariant 0 <= n <= |cells| && it == Behind(cells, last, n)
      decreases |cells| - n
    {
      if it.cell.PairCell? {
        it := it.cell.cdr;
        n := n + 1;
      } else {
        return false;
      }
    }
    return true;
  }

  /** What list-ref reads as the index: the machine word of the real part. Of a number that is
      not small this is part of an address, `bits` here. */
  function IndexOf(n: Parts, bits: int): int {
    if n.re.Small? then n.re.v else bits
  }

  /** list-ref; None where it stops with an error. */
  method ListRef(obj: LsObject, arg: Arg, bits: int,
                 ghost cells: seq<LsObject>, ghost elements: seq<LsObject>, ghost last: LsObject)
    returns (r: Option<LsObject>)
    requires ChainOf(obj, cells, elements, last)
    ensures r ==
            if arg.Numeric? && last.cell.NilCell? && Tower.Wrap(|elements|) != -1 &&
               0 <= IndexOf(arg.obj.View(), bits) < Tower.Wrap(|elements|)
            then Some(elements[IndexOf(arg.obj.View(), bits)])
            else None
    ensures arg.Other? || !last.cell.NilCell? ==> r == None
    ensures arg.Numeric? && arg.obj.Valid() && arg.obj.re.Small? && last.cell.NilCell? && |elements| <= 2147483647 ==>
              var index := Denotes(arg.obj.View()).re;
              && index == index.Floor as real
              && r == if 0.0 <= index < |elements| as real then Some(elements[index.Floor]) else None
  {
    hide Tower.Wrap, Canonical, Denotes, IndexOf, Links;
    if arg.Other? {
      return None;
    }
    if arg.obj.Valid() && arg.obj.re.Small? && |elements| <= 2147483647 {
      IndexIsValue(arg.obj.View(), bits, |elements|);
    }
    var len := Length(obj, cells, elements, last);
    if len == -1 {
      return None;
    }
    var idx := IndexOf(arg.obj.View(), bits);
    ghost var index := idx;
    if idx < 0 || idx >= len {
      return None;
    }
    CountBelow(|elements|);
    LinkedCells(obj, cells, elements, last);
    var it := obj;
    while idx > 0
      invariant 0 <= idx <= index < |cells| && it == cells[index - idx]
    {
      it := it.cell.cdr;
      idx := idx - 1;
    }
    return Some(it.cell.car);
  }

  lemma LinkedCells(o: LsObject, cells: seq<LsObject>, elements: seq<LsObject>, last: LsObject)
    requires Links(o, cells, elements, last)
    ensures |cells| == |elements| && (cells != [] ==> o == cells[0])
    ensures forall i :: 0 <= i < |cells| ==> cells[i].cell.PairCell? && cells[i].cell.car == elements[i]
    ensures forall i :: 0 <= i < |cells| - 1 ==> cells[i].cell.cdr == cells[i + 1]
  {
  }

  lemma IndexIsValue(n: Parts, bits: int, count: nat)
    requires CanonicalParts(n) && n.re.Small? && count <= 2147483647
    ensures var index := Denotes(n).re;
            && index == index.Floor as real && IndexOf(n, bits) == index.Floor && Tower.Wrap(count) == count
            && (0 <= IndexOf(n, bits) < count <==> 0.0 <= index < count as real)
  {
    assert Value(n.re) == n.re.v as real;
    CountIsExact(count);
  }

  lemma CountBelow(n: nat)
    ensures Tower.Wrap(n) <= n
  {
  }

  lemma ChainPush(pair: LsObject, x: LsObject, o: LsObject, cells: seq<LsObject>, elements: seq<LsObject>,
          last: LsObject)
    requires ChainOf(o, cells, elements, last) && pair.cell == PairCell(x, o)
    ensures ChainOf(pair, [pair] + cells, [x] + elements, last)
  {
  }

  /** list: from the last argument to the first. */
  method MakeList(args: seq<LsObject>) returns (r: LsObject, ghost cells: seq<LsObject>, ghost last: LsObject)
    ensures ChainOf(r, cells, args, last) && last.cell == NilCell
    ensures fresh(last) && forall i :: 0 <= i < |cells| ==> fresh(cells[i])
  {
    hide ChainOf;
    r := new LsObject(NilCell);
    cells, last := [], r;
    LeafChain(r);
    assert args[|args|..] == [];
    var i := |args| - 1;
    while i >= 0
      invariant -1 <= i < |args|
      invariant ChainOf(r, cells, args[i + 1..], last) && last.cell == NilCell
      invariant fresh(last) && forall k :: 0 <= k < |cells| ==> fresh(cells[k])
    {
      var pair := new LsObject(PairCell(args[i], r));
      ChainPush(pair, args[i], r, cells, args[i + 1..], last);
      assert args[i..] == [args[i]] + args[i + 1..];
      cells := [pair] + cells;
      r := pair;
      i := i - 1;
    }
    assert args[0..] == args;
  }

  // ---- what an object represents -------------------------------------------------------------------

  ghost predicate Represents(o: LsObject, d: Datum, objects: set<LsObject>)
    reads objects
    decreases d
  {
    && o in objects
    && match d
       case Nil => o.cell.NilCell?
       case Pair(car, cdr) =>
         o.cell.PairCell? && o.cell.cdr != null
         && Represents(o.cell.car, car, objects) && Represents(o.cell.cdr, cdr, objects)
       case _ => o.cell == Atom(d)
  }

  lemma {:induction false} RepresentsMore(o: LsObject, d: Datum, few: set<LsObject>, many: set<LsObject>)
    requires Represents(o, d, few) && few <= many
    ensures Represents(o, d, many)
    decreases d
  {
    if d.Pair? {
      RepresentsMore(o.cell.car, d.car, few, many);
      RepresentsMore(o.cell.cdr, d.cdr, few, many);
    }
  }

  /** An object represents one datum. */
  lemma {:induction false} RepresentsOne(o: LsObject, d: Datum, e: Datum, s: set<LsObject>, t: set<LsObject>)
    requires Represents(o, d, s) && Represents(o, e, t)
    ensures d == e
    decreases d
  {
    if d.Pair? && e.Pair? {
      RepresentsOne(o.cell.car, d.car, e.car, s, t);
      RepresentsOne(o.cell.cdr, d.cdr, e.cdr, s, t);
    } else if !e.Pair? && !e.Nil? && !d.Nil? && !d.Pair? {
      assert Atom(d) == Atom(e);
    }
  }

  ghost predicate AllRepresent(os: seq<LsObject>, ds: seq<Datum>, objects: set<LsObject>)
    reads objects
  {
    |os| == |ds| && forall i :: 0 <= i < |os| ==> Represents(os[i], ds[i], objects)
  }

  /** A chain represents its elements, linked; so quote and list make the same list of the same
      elements. */
  lemma {:induction false} ChainRepresents(o: LsObject, cells: seq<LsObject>, elements: seq<LsObject>, last: LsObject,
                                        ds: seq<Datum>, tail: Datum, objects: set<LsObject>)
    requires Links(o, cells, elements, last)
    requires AllRepresent(elements, ds, objects) && Represents(last, tail, objects)
    requires forall i :: 0 <= i < |cells| ==> cells[i] in objects
    ensures Represents(o, Chain(ds, tail), objects)
    decreases |cells|
  {
    hide Represents;
    if cells != [] {
      ChainRepresents(Behind(cells, last, 1), cells[1..], elements[1..], last, ds[1..], tail, objects);
      PairRepresents(o, ds[0], Chain(ds[1..], tail), objects);
    }
  }

  lemma PairRepresents(o: LsObject, car: Datum, cdr: Datum, objects: set<LsObject>)
    requires o in objects && o.cell.PairCell? && o.cell.cdr != null
    requires Represents(o.cell.car, car, objects) && Represents(o.cell.cdr, cdr, objects)
    ensures Represents(o, Pair(car, cdr), objects)
  {
  }

  function Members(d: Datum): seq<Datum> { if d.Pair? then [d.car] + Members(d.cdr) else [] }

  function Tail(d: Datum): Datum { if d.Pair? then Tail(d.cdr) else d }

  /** What represents a datum has a chain, with the datum's elements; so _length counts them, and
      list-ref finds them. */
  lemma {:induction false} RepresentedHasChain(o: LsObject, d: Datum, objects: set<LsObject>)
    returns (cells: seq<LsObject>, elements: seq<LsObject>, last: LsObject)
    requires Represents(o, d, objects)
    ensures ChainOf(o, cells, elements, last)
    ensures AllRepresent(elements, Members(d), objects) && Represents(last, Tail(d), objects)
    ensures last.cell.NilCell? <==> Tail(d).Nil?
    decreases d
  {
    hide ChainOf;
    if d.Pair? {
      cells, elements, last := RepresentedHasChain(o.cell.cdr, d.cdr, objects);
      ChainPush(o, o.cell.car, o.cell.cdr, cells, elements, last);
      cells, elements := [o] + cells, [o.cell.car] + elements;
    } else {
      cells, elements, last := [], [], o;
      LeafChain(o);
    }
  }

  lemma LeafChain(o: LsObject)
    requires !o.cell.PairCell?
    ensures ChainOf(o, [], [], o)
  {
  }

  lemma {:induction false} ChainMembers(ds: seq<Datum>, tail: Datum)
    requires !tail.Pair?
    ensures Members(Chain(ds, tail)) == ds && Tail(Chain(ds, tail)) == tail
  {
    if ds != [] { ChainMembers(ds[1..], tail); }
  }

  /** A quoted list without a point is a proper list of what its elements quote to: Length counts
      them, and ListRef finds them. */
  lemma QuotedListHasChain(a: Ast, o: LsObject, objects: set<LsObject>)
    returns (cells: seq<LsObject>, elements: seq<LsObject>, last: LsObject)
    requires a.SExpr? && !a.dotted && DatumOf(a).Some? && Represents(o, DatumOf(a).value, objects)
    ensures ChainOf(o, cells, elements, last) && last.cell.NilCell? && |elements| == |a.args|
    ensures forall i :: 0 <= i < |a.args| ==>
      DatumOf(a.args[i]).Some? && Represents(elements[i], DatumOf(a.args[i]).value, objects)
  {
    hide Represents, DatumOf, ChainOf;
    cells, elements, last := RepresentedHasChain(o, DatumOf(a).value, objects);
    if a.args == [] {
      NoArguments(a);
    } else {
      NodeData(a);
      var ds := DataOf(a.args).value;
      ChainMembers(ds, Nil);
      forall i | 0 <= i < |a.args| ensures DatumOf(a.args[i]) == Some(ds[i]) { DataAt(a.args, i); }
    }
  }

  lemma NoArguments(a: Ast)
    requires a.SExpr? && a.args == []
    ensures DatumOf(a) == Some(Nil) && Members(Nil) == [] && Tail(Nil) == Nil
  {
  }

  // ---- quote ------------------------------------------------------------------------------------

  lemma {:induction false} DataAt(args: seq<Ast>, i: nat)
    requires DataOf(args).Some? && i < |args|
    ensures DatumOf(args[i]) == Some(DataOf(args).value[i])
  {
    hide DatumOf;
    if i > 0 { DataAt(args[1..], i - 1); }
  }

  /** codeGenNoBind: objects for a quoted tree. */
  method Quote(a: Ast) returns (o: LsObject, ghost objects: set<LsObject>)
    requires DatumOf(a).Some?
    ensures fresh(objects) && Represents(o, DatumOf(a).value, objects)
    decreases a
  {
    hide NumberDatum;
    if a.SExpr? && a.args != [] {
      o, objects := QuoteList(a);
    } else {
      var d := DatumOf(a).value;
      o := new LsObject(if d.Nil? then NilCell else Atom(d));
      objects := {o};
      assert !d.Pair? by { LeafDatum(a); }
    }
  }

  lemma LeafDatum(a: Ast)
    requires DatumOf(a).Some? && (a.SExpr? ==> a.args == [])
    ensures !DatumOf(a).value.Pair?
  {
  }

  /** The elements so far, linked, with the last pair still open. */
  ghost predicate Growing(cells: seq<LsObject>, elements: seq<LsObject>)
    reads cells
  {
    && |cells| == |elements| > 0
    && (forall i :: 0 <= i < |cells| - 1 ==> cells[i].cell == PairCell(elements[i], cells[i + 1]))
    && (forall i :: 0 <= i < |cells| - 1 ==> cells[i] != cells[|cells| - 1])
    && cells[|cells| - 1].cell == PairCell(elements[|cells| - 1], null)
  }

  /** lso_set_cdr on the last pair. */
  method Close(ghost cells: seq<LsObject>, ghost elements: seq<LsObject>, pair: LsObject, last: LsObject)
    requires Growing(cells, elements) && pair == cells[|cells| - 1]
    modifies pair
    ensures Links(cells[0], cells, elements, last)
  {
    pair.cell := PairCell(pair.cell.car, last);
  }

  /** A new pair behind the last one. */
  method Extend(ghost cells: seq<LsObject>, ghost elements: seq<LsObject>, pair: LsObject, element: LsObject)
    returns (curr: LsObject)
    requires Growing(cells, elements) && pair == cells[|cells| - 1]
    modifies pair
    ensures fresh(curr) && Growing(cells + [curr], elements + [element])
  {
    curr := new LsObject(PairCell(element, null));
    pair.cell := PairCell(pair.cell.car, curr);
  }

  lemma NodeData(a: Ast)
    requires a.SExpr? && a.args != [] && DatumOf(a).Some?
    ensures DataOf(a.args).Some? && (a.dotted ==> |a.args| > 1)
    ensures var ds := DataOf(a.args).value;
            DatumOf(a).value == if a.dotted then Chain(ds[..|ds| - 1], ds[|ds| - 1]) else Chain(ds, Nil)
  {
    hide DataOf;
  }

  lemma FirstCell(o: LsObject, element: LsObject)
    requires o.cell == PairCell(element, null)
    ensures Growing([o], [element])
  {
  }

  lemma NilRepresents(o: LsObject)
    requires o.cell == NilCell
    ensures Represents(o, Nil, {o})
  {
  }

  lemma OneRepresents(o: LsObject, d: Datum, objects: set<LsObject>)
    requires Represents(o, d, objects)
    ensures AllRepresent([o], [d], objects)
  {
  }

  lemma AllRepresentMore(os: seq<LsObject>, ds: seq<Datum>, objects: set<LsObject>, o: LsObject, d: Datum,
          more: set<LsObject>)
    requires AllRepresent(os, ds, objects) && Represents(o, d, more)
    ensures AllRepresent(os, ds, objects + more) && Represents(o, d, objects + more)
    ensures AllRepresent(os + [o], ds + [d], objects + more)
  {
    hide Represents;
    RepresentsMore(o, d, more, objects + more);
    forall i | 0 <= i < |os| ensures Represents(os[i], ds[i], objects + more) {
      RepresentsMore(os[i], ds[i], objects, objects + more);
    }
  }

  lemma Widen(os: seq<LsObject>, ds: seq<Datum>, o: LsObject, d: Datum, few: set<LsObject>, many: set<LsObject>)
    requires AllRepresent(os, ds, few) && Represents(o, d, few) && few <= many
    ensures AllRepresent(os, ds, many) && Represents(o, d, many)
  {
    hide Represents;
    RepresentsMore(o, d, few, many);
    forall i | 0 <= i < |os| ensures Represents(os[i], ds[i], many) {
      RepresentsMore(os[i], ds[i], few, many);
    }
  }

  /** The pairs for the first `len` arguments, the last one still open. */
  method QuoteElements(args: seq<Ast>, len: nat)
    returns (head: LsObject, pair: LsObject, ghost cells: seq<LsObject>,
             ghost elements: seq<LsObject>, ghost objects: set<LsObject>)
    requires 0 < len <= |args| && DataOf(args).Some?
    ensures |cells| == len && cells[0] == head && cells[len - 1] == pair && Growing(cells, elements)
    ensures AllRepresent(elements, DataOf(args).value[..len], objects)
    ensures fresh(objects) && forall k :: 0 <= k < |cells| ==> fresh(cells[k]) && cells[k] !in objects
    decreases args
  {
    hide DatumOf, DataOf, Represents, Growing, AllRepresent;
    ghost var ds := DataOf(args).value;
    DataAt(args, 0);
    var first;
    first, objects := Quote(args[0]);
    head := new LsObject(PairCell(first, null));
    pair := head;
    cells, elements := [head], [first];
    FirstCell(head, first);
    assert [ds[0]] == ds[..1];
    OneRepresents(first, ds[0], objects);
    var i := 1;
    while i < len
      invariant 1 <= i <= len && |cells| == |elements| == i
      invariant cells[0] == head && cells[i - 1] == pair && Growing(cells, elements)
      invariant AllRepresent(elements, ds[..i], objects)
      invariant fresh(objects) && forall k :: 0 <= k < |cells| ==> fresh(cells[k]) && cells[k] !in objects
    {
      DataAt(args, i);
      var element;
      ghost var more;
      element, more := Quote(args[i]);
      AllRepresentMore(elements, ds[..i], objects, element, ds[i], more);
      assert ds[..i + 1] == ds[..i] + [ds[i]];
      pair := Extend(cells, elements, pair, element);
      cells, elements, objects := cells + [pair], elements + [element], objects + more;
      i := i + 1;
    }
  }

  method QuoteList(a: Ast) returns (head: LsObject, ghost objects: set<LsObject>)
    requires a.SExpr? && a.args != [] && DatumOf(a).Some?
    ensures fresh(objects) && Represents(head, DatumOf(a).value, objects)
    decreases a, 0
  {
    hide DatumOf, DataOf, Represents, Growing, Links, Chain, AllRepresent;
    var args := a.args;
    NodeData(a);
    ghost var ds := DataOf(args).value;
    var len := if a.dotted then |args| - 1 else |args|;
    var pair;
    ghost var cells, elements;
    head, pair, cells, elements, objects := QuoteElements(args, len);
    var last;
    ghost var more;
    if a.dotted {
      DataAt(args, len);
      last, more := Quote(args[len]);
    } else {
      last := new LsObject(NilCell);
      more := {last};
      NilRepresents(last);
    }
    ghost var tail := if a.dotted then ds[|ds| - 1] else Nil;
    AllRepresentMore(elements, ds[..len], objects, last, tail, more);
    ghost var represented := objects + more;
    Close(cells, elements, pair, last);
    objects := represented + (set c | c in cells);
    Widen(elements, ds[..len], last, tail, represented, objects);
    ChainRepresents(head, cells, elements, last, ds[..len], tail, objects);
    assert !a.dotted ==> ds[..len] == ds;
  }
}
