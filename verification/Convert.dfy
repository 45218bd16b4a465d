// The closure-converted target language, and closure conversion stated the textbook way
// (doc/closure.org:68-79, doc/scope.txt:21-32): free names first, code second, no
// environment to update and nothing to patch afterwards.
module Convert {
  import opened Syntax
  import opened KeyOrder

  datatype Code =
    | Literal(datum: Ast)
    | Unspecified
    | Arg(i: nat)                 // args[i], loaded on entry
    | Free(i: nat)                // freelist[i], loaded in the prolog
    | Hole(id: nat)               // a placeholder that is to become a Free
    | Global(name: string)
    | SetGlobal(name: string, value: Code)
    | MakeClosure(arity: nat, body: Code, fills: seq<Code>)
    | Apply(parts: seq<Code>)     // function first
    | Branch(parts: seq<Code>)    // test, consequence, and perhaps an alternative
    | Sequence(parts: seq<Code>)

  type Binding = map<string, Code>

  // ---- conversion -------------------------------------------------------------------------------

  /** The free names of a function that the places visible around it can supply, in slot order. */
  function Captured(formals: seq<string>, body: seq<Ast>, visible: set<string>): seq<string> {
    Sorted((FreeNamesAll(body) - Elements(formals)) * visible)
  }

  /** Where a function finds its parameters. */
  function ArgPlaces(formals: seq<string>): Binding {
    map x | x in formals :: Arg(Position(formals, x))
  }

  /** Where a function finds its parameters and captures. Parameters shadow captures. */
  function Places(formals: seq<string>, captured: seq<string>): Binding {
    (map x | x in captured :: Free(Position(captured, x))) + ArgPlaces(formals)
  }

  function Operand(x: string, places: Binding): Code {
    if x in places then places[x] else Global(x)
  }

  function Conv(e: Ast, places: Binding): Code
    decreases Size(e), 1
  {
    match Classify(e)
    case Variable(x) => Operand(x, places)
    case Begin(parts, _) => if parts == [] then Unspecified else Sequence(ConvAll(parts, places))
    case If(parts) => Branch(ConvAll(parts, places))
    case Call(parts) => Apply(ConvAll(parts, places))
    case DefineVar(x, value) => SetGlobal(x, Conv(value, places))
    case DefineFun(x, formals, body) => SetGlobal(x, ConvFunction(Names(formals), body, places))
    case Lambda(formals, body) => ConvFunction(Names(formals), body, places)
    case Quote(d) => Literal(d)
    case _ => Literal(e)
  }

  function ConvFunction(formals: seq<string>, body: seq<Ast>, places: Binding): Code
    decreases Sizes(body), 3
  {
    var captured := Captured(formals, body, places.Keys);
    MakeClosure(|formals|,
                Sequence(ConvAll(body, Places(formals, captured))),
                Fills(captured, places))
  }

  /** What the surrounding code stores in the free list. */
  function Fills(captured: seq<string>, places: Binding): (r: seq<Code>)
    ensures |r| == |captured|
    ensures forall i :: 0 <= i < |r| ==> r[i] == Operand(captured[i], places)
  {
    seq(|captured|, i requires 0 <= i < |captured| => Operand(captured[i], places))
  }

  function ConvAll(es: seq<Ast>, places: Binding): (r: seq<Code>)
    ensures |r| == |es|
    decreases Sizes(es), 2
  {
    if es == [] then [] else [Conv(es[0], places)] + ConvAll(es[1..], places)
  }

  // ---- the places that matter -------------------------------------------------------------------

  predicate SameOn(names: set<string>, p: Binding, q: Binding) {
    forall x | x in names :: Operand(x, p) == Operand(x, q) && (x in p <==> x in q)
  }

  /** Conversion looks at nothing but the free names of the expression. */
  lemma {:induction false} ConvDependsOnFreeNames(e: Ast, p: Binding, q: Binding)
    requires SameOn(FreeNames(e), p, q)
    ensures Conv(e, p) == Conv(e, q)
    decreases Size(e), 1
  {
    hide ConvAll, ConvFunction, FreeNamesAll, Elements;
    var f := Classify(e);
    if f.Begin? || f.If? || f.Call? {
      ConvAllDependsOnFreeNames(f.parts, p, q);
    } else if f.DefineVar? {
      ConvDependsOnFreeNames(f.value, p, q);
    } else if f.DefineFun? || f.Lambda? {
      ConvFunctionDependsOnFreeNames(Names(f.formals), f.body, p, q);
    }
  }

  lemma SameCaptures(formals: seq<string>, body: seq<Ast>, p: set<string>, q: set<string>)
    requires forall x | x in FreeNamesAll(body) - Elements(formals) :: x in p <==> x in q
    ensures Captured(formals, body, p) == Captured(formals, body, q)
  {
    var free := FreeNamesAll(body) - Elements(formals);
    assert free * p == free * q;
  }

  lemma ConvFunctionDependsOnFreeNames(formals: seq<string>, body: seq<Ast>, p: Binding, q: Binding)
    requires SameOn(FreeNamesAll(body) - Elements(formals), p, q)
    ensures ConvFunction(formals, body, p) == ConvFunction(formals, body, q)
  {
    SameCaptures(formals, body, p.Keys, q.Keys);
    var captured := Captured(formals, body, p.Keys);
    assert Fills(captured, p) == Fills(captured, q) by {
      forall i | 0 <= i < |captured| ensures Operand(captured[i], p) == Operand(captured[i], q) {
        assert captured[i] in captured;
      }
    }
  }

  lemma {:induction false} ConvAllDependsOnFreeNames(es: seq<Ast>, p: Binding, q: Binding)
    requires SameOn(FreeNamesAll(es), p, q)
    ensures ConvAll(es, p) == ConvAll(es, q)
    decreases Sizes(es), 2
  {
    if es != [] {
      ConvDependsOnFreeNames(es[0], p, q);
      ConvAllDependsOnFreeNames(es[1..], p, q);
    }
  }

  // ---- placeholders -----------------------------------------------------------------------------

  /** No placeholder is left anywhere in the code. */
  predicate Closed(c: Code) {
    match c
    case Hole(_) => false
    case SetGlobal(_, v) => Closed(v)
    case MakeClosure(_, body, fills) => Closed(body) && forall i :: 0 <= i < |fills| ==> Closed(fills[i])
    case Apply(parts) => forall i :: 0 <= i < |parts| ==> Closed(parts[i])
    case Branch(parts) => forall i :: 0 <= i < |parts| ==> Closed(parts[i])
    case Sequence(parts) => forall i :: 0 <= i < |parts| ==> Closed(parts[i])
    case _ => true
  }

  /** replaceAllUsesWith: every use of one placeholder, wherever it is, becomes `sub`. */
  function Replace(c: Code, id: nat, sub: Code): Code
    decreases c, 0
  {
    match c
    case Hole(i) => if i == id then sub else c
    case SetGlobal(x, v) => SetGlobal(x, Replace(v, id, sub))
    case MakeClosure(n, body, fills) => MakeClosure(n, Replace(body, id, sub), ReplaceAll(fills, id, sub))
    case Apply(parts) => Apply(ReplaceAll(parts, id, sub))
    case Branch(parts) => Branch(ReplaceAll(parts, id, sub))
    case Sequence(parts) => Sequence(ReplaceAll(parts, id, sub))
    case _ => c
  }

  function ReplaceAll(cs: seq<Code>, id: nat, sub: Code): (r: seq<Code>)
    ensures |r| == |cs|
    decreases cs
  {
    if cs == [] then [] else [Replace(cs[0], id, sub)] + ReplaceAll(cs[1..], id, sub)
  }

  lemma {:induction false} ReplaceInClosed(c: Code, id: nat, sub: Code)
    requires Closed(c)
    ensures Replace(c, id, sub) == c
    decreases c, 0
  {
    match c
    case SetGlobal(_, v) => ReplaceInClosed(v, id, sub);
    case MakeClosure(_, body, fills) => ReplaceInClosed(body, id, sub); ReplaceAllInClosed(fills, id, sub);
    case Apply(parts) => ReplaceAllInClosed(parts, id, sub);
    case Branch(parts) => ReplaceAllInClosed(parts, id, sub);
    case Sequence(parts) => ReplaceAllInClosed(parts, id, sub);
    case _ =>
  }

  lemma {:induction false} ReplaceAllInClosed(cs: seq<Code>, id: nat, sub: Code)
    requires forall i :: 0 <= i < |cs| ==> Closed(cs[i])
    ensures ReplaceAll(cs, id, sub) == cs
    decreases cs
  {
    if cs != [] { ReplaceInClosed(cs[0], id, sub); ReplaceAllInClosed(cs[1..], id, sub); }
  }

  lemma PlacesClosed(formals: seq<string>, captured: seq<string>)
    ensures forall x | x in Places(formals, captured) :: Closed(Places(formals, captured)[x])
  {
  }

  lemma CapturedHolds(formals: seq<string>, body: seq<Ast>, visible: set<string>)
    ensures forall x :: x in Captured(formals, body, visible) <==>
                        x in FreeNamesAll(body) - Elements(formals) && x in visible
  {
  }

  predicate ClosedNames(names: set<string>, p: Binding) {
    forall x | x in names && x in p :: Closed(p[x])
  }

  lemma ClosedUnion(a: set<string>, b: set<string>, p: Binding)
    ensures ClosedNames(a + b, p) <==> ClosedNames(a, p) && ClosedNames(b, p)
  {
    hide Closed;
    if ClosedNames(a + b, p) {
      forall x | x in a && x in p ensures Closed(p[x]) { assert x in a + b; }
      forall x | x in b && x in p ensures Closed(p[x]) { assert x in a + b; }
    }
  }

  predicate ClosedAll(cs: seq<Code>) {
    forall i :: 0 <= i < |cs| ==> Closed(cs[i])
  }

  lemma ClosedCons(c: Code, cs: seq<Code>)
    ensures ClosedAll([c] + cs) <==> Closed(c) && ClosedAll(cs)
  {
    hide Closed;
    var all := [c] + cs;
    if ClosedAll(all) {
      assert Closed(all[0]);
      forall i | 0 <= i < |cs| ensures Closed(cs[i]) { assert all[i + 1] == cs[i]; }
    }
  }

  lemma ClosedFills(captured: seq<string>, names: set<string>, p: Binding)
    requires forall x :: x in captured <==> x in names && x in p
    ensures ClosedAll(Fills(captured, p)) <==> ClosedNames(names, p)
  {
    hide Closed;
    var fills := Fills(captured, p);
    assert forall i :: 0 <= i < |captured| ==> captured[i] in captured && fills[i] == p[captured[i]];
    if ClosedAll(fills) {
      forall x | x in names && x in p ensures Closed(p[x]) {
        var i :| 0 <= i < |captured| && captured[i] == x;
        assert fills[i] == p[x];
      }
    }
  }

  /** Converted code keeps a placeholder exactly when a free name stands for code that has one. */
  lemma {:induction false} ConvClosedExactly(e: Ast, p: Binding)
    ensures Closed(Conv(e, p)) <==> ClosedNames(FreeNames(e), p)
    decreases Size(e), 1
  {
    hide ConvAll, ConvFunction, FreeNamesAll, Elements;
    var f := Classify(e);
    if f.Begin? || f.If? || f.Call? {
      ConvAllClosedExactly(f.parts, p);
    } else if f.DefineVar? {
      ConvClosedExactly(f.value, p);
    } else if f.DefineFun? || f.Lambda? {
      ConvFunctionClosedExactly(Names(f.formals), f.body, p);
    }
  }

  lemma {:induction false} ConvFunctionClosedExactly(formals: seq<string>, body: seq<Ast>, p: Binding)
    ensures Closed(ConvFunction(formals, body, p)) <==> ClosedNames(FreeNamesAll(body) - Elements(formals), p)
    decreases Sizes(body), 3
  {
    var captured := Captured(formals, body, p.Keys);
    var places := Places(formals, captured);
    CapturedHolds(formals, body, p.Keys);
    PlacesClosed(formals, captured);
    hide Captured, Places, ConvAll, FreeNamesAll, Elements;
    ConvAllClosedExactly(body, places);
    assert Closed(Sequence(ConvAll(body, places)));
    ClosedFills(captured, FreeNamesAll(body) - Elements(formals), p);
  }

  lemma {:induction false} ConvAllClosedExactly(es: seq<Ast>, p: Binding)
    ensures ClosedAll(ConvAll(es, p)) <==> ClosedNames(FreeNamesAll(es), p)
    decreases Sizes(es), 2
  {
    if es != [] {
      hide Conv, FreeNames, Closed, ClosedAll, ClosedNames;
      ConvClosedExactly(es[0], p);
      ConvAllClosedExactly(es[1..], p);
      ClosedCons(Conv(es[0], p), ConvAll(es[1..], p));
      ClosedUnion(FreeNames(es[0]), FreeNamesAll(es[1..]), p);
    }
  }

  lemma ConvIsClosed(e: Ast, p: Binding)
    requires forall x | x in p :: Closed(p[x])
    ensures Closed(Conv(e, p))
  {
    hide Closed;
    ConvClosedExactly(e, p);
  }

  lemma ConvAllIsClosed(es: seq<Ast>, p: Binding)
    requires forall x | x in p :: Closed(p[x])
    ensures forall i :: 0 <= i < |es| ==> Closed(ConvAll(es, p)[i])
  {
    hide Closed;
    ConvAllClosedExactly(es, p);
  }

  // ---- operands ---------------------------------------------------------------------------------

  /** In a function of so many arguments and slots, every argument and every slot read is there,
      in every function inside it too, and no placeholder is read. */
  predicate WellScoped(c: Code, args: nat, slots: nat) {
    match c
    case Arg(i) => i < args
    case Free(i) => i < slots
    case Hole(_) => false
    case SetGlobal(_, v) => WellScoped(v, args, slots)
    case MakeClosure(n, body, fills) =>
      WellScoped(body, n, |fills|) && forall i :: 0 <= i < |fills| ==> WellScoped(fills[i], args, slots)
    case Apply(parts) => forall i :: 0 <= i < |parts| ==> WellScoped(parts[i], args, slots)
    case Branch(parts) => forall i :: 0 <= i < |parts| ==> WellScoped(parts[i], args, slots)
    case Sequence(parts) => forall i :: 0 <= i < |parts| ==> WellScoped(parts[i], args, slots)
    case _ => true
  }

  lemma PlacesScoped(formals: seq<string>, captured: seq<string>)
    ensures var p := Places(formals, captured);
            forall x | x in p :: WellScoped(p[x], |formals|, |captured|)
  {
  }

  predicate ScopedNames(names: set<string>, p: Binding, args: nat, slots: nat) {
    forall x | x in names && x in p :: WellScoped(p[x], args, slots)
  }

  lemma ScopedUnion(a: set<string>, b: set<string>, p: Binding, args: nat, slots: nat)
    ensures ScopedNames(a + b, p, args, slots) <==> ScopedNames(a, p, args, slots) && ScopedNames(b, p, args, slots)
  {
    hide WellScoped;
    if ScopedNames(a + b, p, args, slots) {
      forall x | x in a && x in p ensures WellScoped(p[x], args, slots) { assert x in a + b; }
      forall x | x in b && x in p ensures WellScoped(p[x], args, slots) { assert x in a + b; }
    }
  }

  predicate ScopedAll(cs: seq<Code>, args: nat, slots: nat) {
    forall i :: 0 <= i < |cs| ==> WellScoped(cs[i], args, slots)
  }

  lemma ScopedCons(c: Code, cs: seq<Code>, args: nat, slots: nat)
    ensures ScopedAll([c] + cs, args, slots) <==> WellScoped(c, args, slots) && ScopedAll(cs, args, slots)
  {
    hide WellScoped;
    var all := [c] + cs;
    if ScopedAll(all, args, slots) {
      assert WellScoped(all[0], args, slots);
      forall i | 0 <= i < |cs| ensures WellScoped(cs[i], args, slots) { assert all[i + 1] == cs[i]; }
    }
  }

  lemma ScopedFills(captured: seq<string>, names: set<string>, p: Binding, args: nat, slots: nat)
    requires forall x :: x in captured <==> x in names && x in p
    ensures ScopedAll(Fills(captured, p), args, slots) <==> ScopedNames(names, p, args, slots)
  {
    hide WellScoped;
    var fills := Fills(captured, p);
    assert forall i :: 0 <= i < |captured| ==> captured[i] in captured && fills[i] == p[captured[i]];
    if ScopedAll(fills, args, slots) {
      forall x | x in names && x in p ensures WellScoped(p[x], args, slots) {
        var i :| 0 <= i < |captured| && captured[i] == x;
        assert fills[i] == p[x];
      }
    }
  }

  /** Converted code is well scoped exactly when its free names stand for code that is; the
      functions inside it always are. */
  lemma {:induction false} ConvScopedExactly(e: Ast, p: Binding, args: nat, slots: nat)
    ensures WellScoped(Conv(e, p), args, slots) <==> ScopedNames(FreeNames(e), p, args, slots)
    decreases Size(e), 1
  {
    hide ConvAll, ConvFunction, FreeNamesAll, Elements;
    var f := Classify(e);
    if f.Begin? || f.If? || f.Call? {
      ConvAllScopedExactly(f.parts, p, args, slots);
    } else if f.DefineVar? {
      ConvScopedExactly(f.value, p, args, slots);
    } else if f.DefineFun? || f.Lambda? {
      ConvFunctionScopedExactly(Names(f.formals), f.body, p, args, slots);
    }
  }

  lemma {:induction false} ConvFunctionScopedExactly(formals: seq<string>, body: seq<Ast>,
                                          p: Binding, args: nat, slots: nat)
    ensures WellScoped(ConvFunction(formals, body, p), args, slots) <==>
            ScopedNames(FreeNamesAll(body) - Elements(formals), p, args, slots)
    decreases Sizes(body), 3
  {
    var captured := Captured(formals, body, p.Keys);
    var places := Places(formals, captured);
    CapturedHolds(formals, body, p.Keys);
    PlacesScoped(formals, captured);
    hide Captured, Places, ConvAll, FreeNamesAll, Elements;
    ConvAllScopedExactly(body, places, |formals|, |captured|);
    assert WellScoped(Sequence(ConvAll(body, places)), |formals|, |captured|);
    ScopedFills(captured, FreeNamesAll(body) - Elements(formals), p, args, slots);
  }

  lemma {:induction false} ConvAllScopedExactly(es: seq<Ast>, p: Binding, args: nat, slots: nat)
    ensures ScopedAll(ConvAll(es, p), args, slots) <==> ScopedNames(FreeNamesAll(es), p, args, slots)
    decreases Sizes(es), 2
  {
    if es != [] {
      hide Conv, FreeNames, WellScoped, ScopedAll, ScopedNames;
      ConvScopedExactly(es[0], p, args, slots);
      ConvAllScopedExactly(es[1..], p, args, slots);
      ScopedCons(Conv(es[0], p), ConvAll(es[1..], p), args, slots);
      ScopedUnion(FreeNames(es[0]), FreeNamesAll(es[1..]), p, args, slots);
    }
  }

  function Refill(p: Binding, id: nat, sub: Code): Binding {
    map x | x in p :: Replace(p[x], id, sub)
  }

  /** Patching the code of an expression is converting it with patched places. */
  lemma {:induction false} ReplaceConv(e: Ast, p: Binding, id: nat, sub: Code)
    ensures Replace(Conv(e, p), id, sub) == Conv(e, Refill(p, id, sub))
    decreases Size(e), 1
  {
    var f := Classify(e);
    if f.Begin? || f.If? || f.Call? {
      ReplaceConvParts(e, p, id, sub);
    } else if f.DefineVar? || f.DefineFun? || f.Lambda? {
      ReplaceConvBinder(e, p, id, sub);
    } else {
      ReplaceConvLeaf(e, p, id, sub);
    }
  }

  lemma ReplaceConvLeaf(e: Ast, p: Binding, id: nat, sub: Code)
    requires var f := Classify(e); f.Constant? || f.Variable? || f.Empty? || f.Quote? || f.Malformed?
    ensures Replace(Conv(e, p), id, sub) == Conv(e, Refill(p, id, sub))
  {
  }

  lemma {:induction false} ReplaceConvParts(e: Ast, p: Binding, id: nat, sub: Code)
    requires var f := Classify(e); f.Begin? || f.If? || f.Call?
    ensures Replace(Conv(e, p), id, sub) == Conv(e, Refill(p, id, sub))
    decreases Size(e), 0
  {
    hide ConvAll, ReplaceAll, Refill;
    ReplaceConvAll(Classify(e).parts, p, id, sub);
  }

  lemma {:induction false} ReplaceConvBinder(e: Ast, p: Binding, id: nat, sub: Code)
    requires var f := Classify(e); f.DefineVar? || f.DefineFun? || f.Lambda?
    ensures Replace(Conv(e, p), id, sub) == Conv(e, Refill(p, id, sub))
    decreases Size(e), 0
  {
    var f := Classify(e);
    if f.DefineVar? {
      ReplaceConv(f.value, p, id, sub);
    } else {
      ReplaceConvFunction(Names(f.formals), f.body, p, id, sub);
    }
  }

  lemma {:induction false} ReplaceConvFunction(formals: seq<string>, body: seq<Ast>, p: Binding, id: nat, sub: Code)
    ensures Replace(ConvFunction(formals, body, p), id, sub) == ConvFunction(formals, body, Refill(p, id, sub))
    decreases Sizes(body), 3
  {
    assert Refill(p, id, sub).Keys == p.Keys;
    var captured := Captured(formals, body, p.Keys);
    var code := Sequence(ConvAll(body, Places(formals, captured)));
    assert Replace(code, id, sub) == code by {
      ConvAllIsClosed(body, Places(formals, captured));
      ReplaceInClosed(code, id, sub);
    }
    ReplaceFills(captured, p, id, sub);
  }

  lemma {:induction false} ReplaceFills(captured: seq<string>, p: Binding, id: nat, sub: Code)
    ensures ReplaceAll(Fills(captured, p), id, sub) == Fills(captured, Refill(p, id, sub))
  {
    if captured != [] {
      ReplaceFills(captured[1..], p, id, sub);
      assert Fills(captured, p)[1..] == Fills(captured[1..], p);
    }
  }

  lemma {:induction false} ReplaceConvAll(es: seq<Ast>, p: Binding, id: nat, sub: Code)
    ensures ReplaceAll(ConvAll(es, p), id, sub) == ConvAll(es, Refill(p, id, sub))
    decreases Sizes(es), 2
  {
    if es != [] {
      ReplaceConv(es[0], p, id, sub);
      ReplaceConvAll(es[1..], p, id, sub);
      assert ConvAll(es, p)[1..] == ConvAll(es[1..], p);
    }
  }
}
