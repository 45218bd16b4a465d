// The interactive driver (src/main.cc:102-116, src/driver.cc:160-237,365-389): one form after
// another through one environment, going on after errors. A compile error leaves scopes open, so
// that later forms are compiled inside functions that are long gone. This module says exactly
// which scopes stay open, and exactly what that does to later forms.
module Session {
  import opened Syntax
  import opened Convert
  import opened Env
  import opened CodeGen
  import opened Semantics
  import opened Preservation

  // ---- which scopes stay open -------------------------------------------------------------------

  /** The first rejected part of `e` is not inside a function. */
  predicate FailsOutside(e: Ast, visible: set<string>)
    decreases Size(e), 1
  {
    match Classify(e)
    case Begin(parts, dotted) => if AcceptsAll(parts, visible) then dotted else FailsOutsideAll(parts, visible)
    case If(parts) => FailsOutsideAll(parts, visible)
    case Call(parts) => FailsOutsideAll(parts, visible)
    case Quote(d) => !Quotable(d)
    case DefineVar(x, value) => x in visible || FailsOutside(value, visible)
    case DefineFun(x, _, _) => x in visible
    case Malformed(_) => true
    case _ => false
  }

  predicate FailsOutsideAll(es: seq<Ast>, visible: set<string>)
    decreases Sizes(es), 2
  {
    es != [] &&
    if Accepts(es[0], visible) then FailsOutsideAll(es[1..], visible) else FailsOutside(es[0], visible)
  }

  /** A rejected form leaves a scope open exactly when its first error is inside a function. */
  lemma {:induction false} ErrorsLeaveScopesOpen(e: Ast, visible: set<string>)
    ensures Leak(e, visible) != [] <==> !Accepts(e, visible) && !FailsOutside(e, visible)
    decreases Size(e), 1
  {
    hide AcceptsFunction;
    var f := Classify(e);
    if f.Begin? || f.If? || f.Call? {
      PartsLeaveScopesOpen(f.parts, visible);
    } else if f.DefineVar? {
      ErrorsLeaveScopesOpen(f.value, visible);
    } else if f.DefineFun? || f.Lambda? {
      RejectedFunctionStaysOpen(f.formals, f.body, visible);
    }
  }

  lemma {:induction false} PartsLeaveScopesOpen(es: seq<Ast>, visible: set<string>)
    ensures LeakAll(es, visible) != [] <==> !AcceptsAll(es, visible) && !FailsOutsideAll(es, visible)
    decreases Sizes(es), 2
  {
    if es != [] {
      ErrorsLeaveScopesOpen(es[0], visible);
      PartsLeaveScopesOpen(es[1..], visible);
      if Accepts(es[0], visible) { LeaksNothing(es[0], visible); }
    }
  }

  /** A rejected function leaves its own scope open, and first. */
  lemma RejectedFunctionStaysOpen(formals: seq<Ast>, body: seq<Ast>, visible: set<string>)
    ensures var leak := LeakFunction(formals, body, visible);
            if AcceptsFunction(formals, body, visible) then leak == [] else leak != [] && leak[0] == Names(formals)
  {
  }

  // ---- what open scopes do to later forms ---------------------------------------------------------

  /** The places in the innermost scope are its arguments and placeholders. */
  lemma TopPlaces(t: Scopes, chain: seq<seq<string>>, x: string)
    requires ValidScopes(t, chain) && x in t.lexical[|chain|]
    ensures chain != [] && !t.lexical[|chain|][x].Global? && !WellScoped(t.lexical[|chain|][x], 0, 0)
    ensures Closed(t.lexical[|chain|][x]) <==> x in chain[|chain| - 1]
  {
    KnownInScope(t, chain, |chain|, x);
    assert ScopeAt(t, chain, |chain|);
  }

  /** What the parameters of the innermost open function supply without a placeholder. */
  function Innermost(chain: seq<seq<string>>): set<string> {
    if chain == [] then {} else Elements(chain[|chain| - 1])
  }

  /** A form compiled with scopes open gets the code it would get in a new environment exactly
      when it uses none of their parameters. Otherwise the code reads an argument that is not
      there, or a placeholder that nothing patches any more: the latter exactly when one of the
      names belongs to a function other than the innermost. */
  lemma LeakedScopeIsSeen(s: Scopes, chain: seq<seq<string>>, e: Ast, t: Scopes, r: Result<Code>)
    requires Compiles(s, chain, e, t, chain, r) && r.Ok?
    ensures r.value == Conv(e, map[]) <==> FreeNames(e) !! Visible(chain)
    ensures WellScoped(r.value, 0, 0) <==> FreeNames(e) !! Visible(chain)
    ensures Closed(r.value) <==> FreeNames(e) * Visible(chain) <= Innermost(chain)
  {
    hide Conv, FreeNames, Closed, WellScoped, Visible;
    var top := t.lexical[|chain|];
    var names := FreeNames(e);
    forall x | x in names && x in top
      ensures !WellScoped(top[x], 0, 0) && (Closed(top[x]) <==> x in Innermost(chain))
    {
      TopPlaces(t, chain, x);
    }
    forall x | x in names ensures x in top <==> x in Visible(chain) {
      FetchedAreKnown(s, t, chain, names, x);
    }
    ConvScopedExactly(e, top, 0, 0);
    ConvScopedExactly(e, map[], 0, 0);
    ConvClosedExactly(e, top);
    if names !! Visible(chain) {
      ConvDependsOnFreeNames(e, top, map[]);
    }
  }

  // ---- a session --------------------------------------------------------------------------------

  /** What the driver makes of a datum it read. */
  function Displayed(e: Ast): Ast { SExpr([Symbol("display"), e], false) }

  function Forms(trees: seq<Ast>): (es: seq<Ast>)
    ensures |es| == |trees| && forall i :: 0 <= i < |es| ==> es[i] == Displayed(trees[i])
  {
    seq(|trees|, i requires 0 <= i < |trees| => Displayed(trees[i]))
  }

  /** Displaying a value changes nothing but that `display` is looked up. */
  lemma DisplayedForm(e: Ast, visible: set<string>)
    ensures Accepts(Displayed(e), visible) == Accepts(e, visible)
    ensures Leak(Displayed(e), visible) == Leak(e, visible)
    ensures FreeNames(Displayed(e)) == {"display"} + FreeNames(e)
    ensures DefinedNames(Displayed(e)) == DefinedNames(e)
  {
    var display := Symbol("display");
    TwoParts(display, e, visible);
    if Accepts(e, visible) { LeaksNothing(e, visible); }
    assert Classify(Displayed(e)) == Call([display, e]) && Classify(display) == Variable("display");
  }

  lemma TwoParts(a: Ast, b: Ast, visible: set<string>)
    ensures AcceptsAll([a, b], visible) == (Accepts(a, visible) && Accepts(b, visible))
    ensures LeakAll([a, b], visible) ==
            if !Accepts(a, visible) then Leak(a, visible) else if !Accepts(b, visible) then Leak(b, visible) else []
    ensures FreeNamesAll([a, b]) == FreeNames(a) + FreeNames(b)
    ensures DefinedNamesAll([a, b]) == DefinedNames(a) + DefinedNames(b)
  {
    hide Accepts, Leak, FreeNames, DefinedNames;
    assert [a, b][1..] == [b] && [b][1..] == [];
    assert AcceptsAll([b], visible) == Accepts(b, visible);
    assert LeakAll([b], visible) == if Accepts(b, visible) then [] else Leak(b, visible);
    assert FreeNamesAll([b]) == FreeNames(b) && DefinedNamesAll([b]) == DefinedNames(b);
  }

  /** The functions still open after some forms. */
  function OpenAfter(es: seq<Ast>): seq<seq<string>> {
    if es == [] then []
    else
      var chain := OpenAfter(es[..|es| - 1]);
      chain + Leak(es[|es| - 1], Visible(chain))
  }

  /** What becomes of a form where the functions of `chain` are open. */
  ghost predicate CompiledInside(chain: seq<seq<string>>, e: Ast, r: Result<Code>) {
    && (r.Ok? <==> Accepts(e, {}) && DefinedNames(e) !! Visible(chain))
    && (r.Ok? ==> (r.value == Conv(e, map[]) <==> FreeNames(e) !! Visible(chain)))
    && (r.Ok? ==> (WellScoped(r.value, 0, 0) <==> FreeNames(e) !! Visible(chain)))
    && (r.Ok? ==> (Closed(r.value) <==> FreeNames(e) * Visible(chain) <= Innermost(chain)))
  }

  lemma CompilesInside(s: Scopes, chain: seq<seq<string>>, e: Ast, t: Scopes, chain': seq<seq<string>>, r: Result<Code>)
    requires Compiles(s, chain, e, t, chain', r)
    ensures CompiledInside(chain, e, r) && ValidScopes(t, chain') && chain' == chain + Leak(e, Visible(chain))
  {
    hide Accepts, FreeNames, DefinedNames, Conv, Leak, Closed, WellScoped, Visible;
    AcceptsExactly(e, {}, Visible(chain));
    assert {} + Visible(chain) == Visible(chain);
    if r.Ok? {
      LeakedScopeIsSeen(s, chain, e, t, r);
      LeaksNothing(e, Visible(chain));
    }
  }

  const NUMBER_PROCS := ["number?", "complex?", "real?", "rational?", "integer?", "exact?", "inexact?"]
  const ARITHMETIC_PROCS := ["+", "-", "*", "/", "=", "<", ">", "<=", ">="]
  const LIST_PROCS := ["cons", "car", "cdr", "set-car!", "set-cdr!", "list", "list-ref",
                       "length", "null?", "pair?", "list?"]
  const VECTOR_PROCS := ["vector?", "vector-length", "make-vector", "vector", "vector-ref", "vector->list"]
  const STRING_PROCS := ["string?", "symbol?", "string=?", "string-ci=?", "string-length", "substring", "string-append",
                         "symbol->string", "string->number"]

  const BUILTIN_PROCS := NUMBER_PROCS + ARITHMETIC_PROCS + ["display"] + LIST_PROCS + VECTOR_PROCS + STRING_PROCS

  /** CheckBuiltinProcs: every builtin name that stands for something, and whose procedure the module
      does not have yet, gets its procedure stored behind what it stands for. That is the global, but
      where a function is open that binds the name it is what the name is in there. */
  method CheckBuiltinProcs(eenv: ExecutionEnv, procs: seq<string>, declared: set<string>)
    returns (stores: Binding)
    requires eenv.Valid()
    modifies eenv`lexical, eenv`refs, eenv`next
    ensures Fetched(old(eenv.State()), eenv.State(), eenv.chain, Elements(procs))
    ensures forall p :: p in stores <==>
                        p in procs && p !in declared && (p in Visible(eenv.chain) || p in eenv.global)
    ensures forall p :: p in stores && p !in Visible(eenv.chain) ==> stores[p] == Global(p)
    ensures forall p :: p in stores && p in Visible(eenv.chain) ==>
                        p in eenv.lexical[|eenv.chain|] && stores[p] == eenv.lexical[|eenv.chain|][p]
  {
    hide Fetched, Visible, ValidScopes;
    ghost var s, chain := eenv.State(), eenv.chain;
    FetchedNothing(s, chain);
    KeepsInnermost(s, s, chain, {});
    assert Elements(procs[..0]) == {};
    stores := map[];
    var i := 0;
    while i < |procs|
      invariant 0 <= i <= |procs| && eenv.Valid() && |eenv.lexical| == |chain| + 1
      invariant Fetched(s, eenv.State(), chain, Elements(procs[..i]))
      invariant forall p :: p in stores <==>
                            p in procs[..i] && p !in declared && (p in Visible(chain) || p in eenv.global)
      invariant forall p :: p in stores && p !in Visible(chain) ==> stores[p] == Global(p)
      invariant forall p :: p in stores && p in Visible(chain) ==>
                            p in eenv.lexical[|chain|] && stores[p] == eenv.lexical[|chain|][p]
    {
      ghost var t := eenv.State();
      var val := eenv.SearchLocalBinding(procs[i]);
      KeepsInnermost(t, eenv.State(), chain, {procs[i]});
      FetchedBoth(s, t, eenv.State(), chain, Elements(procs[..i]), {procs[i]});
      assert procs[..i + 1] == procs[..i] + [procs[i]];
      assert Elements(procs[..i + 1]) == Elements(procs[..i]) + {procs[i]};
      if (val.Some? || procs[i] in eenv.global) && procs[i] !in declared && procs[i] !in stores {
        stores := stores[procs[i] := if val.Some? then val.value else Global(procs[i])];
      }
      i := i + 1;
    }
    assert procs[..i] == procs;
  }

  lemma KeepsInnermost(s: Scopes, t: Scopes, chain: seq<seq<string>>, names: set<string>)
    requires Fetched(s, t, chain, names)
    ensures |s.lexical| == |t.lexical| == |chain| + 1 && SubMap(s.lexical[|chain|], t.lexical[|chain|])
    ensures ValidScopes(t, chain)
  {
    assert FetchedAt(s, t, chain, names, |chain|);
  }

  /** What is stored before a form is run, where the functions of `chain` are open and the module
      has the builtins `declared`: each builtin the form mentions is stored, behind its global exactly
      when no open function binds it. Otherwise the store goes where no argument and no slot is. */
  ghost predicate StoredInside(chain: seq<seq<string>>, e: Ast, r: Result<Code>,
                               declared: set<string>, stores: Binding) {
    && stores.Keys <= Elements(BUILTIN_PROCS) - declared
    && (r.Err? ==> stores == map[])
    && (r.Ok? ==> Elements(BUILTIN_PROCS) * (Mentions(e) + Visible(chain)) - declared <= stores.Keys)
    && (forall p :: p in stores ==> StoredFor(chain, p, stores[p]))
  }

  ghost predicate StoredFor(chain: seq<seq<string>>, p: string, place: Code) {
    && (place == Global(p) <==> p !in Visible(chain))
    && (WellScoped(place, 0, 0) <==> p !in Visible(chain))
    && (Closed(place) <==> p !in Visible(chain) || p in Innermost(chain))
  }

  lemma StoresInside(t: Scopes, chain: seq<seq<string>>, p: string, place: Code)
    requires ValidScopes(t, chain)
    requires p !in Visible(chain) ==> place == Global(p)
    requires p in Visible(chain) ==> p in t.lexical[|chain|] && place == t.lexical[|chain|][p]
    ensures StoredFor(chain, p, place)
  {
    hide ValidScopes, Visible;
    if p in Visible(chain) {
      TopPlaces(t, chain, p);
    }
  }

  /** The names of the builtins stored before form i. */
  function Declared(stores: seq<Binding>): set<string> {
    if stores == [] then {} else Declared(stores[..|stores| - 1]) + stores[|stores| - 1].Keys
  }

  lemma DeclaredMore(stores: seq<Binding>, more: Binding)
    ensures Declared(stores + [more]) == Declared(stores) + more.Keys
    ensures forall k :: 0 <= k <= |stores| ==> (stores + [more])[..k] == stores[..k]
  {
    assert (stores + [more])[..|stores|] == stores;
  }

  /** What becomes of forms in one session. */
  ghost predicate InSession(es: seq<Ast>, rs: seq<Result<Code>>, stores: seq<Binding>) {
    |rs| == |stores| == |es| && forall i :: 0 <= i < |es| ==> StepOf(es, i, rs[i], stores[i], Declared(stores[..i]))
  }

  ghost predicate StepOf(es: seq<Ast>, i: nat, r: Result<Code>, stores: Binding, declared: set<string>)
    requires i < |es|
  {
    var chain := OpenAfter(es[..i]);
    CompiledInside(chain, es[i], r) && StoredInside(chain, es[i], r, declared, stores)
  }

  /** InterpreterRun, as far as it compiles. */
  method InterpreterRun(eenv: ExecutionEnv, e: Ast, declared: set<string>)
    returns (r: Result<Code>, stores: Binding)
    requires eenv.Valid()
    modifies eenv
    ensures eenv.Valid() && eenv.chain == old(eenv.chain + Leak(e, Visible(eenv.chain)))
    ensures CompiledInside(old(eenv.chain), e, r) && StoredInside(old(eenv.chain), e, r, declared, stores)
  {
    hide CompiledInside, Compiles, ValidScopes, Leak, Visible, Fetched, StoredFor, BUILTIN_PROCS;
    ghost var s, chain := eenv.State(), eenv.chain;
    r := CodeGenEval(eenv, e);
    CompilesInside(s, chain, e, eenv.State(), eenv.chain, r);
    if r.Err? {
      return r, map[];
    }
    ghost var t := eenv.State();
    stores := CheckBuiltinProcs(eenv, BUILTIN_PROCS, declared);
    KeepsInnermost(t, eenv.State(), chain, Elements(BUILTIN_PROCS));
    forall p | p in stores ensures StoredFor(chain, p, stores[p]) {
      StoresInside(eenv.State(), chain, p, stores[p]);
    }
  }

  /** The loop of the interactive driver, as far as it compiles: an error is caught and the next
      form goes through the same environment. */
  method Interact(trees: seq<Ast>) returns (rs: seq<Result<Code>>, stores: seq<Binding>)
    ensures InSession(Forms(trees), rs, stores)
  {
    hide CompiledInside, StoredInside, ValidScopes, OpenAfter, Leak, Visible;
    OpenStep([], 0);
    ghost var es := Forms(trees);
    var eenv := new ExecutionEnv();
    var declared := {};
    rs, stores := [], [];
    var i := 0;
    while i < |trees|
      invariant 0 <= i <= |trees| && |rs| == |stores| == i
      invariant eenv.Valid() && eenv.chain == OpenAfter(es[..i]) && declared == Declared(stores)
      invariant forall k :: 0 <= k < i ==> StepOf(es, k, rs[k], stores[k], Declared(stores[..k]))
    {
      var r, more := InterpreterRun(eenv, Displayed(trees[i]), declared);
      OpenStep(es, i);
      DeclaredMore(stores, more);
      rs, stores, declared := rs + [r], stores + [more], declared + more.Keys;
      i := i + 1;
    }
  }

  lemma OpenStep(es: seq<Ast>, i: nat)
    requires i <= |es|
    ensures i == 0 ==> OpenAfter(es[..i]) == []
    ensures i < |es| ==> OpenAfter(es[..i + 1]) == OpenAfter(es[..i]) + Leak(es[i], Visible(OpenAfter(es[..i])))
  {
    if i < |es| { assert es[..i + 1][..i] == es[..i]; }
  }

  /** Nothing is left open exactly when every rejected form fails outside functions. */
  lemma {:induction false} NothingOpen(es: seq<Ast>)
    ensures OpenAfter(es) == [] <==> forall i :: 0 <= i < |es| ==> Accepts(es[i], {}) || FailsOutside(es[i], {})
  {
    hide Accepts, FailsOutside, Leak;
    assert Visible([]) == {};
    if es != [] {
      var n := |es| - 1;
      NothingOpen(es[..n]);
      ErrorsLeaveScopesOpen(es[n], {});
      assert forall i :: 0 <= i < n ==> es[..n][i] == es[i];
    }
  }

  // ---- running a session ------------------------------------------------------------------------

  /** Forms run one after another; each starts from what the one before left, be it by a value
      or by an error. */
  function RunSource(es: seq<Ast>, st: State<SourceProc>, rt: Runtime, fuel: nat): seq<Outcome<SourceProc>> {
    if es == [] then []
    else
      var o := Eval(es[0], [], st, rt, fuel);
      [o] + if o.Timeout? then [] else RunSource(es[1..], o.st, rt, fuel)
  }

  function RunTarget(codes: seq<Code>, st: State<TargetProc>, rt: Runtime, fuel: nat): seq<Outcome<TargetProc>> {
    if codes == [] then []
    else
      var o := Exec(codes[0], [], [], st, rt, fuel);
      [o] + if o.Timeout? then [] else RunTarget(codes[1..], o.st, rt, fuel)
  }

  ghost predicate AgreeEach(os: seq<Outcome<SourceProc>>, rs: seq<Outcome<TargetProc>>) {
    |os| == |rs| && forall i :: 0 <= i < |os| ==> Agree(os[i], rs[i])
  }

  /** Source and code of a whole session agree at every form, with the globals, the heap and the
      procedures of earlier forms, and after errors. */
  lemma {:induction false} SessionPreservesMeaning(es: seq<Ast>, s: State<SourceProc>, t: State<TargetProc>,
                                                   rt: Runtime, fuel: nat)
    requires AcceptsAll(es, {}) && Related(s, t)
    ensures AgreeEach(RunSource(es, s, rt, fuel), RunTarget(ConvAll(es, map[]), t, rt, fuel))
    decreases |es|
  {
    hide Eval, Exec, Conv, Accepts, Related, Agree;
    if es != [] {
      var codes := ConvAll(es, map[]);
      var o, r := Eval(es[0], [], s, rt, fuel), Exec(codes[0], [], [], t, rt, fuel);
      NothingPlaced(FreeNames(es[0]));
      Simulates(es[0], [], map[], [], [], s, t, rt, fuel);
      AgreeMeans(o, r);
      assert codes[1..] == ConvAll(es[1..], map[]);
      if !o.Timeout? {
        SessionPreservesMeaning(es[1..], o.st, r.st, rt, fuel);
      }
    }
  }

  lemma NothingPlaced(names: set<string>)
    ensures NamesOf([]) == {} && Placed(names, [], map[], [], [])
  {
  }

  /** The forms that compiled, and their codes. */
  function Accepted(es: seq<Ast>, rs: seq<Result<Code>>): seq<Ast>
    requires |es| == |rs|
  {
    if es == [] then [] else (if rs[0].Ok? then [es[0]] else []) + Accepted(es[1..], rs[1..])
  }

  function Codes(rs: seq<Result<Code>>): seq<Code> {
    if rs == [] then [] else (if rs[0].Ok? then [rs[0].value] else []) + Codes(rs[1..])
  }

  /** No form that compiled uses a parameter of a function still open. */
  predicate Untouched(es: seq<Ast>, rs: seq<Result<Code>>)
    requires |es| == |rs|
  {
    forall i :: 0 <= i < |es| && rs[i].Ok? ==> FreeNames(es[i]) !! Visible(OpenAfter(es[..i]))
  }

  /** Then the session means what the accepted forms mean, whatever errors lie between them. */
  lemma UntouchedSession(es: seq<Ast>, rs: seq<Result<Code>>, stores: seq<Binding>, globals: map<string, Value>,
                         heap: Heap, rt: Runtime, fuel: nat)
    requires InSession(es, rs, stores) && Untouched(es, rs)
    ensures Codes(rs) == ConvAll(Accepted(es, rs), map[])
    ensures AgreeEach(RunSource(Accepted(es, rs), Start(globals, heap), rt, fuel),
                      RunTarget(Codes(rs), Start(globals, heap), rt, fuel))
  {
    hide FreeNames, Visible, Conv, Accepts, DefinedNames, Closed, WellScoped;
    hide Accepted, Codes, RunSource, RunTarget, StoredInside, Declared;
    assert forall i :: 0 <= i < |es| ==> StepOf(es, i, rs[i], stores[i], Declared(stores[..i]));
    CodesConverted(es, rs);
    SessionPreservesMeaning(Accepted(es, rs), Start(globals, heap), Start(globals, heap), rt, fuel);
  }

  lemma {:induction false} CodesConverted(es: seq<Ast>, rs: seq<Result<Code>>)
    requires |rs| == |es|
    requires forall i :: 0 <= i < |rs| && rs[i].Ok? ==> Accepts(es[i], {}) && rs[i].value == Conv(es[i], map[])
    ensures AcceptsAll(Accepted(es, rs), {}) && Codes(rs) == ConvAll(Accepted(es, rs), map[])
  {
    hide Conv, Accepts;
    if es != [] {
      CodesConverted(es[1..], rs[1..]);
      var more := Accepted(es[1..], rs[1..]);
      if rs[0].Ok? {
        assert ([es[0]] + more)[1..] == more;
      } else {
        assert [] + more == more && [] + Codes(rs[1..]) == Codes(rs[1..]);
      }
    }
  }

  // ---- builtins in a session --------------------------------------------------------------------

  /** More and more functions are open. */
  lemma {:induction false} OpenGrows(es: seq<Ast>, i: nat, j: nat)
    requires i <= j <= |es|
    ensures Visible(OpenAfter(es[..i])) <= Visible(OpenAfter(es[..j]))
    decreases j
  {
    hide Leak;
    if i < j {
      OpenGrows(es, i, j - 1);
      OpenStep(es, j - 1);
      var chain := OpenAfter(es[..j - 1]);
      assert OpenAfter(es[..j])[..|chain|] == chain;
      forall x | x in Visible(chain) ensures x in Visible(OpenAfter(es[..j])) {
        var k :| 0 <= k < |chain| && x in chain[k];
        assert OpenAfter(es[..j])[k] == chain[k];
      }
    }
  }

  lemma {:induction false} DeclaredAt(stores: seq<Binding>, p: string)
    ensures p in Declared(stores) <==> exists j :: 0 <= j < |stores| && p in stores[j]
  {
    if stores != [] {
      var n := |stores| - 1;
      DeclaredAt(stores[..n], p);
      assert forall j :: 0 <= j < n ==> stores[..n][j] == stores[j];
    }
  }

  /** Whatever happened before, a builtin that an accepted form evaluates, and that no open function
      binds, had its procedure stored behind its global by the time the form is run. */
  lemma BuiltinsAreBound(es: seq<Ast>, rs: seq<Result<Code>>, stores: seq<Binding>, i: nat, p: string) returns (j: nat)
    requires InSession(es, rs, stores) && i < |es| && rs[i].Ok?
    requires p in BUILTIN_PROCS && p in FreeNames(es[i]) && p !in Visible(OpenAfter(es[..i]))
    ensures j <= i && p in stores[j] && stores[j][p] == Global(p)
  {
    hide CompiledInside, Visible, FreeNames, OpenAfter, WellScoped, Closed, BUILTIN_PROCS, Declared;
    assert StepOf(es, i, rs[i], stores[i], Declared(stores[..i]));
    DeclaredAt(stores[..i], p);
    if p in stores[i] {
      j := i;
    } else {
      j :| 0 <= j < i && p in stores[..i][j];
      assert StepOf(es, j, rs[j], stores[j], Declared(stores[..j]));
      OpenGrows(es, j, i);
    }
  }

  /** And no builtin is stored twice. */
  lemma BuiltinsStoredOnce(es: seq<Ast>, rs: seq<Result<Code>>, stores: seq<Binding>, i: nat, j: nat, p: string)
    requires InSession(es, rs, stores) && i < |es| && j < |es| && p in stores[i] && p in stores[j]
    ensures i == j
  {
    hide CompiledInside, Visible, FreeNames, OpenAfter, StoredFor, BUILTIN_PROCS, Declared;
    assert StepOf(es, i, rs[i], stores[i], Declared(stores[..i]));
    assert StepOf(es, j, rs[j], stores[j], Declared(stores[..j]));
    DeclaredAt(stores[..i], p);
    DeclaredAt(stores[..j], p);
  }

  /** A definition of a builtin's name stays: the builtin's own procedure was stored before the form
      is run, and never is again. */
  lemma DefinitionStays(es: seq<Ast>, rs: seq<Result<Code>>, stores: seq<Binding>, i: nat, j: nat, p: string)
    requires InSession(es, rs, stores) && i < j < |es| && rs[i].Ok?
    requires p in BUILTIN_PROCS && p in DefinedNames(es[i])
    ensures p !in stores[j]
  {
    hide CompiledInside, Visible, FreeNames, DefinedNames, OpenAfter, StoredFor, BUILTIN_PROCS, Declared;
    assert StepOf(es, i, rs[i], stores[i], Declared(stores[..i]));
    DeclaredAt(stores[..i], p);
    if p in stores[j] {
      if p in stores[i] {
        BuiltinsStoredOnce(es, rs, stores, i, j, p);
      } else {
        var k :| 0 <= k < i && p in stores[..i][k];
        BuiltinsStoredOnce(es, rs, stores, k, j, p);
      }
    }
  }

  // ---- an example -------------------------------------------------------------------------------

  /** (lambda (x) (define x 1)) */
  function Rejected(x: string): Ast {
    SExpr([Symbol("lambda"), SExpr([Symbol(x)], false),
          SExpr([Symbol("define"), Symbol(x), Number("1")], false)], false)
  }

  lemma RejectedLeaks(x: string, visible: set<string>)
    ensures !Accepts(Rejected(x), visible) && Leak(Rejected(x), visible) == [[x]]
  {
    var define := SExpr([Symbol("define"), Symbol(x), Number("1")], false);
    assert Classify(define) == DefineVar(x, Number("1"));
    assert Names([Symbol(x)]) == [x];
    assert Classify(Rejected(x)) == Lambda([Symbol(x)], [define]);
    assert x in Elements([x]);
    assert !AcceptsAll([define], visible + Elements([x]));
    assert LeakAll([define], visible + Elements([x])) == [];
  }

  lemma OpenAfterRejected(es: seq<Ast>, x: string)
    ensures OpenAfter(es + [Displayed(Rejected(x))]) == OpenAfter(es) + [[x]]
    ensures !Accepts(Displayed(Rejected(x)), {})
  {
    hide Rejected, Accepts;
    DisplayedForm(Rejected(x), Visible(OpenAfter(es)));
    RejectedLeaks(x, Visible(OpenAfter(es)));
    DisplayedForm(Rejected(x), {});
    RejectedLeaks(x, {});
    var all := es + [Displayed(Rejected(x))];
    assert all[..|all| - 1] == es;
  }

  lemma DisplayedSymbol(x: string)
    ensures FreeNames(Displayed(Symbol(x))) == {"display", x} && DefinedNames(Displayed(Symbol(x))) == {}
    ensures Accepts(Displayed(Symbol(x)), {})
  {
    DisplayedForm(Symbol(x), {});
    assert Classify(Symbol(x)) == Variable(x);
  }

  /** After one such form the form `x` reads an argument of no function. */
  lemma StaleName(x: string, rs: seq<Result<Code>>, stores: seq<Binding>)
    requires InSession(Forms([Rejected(x), Symbol(x)]), rs, stores) && x != "display"
    ensures rs[0].Err? && rs[1].Ok? && !WellScoped(rs[1].value, 0, 0) && Closed(rs[1].value)
  {
    hide Rejected, Displayed, FreeNames, DefinedNames, Accepts, StoredInside, Leak, WellScoped, Closed;
    var es := Forms([Rejected(x), Symbol(x)]);
    OpenAfterRejected([], x);
    DisplayedSymbol(x);
    assert es[..0] == [] && es[..1] == [] + [es[0]] && [] + [[x]] == [[x]];
    assert StepOf(es, 0, rs[0], stores[0], Declared(stores[..0]));
    assert StepOf(es, 1, rs[1], stores[1], Declared(stores[..1]));
    assert [[x]][0] == [x] && x in Visible([[x]]);
  }

  /** After a second one it is a placeholder for ever. */
  lemma StaleHole(x: string, y: string, rs: seq<Result<Code>>, stores: seq<Binding>)
    requires InSession(Forms([Rejected(x), Rejected(y), Symbol(x)]), rs, stores) && x != y
    ensures rs[0].Err? && rs[1].Err? && rs[2].Ok? && !Closed(rs[2].value)
  {
    hide Rejected, Displayed, FreeNames, DefinedNames, Accepts, StoredInside, Leak, WellScoped, Closed;
    var es := Forms([Rejected(x), Rejected(y), Symbol(x)]);
    OpenAfterRejected([], x);
    OpenAfterRejected(es[..1], y);
    DisplayedSymbol(x);
    assert es[..0] == [] && es[..1] == [] + [es[0]] && es[..2] == es[..1] + [es[1]];
    assert [] + [[x]] == [[x]] && [[x]] + [[y]] == [[x], [y]];
    assert StepOf(es, 0, rs[0], stores[0], Declared(stores[..0]));
    assert StepOf(es, 1, rs[1], stores[1], Declared(stores[..1]));
    assert StepOf(es, 2, rs[2], stores[2], Declared(stores[..2]));
    assert [[x], [y]][0] == [x] && x in Visible([[x], [y]]);
    assert x in FreeNames(es[2]) * Visible([[x], [y]]) && x !in Innermost([[x], [y]]);
  }

  /** A parameter left open that is named like a builtin: before the next form is run, whatever it
      is, the procedure is stored where no argument is. */
  lemma StaleStore(p: string, e: Ast, rs: seq<Result<Code>>, stores: seq<Binding>)
    requires InSession(Forms([Rejected(p), e]), rs, stores) && rs[1].Ok? && p in BUILTIN_PROCS
    ensures p in stores[1] && !WellScoped(stores[1][p], 0, 0)
  {
    hide Rejected, Displayed, Accepts, DefinedNames, Conv, FreeNames, Leak, WellScoped, Closed, BUILTIN_PROCS;
    var es := Forms([Rejected(p), e]);
    OpenAfterRejected([], p);
    assert es[..0] == [] && es[..1] == [] + [es[0]] && [] + [[p]] == [[p]];
    assert StepOf(es, 0, rs[0], stores[0], Declared(stores[..0]));
    assert StepOf(es, 1, rs[1], stores[1], Declared(stores[..1]));
    assert rs[0].Err?;
    assert stores[..1][..0] == [] && Declared(stores[..1]) == {};
    assert [[p]][0] == [p] && p in Visible([[p]]);
  }

  /** The driver at such input. */
  method StaleRuns() returns (one: seq<Result<Code>>, two: seq<Result<Code>>)
    ensures |one| == 2 && one[1].Ok? && !WellScoped(one[1].value, 0, 0)
    ensures |two| == 3 && two[2].Ok? && !Closed(two[2].value)
  {
    hide Rejected, StepOf, WellScoped, Closed;
    var stores;
    one, stores := Interact([Rejected("a"), Symbol("a")]);
    StaleName("a", one, stores);
    two, stores := Interact([Rejected("a"), Rejected("b"), Symbol("a")]);
    StaleHole("a", "b", two, stores);
  }
}
