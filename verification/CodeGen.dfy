// The one-pass code generator (src/codegen.cc). It discovers captures while it generates a
// body, using placeholders, and patches them when the body is finished. Its contract says
// that what comes out is the two-pass conversion of module Convert.
module CodeGen {
  import opened Syntax
  import opened KeyOrder
  import opened Convert
  import opened Env

  datatype Result<+T> = Ok(value: T) | Err(message: string)

  // ---- contracts --------------------------------------------------------------------------------

  /** From scopes `s` the generator compiled `e` to `r` and left scopes `t`. On an error the
      functions that were being compiled stay open. */
  ghost predicate Compiles(s: Scopes, chain: seq<seq<string>>, e: Ast,
                           t: Scopes, chain': seq<seq<string>>, r: Result<Code>) {
    && ValidScopes(t, chain')
    && (r.Ok? <==> Accepts(e, Visible(chain)))
    && (r.Ok? ==> chain' == chain && Fetched(s, t, chain, FreeNames(e)) && r.value == Conv(e, t.lexical[|chain|]))
    && (r.Err? ==> chain' == chain + Leak(e, Visible(chain)))
  }

  ghost predicate CompilesAll(s: Scopes, chain: seq<seq<string>>, es: seq<Ast>,
                              t: Scopes, chain': seq<seq<string>>, r: Result<seq<Code>>) {
    && ValidScopes(t, chain')
    && (r.Ok? <==> AcceptsAll(es, Visible(chain)))
    && (r.Ok? ==> chain' == chain && Fetched(s, t, chain, FreeNamesAll(es))
                   && r.value == ConvAll(es, t.lexical[|chain|]))
    && (r.Err? ==> chain' == chain + LeakAll(es, Visible(chain)))
  }

  ghost predicate CompilesFunction(s: Scopes, chain: seq<seq<string>>, formals: seq<Ast>, body: seq<Ast>,
                                   t: Scopes, chain': seq<seq<string>>, r: Result<Code>) {
    && ValidScopes(t, chain')
    && (r.Ok? <==> AcceptsFunction(formals, body, Visible(chain)))
    && (r.Ok? ==>
          && chain' == chain
          && Fetched(s, t, chain, FreeNamesAll(body) - Elements(Names(formals)))
          && r.value == ConvFunction(Names(formals), body, t.lexical[|chain|]))
    && (r.Err? ==> chain' == chain + LeakFunction(formals, body, Visible(chain)))
  }

  /** The names code looks up where no function binds them: those evaluated and those defined. */
  function Mentions(e: Ast): set<string> { FreeNames(e) + DefinedNames(e) }

  function MentionsAll(es: seq<Ast>): set<string> { FreeNamesAll(es) + DefinedNamesAll(es) }

  function FunctionMentions(formals: seq<string>, body: seq<Ast>): set<string> {
    (FreeNamesAll(body) - Elements(formals)) + DefinedNamesAll(body)
  }

  /** The names with a global object grew from `g` to `h`, by those of `names` at least that no open
      function binds. */
  ghost predicate Mentioned(g: set<string>, names: set<string>, visible: set<string>, h: set<string>) {
    g + (names - visible) <= h
  }

  lemma NothingMentioned(g: set<string>, visible: set<string>)
    ensures Mentioned(g, {}, visible, g)
  {
  }

  lemma MentionedBoth(g: set<string>, a: set<string>, visible: set<string>, h: set<string>,
                      b: set<string>, k: set<string>)
    requires Mentioned(g, a, visible, h) && Mentioned(h, b, visible, k)
    ensures Mentioned(g, a + b, visible, k) && Mentioned(g, {}, visible, k)
  {
  }

  lemma MentionedOutside(g: set<string>, formals: seq<string>, body: seq<Ast>, visible: set<string>, h: set<string>)
    ensures var inside := visible + Elements(formals);
            AcceptsAll(body, inside) && Mentioned(g, MentionsAll(body), inside, h) ==>
            Mentioned(g, FunctionMentions(formals, body), visible, h)
    ensures Mentioned(g, {}, visible + Elements(formals), h) ==> Mentioned(g, {}, visible, h)
  {
    hide AcceptsAll, FreeNamesAll, DefinedNamesAll;
    var inside := visible + Elements(formals);
    AcceptsAllExactly(body, {}, inside);
    assert {} + inside == inside;
  }

  lemma {:induction false} MentionsSnoc(es: seq<Ast>, e: Ast)
    ensures MentionsAll(es + [e]) == MentionsAll(es) + Mentions(e)
  {
    hide FreeNames, DefinedNames;
    if es == [] {
      assert (es + [e])[1..] == [];
    } else {
      MentionsSnoc(es[1..], e);
      assert (es + [e])[1..] == es[1..] + [e];
    }
  }

  // ---- lists of expressions ---------------------------------------------------------------------

  lemma {:induction false} FreeNamesSnoc(es: seq<Ast>, e: Ast)
    ensures FreeNamesAll(es + [e]) == FreeNamesAll(es) + FreeNames(e)
  {
    if es == [] {
      assert (es + [e])[1..] == [];
    } else {
      FreeNamesSnoc(es[1..], e);
      assert (es + [e])[1..] == es[1..] + [e];
    }
  }

  lemma {:induction false} ConvAllSnoc(es: seq<Ast>, e: Ast, p: Binding)
    ensures ConvAll(es + [e], p) == ConvAll(es, p) + [Conv(e, p)]
  {
    if es == [] {
      assert (es + [e])[1..] == [];
    } else {
      ConvAllSnoc(es[1..], e, p);
      assert (es + [e])[1..] == es[1..] + [e];
    }
  }

  /** What was compiled already is not disturbed by later captures. */
  lemma LaterCapturesKeepCode(s: Scopes, t: Scopes, u: Scopes, chain: seq<seq<string>>, es: seq<Ast>,
          later: set<string>)
    requires Fetched(s, t, chain, FreeNamesAll(es)) && Fetched(t, u, chain, later)
    ensures ConvAll(es, t.lexical[|chain|]) == ConvAll(es, u.lexical[|chain|])
  {
    var names := FreeNamesAll(es);
    FetchedBoth(s, t, u, chain, names, later);
    assert chain == [] ==> t.lexical[0] == u.lexical[0];
    assert FetchedAt(t, u, chain, later, |chain|);
    forall x | x in names
      ensures x in t.lexical[|chain|] <==> x in u.lexical[|chain|]
    {
      FetchedAreKnown(s, t, chain, names, x);
      FetchedAreKnown(s, u, chain, names + later, x);
    }
    ConvAllDependsOnFreeNames(es, t.lexical[|chain|], u.lexical[|chain|]);
  }

  // ---- functions --------------------------------------------------------------------------------

  lemma VisibleInside(chain: seq<seq<string>>, formals: seq<string>)
    ensures Visible(chain + [formals]) == Visible(chain) + Elements(formals)
  {
    var inner := chain + [formals];
    forall x | x in Visible(chain) ensures x in Visible(inner) {
      var j :| 0 <= j < |chain| && x in chain[j];
      assert x in inner[j];
    }
    forall x | x in Elements(formals) ensures x in Visible(inner) {
      assert x in inner[|chain|];
    }
  }

  lemma FetchedThroughOuter(chain: seq<seq<string>>, formals: seq<string>, k: nat, names: set<string>)
    requires 1 <= k <= |chain|
    ensures FetchedThrough(chain + [formals], k, names) == FetchedThrough(chain, k, names - Elements(formals))
  {
    var inner := chain + [formals];
    var a, b := FetchedThrough(inner, k, names), FetchedThrough(chain, k, names - Elements(formals));
    forall x ensures x in a <==> x in b {
      BoundInside(chain, formals, k - 1, x);
    }
  }

  lemma BoundInside(chain: seq<seq<string>>, formals: seq<string>, k: nat, x: string)
    requires k <= |chain|
    ensures Bound(chain + [formals], 0, k, x) <==> Bound(chain, 0, k, x)
    ensures Bound(chain + [formals], k, |chain| + 1, x) <==> Bound(chain, k, |chain|, x) || x in formals
  {
    var inner := chain + [formals];
    assert inner[|chain|] == formals;
    assert forall j :: 0 <= j < |chain| ==> inner[j] == chain[j];
  }

  /** The scopes around a function once its own scope is discarded. */
  lemma ExitFetched(s: Scopes, s1: Scopes, s2: Scopes, t: Scopes, chain: seq<seq<string>>, formals: seq<string>,
          names: set<string>)
    requires ValidScopes(s, chain) && Fetched(s1, s2, chain + [formals], names) && ValidScopes(t, chain)
    requires s1.lexical[..|chain| + 1] == s.lexical && s1.refs[..|chain| + 1] == s.refs && s.next <= s1.next
    requires s2.lexical[..|chain| + 1] == t.lexical && s2.refs[..|chain| + 1] == t.refs && s2.next == t.next
    ensures Fetched(s, t, chain, names - Elements(formals))
  {
    forall k: nat | 1 <= k <= |chain| ensures FetchedAt(s, t, chain, names - Elements(formals), k) {
      assert FetchedAt(s1, s2, chain + [formals], names, k);
      FetchedThroughOuter(chain, formals, k, names);
    }
  }

  /** What a finished body captured is what two-pass conversion says it captures. */
  lemma CapturesAreFreeNames(s1: Scopes, s2: Scopes, s: Scopes, t: Scopes, chain: seq<seq<string>>,
          formals: seq<string>, body: seq<Ast>)
    requires Fetched(s1, s2, chain + [formals], FreeNamesAll(body)) && s1.refs[|chain| + 1] == map[]
    requires Fetched(s, t, chain, FreeNamesAll(body) - Elements(formals))
    ensures s2.refs[|chain| + 1].Keys == (FreeNamesAll(body) - Elements(formals)) * Visible(chain)
    ensures Sorted(s2.refs[|chain| + 1].Keys) == Captured(formals, body, t.lexical[|chain|].Keys)
  {
    var inner, names := chain + [formals], FreeNamesAll(body);
    assert FetchedAt(s1, s2, inner, names, |inner|);
    forall x
      ensures Bound(inner, 0, |chain|, x) <==> x in Visible(chain)
      ensures Bound(inner, |chain|, |inner|, x) <==> x in formals
    {
      BoundInside(chain, formals, |chain|, x);
    }
    assert FetchedThrough(inner, |inner|, names) == (names - Elements(formals)) * Visible(chain);
    forall x | x in names - Elements(formals) ensures x in t.lexical[|chain|] <==> x in Visible(chain) {
      FetchedAreKnown(s, t, chain, names - Elements(formals), x);
    }
    assert (names - Elements(formals)) * Visible(chain) == (names - Elements(formals)) * t.lexical[|chain|].Keys;
  }

  /** A function's places after the first n placeholders have been patched. */
  ghost function Patched(places: Binding, keys: seq<string>, n: nat): Binding
    requires n <= |keys|
  {
    map x | x in places :: if x in keys[..n] then Free(Position(keys, x)) else places[x]
  }

  lemma NotBefore(keys: seq<string>, n: nat)
    requires Distinct(keys) && n < |keys|
    ensures keys[n] !in keys[..n] && keys[n] in keys
  {
  }

  lemma PatchOne(outer: Binding, places: Binding, refs: Binding, formals: seq<string>, next: nat,
          keys: seq<string>, n: nat)
    requires ValidScope(outer, places, refs, formals, next)
    requires keys == Sorted(refs.Keys) && n < |keys|
    ensures keys[n] in places && places[keys[n]].Hole?
    ensures Refill(Patched(places, keys, n), places[keys[n]].id, Free(n)) == Patched(places, keys, n + 1)
  {
    hide Position, Distinct, Sorted;
    var key := keys[n];
    SortedIncreases(refs.Keys);
    PositionOf(keys, n);
    assert keys[..n + 1] == keys[..n] + [key];
    NotBefore(keys, n);
    forall x | x in places
      ensures Replace(Patched(places, keys, n)[x], places[key].id, Free(n)) == Patched(places, keys, n + 1)[x]
    {
      if x !in keys[..n] && x != key && x in refs {
        assert places[x] != places[key];
      }
    }
  }

  lemma PatchCode(outer: Binding, places: Binding, refs: Binding, formals: seq<string>, next: nat,
                  keys: seq<string>, n: nat, body: seq<Ast>)
    requires ValidScope(outer, places, refs, formals, next)
    requires keys == Sorted(refs.Keys) && n < |keys|
    ensures keys[n] in places && places[keys[n]].Hole?
    ensures Replace(Sequence(ConvAll(body, Patched(places, keys, n))), places[keys[n]].id, Free(n)) ==
            Sequence(ConvAll(body, Patched(places, keys, n + 1)))
  {
    hide ValidScope, Patched, Sorted, ConvAll, Refill;
    PatchOne(outer, places, refs, formals, next, keys, n);
    ReplaceConvAll(body, Patched(places, keys, n), places[keys[n]].id, Free(n));
  }

  lemma PatchedIsPlaces(outer: Binding, places: Binding, refs: Binding, formals: seq<string>, next: nat,
          keys: seq<string>)
    requires ValidScope(outer, places, refs, formals, next)
    requires forall x :: x in keys <==> x in refs
    ensures Patched(places, keys, |keys|) == Places(formals, keys)
  {
    hide ValidScope, Places, Patched;
    PlacesAre(outer, places, refs, formals, next, keys);
    forall x | x in places ensures Patched(places, keys, |keys|)[x] == Places(formals, keys)[x] {
      PatchedAt(outer, places, refs, formals, next, keys, x);
    }
  }

  lemma PlacesAre(outer: Binding, places: Binding, refs: Binding, formals: seq<string>, next: nat,
                  keys: seq<string>)
    requires ValidScope(outer, places, refs, formals, next)
    requires forall x :: x in keys <==> x in refs
    ensures Patched(places, keys, |keys|).Keys == places.Keys == Places(formals, keys).Keys
  {
    hide Position;
  }

  lemma PatchedAt(outer: Binding, places: Binding, refs: Binding, formals: seq<string>, next: nat,
                  keys: seq<string>, x: string)
    requires ValidScope(outer, places, refs, formals, next) && x in places && x in Places(formals, keys)
    requires forall y :: y in keys <==> y in refs
    ensures x in Patched(places, keys, |keys|) && Patched(places, keys, |keys|)[x] == Places(formals, keys)[x]
  {
    hide Position;
    assert keys[..|keys|] == keys;
    assert x in keys || x in formals;
  }

  /** What createFunction has in hand when it discards the scope is the converted function. */
  lemma FinishedFunction(s: Scopes, s1: Scopes, s2: Scopes, t: Scopes, chain: seq<seq<string>>,
          formals: seq<string>, body: seq<Ast>)
    requires ValidScopes(s, chain) && Fetched(s1, s2, chain + [formals], FreeNamesAll(body)) && ValidScopes(t, chain)
    requires s1.lexical[..|chain| + 1] == s.lexical && s1.refs[..|chain| + 1] == s.refs && s.next <= s1.next
    requires s2.lexical[..|chain| + 1] == t.lexical && s2.refs[..|chain| + 1] == t.refs && s2.next == t.next
    requires s1.refs[|chain| + 1] == map[]
    ensures Fetched(s, t, chain, FreeNamesAll(body) - Elements(formals))
    ensures var refs := s2.refs[|chain| + 1];
            var keys := Sorted(refs.Keys);
            ConvFunction(formals, body, t.lexical[|chain|]) ==
            MakeClosure(|formals|, Sequence(ConvAll(body, Patched(s2.lexical[|chain| + 1], keys, |keys|))),
                        Fills(keys, refs))
  {
    var inner, refs := chain + [formals], s2.refs[|chain| + 1];
    var keys := Sorted(refs.Keys);
    ExitFetched(s, s1, s2, t, chain, formals, FreeNamesAll(body));
    CapturesAreFreeNames(s1, s2, s, t, chain, formals, body);
    assert ScopeAt(s2, inner, |inner|);
    PatchedIsPlaces(s2.lexical[|chain|], s2.lexical[|inner|], refs, formals, s2.next, keys);
    assert t.lexical[|chain|] == s2.lexical[|chain|];
    assert Fills(keys, t.lexical[|chain|]) == Fills(keys, refs);
  }

  // ---- the generator ----------------------------------------------------------------------------

  method CodeGenEval(eenv: ExecutionEnv, e: Ast) returns (r: Result<Code>)
    requires eenv.Valid()
    modifies eenv
    ensures Compiles(old(eenv.State()), old(eenv.chain), e, eenv.State(), eenv.chain, r)
    ensures Mentioned(old(eenv.global), if r.Ok? then Mentions(e) else {}, Visible(old(eenv.chain)), eenv.global)
    decreases Size(e), 1
  {
    FetchedNothing(eenv.State(), eenv.chain);
    match e
    case Symbol(x) => r := CodeGenSymbol(eenv, x);
    case SExpr(args, dotted) =>
      if |args| == 0 {
        return Ok(Literal(e));
      }
      match args[0] {
      case Symbol(x) =>
        if x == "begin" { r := HandleBegin(eenv, e); }
        else if x == "define" { r := HandleDefine(eenv, e); }
        else if x == "lambda" { r := HandleLambda(eenv, e); }
        else if x == "quote" { r := HandleQuote(eenv, e); }
        else if x == "if" { r := HandleIf(eenv, e); }
        else { r := CodeGenCall(eenv, e); }
      case SExpr(_, _) => r := CodeGenCall(eenv, e);
      case _ => r := Err("not a function");
      }
    case _ => r := Ok(Literal(e));
  }

  method CodeGenSymbol(eenv: ExecutionEnv, name: string) returns (r: Result<Code>)
    requires eenv.Valid()
    modifies eenv
    ensures Compiles(old(eenv.State()), old(eenv.chain), Symbol(name), eenv.State(), eenv.chain, r)
    ensures Mentioned(old(eenv.global), if r.Ok? then {name} else {}, Visible(old(eenv.chain)), eenv.global)
  {
    var val := eenv.SearchLocalBinding(name);
    FetchedAreKnown(old(eenv.State()), eenv.State(), eenv.chain, {name}, name);
    if val.Some? {
      return Ok(val.value);
    }
    eenv.AddGlobalBinding(name);
    return Ok(Global(name));
  }

  lemma EachOf(es: seq<Ast>, i: nat, visible: set<string>, p: Binding)
    requires i <= |es|
    ensures i == 0 ==> MentionsAll(es[..i]) == {} && FreeNamesAll(es[..i]) == {}
    ensures i == 0 ==> ConvAll(es[..i], p) == [] && es[i..] == es
    ensures AcceptsAll(es[i..], visible) <==> i == |es| || (Accepts(es[i], visible) && AcceptsAll(es[i + 1..], visible))
    ensures LeakAll(es[i..], visible) ==
            if i == |es| then []
            else if Accepts(es[i], visible) then LeakAll(es[i + 1..], visible) else Leak(es[i], visible)
  {
    hide Accepts, Leak;
    if i < |es| { assert es[i..][0] == es[i] && es[i..][1..] == es[i + 1..]; }
  }

  /** Generates code for each of a node's subforms, left to right. */
  method CodeGenEach(eenv: ExecutionEnv, es: seq<Ast>) returns (r: Result<seq<Code>>)
    requires eenv.Valid()
    modifies eenv
    ensures CompilesAll(old(eenv.State()), old(eenv.chain), es, eenv.State(), eenv.chain, r)
    ensures Mentioned(old(eenv.global), if r.Ok? then MentionsAll(es) else {}, Visible(old(eenv.chain)), eenv.global)
    decreases Sizes(es), 2
  {
    hide Mentioned, Mentions, MentionsAll, ScopeAt, Visible, FreeNamesAll, ConvAll, AcceptsAll, LeakAll;
    hide FreeNames, Conv, Accepts, Leak;
    ghost var s, chain := eenv.State(), eenv.chain;
    ghost var visible := Visible(chain);
    FetchedNothing(s, chain);
    NothingMentioned(eenv.global, visible);
    EachOf(es, 0, visible, eenv.lexical[|chain|]);
    var codes: seq<Code> := [];
    var i := 0;
    while i < |es|
      invariant 0 <= i <= |es|
      invariant eenv.chain == chain && Fetched(s, eenv.State(), chain, FreeNamesAll(es[..i]))
      invariant codes == ConvAll(es[..i], eenv.lexical[|chain|])
      invariant Mentioned(old(eenv.global), MentionsAll(es[..i]), visible, eenv.global)
      invariant AcceptsAll(es, visible) == AcceptsAll(es[i..], visible)
      invariant LeakAll(es, visible) == LeakAll(es[i..], visible)
    {
      ghost var t, g := eenv.State(), eenv.global;
      SizesAt(es, i);
      EachOf(es, i, visible, map[]);
      var code := CodeGenEval(eenv, es[i]);
      MentionedBoth(old(eenv.global), MentionsAll(es[..i]), visible, g,
                    if code.Ok? then Mentions(es[i]) else {}, eenv.global);
      if code.Err? {
        return Err(code.message);
      }
      LaterCapturesKeepCode(s, t, eenv.State(), chain, es[..i], FreeNames(es[i]));
      FetchedBoth(s, t, eenv.State(), chain, FreeNamesAll(es[..i]), FreeNames(es[i]));
      assert es[..i + 1] == es[..i] + [es[i]];
      FreeNamesSnoc(es[..i], es[i]);
      MentionsSnoc(es[..i], es[i]);
      ConvAllSnoc(es[..i], es[i], eenv.lexical[|chain|]);
      codes := codes + [code.value];
      i := i + 1;
    }
    EachOf(es, i, visible, map[]);
    assert es[..i] == es;
    return Ok(codes);
  }

  method CodeGenCall(eenv: ExecutionEnv, e: Ast) returns (r: Result<Code>)
    requires eenv.Valid() && Classify(e).Call?
    modifies eenv
    ensures Compiles(old(eenv.State()), old(eenv.chain), e, eenv.State(), eenv.chain, r)
    ensures Mentioned(old(eenv.global), if r.Ok? then Mentions(e) else {}, Visible(old(eenv.chain)), eenv.global)
    decreases Size(e), 0
  {
    var parts := CodeGenEach(eenv, e.args);
    r := if parts.Ok? then Ok(Apply(parts.value)) else Err(parts.message);
  }

  ghost predicate IsSyntax(e: Ast, keyword: string) {
    e.SExpr? && e.args != [] && e.args[0] == Symbol(keyword) && keyword in KEYWORDS
  }

  method HandleBegin(eenv: ExecutionEnv, e: Ast) returns (r: Result<Code>)
    requires eenv.Valid() && IsSyntax(e, "begin")
    modifies eenv
    ensures Compiles(old(eenv.State()), old(eenv.chain), e, eenv.State(), eenv.chain, r)
    ensures Mentioned(old(eenv.global), if r.Ok? then Mentions(e) else {}, Visible(old(eenv.chain)), eenv.global)
    decreases Size(e), 0
  {
    assert Classify(e) == Begin(e.args[1..], e.dotted);
    var parts := CodeGenEach(eenv, e.args[1..]);
    if parts.Err? {
      return Err(parts.message);
    }
    if e.dotted {
      LeaksNothingAll(e.args[1..], Visible(old(eenv.chain)));
      return Err("unexpected `.' in begin");
    }
    r := Ok(if |e.args| == 1 then Unspecified else Sequence(parts.value));
  }

  method HandleIf(eenv: ExecutionEnv, e: Ast) returns (r: Result<Code>)
    requires eenv.Valid() && IsSyntax(e, "if")
    modifies eenv
    ensures Compiles(old(eenv.State()), old(eenv.chain), e, eenv.State(), eenv.chain, r)
    ensures Mentioned(old(eenv.global), if r.Ok? then Mentions(e) else {}, Visible(old(eenv.chain)), eenv.global)
    decreases Size(e), 0
  {
    if |e.args| != 3 && |e.args| != 4 {
      return Err("if takes 2 or 3 arguments");
    }
    assert Classify(e) == If(e.args[1..]);
    var parts := CodeGenEach(eenv, e.args[1..]);
    r := if parts.Ok? then Ok(Branch(parts.value)) else Err(parts.message);
  }

  method HandleQuote(eenv: ExecutionEnv, e: Ast) returns (r: Result<Code>)
    requires eenv.Valid() && IsSyntax(e, "quote")
    ensures Compiles(old(eenv.State()), old(eenv.chain), e, eenv.State(), eenv.chain, r)
  {
    FetchedNothing(eenv.State(), eenv.chain);
    if |e.args| != 2 {
      return Err("quote takes only one argument");
    }
    assert Classify(e) == Quote(e.args[1]);
    if !Quotable(e.args[1]) {
      return Err("undefined behaviour: quote");
    }
    r := Ok(Literal(e.args[1]));
  }

  method HandleLambda(eenv: ExecutionEnv, e: Ast) returns (r: Result<Code>)
    requires eenv.Valid() && IsSyntax(e, "lambda")
    modifies eenv
    ensures Compiles(old(eenv.State()), old(eenv.chain), e, eenv.State(), eenv.chain, r)
    ensures Mentioned(old(eenv.global), if r.Ok? then Mentions(e) else {}, Visible(old(eenv.chain)), eenv.global)
    decreases Size(e), 0
  {
    if |e.args| < 3 {
      return Err("too few arguments for lambda");
    }
    if !e.args[1].SExpr? {
      return Err("lambda expects argument list");
    }
    assert Classify(e) == Lambda(e.args[1].args, e.args[2..]);
    r := CreateFunction(eenv, e.args[1].args, e.args[2..]);
  }

  method HandleDefine(eenv: ExecutionEnv, e: Ast) returns (r: Result<Code>)
    requires eenv.Valid() && IsSyntax(e, "define")
    modifies eenv
    ensures Compiles(old(eenv.State()), old(eenv.chain), e, eenv.State(), eenv.chain, r)
    ensures Mentioned(old(eenv.global), if r.Ok? then Mentions(e) else {}, Visible(old(eenv.chain)), eenv.global)
    decreases Size(e), 0
  {
    if |e.args| < 3 {
      return Err("too few arguments for define");
    }
    match e.args[1]
    case Symbol(name) =>
      if |e.args| != 3 {
        return Err("defining symbol takes 2 arguments");
      }
      assert Classify(e) == DefineVar(name, e.args[2]);
      var unbound := CheckSymbol(eenv, name);
      if !unbound {
        return Err("re-definition of symbol: " + name);
      }
      eenv.AddGlobalBinding(name);
      var value := CodeGenEval(eenv, e.args[2]);
      r := if value.Ok? then Ok(SetGlobal(name, value.value)) else value;
    case SExpr(formals, _) =>
      if |formals| == 0 || !formals[0].Symbol? {
        return Err("undefined behaviour: define");
      }
      var name := formals[0].name;
      assert Classify(e) == DefineFun(name, formals[1..], e.args[2..]);
      var unbound := CheckSymbol(eenv, name);
      if !unbound {
        return Err("re-definition of symbol: " + name);
      }
      eenv.AddGlobalBinding(name);
      var function_ := CreateFunction(eenv, formals[1..], e.args[2..]);
      r := if function_.Ok? then Ok(SetGlobal(name, function_.value)) else function_;
    case _ => r := Err("bad syntax for define");
  }

  /** False when the name is a visible parameter. Looking it up captures it only then. */
  method CheckSymbol(eenv: ExecutionEnv, name: string) returns (unbound: bool)
    requires eenv.Valid()
    modifies eenv`lexical, eenv`refs, eenv`next
    ensures eenv.Valid() && eenv.chain == old(eenv.chain)
    ensures unbound <==> name !in Visible(eenv.chain)
    ensures unbound ==> eenv.State() == old(eenv.State())
  {
    var val := eenv.SearchLocalBinding(name);
    unbound := val.None?;
  }

  method LoadFuncArgs(eenv: ExecutionEnv, formals: seq<Ast>) returns (r: Result<nat>)
    requires eenv.Valid() && eenv.chain != [] && eenv.chain[|eenv.chain| - 1] == []
    requires eenv.refs[|eenv.chain|] == map[]
    modifies eenv`lexical, eenv`chain
    ensures eenv.Valid()
    ensures r.Ok? <==> AllSymbols(formals)
    ensures r.Ok? ==> r.value == |formals|
    ensures eenv.chain == old(eenv.chain[..|eenv.chain| - 1]) + [Names(formals)]
    ensures eenv.lexical[..|eenv.lexical| - 1] == old(eenv.lexical[..|eenv.lexical| - 1])
  {
    var i := 0;
    ghost var top := |eenv.chain|;
    ghost var outer := eenv.chain[..top - 1];
    while i < |formals|
      invariant 0 <= i <= |Names(formals)|
      invariant eenv.Valid() && |eenv.chain| == top && eenv.chain == outer + [Names(formals)[..i]]
      invariant eenv.lexical[..top] == old(eenv.lexical[..top])
    {
      if !formals[i].Symbol? {
        assert Names(formals)[..i] == Names(formals);
        return Err("constants found in parameter list");
      }
      eenv.AddBinding(formals[i].name, Arg(i));
      assert Names(formals)[..i + 1] == Names(formals)[..i] + [formals[i].name];
      i := i + 1;
    }
    assert Names(formals)[..i] == Names(formals);
    return Ok(|formals|);
  }

  method CreateFunction(eenv: ExecutionEnv, formals: seq<Ast>, body: seq<Ast>) returns (r: Result<Code>)
    requires eenv.Valid()
    modifies eenv
    ensures CompilesFunction(old(eenv.State()), old(eenv.chain), formals, body, eenv.State(), eenv.chain, r)
    ensures Mentioned(old(eenv.global), if r.Ok? then FunctionMentions(Names(formals), body) else {},
                      Visible(old(eenv.chain)), eenv.global)
    decreases Sizes(body), 3
  {
    hide ConvAll, Patched, Fetched, Visible, FreeNamesAll, Sorted, ScopeAt, Places, Captured, Insert;
    hide Mentioned, MentionsAll, FunctionMentions, AcceptsAll, LeakAll;
    NothingMentioned(eenv.global, Visible(eenv.chain));
    ghost var s, chain, names := eenv.State(), eenv.chain, Names(formals);
    ghost var inner := chain + [names];
    VisibleInside(chain, names);
    eenv.NewScope();
    var loaded := LoadFuncArgs(eenv, formals);
    assert eenv.chain == inner;
    if loaded.Err? {
      return Err(loaded.message);
    }
    ghost var s1 := eenv.State();
    var codes := CodeGenEach(eenv, body);
    MentionedOutside(old(eenv.global), names, body, Visible(chain), eenv.global);
    if codes.Err? {
      assert eenv.chain == chain + ([names] + LeakAll(body, Visible(inner)));
      return Err(codes.message);
    }
    var code := FinishFunction(eenv, loaded.value, codes.value, s, s1, chain, names, body);
    r := Ok(code);
  }

  /** With the body generated, it is known what the function captured: the placeholders are
      patched, the scope is left, and the parent fills the free list. */
  method FinishFunction(eenv: ExecutionEnv, arity: nat, codes: seq<Code>,
                        ghost s: Scopes, ghost s1: Scopes, ghost chain: seq<seq<string>>,
                        ghost formals: seq<string>, ghost body: seq<Ast>)
    returns (code: Code)
    requires eenv.Valid() && eenv.chain == chain + [formals] && arity == |formals|
    requires Fetched(s1, eenv.State(), chain + [formals], FreeNamesAll(body)) && ValidScopes(s, chain)
    requires s1.lexical[..|chain| + 1] == s.lexical && s1.refs[..|chain| + 1] == s.refs && s.next <= s1.next
    requires s1.refs[|chain| + 1] == map[] && codes == ConvAll(body, eenv.lexical[|chain| + 1])
    modifies eenv`lexical, eenv`refs, eenv`next, eenv`chain
    ensures eenv.Valid() && eenv.chain == chain
    ensures Fetched(s, eenv.State(), chain, FreeNamesAll(body) - Elements(formals))
    ensures code == ConvFunction(formals, body, eenv.lexical[|chain|])
  {
    hide ConvAll, Patched, Fetched, Visible, FreeNamesAll, Sorted, ScopeAt, Places, Captured;
    ghost var s2 := eenv.State();
    var refs := eenv.GetCurrentRefs();
    var keys := Sorted(refs.Keys);
    var patched := BackPatch(eenv, keys, codes, body);
    var fills := FillFreeList(keys, refs);
    eenv.ExitLastScope();
    FinishedFunction(s, s1, s2, eenv.State(), chain, formals, body);
    code := MakeClosure(arity, patched, fills);
  }

  /** Replaces each placeholder of the innermost function by the load of its slot. */
  method BackPatch(eenv: ExecutionEnv, keys: seq<string>, codes: seq<Code>, ghost body: seq<Ast>) returns (code: Code)
    requires eenv.Valid() && eenv.chain != []
    requires keys == Sorted(eenv.refs[|eenv.chain|].Keys)
    requires codes == ConvAll(body, eenv.lexical[|eenv.chain|])
    modifies eenv`lexical, eenv`refs, eenv`next
    ensures eenv.State() == old(eenv.State()) && eenv.chain == old(eenv.chain)
    ensures code == Sequence(ConvAll(body, Patched(eenv.lexical[|eenv.chain|], keys, |keys|)))
  {
    hide ValidScope, ConvAll, Sorted, Replace;
    code := Sequence(codes);
    ghost var s, chain, top := eenv.State(), eenv.chain, |eenv.chain|;
    ghost var places := s.lexical[top];
    assert Patched(places, keys, 0) == places;
    assert ScopeAt(s, chain, top);
    var i := 0;
    while i < |keys|
      invariant 0 <= i <= |keys|
      invariant eenv.State() == s && eenv.chain == chain
      invariant code == Sequence(ConvAll(body, Patched(places, keys, i)))
    {
      PatchCode(s.lexical[top - 1], places, s.refs[top], chain[top - 1], s.next, keys, i, body);
      var hole := FindPlaceholder(eenv, keys[i]);
      code := Replace(code, hole.id, Free(i));
      i := i + 1;
    }
  }

  /** A second look at a captured name finds its placeholder and captures nothing more. */
  method FindPlaceholder(eenv: ExecutionEnv, name: string) returns (hole: Code)
    requires eenv.Valid() && name in eenv.lexical[|eenv.chain|]
    modifies eenv`lexical, eenv`refs, eenv`next
    ensures eenv.State() == old(eenv.State()) && eenv.chain == old(eenv.chain)
    ensures hole == eenv.lexical[|eenv.chain|][name]
  {
    KnownIsBound(eenv.State(), eenv.chain, |eenv.chain|, name);
    var argval := eenv.SearchLocalBinding(name);
    hole := argval.value;
  }

  /** The stores into the free list that the parent makes when it creates the closure. */
  method FillFreeList(keys: seq<string>, refs: Binding) returns (fills: seq<Code>)
    requires forall x :: x in keys ==> x in refs
    ensures fills == Fills(keys, refs)
  {
    fills := [];
    var i := 0;
    while i < |keys|
      invariant 0 <= i <= |keys|
      invariant |fills| == i && forall j :: 0 <= j < i ==> fills[j] == refs[keys[j]]
    {
      fills := fills + [refs[keys[i]]];
      i := i + 1;
    }
  }

  // ---- after an error ---------------------------------------------------------------------------

  lemma {:induction false} LeaksNothing(e: Ast, visible: set<string>)
    requires Accepts(e, visible)
    ensures Leak(e, visible) == []
    decreases Size(e), 1
  {
    var f := Classify(e);
    if f.Begin? || f.If? || f.Call? {
      LeaksNothingAll(f.parts, visible);
    } else if f.DefineVar? {
      LeaksNothing(f.value, visible);
    }
  }

  lemma {:induction false} LeaksNothingAll(es: seq<Ast>, visible: set<string>)
    requires AcceptsAll(es, visible)
    ensures LeakAll(es, visible) == []
    decreases Sizes(es), 2
  {
    if es != [] { LeaksNothingAll(es[1..], visible); }
  }
}
