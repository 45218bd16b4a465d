// Closure conversion preserves meaning: source and converted program give the same value or
// the same error, and leave the same globals, objects and output, for every starting state,
// every set of builtins and every amount of fuel.
module Preservation {
  import opened Wrappers
  import opened Syntax
  import opened Convert
  import opened Env
  import opened CodeGen
  import opened Semantics

  function NamesOf(env: seq<Frame>): set<string> {
    set k, x | 0 <= k < |env| && x in env[k] :: x
  }

  lemma {:induction false} LookupFinds(env: seq<Frame>, x: string)
    ensures Lookup(env, x).Some? <==> x in NamesOf(env)
  {
    if env != [] {
      var rest := env[..|env| - 1];
      LookupFinds(rest, x);
      assert forall k :: 0 <= k < |rest| ==> rest[k] == env[k];
    }
  }

  lemma NamesOfExtended(env: seq<Frame>, f: Frame)
    ensures NamesOf(env + [f]) == NamesOf(env) + f.Keys
  {
    var inner := env + [f];
    assert inner[|env|] == f;
    assert forall k :: 0 <= k < |env| ==> inner[k] == env[k];
  }

  // ---- the relation -----------------------------------------------------------------------------

  /** A target procedure is the conversion of a source one: same arity, the body converted,
      and in each slot the value the captured name has in the source's frames. */
  ghost predicate ProcRelated(p: SourceProc, q: TargetProc) {
    var captured := Captured(p.formals, p.body, NamesOf(p.env));
    && AcceptsAll(p.body, NamesOf(p.env) + Elements(p.formals))
    && q.arity == |p.formals|
    && q.body == Sequence(ConvAll(p.body, Places(p.formals, captured)))
    && |q.free| == |captured|
    && forall i :: 0 <= i < |captured| ==> Lookup(p.env, captured[i]) == Some(q.free[i])
  }

  ghost predicate Related(s: State<SourceProc>, t: State<TargetProc>) {
    && s.globals == t.globals && s.heap == t.heap
    && |s.procs| == |t.procs|
    && forall i :: 0 <= i < |s.procs| ==> ProcRelated(s.procs[i], t.procs[i])
  }

  ghost predicate Agree(o: Outcome<SourceProc>, r: Outcome<TargetProc>) {
    match (o, r)
    case (Done(v, s), Done(w, t)) => v == w && Related(s, t)
    case (Fail(e, s), Fail(f, t)) => e == f && Related(s, t)
    case (Timeout, Timeout) => true
    case _ => false
  }

  ghost predicate AgreeAll(o: Outcomes<SourceProc>, r: Outcomes<TargetProc>) {
    match (o, r)
    case (AllDone(vs, s), AllDone(ws, t)) => vs == ws && Related(s, t)
    case (OneFail(e, s), OneFail(f, t)) => e == f && Related(s, t)
    case (OneTimeout, OneTimeout) => true
    case _ => false
  }

  /** The places where the target finds `names` hold what the source's frames hold. */
  ghost predicate Placed(names: set<string>, env: seq<Frame>, places: Binding, args: seq<Value>, free: seq<Value>) {
    forall x | x in names :: PlacedName(x, env, places, args, free)
  }

  ghost predicate PlacedName(x: string, env: seq<Frame>, places: Binding, args: seq<Value>, free: seq<Value>) {
    if x in places then Load(places[x], args, free).Some? && Lookup(env, x) == Load(places[x], args, free)
    else Lookup(env, x) == None
  }

  lemma AgreeMeans(o: Outcome<SourceProc>, r: Outcome<TargetProc>)
    ensures o.Done? && r.Done? ==> (Agree(o, r) <==> o.v == r.v && Related(o.st, r.st))
    ensures Agree(o, r) ==> (o.Done? <==> r.Done?) && (o.Fail? <==> r.Fail?)
    ensures o.Fail? && r.Fail? ==> (Agree(o, r) <==> o.error == r.error && Related(o.st, r.st))
    ensures o.Timeout? && r.Timeout? ==> Agree(o, r)
  {
    hide Related;
  }

  lemma AgreeAllMeans(o: Outcomes<SourceProc>, r: Outcomes<TargetProc>)
    requires AgreeAll(o, r)
    ensures (o.AllDone? <==> r.AllDone?) && (o.OneFail? <==> r.OneFail?) && (o.OneTimeout? <==> r.OneTimeout?)
    ensures o.AllDone? ==> o.vs == r.vs && Related(o.st, r.st)
    ensures o.OneFail? ==> o.error == r.error && Related(o.st, r.st)
  {
    hide Related;
  }

  lemma RelatedProcs(s: State<SourceProc>, t: State<TargetProc>, v: Value)
    requires Related(s, t)
    ensures |s.procs| == |t.procs| && (IsFunction(v, s) <==> IsFunction(v, t))
    ensures v.Procedure? && v.id < |s.procs| ==>
              ProcRelated(s.procs[v.id], t.procs[v.id]) && t.procs[v.id].arity == |s.procs[v.id].formals|
  {
    hide Captured, Places, Lookup;
  }

  lemma BuiltinAgrees(rt: Runtime, name: string, args: seq<Value>, s: State<SourceProc>, t: State<TargetProc>)
    requires Related(s, t)
    ensures Agree(CallBuiltin(rt, name, args, s), CallBuiltin(rt, name, args, t))
  {
    hide ProcRelated;
  }

  lemma WriteAgrees(x: string, o: Outcome<SourceProc>, r: Outcome<TargetProc>)
    requires Agree(o, r)
    ensures Agree(WriteGlobal(x, o), WriteGlobal(x, r))
  {
    hide ProcRelated;
  }

  lemma PlacedPart(some: set<string>, all: set<string>, env: seq<Frame>, places: Binding, args: seq<Value>,
          free: seq<Value>)
    requires Placed(all, env, places, args, free) && some <= all
    ensures Placed(some, env, places, args, free)
  {
  }

  // ---- the simulation ---------------------------------------------------------------------------

  lemma {:induction false} LoadAllLoads(cs: seq<Code>, args: seq<Value>, free: seq<Value>)
    requires forall i :: 0 <= i < |cs| ==> Load(cs[i], args, free).Some?
    ensures var r := LoadAll(cs, args, free);
            r.Some? && |r.value| == |cs| && forall i :: 0 <= i < |cs| ==> Load(cs[i], args, free) == Some(r.value[i])
  {
    if cs != [] {
      LoadAllLoads(cs[1..], args, free);
    }
  }

  /** Creating a closure: the fills take the captured values. */
  lemma ClosureRelated(formals: seq<string>, body: seq<Ast>, env: seq<Frame>, places: Binding,
                       args: seq<Value>, free: seq<Value>, s: State<SourceProc>, t: State<TargetProc>, rt: Runtime,
                       fuel: nat)
    requires Related(s, t) && AcceptsAll(body, NamesOf(env) + Elements(formals))
    requires Placed(FreeNamesAll(body) - Elements(formals), env, places, args, free)
    ensures Agree(NewProcedure(SourceProc(formals, body, env), s),
                  Exec(ConvFunction(formals, body, places), args, free, t, rt, fuel))
  {
    hide Captured, Places, NamesOf, ConvAll, AcceptsAll, Lookup, Elements;
    var free' := CapturedValues(formals, body, env, places, args, free);
    var code := ConvFunction(formals, body, places);
    var p, q := SourceProc(formals, body, env), TargetProc(code.arity, code.body, free');
    assert Exec(code, args, free, t, rt, fuel) == NewProcedure(q, t);
    assert ProcRelated(p, q);
    assert Related(s.(procs := s.procs + [p]), t.(procs := t.procs + [q]));
  }

  lemma CapturedValues(formals: seq<string>, body: seq<Ast>, env: seq<Frame>, places: Binding,
                       args: seq<Value>, free: seq<Value>) returns (vs: seq<Value>)
    requires Placed(FreeNamesAll(body) - Elements(formals), env, places, args, free)
    ensures LoadAll(ConvFunction(formals, body, places).fills, args, free) == Some(vs)
    ensures var captured := Captured(formals, body, NamesOf(env));
            && Captured(formals, body, places.Keys) == captured
            && |vs| == |captured|
            && forall i :: 0 <= i < |captured| ==> Lookup(env, captured[i]) == Some(vs[i])
  {
    var names := FreeNamesAll(body) - Elements(formals);
    forall x | x in names ensures x in places.Keys <==> x in NamesOf(env) {
      assert PlacedName(x, env, places, args, free);
      LookupFinds(env, x);
    }
    SameCaptures(formals, body, places.Keys, NamesOf(env));
    var captured := Captured(formals, body, places.Keys);
    var fills := Fills(captured, places);
    forall i | 0 <= i < |captured|
      ensures Load(fills[i], args, free).Some? && Lookup(env, captured[i]) == Load(fills[i], args, free)
    {
      assert captured[i] in captured;
      assert PlacedName(captured[i], env, places, args, free);
    }
    LoadAllLoads(fills, args, free);
    vs := LoadAll(fills, args, free).value;
  }

  lemma EnteredParameter(formals: seq<string>, captured: seq<string>, env: seq<Frame>, actuals: seq<Value>,
          free: seq<Value>, x: string)
    requires CountOk(|formals|, |actuals|) && x in formals
    ensures PlacedName(x, env + [Bind(formals, actuals)], Places(formals, captured), actuals, free)
  {
  }

  lemma EnteredCapture(formals: seq<string>, captured: seq<string>, env: seq<Frame>, frame: Frame,
          actuals: seq<Value>, free: seq<Value>, x: string)
    requires x !in formals && x !in frame
    requires |free| == |captured| && forall i :: 0 <= i < |captured| ==> Lookup(env, captured[i]) == Some(free[i])
    requires x in captured || Lookup(env, x) == None
    ensures PlacedName(x, env + [frame], Places(formals, captured), actuals, free)
  {
    assert (env + [frame])[..|env|] == env;
  }

  /** Entering a function: its places hold what its frame and the frames around it hold. */
  lemma EnteredName(p: SourceProc, q: TargetProc, actuals: seq<Value>, x: string)
    requires ProcRelated(p, q) && CountOk(|p.formals|, |actuals|) && x in FreeNamesAll(p.body)
    ensures PlacedName(x, p.env + [Bind(p.formals, actuals)],
                       Places(p.formals, Captured(p.formals, p.body, NamesOf(p.env))), actuals, q.free)
  {
    var captured := Captured(p.formals, p.body, NamesOf(p.env));
    if x in p.formals {
      EnteredParameter(p.formals, captured, p.env, actuals, q.free, x);
    } else {
      LookupFinds(p.env, x);
      EnteredCapture(p.formals, captured, p.env, Bind(p.formals, actuals), actuals, q.free, x);
    }
  }

  lemma Entered(p: SourceProc, q: TargetProc, actuals: seq<Value>)
    requires ProcRelated(p, q) && CountOk(|p.formals|, |actuals|)
    ensures var env := p.env + [Bind(p.formals, actuals)];
            var places := Places(p.formals, Captured(p.formals, p.body, NamesOf(p.env)));
            && AcceptsAll(p.body, NamesOf(env))
            && Placed(FreeNamesAll(p.body), env, places, actuals, q.free)
            && q.body == Sequence(ConvAll(p.body, places))
  {
    NamesOfExtended(p.env, Bind(p.formals, actuals));
    forall x | x in FreeNamesAll(p.body)
      ensures PlacedName(x, p.env + [Bind(p.formals, actuals)],
                         Places(p.formals, Captured(p.formals, p.body, NamesOf(p.env))), actuals, q.free)
    {
      EnteredName(p, q, actuals, x);
    }
  }

  lemma ExecSequence(codes: seq<Code>, args: seq<Value>, free: seq<Value>, t: State<TargetProc>, rt: Runtime, fuel: nat)
    ensures Exec(Sequence(codes), args, free, t, rt, fuel) == ExecBody(codes, args, free, t, rt, fuel)
  {
  }

  lemma {:induction false} Simulates(e: Ast, env: seq<Frame>, places: Binding, args: seq<Value>, free: seq<Value>,
                                     s: State<SourceProc>, t: State<TargetProc>, rt: Runtime, fuel: nat)
    requires Related(s, t) && Accepts(e, NamesOf(env)) && Placed(FreeNames(e), env, places, args, free)
    ensures Agree(Eval(e, env, s, rt, fuel), Exec(Conv(e, places), args, free, t, rt, fuel))
    decreases fuel, Size(e), 1
  {
    var f := Classify(e);
    if f.Begin? || f.If? || f.Call? {
      SimulatesParts(e, env, places, args, free, s, t, rt, fuel);
    } else if f.DefineVar? || f.DefineFun? || f.Lambda? {
      SimulatesBinder(e, env, places, args, free, s, t, rt, fuel);
    } else if f.Variable? {
      assert PlacedName(f.name, env, places, args, free);
    }
  }

  lemma {:induction false} SimulatesParts(e: Ast, env: seq<Frame>, places: Binding, args: seq<Value>, free: seq<Value>,
                                          s: State<SourceProc>, t: State<TargetProc>, rt: Runtime, fuel: nat)
    requires var f := Classify(e); f.Begin? || f.If? || f.Call?
    requires Related(s, t) && Accepts(e, NamesOf(env)) && Placed(FreeNames(e), env, places, args, free)
    ensures Agree(Eval(e, env, s, rt, fuel), Exec(Conv(e, places), args, free, t, rt, fuel))
    decreases fuel, Size(e), 0
  {
    hide Agree, Related, Placed, NamesOf, AcceptsAll, FreeNamesAll, ConvAll,
         EvalBody, EvalIf, EvalCall, ExecBody, ExecBranch, ExecApply;
    var f := Classify(e);
    var codes := ConvAll(f.parts, places);
    if f.Begin? {
      SimulatesBody(f.parts, env, places, args, free, s, t, rt, fuel);
      ExecBegin(f.parts, places, args, free, t, rt, fuel);
    } else if f.If? {
      SimulatesIf(f.parts, env, places, args, free, s, t, rt, fuel);
      assert Exec(Branch(codes), args, free, t, rt, fuel) == ExecBranch(codes, args, free, t, rt, fuel);
      assert Conv(e, places) == Branch(codes);
    } else {
      SimulatesCall(f.parts, env, places, args, free, s, t, rt, fuel);
      assert Exec(Convert.Apply(codes), args, free, t, rt, fuel) == ExecApply(codes, args, free, t, rt, fuel);
      assert Conv(e, places) == Convert.Apply(codes);
    }
  }

  lemma ExecBegin(parts: seq<Ast>, places: Binding, args: seq<Value>, free: seq<Value>, t: State<TargetProc>,
          rt: Runtime, fuel: nat)
    ensures Exec(if parts == [] then Unspecified else Sequence(ConvAll(parts, places)), args, free, t, rt, fuel) ==
            ExecBody(ConvAll(parts, places), args, free, t, rt, fuel)
  {
    hide Conv;
  }

  lemma {:induction false} SimulatesBinder(e: Ast, env: seq<Frame>, places: Binding, args: seq<Value>, free: seq<Value>,
                                           s: State<SourceProc>, t: State<TargetProc>, rt: Runtime, fuel: nat)
    requires var f := Classify(e); f.DefineVar? || f.DefineFun? || f.Lambda?
    requires Related(s, t) && Accepts(e, NamesOf(env)) && Placed(FreeNames(e), env, places, args, free)
    ensures Agree(Eval(e, env, s, rt, fuel), Exec(Conv(e, places), args, free, t, rt, fuel))
    decreases fuel, Size(e), 0
  {
    hide Agree, Related, Placed, NamesOf, AcceptsAll, FreeNamesAll, ConvFunction, WriteGlobal, NewProcedure, Elements;
    var f := Classify(e);
    if f.DefineVar? {
      Simulates(f.value, env, places, args, free, s, t, rt, fuel);
      WriteAgrees(f.name, Eval(f.value, env, s, rt, fuel), Exec(Conv(f.value, places), args, free, t, rt, fuel));
      assert Conv(e, places) == SetGlobal(f.name, Conv(f.value, places));
    } else {
      ClosureRelated(Names(f.formals), f.body, env, places, args, free, s, t, rt, fuel);
      var code := ConvFunction(Names(f.formals), f.body, places);
      if f.DefineFun? {
        WriteAgrees(f.name, NewProcedure(SourceProc(Names(f.formals), f.body, env), s),
                    Exec(code, args, free, t, rt, fuel));
        assert Conv(e, places) == SetGlobal(f.name, code);
      }
    }
  }

  lemma {:induction false} SimulatesIf(parts: seq<Ast>, env: seq<Frame>, places: Binding, args: seq<Value>,
          free: seq<Value>,
                                       s: State<SourceProc>, t: State<TargetProc>, rt: Runtime, fuel: nat)
    requires 2 <= |parts| <= 3
    requires Related(s, t) && AcceptsAll(parts, NamesOf(env)) && Placed(FreeNamesAll(parts), env, places, args, free)
    ensures Agree(EvalIf(parts, env, s, rt, fuel), ExecBranch(ConvAll(parts, places), args, free, t, rt, fuel))
    decreases fuel, Sizes(parts), 3
  {
    hide Agree, Related, Placed, NamesOf, AcceptsAll, FreeNamesAll, ConvAll, Eval, Exec,
         Conv, Accepts, FreeNames, Sizes, Size;
    var n, all := |parts| - 1, FreeNamesAll(parts);
    PartsOf(parts, 0, NamesOf(env), places);
    PartsOf(parts, 1, NamesOf(env), places);
    PartsOf(parts, n, NamesOf(env), places);
    PlacedPart(FreeNames(parts[0]), all, env, places, args, free);
    PlacedPart(FreeNames(parts[1]), all, env, places, args, free);
    PlacedPart(FreeNames(parts[n]), all, env, places, args, free);
    Simulates(parts[0], env, places, args, free, s, t, rt, fuel);
    var o := Eval(parts[0], env, s, rt, fuel);
    var r := Exec(Conv(parts[0], places), args, free, t, rt, fuel);
    AgreeMeans(o, r);
    if o.Done? {
      Simulates(parts[1], env, places, args, free, o.st, r.st, rt, fuel);
      Simulates(parts[n], env, places, args, free, o.st, r.st, rt, fuel);
      AgreeMeans(Done(Unspec, o.st), Done(Unspec, r.st));
    }
  }

  lemma {:induction false} PartsOf(parts: seq<Ast>, i: nat, visible: set<string>, places: Binding)
    requires i < |parts|
    ensures Size(parts[i]) <= Sizes(parts)
    ensures AcceptsAll(parts, visible) ==> Accepts(parts[i], visible)
    ensures FreeNames(parts[i]) <= FreeNamesAll(parts)
    ensures ConvAll(parts, places)[i] == Conv(parts[i], places)
  {
    if i > 0 {
      PartsOf(parts[1..], i - 1, visible, places);
    }
  }

  lemma {:induction false} SimulatesCall(parts: seq<Ast>, env: seq<Frame>, places: Binding, args: seq<Value>,
          free: seq<Value>,
                                         s: State<SourceProc>, t: State<TargetProc>, rt: Runtime, fuel: nat)
    requires parts != []
    requires Related(s, t) && AcceptsAll(parts, NamesOf(env)) && Placed(FreeNamesAll(parts), env, places, args, free)
    ensures Agree(EvalCall(parts, env, s, rt, fuel), ExecApply(ConvAll(parts, places), args, free, t, rt, fuel))
    decreases fuel, Sizes(parts), 3
  {
    hide Agree, AgreeAll, Related, ProcRelated, Placed, NamesOf, IsFunction, CallBuiltin, Bind;
    hide Eval, EvalAll, EvalBody, Exec, ExecAll, Conv, Accepts, FreeNames, Size;
    var rest := parts[1..];
    PlacedPart(FreeNames(parts[0]), FreeNamesAll(parts), env, places, args, free);
    PlacedPart(FreeNamesAll(rest), FreeNamesAll(parts), env, places, args, free);
    Simulates(parts[0], env, places, args, free, s, t, rt, fuel);
    var o := Eval(parts[0], env, s, rt, fuel);
    var r := Exec(Conv(parts[0], places), args, free, t, rt, fuel);
    AgreeMeans(o, r);
    assert ConvAll(parts, places)[1..] == ConvAll(rest, places);
    if o.Done? {
      RelatedProcs(o.st, r.st, o.v);
      if IsFunction(o.v, o.st) {
        SimulatesAll(rest, env, places, args, free, o.st, r.st, rt, fuel);
        SimulatesEach(o.v, EvalAll(rest, env, o.st, rt, fuel),
                       ExecAll(ConvAll(rest, places), args, free, r.st, rt, fuel), rt, fuel);
      } else {
        AgreeMeans(Fail(NotAFunction, o.st), Fail(NotAFunction, r.st));
      }
    }
  }

  /** The operands being done, the call itself. */
  lemma {:induction false} SimulatesEach(f: Value, os: Outcomes<SourceProc>, rs: Outcomes<TargetProc>, rt: Runtime,
          fuel: nat)
    requires AgreeAll(os, rs)
    ensures Agree(EnterSource(f, os, rt, fuel), EnterTarget(f, rs, rt, fuel))
    decreases fuel, 0, 1
  {
    hide Agree, AgreeAll, Related, ProcRelated, CallBuiltin, Bind, EvalBody, Exec;
    AgreeAllMeans(os, rs);
    if os.OneFail? {
      AgreeMeans(Fail(os.error, os.st), Fail(rs.error, rs.st));
    } else if os.OneTimeout? {
      AgreeMeans(Timeout, Timeout);
    } else {
      RelatedProcs(os.st, rs.st, f);
      AgreeMeans(Timeout, Timeout);
      AgreeMeans(Fail(Stuck, os.st), Fail(Stuck, rs.st));
      AgreeMeans(Fail(ArgumentCount, os.st), Fail(ArgumentCount, rs.st));
      if f.Builtin? {
        BuiltinAgrees(rt, f.name, os.vs, os.st, rs.st);
      } else if f.Procedure? && fuel > 0 && f.id < |os.st.procs| {
        SimulatesEntry(os.st.procs[f.id], rs.st.procs[f.id], os.vs, os.st, rs.st, rt, fuel);
      }
    }
  }

  lemma {:induction false} SimulatesEntry(p: SourceProc, q: TargetProc, actuals: seq<Value>,
                                          s: State<SourceProc>, t: State<TargetProc>, rt: Runtime, fuel: nat)
    requires Related(s, t) && ProcRelated(p, q) && fuel > 0
    ensures CountOk(|p.formals|, |actuals|) ==>
              Agree(EvalBody(p.body, p.env + [Bind(p.formals, actuals)], s, rt, fuel - 1),
                    Exec(q.body, actuals, q.free, t, rt, fuel - 1))
    decreases fuel, 0, 0
  {
    hide *;
    if CountOk(|p.formals|, |actuals|) {
      Entered(p, q, actuals);
      var places := Places(p.formals, Captured(p.formals, p.body, NamesOf(p.env)));
      SimulatesBody(p.body, p.env + [Bind(p.formals, actuals)], places, actuals, q.free, s, t, rt, fuel - 1);
      ExecSequence(ConvAll(p.body, places), actuals, q.free, t, rt, fuel - 1);
    }
  }

  lemma {:induction false} SimulatesBody(es: seq<Ast>, env: seq<Frame>, places: Binding, args: seq<Value>,
          free: seq<Value>,
                                         s: State<SourceProc>, t: State<TargetProc>, rt: Runtime, fuel: nat)
    requires Related(s, t) && AcceptsAll(es, NamesOf(env)) && Placed(FreeNamesAll(es), env, places, args, free)
    ensures Agree(EvalBody(es, env, s, rt, fuel), ExecBody(ConvAll(es, places), args, free, t, rt, fuel))
    decreases fuel, Sizes(es), 2
  {
    if es != [] {
      Simulates(es[0], env, places, args, free, s, t, rt, fuel);
      assert ConvAll(es, places)[1..] == ConvAll(es[1..], places);
      var o := Eval(es[0], env, s, rt, fuel);
      if |es| > 1 && o.Done? {
        var r := Exec(Conv(es[0], places), args, free, t, rt, fuel);
        SimulatesBody(es[1..], env, places, args, free, o.st, r.st, rt, fuel);
      }
    }
  }

  lemma {:induction false} SimulatesAll(es: seq<Ast>, env: seq<Frame>, places: Binding, args: seq<Value>,
          free: seq<Value>,
                                        s: State<SourceProc>, t: State<TargetProc>, rt: Runtime, fuel: nat)
    requires Related(s, t) && AcceptsAll(es, NamesOf(env)) && Placed(FreeNamesAll(es), env, places, args, free)
    ensures AgreeAll(EvalAll(es, env, s, rt, fuel), ExecAll(ConvAll(es, places), args, free, t, rt, fuel))
    decreases fuel, Sizes(es), 2
  {
    if es != [] {
      Simulates(es[0], env, places, args, free, s, t, rt, fuel);
      assert ConvAll(es, places)[1..] == ConvAll(es[1..], places);
      var o := Eval(es[0], env, s, rt, fuel);
      if o.Done? {
        var r := Exec(Conv(es[0], places), args, free, t, rt, fuel);
        SimulatesAll(es[1..], env, places, args, free, o.st, r.st, rt, fuel);
      }
    }
  }

  // ---- whole programs ---------------------------------------------------------------------------

  /** Before a program runs: builtins and library definitions, no procedures yet. */
  function Start<P>(globals: map<string, Value>, heap: Heap): State<P> {
    State(globals, heap, [])
  }

  lemma ConversionPreservesMeaning(e: Ast, globals: map<string, Value>, heap: Heap, rt: Runtime, fuel: nat)
    requires Accepts(e, {})
    ensures Agree(Eval(e, [], Start(globals, heap), rt, fuel),
                  Exec(Conv(e, map[]), [], [], Start(globals, heap), rt, fuel))
  {
    assert NamesOf([]) == {};
    Simulates(e, [], map[], [], [], Start(globals, heap), Start(globals, heap), rt, fuel);
  }

  /** Compiling a program in a new environment: exactly the accepted ones compile, no
      placeholder survives, and the code means what the program means. */
  method CompileProgram(e: Ast) returns (r: Result<Code>)
    ensures r.Ok? <==> Accepts(e, {})
    ensures r.Ok? ==> r.value == Conv(e, map[]) && Closed(r.value) && WellScoped(r.value, 0, 0)
    ensures r.Ok? ==> forall globals, heap, rt, fuel ::
      Agree(Eval(e, [], Start(globals, heap), rt, fuel), Exec(r.value, [], [], Start(globals, heap), rt, fuel))
  {
    var eenv := new ExecutionEnv();
    assert Visible([]) == {};
    r := CodeGenEval(eenv, e);
    if r.Ok? {
      assert eenv.lexical[0] == map[];
      ConvIsClosed(e, map[]);
      ConvScopedExactly(e, map[], 0, 0);
      forall globals, heap, rt, fuel
        ensures Agree(Eval(e, [], Start(globals, heap), rt, fuel),
                      Exec(r.value, [], [], Start(globals, heap), rt, fuel))
      {
        ConversionPreservesMeaning(e, globals, heap, rt, fuel);
      }
    }
  }
}
