// The language: what each form of a program does, said of the forms as they are written, and what
// that means for the code the compiler makes of them. The evaluator of module Semantics obeys
// these laws, and by the simulation so does compiled code.
module Laws {
  import opened Syntax
  import opened KeyOrder
  import opened Convert
  import opened Semantics
  import opened Preservation

  function Form(keyword: string, parts: seq<Ast>, dotted: bool): Ast { SExpr([Symbol(keyword)] + parts, dotted) }

  // ---- names ------------------------------------------------------------------------------------

  /** A name stands for what the innermost function that binds it was given, else for the global. */
  lemma SymbolLaw(x: string, env: seq<Frame>, f: Frame, st: State<SourceProc>, rt: Runtime, fuel: nat)
    ensures x in f ==> Eval(Symbol(x), env + [f], st, rt, fuel) == Done(f[x], st)
    ensures x !in f ==> Eval(Symbol(x), env + [f], st, rt, fuel) == Eval(Symbol(x), env, st, rt, fuel)
    ensures x in st.globals ==> Eval(Symbol(x), [], st, rt, fuel) == Done(st.globals[x], st)
    ensures x !in st.globals ==> Eval(Symbol(x), [], st, rt, fuel) == Fail(Unbound(x), st)
  {
    var inner := env + [f];
    assert inner[..|inner| - 1] == env;
  }

  /** A name that no function binds. */
  lemma {:induction false} GlobalLaw(x: string, env: seq<Frame>, st: State<SourceProc>, rt: Runtime, fuel: nat)
    requires forall i :: 0 <= i < |env| ==> x !in env[i]
    ensures Eval(Symbol(x), env, st, rt, fuel) == Eval(Symbol(x), [], st, rt, fuel)
  {
    if env != [] {
      var outer := env[..|env| - 1];
      GlobalLaw(x, outer, st, rt, fuel);
      SymbolLaw(x, outer, env[|env| - 1], st, rt, fuel);
      assert outer + [env[|env| - 1]] == env;
    }
  }

  /** define stores the value in the global of that name, and changes nothing else. */
  lemma DefineLaw(x: string, e: Ast, dotted: bool, env: seq<Frame>, st: State<SourceProc>, rt: Runtime, fuel: nat)
    ensures var o := Eval(e, env, st, rt, fuel);
            Eval(Form("define", [Symbol(x), e], dotted), env, st, rt, fuel) ==
            if o.Done? then Done(Unspec, State(o.st.globals[x := o.v], o.st.heap, o.st.procs)) else o
  {
    assert Classify(Form("define", [Symbol(x), e], dotted)) == DefineVar(x, e);
  }

  /** (define (f . formals) body) is (define f (lambda formals body)). */
  lemma DefineFunctionLaw(f: string, formals: seq<Ast>, body: seq<Ast>, dotted: bool, inner: bool,
                          env: seq<Frame>, st: State<SourceProc>, rt: Runtime, fuel: nat)
    requires body != []
    ensures Eval(Form("define", [SExpr([Symbol(f)] + formals, inner)] + body, dotted), env, st, rt, fuel) ==
            Eval(Form("define", [Symbol(f), Form("lambda", [SExpr(formals, inner)] + body, dotted)], dotted),
                 env, st, rt, fuel)
  {
    var head := SExpr([Symbol(f)] + formals, inner);
    var lambda := Form("lambda", [SExpr(formals, inner)] + body, dotted);
    FormParts("define", head, body, dotted);
    FormParts("lambda", SExpr(formals, inner), body, dotted);
    assert ([Symbol(f)] + formals)[1..] == formals;
    assert Classify(Form("define", [head] + body, dotted)) == DefineFun(f, formals, body);
    assert Classify(lambda) == Lambda(formals, body);
    assert Classify(Form("define", [Symbol(f), lambda], dotted)) == DefineVar(f, lambda);
  }

  lemma FormParts(keyword: string, first: Ast, more: seq<Ast>, dotted: bool)
    ensures var args := Form(keyword, [first] + more, dotted).args;
            args[0] == Symbol(keyword) && args[1] == first && args[2..] == more && |args| == 2 + |more|
  {
  }

  // ---- constants --------------------------------------------------------------------------------

  /** Constants, quoted data and () are made by the runtime; nothing else happens. */
  lemma ConstantLaw(d: Ast, dotted: bool, env: seq<Frame>, st: State<SourceProc>, rt: Runtime, fuel: nat)
    ensures var (v, h) := rt.datum(d, st.heap);
            && Eval(Form("quote", [d], dotted), env, st, rt, fuel) == Done(v, State(st.globals, h, st.procs))
            && (d.Number? || d.Boolean? || d.Str? || (d.SExpr? && d.args == []) ==>
                  Eval(d, env, st, rt, fuel) == Done(v, State(st.globals, h, st.procs)))
  {
    assert Classify(Form("quote", [d], dotted)) == Quote(d);
  }

  // ---- control ----------------------------------------------------------------------------------

  /** if takes its second part unless the test is #f, and then the third, if there is one. */
  lemma IfLaw(test: Ast, first: Ast, second: seq<Ast>, dotted: bool,
              env: seq<Frame>, st: State<SourceProc>, rt: Runtime, fuel: nat)
    requires |second| <= 1
    ensures var o := Eval(test, env, st, rt, fuel);
            Eval(Form("if", [test, first] + second, dotted), env, st, rt, fuel) ==
            if !o.Done? then o
            else if o.v != Bool(false) then Eval(first, env, o.st, rt, fuel)
            else if second == [] then Done(Unspec, o.st)
            else Eval(second[0], env, o.st, rt, fuel)
  {
    hide Classify;
    var parts := [test, first] + second;
    IfForm(parts, dotted);
    assert parts[0] == test && parts[1] == first && (second != [] ==> parts[2] == second[0]);
  }

  lemma IfForm(parts: seq<Ast>, dotted: bool)
    requires 2 <= |parts| <= 3
    ensures Classify(Form("if", parts, dotted)) == If(parts)
  {
    assert Form("if", parts, dotted).args[1..] == parts;
  }

  /** begin runs its parts in order, up to the first that does not finish, and has the value of the
      last. */
  lemma BeginLaw(e: Ast, more: seq<Ast>, env: seq<Frame>, st: State<SourceProc>, rt: Runtime, fuel: nat)
    ensures Eval(Form("begin", [], false), env, st, rt, fuel) == Done(Unspec, st)
    ensures var o := Eval(e, env, st, rt, fuel);
            Eval(Form("begin", [e] + more, false), env, st, rt, fuel) ==
            if more == [] || !o.Done? then o else Eval(Form("begin", more, false), env, o.st, rt, fuel)
  {
    hide Classify;
    BeginForm([]);
    BeginForm([e] + more);
    BeginForm(more);
    assert ([e] + more)[1..] == more;
  }

  lemma BeginForm(parts: seq<Ast>)
    ensures Classify(Form("begin", parts, false)) == Begin(parts, false)
  {
    assert Form("begin", parts, false).args[1..] == parts;
  }

  // ---- procedures -------------------------------------------------------------------------------

  function Symbols(names: seq<string>): (es: seq<Ast>)
    ensures |es| == |names| && forall i :: 0 <= i < |es| ==> es[i] == Symbol(names[i])
  {
    seq(|names|, i requires 0 <= i < |names| => Symbol(names[i]))
  }

  /** lambda makes a new procedure with these parameters, this body and the frames around it. */
  lemma LambdaLaw(names: seq<string>, body: seq<Ast>, dotted: bool, inner: bool,
                  env: seq<Frame>, st: State<SourceProc>, rt: Runtime, fuel: nat)
    requires body != []
    ensures Eval(Form("lambda", [SExpr(Symbols(names), inner)] + body, dotted), env, st, rt, fuel) ==
            Done(Procedure(|st.procs|), State(st.globals, st.heap, st.procs + [SourceProc(names, body, env)]))
  {
    var formals := Symbols(names);
    FormParts("lambda", SExpr(formals, inner), body, dotted);
    assert Names(formals) == names by {
      assert AllSymbols(formals);
      assert |Names(formals)| == |names|;
    }
    assert Classify(Form("lambda", [SExpr(formals, inner)] + body, dotted)) == Lambda(formals, body);
  }

  /** A form that is a call: no keyword in front. */
  predicate IsCall(op: Ast) { op.SExpr? || (op.Symbol? && op.name !in ["begin", "define", "lambda", "quote", "if"]) }

  /** The operator is evaluated first. If it is no procedure the operands are not touched. */
  lemma OperatorLaw(op: Ast, operands: seq<Ast>, dotted: bool, env: seq<Frame>, st: State<SourceProc>, rt: Runtime,
                    fuel: nat)
    requires IsCall(op)
    ensures var f := Eval(op, env, st, rt, fuel);
            var r := Eval(SExpr([op] + operands, dotted), env, st, rt, fuel);
            && (!f.Done? ==> r == f)
            && (f.Done? && !(f.v.Builtin? || (f.v.Procedure? && f.v.id < |f.st.procs|)) ==>
                  r == Fail(NotAFunction, f.st))
  {
    hide Eval;
    CallIs(op, operands, dotted, env, st, rt, fuel);
  }

  lemma CallIs(op: Ast, operands: seq<Ast>, dotted: bool, env: seq<Frame>, st: State<SourceProc>, rt: Runtime,
               fuel: nat)
    requires IsCall(op)
    ensures var f := Eval(op, env, st, rt, fuel);
            Eval(SExpr([op] + operands, dotted), env, st, rt, fuel) ==
            if !f.Done? then f
            else if !IsFunction(f.v, f.st) then Fail(NotAFunction, f.st)
            else EnterSource(f.v, EvalAll(operands, env, f.st, rt, fuel), rt, fuel)
  {
    hide Classify, EnterSource, EvalAll;
    CallForm(op, operands, dotted);
    var parts := [op] + operands;
    assert parts[0] == op && parts[1..] == operands;
    assert Eval(SExpr(parts, dotted), env, st, rt, fuel) == EvalCall(parts, env, st, rt, fuel);
  }

  lemma CallForm(op: Ast, operands: seq<Ast>, dotted: bool)
    requires IsCall(op)
    ensures Classify(SExpr([op] + operands, dotted)) == Call([op] + operands)
  {
  }

  /** Operands are evaluated from left to right, up to the first that does not finish. */
  lemma OperandsLaw(e: Ast, more: seq<Ast>, env: seq<Frame>, st: State<SourceProc>, rt: Runtime, fuel: nat)
    ensures EvalAll([], env, st, rt, fuel) == AllDone([], st)
    ensures EvalAll([e] + more, env, st, rt, fuel) ==
            var o := Eval(e, env, st, rt, fuel);
            if o.Fail? then OneFail(o.error, o.st)
            else if o.Timeout? then OneTimeout
            else
              var os := EvalAll(more, env, o.st, rt, fuel);
              if os.AllDone? then AllDone([o.v] + os.vs, os.st) else os
  {
    hide Eval;
    assert ([e] + more)[1..] == more;
  }

  /** A call of a builtin, its operands done: the runtime decides. */
  lemma BuiltinLaw(op: Ast, operands: seq<Ast>, dotted: bool, env: seq<Frame>, st: State<SourceProc>, rt: Runtime,
                   fuel: nat)
    requires IsCall(op) && Eval(op, env, st, rt, fuel).Done? && Eval(op, env, st, rt, fuel).v.Builtin?
    ensures var f := Eval(op, env, st, rt, fuel);
            Eval(SExpr([op] + operands, dotted), env, st, rt, fuel) ==
            var os := EvalAll(operands, env, f.st, rt, fuel);
            if os.OneFail? then Fail(os.error, os.st)
            else if os.OneTimeout? then Timeout
            else
              var b := rt.builtin(f.v.name, os.vs, os.st.heap);
              var s := State(os.st.globals, b.heap, os.st.procs);
              if b.Returned? then Done(b.v, s) else Fail(InBuiltin, s)
  {
    hide Eval, EvalAll;
    CallIs(op, operands, dotted, env, st, rt, fuel);
  }

  /** Procedures stay what they are, and where they are. */
  predicate Kept(s: State<SourceProc>, t: State<SourceProc>) {
    |s.procs| <= |t.procs| && t.procs[..|s.procs|] == s.procs
  }

  predicate Keeps(s: State<SourceProc>, o: Outcome<SourceProc>) { o.Timeout? || Kept(s, o.st) }

  predicate AllKeep(s: State<SourceProc>, os: Outcomes<SourceProc>) { os.OneTimeout? || Kept(s, os.st) }

  lemma KeptTogether(s: State<SourceProc>, t: State<SourceProc>, u: State<SourceProc>)
    requires Kept(s, t) && Kept(t, u)
    ensures Kept(s, u)
  {
    assert u.procs[..|s.procs|] == u.procs[..|t.procs|][..|s.procs|];
  }

  lemma {:induction false} ProceduresStay(e: Ast, env: seq<Frame>, st: State<SourceProc>, rt: Runtime, fuel: nat)
    ensures Keeps(st, Eval(e, env, st, rt, fuel))
    decreases fuel, Size(e), 1
  {
    hide Classify;
    match Classify(e)
    case Begin(parts, _) => BodyKeeps(parts, env, st, rt, fuel);
    case If(parts) => IfKeeps(parts, env, st, rt, fuel);
    case Call(parts) => CallKeeps(parts, env, st, rt, fuel);
    case DefineVar(x, value) => ProceduresStay(value, env, st, rt, fuel);
    case _ =>
  }

  lemma {:induction false} IfKeeps(parts: seq<Ast>, env: seq<Frame>, st: State<SourceProc>, rt: Runtime, fuel: nat)
    requires 2 <= |parts| <= 3
    ensures Keeps(st, EvalIf(parts, env, st, rt, fuel))
    decreases fuel, Sizes(parts), 3
  {
    hide Kept, Eval;
    SizesAt(parts, 0);
    SizesAt(parts, 1);
    SizesAt(parts, |parts| - 1);
    ProceduresStay(parts[0], env, st, rt, fuel);
    var test := Eval(parts[0], env, st, rt, fuel);
    if test.Done? && (test.v != Bool(false) || |parts| == 3) {
      var part := if test.v != Bool(false) then parts[1] else parts[2];
      ProceduresStay(part, env, test.st, rt, fuel);
      var o := Eval(part, env, test.st, rt, fuel);
      if !o.Timeout? { KeptTogether(st, test.st, o.st); }
    }
  }

  lemma {:induction false} CallKeeps(parts: seq<Ast>, env: seq<Frame>, st: State<SourceProc>, rt: Runtime, fuel: nat)
    requires parts != []
    ensures Keeps(st, EvalCall(parts, env, st, rt, fuel))
    decreases fuel, Sizes(parts), 3
  {
    hide Kept, Eval, EvalAll;
    ProceduresStay(parts[0], env, st, rt, fuel);
    var f := Eval(parts[0], env, st, rt, fuel);
    if f.Done? {
      AllKept(parts[1..], env, f.st, rt, fuel);
      var os := EvalAll(parts[1..], env, f.st, rt, fuel);
      EntryKeeps(f.v, os, rt, fuel);
      var o := EnterSource(f.v, os, rt, fuel);
      if !os.OneTimeout? { KeptTogether(st, f.st, os.st); }
      if !os.OneTimeout? && !o.Timeout? { KeptTogether(st, os.st, o.st); }
    }
  }

  lemma {:induction false} EntryKeeps(f: Value, os: Outcomes<SourceProc>, rt: Runtime, fuel: nat)
    ensures os.OneTimeout? ==> EnterSource(f, os, rt, fuel).Timeout?
    ensures !os.OneTimeout? ==> Keeps(os.st, EnterSource(f, os, rt, fuel))
    decreases fuel, 0, 0
  {
    hide Eval, EvalBody;
    if os.AllDone? && !f.Builtin? && fuel > 0 && f.Procedure? && f.id < |os.st.procs| {
      var p := os.st.procs[f.id];
      if CountOk(|p.formals|, |os.vs|) {
        BodyKeeps(p.body, p.env + [Bind(p.formals, os.vs)], os.st, rt, fuel - 1);
      }
    }
  }

  lemma {:induction false} BodyKeeps(es: seq<Ast>, env: seq<Frame>, st: State<SourceProc>, rt: Runtime, fuel: nat)
    ensures Keeps(st, EvalBody(es, env, st, rt, fuel))
    decreases fuel, Sizes(es), 2
  {
    hide Eval;
    if es != [] {
      ProceduresStay(es[0], env, st, rt, fuel);
      var o := Eval(es[0], env, st, rt, fuel);
      if |es| > 1 && o.Done? {
        BodyKeeps(es[1..], env, o.st, rt, fuel);
        var r := EvalBody(es[1..], env, o.st, rt, fuel);
        if !r.Timeout? { KeptTogether(st, o.st, r.st); }
      }
    }
  }

  lemma {:induction false} AllKept(es: seq<Ast>, env: seq<Frame>, st: State<SourceProc>, rt: Runtime, fuel: nat)
    ensures AllKeep(st, EvalAll(es, env, st, rt, fuel))
    decreases fuel, Sizes(es), 2
  {
    hide Eval;
    if es != [] {
      ProceduresStay(es[0], env, st, rt, fuel);
      var o := Eval(es[0], env, st, rt, fuel);
      if o.Done? {
        AllKept(es[1..], env, o.st, rt, fuel);
        var os := EvalAll(es[1..], env, o.st, rt, fuel);
        if !os.OneTimeout? { KeptTogether(st, o.st, os.st); }
      }
    }
  }

  /** In a frame each parameter has the argument of its first place, and nothing else is bound. */
  predicate Frames(frame: Frame, formals: seq<string>, args: seq<Value>)
    requires |formals| == |args|
  {
    && (forall x :: x in frame ==> x in formals)
    && (forall i :: 0 <= i < |formals| && formals[i] !in formals[..i] ==>
          formals[i] in frame && frame[formals[i]] == args[i])
  }

  /** A call of a procedure, its operands done. With parameters, the count must be theirs; without,
      any count is taken. The body runs with the parameters in one more frame. */
  lemma ProcedureLaw(op: Ast, operands: seq<Ast>, dotted: bool, env: seq<Frame>, st: State<SourceProc>, rt: Runtime,
                     fuel: nat) returns (frame: Frame)
    requires IsCall(op) && Eval(op, env, st, rt, fuel).Done? && fuel > 0
    requires var f := Eval(op, env, st, rt, fuel);
             f.v.Procedure? && f.v.id < |f.st.procs| && EvalAll(operands, env, f.st, rt, fuel).AllDone?
    ensures var f := Eval(op, env, st, rt, fuel);
            var os := EvalAll(operands, env, f.st, rt, fuel);
            var p := f.st.procs[f.v.id];
            var r := Eval(SExpr([op] + operands, dotted), env, st, rt, fuel);
            if |p.formals| > 0 && |p.formals| != |os.vs| then r == Fail(ArgumentCount, os.st)
            else
              && Frames(frame, p.formals, if p.formals == [] then [] else os.vs)
              && r == Eval(Form("begin", p.body, false), p.env + [frame], os.st, rt, fuel - 1)
  {
    hide EvalAll, EvalBody, Classify, Kept;
    CallIs(op, operands, dotted, env, st, rt, fuel);
    var f := Eval(op, env, st, rt, fuel);
    var os := EvalAll(operands, env, f.st, rt, fuel);
    AllKept(operands, env, f.st, rt, fuel);
    KeptAt(f.st, os.st, f.v.id);
    var p := f.st.procs[f.v.id];
    BeginForm(p.body);
    frame := map[];
    if CountOk(|p.formals|, |os.vs|) {
      frame := Bind(p.formals, os.vs);
      BindFrames(p.formals, os.vs);
    }
  }

  lemma KeptAt(s: State<SourceProc>, t: State<SourceProc>, id: nat)
    requires Kept(s, t) && id < |s.procs|
    ensures id < |t.procs| && t.procs[id] == s.procs[id]
  {
    assert t.procs[..|s.procs|][id] == t.procs[id];
  }

  lemma BindFrames(formals: seq<string>, args: seq<Value>)
    requires CountOk(|formals|, |args|)
    ensures formals == [] || |formals| == |args|
    ensures Frames(Bind(formals, args), formals, if formals == [] then [] else args)
  {
    forall i | 0 <= i < |formals| && formals[i] !in formals[..i]
      ensures Position(formals, formals[i]) == i
    {
      FirstPosition(formals, i);
    }
  }

  lemma FirstPosition(s: seq<string>, i: nat)
    requires i < |s| && s[i] !in s[..i]
    ensures Position(s, s[i]) == i
  {
  }

  /** ((lambda names body) operands) */
  function Applied(names: seq<string>, body: seq<Ast>, operands: seq<Ast>): Ast {
    SExpr([Form("lambda", [SExpr(Symbols(names), false)] + body, false)] + operands, false)
  }

  /** A lambda called where it stands. */
  lemma AppliedLaw(names: seq<string>, body: seq<Ast>, operands: seq<Ast>, env: seq<Frame>, st: State<SourceProc>,
                   rt: Runtime, fuel: nat) returns (frame: Frame)
    requires body != [] && fuel > 0
    ensures var made := State(st.globals, st.heap, st.procs + [SourceProc(names, body, env)]);
            var os := EvalAll(operands, env, made, rt, fuel);
            os.AllDone? ==>
              var r := Eval(Applied(names, body, operands), env, st, rt, fuel);
              if names != [] && |names| != |operands| then r == Fail(ArgumentCount, os.st)
              else
                && (names == [] || |os.vs| == |names|)
                && Frames(frame, names, if names == [] then [] else os.vs)
                && r == Eval(Form("begin", body, false), env + [frame], os.st, rt, fuel - 1)
  {
    hide Eval, EvalAll;
    var op := Form("lambda", [SExpr(Symbols(names), false)] + body, false);
    LambdaLaw(names, body, false, false, env, st, rt, fuel);
    var f := Eval(op, env, st, rt, fuel);
    var os := EvalAll(operands, env, f.st, rt, fuel);
    frame := map[];
    if os.AllDone? {
      CountKept(operands, env, f.st, rt, fuel);
      frame := ProcedureLaw(op, operands, false, env, st, rt, fuel);
    }
  }

  /** As many operands are done as there are. */
  lemma {:induction false} CountKept(es: seq<Ast>, env: seq<Frame>, st: State<SourceProc>, rt: Runtime, fuel: nat)
    ensures var os := EvalAll(es, env, st, rt, fuel); os.AllDone? ==> |os.vs| == |es|
    decreases |es|
  {
    hide Eval;
    if es != [] {
      var o := Eval(es[0], env, st, rt, fuel);
      if o.Done? { CountKept(es[1..], env, o.st, rt, fuel); }
    }
  }

  // ---- what the compiler accepts ----------------------------------------------------------------

  predicate EachAccepted(es: seq<Ast>, visible: set<string>) {
    forall i :: 0 <= i < |es| ==> Accepts(es[i], visible)
  }

  lemma {:induction false} EachIsAll(es: seq<Ast>, visible: set<string>)
    ensures AcceptsAll(es, visible) <==> EachAccepted(es, visible)
    decreases |es|
  {
    hide Accepts;
    if es != [] {
      EachIsAll(es[1..], visible);
      assert forall i :: 1 <= i < |es| ==> es[i] == es[1..][i - 1];
      if EachAccepted(es, visible) {
        assert forall i :: 0 <= i < |es[1..]| ==> es[1..][i] == es[i + 1];
      }
    }
  }

  /** Constants, names and () are accepted. */
  lemma AcceptedAtoms(e: Ast, visible: set<string>)
    requires !e.SExpr? || e.args == []
    ensures Accepts(e, visible)
  {
  }

  /** begin takes any parts and no point. */
  lemma AcceptedBegin(parts: seq<Ast>, dotted: bool, visible: set<string>)
    ensures Accepts(Form("begin", parts, dotted), visible) <==> !dotted && EachAccepted(parts, visible)
  {
    var e := Form("begin", parts, dotted);
    assert e.args[1..] == parts && Classify(e) == Begin(parts, dotted);
    EachIsAll(parts, visible);
  }

  /** if takes two or three parts. */
  lemma AcceptedIf(parts: seq<Ast>, dotted: bool, visible: set<string>)
    ensures Accepts(Form("if", parts, dotted), visible) <==> 2 <= |parts| <= 3 && EachAccepted(parts, visible)
  {
    var e := Form("if", parts, dotted);
    assert e.args[1..] == parts && |e.args| == |parts| + 1;
    assert 2 <= |parts| <= 3 ==> Classify(e) == If(parts);
    assert !(2 <= |parts| <= 3) ==> Classify(e).Malformed?;
    EachIsAll(parts, visible);
  }

  /** quote takes one datum. */
  lemma AcceptedQuote(parts: seq<Ast>, dotted: bool, visible: set<string>)
    ensures Accepts(Form("quote", parts, dotted), visible) <==> |parts| == 1 && Quotable(parts[0])
  {
    var e := Form("quote", parts, dotted);
    assert |e.args| == |parts| + 1 && (parts != [] ==> e.args[1] == parts[0]);
    assert |parts| == 1 ==> Classify(e) == Quote(parts[0]);
    assert |parts| != 1 ==> Classify(e).Malformed?;
  }

  /** A function takes symbols as parameters, and a body that is accepted where they are visible. */
  predicate FunctionAccepted(formals: seq<Ast>, body: seq<Ast>, visible: set<string>) {
    && (forall i :: 0 <= i < |formals| ==> formals[i].Symbol?)
    && EachAccepted(body, visible + (set f | f in formals && f.Symbol? :: f.name))
  }

  lemma FunctionIs(formals: seq<Ast>, body: seq<Ast>, visible: set<string>)
    ensures AcceptsFunction(formals, body, visible) <==> FunctionAccepted(formals, body, visible)
  {
    hide AcceptsAll, EachAccepted;
    if AllSymbols(formals) {
      var own := set f | f in formals && f.Symbol? :: f.name;
      assert |Names(formals)| == |formals|;
      forall x ensures x in own <==> x in Elements(Names(formals)) {
        if x in own {
          var i :| 0 <= i < |formals| && formals[i].name == x;
          assert Names(formals)[i] == x;
        }
        if x in Elements(Names(formals)) {
          var i :| 0 <= i < |Names(formals)| && Names(formals)[i] == x;
          assert formals[i] in formals;
        }
      }
      EachIsAll(body, visible + own);
      assert own == Elements(Names(formals));
    }
  }

  /** lambda takes a list of parameters and a body. */
  lemma AcceptedLambda(parts: seq<Ast>, dotted: bool, visible: set<string>)
    ensures Accepts(Form("lambda", parts, dotted), visible) <==>
            |parts| >= 2 && parts[0].SExpr? && FunctionAccepted(parts[0].args, parts[1..], visible)
  {
    hide FunctionAccepted, AcceptsFunction;
    var e := Form("lambda", parts, dotted);
    assert |e.args| == |parts| + 1 && (parts != [] ==> e.args[1] == parts[0] && e.args[2..] == parts[1..]);
    if |parts| >= 2 && parts[0].SExpr? {
      assert Classify(e) == Lambda(parts[0].args, parts[1..]);
      FunctionIs(parts[0].args, parts[1..], visible);
    } else {
      assert Classify(e).Malformed?;
    }
  }

  /** define takes a name and a value, or a name with parameters and a body; the name must not be a
      visible parameter. */
  lemma AcceptedDefine(parts: seq<Ast>, dotted: bool, visible: set<string>)
    ensures Accepts(Form("define", parts, dotted), visible) <==>
            && |parts| >= 2
            && if parts[0].Symbol? then |parts| == 2 && parts[0].name !in visible && Accepts(parts[1], visible)
               else
                 && parts[0].SExpr? && parts[0].args != [] && parts[0].args[0].Symbol?
                 && parts[0].args[0].name !in visible
                 && FunctionAccepted(parts[0].args[1..], parts[1..], visible)
  {
    hide FunctionAccepted, AcceptsFunction;
    var e := Form("define", parts, dotted);
    assert |e.args| == |parts| + 1 && (parts != [] ==> e.args[1] == parts[0] && e.args[2..] == parts[1..]);
    if |parts| >= 2 && parts[0].Symbol? {
      assert |parts| == 2 ==> Classify(e) == DefineVar(parts[0].name, parts[1]);
      assert |parts| != 2 ==> Classify(e).Malformed?;
    } else if |parts| >= 2 && parts[0].SExpr? && parts[0].args != [] && parts[0].args[0].Symbol? {
      assert Classify(e) == DefineFun(parts[0].args[0].name, parts[0].args[1..], parts[1..]);
      FunctionIs(parts[0].args[1..], parts[1..], visible);
    } else {
      assert Classify(e).Malformed?;
    }
  }

  /** A call has a name or a form in front, and everything in it is accepted. */
  lemma AcceptedCall(op: Ast, operands: seq<Ast>, dotted: bool, visible: set<string>)
    requires !op.Symbol? || op.name !in ["begin", "define", "lambda", "quote", "if"]
    ensures Accepts(SExpr([op] + operands, dotted), visible) <==>
            (op.Symbol? || op.SExpr?) && Accepts(op, visible) && EachAccepted(operands, visible)
  {
    var e := SExpr([op] + operands, dotted);
    assert e.args[0] == op;
    if op.Symbol? || op.SExpr? {
      CallForm(op, operands, dotted);
      FirstAccepted(op, operands, visible);
      EachIsAll(operands, visible);
    } else {
      assert Classify(e).Malformed?;
    }
  }

  // ---- compiled code ----------------------------------------------------------------------------

  /** What a program means, and what its code does. */
  function Meant(e: Ast, globals: map<string, Value>, heap: Heap, rt: Runtime, fuel: nat): Outcome<SourceProc> {
    Eval(e, [], State(globals, heap, []), rt, fuel)
  }

  function Ran(e: Ast, globals: map<string, Value>, heap: Heap, rt: Runtime, fuel: nat): Outcome<TargetProc> {
    Exec(Conv(e, map[]), [], [], State(globals, heap, []), rt, fuel)
  }

  /** Value or error, globals, objects and output are the same. */
  predicate SameResult(o: Outcome<SourceProc>, r: Outcome<TargetProc>) {
    && (o.Done? <==> r.Done?) && (o.Fail? <==> r.Fail?)
    && (o.Done? ==> r.v == o.v && r.st.globals == o.st.globals && r.st.heap == o.st.heap)
    && (o.Fail? ==> r.error == o.error && r.st.globals == o.st.globals && r.st.heap == o.st.heap)
  }

  lemma CodeMeans(e: Ast, globals: map<string, Value>, heap: Heap, rt: Runtime, fuel: nat)
    requires Accepts(e, {})
    ensures SameResult(Meant(e, globals, heap, rt, fuel), Ran(e, globals, heap, rt, fuel))
  {
    hide Eval, Exec, ProcRelated;
    ConversionPreservesMeaning(e, globals, heap, rt, fuel);
  }

  /** The code of (begin (define x e) x) has the value that e has, which is in the global x then;
      all other globals and objects are as e left them. */
  lemma DefinedIsUsed(x: string, e: Ast, globals: map<string, Value>, heap: Heap, rt: Runtime, fuel: nat)
    requires Accepts(e, {})
    ensures var program := Form("begin", [Form("define", [Symbol(x), e], false), Symbol(x)], false);
            var o, r := Ran(e, globals, heap, rt, fuel), Ran(program, globals, heap, rt, fuel);
            && Accepts(program, {})
            && (o.Done? ==>
                  r.Done? && r.v == o.v && r.st.globals == o.st.globals[x := o.v] && r.st.heap == o.st.heap)
            && (o.Fail? ==>
                  r.Fail? && r.error == o.error && r.st.globals == o.st.globals && r.st.heap == o.st.heap)
            && (o.Timeout? ==> r.Timeout?)
  {
    hide Exec, Conv;
    var define := Form("define", [Symbol(x), e], false);
    var program := Form("begin", [define, Symbol(x)], false);
    assert Accepts(program, {}) by { DefineUseAccepted(x, e); }
    CodeMeans(e, globals, heap, rt, fuel);
    CodeMeans(program, globals, heap, rt, fuel);
    hide Eval;
    var st := State(globals, heap, []);
    var o := Eval(e, [], st, rt, fuel);
    assert [define] + [Symbol(x)] == [define, Symbol(x)] && [Symbol(x)] + [] == [Symbol(x)];
    BeginLaw(define, [Symbol(x)], [], st, rt, fuel);
    DefineLaw(x, e, false, [], st, rt, fuel);
    if o.Done? {
      var s := State(o.st.globals[x := o.v], o.st.heap, o.st.procs);
      BeginLaw(Symbol(x), [], [], s, rt, fuel);
      SymbolLaw(x, [], map[], s, rt, fuel);
    }
  }

  lemma DefineUseAccepted(x: string, e: Ast)
    requires Accepts(e, {})
    ensures Accepts(Form("begin", [Form("define", [Symbol(x), e], false), Symbol(x)], false), {})
  {
    var define := Form("define", [Symbol(x), e], false);
    var parts := [define, Symbol(x)];
    BeginForm(parts);
    assert Classify(define) == DefineVar(x, e) && Classify(Symbol(x)) == Variable(x);
    FirstAccepted(define, [Symbol(x)], {});
    FirstAccepted(Symbol(x), [], {});
    assert [define] + [Symbol(x)] == parts && [Symbol(x)] + [] == [Symbol(x)];
  }

  /** The code of (if test first second) does what the code of the part does that is taken. */
  lemma OnePartIsTaken(test: Ast, first: Ast, second: Ast, globals: map<string, Value>, heap: Heap, rt: Runtime,
                       fuel: nat)
    requires Accepts(test, {}) && Accepts(first, {}) && Accepts(second, {})
    ensures var program := Form("if", [test, first, second], false);
            var o, r := Meant(test, globals, heap, rt, fuel), Ran(program, globals, heap, rt, fuel);
            && Accepts(program, {})
            && SameResult(if !o.Done? then o
                          else if o.v == Bool(false) then Eval(second, [], o.st, rt, fuel)
                          else Eval(first, [], o.st, rt, fuel), r)
  {
    hide Exec, Conv, Eval;
    var program := Form("if", [test, first, second], false);
    assert [test, first] + [second] == [test, first, second];
    assert Accepts(program, {}) by {
      IfForm([test, first, second], false);
      FirstAccepted(test, [first, second], {});
      FirstAccepted(first, [second], {});
      FirstAccepted(second, [], {});
      assert [test] + [first, second] == [test, first, second] && [first] + [second] == [first, second];
      assert [second] + [] == [second];
    }
    CodeMeans(program, globals, heap, rt, fuel);
    IfLaw(test, first, [second], false, [], State(globals, heap, []), rt, fuel);
  }

  /** The code of ((lambda names name) operands): with a wrong count it stops, else it has the value
      of the operand at the first place of the name. */
  lemma ParameterIsOperand(names: seq<string>, i: nat, operands: seq<Ast>, globals: map<string, Value>, heap: Heap,
                           rt: Runtime, fuel: nat)
    requires i < |names| && names[i] !in names[..i] && fuel > 0 && AcceptsAll(operands, {})
    ensures var program := Applied(names, [Symbol(names[i])], operands);
            var made := State(globals, heap, [SourceProc(names, [Symbol(names[i])], [])]);
            var os, r := EvalAll(operands, [], made, rt, fuel), Ran(program, globals, heap, rt, fuel);
            && Accepts(program, {})
            && (os.AllDone? && |names| != |operands| ==>
                  r.Fail? && r.error == ArgumentCount && r.st.globals == os.st.globals)
            && (os.AllDone? && |names| == |operands| ==>
                  |os.vs| == |names| && r.Done? && r.v == os.vs[i] && r.st.globals == os.st.globals)
  {
    hide Exec, Conv, Eval, EvalAll, Accepts, AcceptsAll, Applied, Frames, Form;
    var body := [Symbol(names[i])];
    var program := Applied(names, body, operands);
    NameAccepted(names, i);
    AppliedAccepted(names, body, operands);
    CodeMeans(program, globals, heap, rt, fuel);
    var st := State(globals, heap, []);
    assert st.procs + [SourceProc(names, body, [])] == [SourceProc(names, body, [])];
    var frame := AppliedLaw(names, body, operands, [], st, rt, fuel);
    var os := EvalAll(operands, [], State(globals, heap, [SourceProc(names, body, [])]), rt, fuel);
    if os.AllDone? && |names| == |operands| {
      assert [Symbol(names[i])] + [] == body;
      BeginLaw(Symbol(names[i]), [], [] + [frame], os.st, rt, fuel - 1);
      FramesAt(frame, names, os.vs, i);
      SymbolLaw(names[i], [], frame, os.st, rt, fuel - 1);
    }
  }

  lemma FramesAt(frame: Frame, formals: seq<string>, args: seq<Value>, i: nat)
    requires |formals| == |args| && Frames(frame, formals, args) && i < |formals| && formals[i] !in formals[..i]
    ensures formals[i] in frame && frame[formals[i]] == args[i]
  {
  }

  lemma NameAccepted(names: seq<string>, i: nat)
    requires i < |names|
    ensures AcceptsAll([Symbol(names[i])], Elements(names))
  {
    assert Classify(Symbol(names[i])) == Variable(names[i]);
    FirstAccepted(Symbol(names[i]), [], Elements(names));
    assert [Symbol(names[i])] + [] == [Symbol(names[i])];
  }

  lemma AppliedAccepted(names: seq<string>, body: seq<Ast>, operands: seq<Ast>)
    requires body != [] && AcceptsAll(body, Elements(names)) && AcceptsAll(operands, {})
    ensures Accepts(Applied(names, body, operands), {})
  {
    hide AcceptsAll;
    var formals := Symbols(names);
    var lambda := Form("lambda", [SExpr(formals, false)] + body, false);
    FormParts("lambda", SExpr(formals, false), body, false);
    assert Classify(lambda) == Lambda(formals, body);
    assert AllSymbols(formals) && Names(formals) == names && {} + Elements(names) == Elements(names);
    CallForm(lambda, operands, false);
    FirstAccepted(lambda, operands, {});
  }

  lemma FirstAccepted(e: Ast, more: seq<Ast>, visible: set<string>)
    ensures AcceptsAll([e] + more, visible) <==> Accepts(e, visible) && AcceptsAll(more, visible)
    ensures AcceptsAll([], visible)
  {
    hide Accepts;
    assert ([e] + more)[1..] == more;
  }
}
