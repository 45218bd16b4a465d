// What a program means: an evaluator for the source, with nested lexical frames, and an
// evaluator for the closure-converted code, with an argument vector and a free list. Both
// keep objects, globals and a table of procedures in a state; builtins and data constructors
// are parameters, so nothing is assumed about them.
module Semantics {
  import opened Wrappers
  import opened Syntax
  import opened KeyOrder
  import opened Convert

  /** Everything is a pointer to an object; procedures are told apart by their table index. */
  datatype Value = Unspec | Bool(b: bool) | Object(address: nat) | Builtin(name: string) | Procedure(id: nat)

  datatype Heap = Heap(cells: seq<(Value, Value)>, texts: seq<string>, output: string)

  datatype BuiltinResult = Returned(v: Value, heap: Heap) | Stopped(heap: Heap)

  datatype Runtime = Runtime(datum: (Ast, Heap) -> (Value, Heap), builtin: (string, seq<Value>, Heap) -> BuiltinResult)

  datatype RuntimeError = Unbound(name: string) | NotAFunction | ArgumentCount | InBuiltin | Stuck

  datatype State<P> = State(globals: map<string, Value>, heap: Heap, procs: seq<P>)

  datatype Outcome<P> = Done(v: Value, st: State<P>) | Fail(error: RuntimeError, st: State<P>) | Timeout

  datatype Outcomes<P> = AllDone(vs: seq<Value>, st: State<P>) | OneFail(error: RuntimeError, st: State<P>) | OneTimeout

  predicate IsFunction<P>(v: Value, st: State<P>) {
    v.Builtin? || (v.Procedure? && v.id < |st.procs|)
  }

  /** lsrt_check_args_count(n, n, argc): zero switches both checks off. */
  predicate CountOk(arity: nat, argc: nat) {
    arity == 0 || arity == argc
  }

  function CallBuiltin<P>(rt: Runtime, name: string, args: seq<Value>, st: State<P>): Outcome<P> {
    match rt.builtin(name, args, st.heap)
    case Returned(v, h) => Done(v, st.(heap := h))
    case Stopped(h) => Fail(InBuiltin, st.(heap := h))
  }

  function BuildDatum<P>(rt: Runtime, d: Ast, st: State<P>): Outcome<P> {
    var (v, h) := rt.datum(d, st.heap); Done(v, st.(heap := h))
  }

  function ReadGlobal<P>(x: string, st: State<P>): Outcome<P> {
    if x in st.globals then Done(st.globals[x], st) else Fail(Unbound(x), st)
  }

  function WriteGlobal<P>(x: string, o: Outcome<P>): Outcome<P> {
    if o.Done? then Done(Unspec, o.st.(globals := o.st.globals[x := o.v])) else o
  }

  function NewProcedure<P>(p: P, st: State<P>): Outcome<P> {
    Done(Procedure(|st.procs|), st.(procs := st.procs + [p]))
  }

  // ---- source -----------------------------------------------------------------------------------

  type Frame = map<string, Value>

  /** A procedure of the source closes over the frames around it, innermost last. */
  datatype SourceProc = SourceProc(formals: seq<string>, body: seq<Ast>, env: seq<Frame>)

  function Lookup(env: seq<Frame>, x: string): Option<Value> {
    if env == [] then None
    else if x in env[|env| - 1] then Some(env[|env| - 1][x])
    else Lookup(env[..|env| - 1], x)
  }

  /** Of two parameters with the same name the first one counts. */
  function Bind(formals: seq<string>, args: seq<Value>): (f: Frame)
    requires CountOk(|formals|, |args|)
    ensures f.Keys == Elements(formals)
  {
    map x | x in formals :: args[Position(formals, x)]
  }

  function Eval(e: Ast, env: seq<Frame>, st: State<SourceProc>, rt: Runtime, fuel: nat): Outcome<SourceProc>
    decreases fuel, Size(e), 1
  {
    match Classify(e)
    case Constant => BuildDatum(rt, e, st)
    case Empty => BuildDatum(rt, e, st)
    case Quote(d) => BuildDatum(rt, d, st)
    case Variable(x) => if Lookup(env, x).Some? then Done(Lookup(env, x).value, st) else ReadGlobal(x, st)
    case Begin(parts, _) => EvalBody(parts, env, st, rt, fuel)
    case If(parts) => EvalIf(parts, env, st, rt, fuel)
    case Call(parts) => EvalCall(parts, env, st, rt, fuel)
    case DefineVar(x, value) => WriteGlobal(x, Eval(value, env, st, rt, fuel))
    case DefineFun(x, formals, body) => WriteGlobal(x, NewProcedure(SourceProc(Names(formals), body, env), st))
    case Lambda(formals, body) => NewProcedure(SourceProc(Names(formals), body, env), st)
    case Malformed(_) => Fail(Stuck, st)
  }

  function EvalIf(parts: seq<Ast>, env: seq<Frame>, st: State<SourceProc>, rt: Runtime, fuel: nat): Outcome<SourceProc>
    requires 2 <= |parts| <= 3
    decreases fuel, Sizes(parts), 3
  {
    SizesAt(parts, 0); SizesAt(parts, 1); SizesAt(parts, |parts| - 1);
    var test := Eval(parts[0], env, st, rt, fuel);
    if !test.Done? then test
    else if test.v != Bool(false) then Eval(parts[1], env, test.st, rt, fuel)
    else if |parts| == 3 then Eval(parts[2], env, test.st, rt, fuel)
    else Done(Unspec, test.st)
  }

  /** The operator is evaluated and checked before the operands are touched. */
  function EvalCall(parts: seq<Ast>, env: seq<Frame>, st: State<SourceProc>, rt: Runtime,
          fuel: nat): Outcome<SourceProc>
    requires parts != []
    decreases fuel, Sizes(parts), 3
  {
    var f := Eval(parts[0], env, st, rt, fuel);
    if !f.Done? then f
    else if !IsFunction(f.v, f.st) then Fail(NotAFunction, f.st)
    else
      EnterSource(f.v, EvalAll(parts[1..], env, f.st, rt, fuel), rt, fuel)
  }

  /** The call, once the operands are done. */
  function EnterSource(f: Value, operands: Outcomes<SourceProc>, rt: Runtime, fuel: nat): Outcome<SourceProc>
    decreases fuel, 0, 0
  {
    match operands
    case OneFail(err, st) => Fail(err, st)
    case OneTimeout => Timeout
    case AllDone(args, st) =>
      if f.Builtin? then CallBuiltin(rt, f.name, args, st)
      else if fuel == 0 then Timeout
      else if !f.Procedure? || f.id >= |st.procs| then Fail(Stuck, st)
      else
        var p := st.procs[f.id];
        if !CountOk(|p.formals|, |args|) then Fail(ArgumentCount, st)
        else EvalBody(p.body, p.env + [Bind(p.formals, args)], st, rt, fuel - 1)
  }

  /** One after another; the last one's value counts. */
  function EvalBody(es: seq<Ast>, env: seq<Frame>, st: State<SourceProc>, rt: Runtime, fuel: nat): Outcome<SourceProc>
    decreases fuel, Sizes(es), 2
  {
    if es == [] then Done(Unspec, st)
    else
      var o := Eval(es[0], env, st, rt, fuel);
      if |es| == 1 || !o.Done? then o else EvalBody(es[1..], env, o.st, rt, fuel)
  }

  function EvalAll(es: seq<Ast>, env: seq<Frame>, st: State<SourceProc>, rt: Runtime, fuel: nat): Outcomes<SourceProc>
    decreases fuel, Sizes(es), 2
  {
    if es == [] then AllDone([], st)
    else
      match Eval(es[0], env, st, rt, fuel)
      case Fail(err, st') => OneFail(err, st')
      case Timeout => OneTimeout
      case Done(v, st') =>
        match EvalAll(es[1..], env, st', rt, fuel)
        case AllDone(vs, st'') => AllDone([v] + vs, st'')
        case other => other
  }

  // ---- target -----------------------------------------------------------------------------------

  /** A procedure of the target: code, and the free list it was created with. */
  datatype TargetProc = TargetProc(arity: nat, body: Code, free: seq<Value>)

  /** What a load yields; nothing when it is not a load or reads outside its vector. */
  function Load(c: Code, args: seq<Value>, free: seq<Value>): Option<Value> {
    match c
    case Arg(i) => if i < |args| then Some(args[i]) else None
    case Free(i) => if i < |free| then Some(free[i]) else None
    case _ => None
  }

  function LoadAll(cs: seq<Code>, args: seq<Value>, free: seq<Value>): Option<seq<Value>> {
    if cs == [] then Some([])
    else
      match (Load(cs[0], args, free), LoadAll(cs[1..], args, free))
      case (Some(v), Some(vs)) => Some([v] + vs)
      case _ => None
  }

  function Exec(c: Code, args: seq<Value>, free: seq<Value>, st: State<TargetProc>, rt: Runtime,
          fuel: nat): Outcome<TargetProc>
    decreases fuel, c, 1
  {
    match c
    case Literal(d) => BuildDatum(rt, d, st)
    case Unspecified => Done(Unspec, st)
    case Global(x) => ReadGlobal(x, st)
    case SetGlobal(x, value) => WriteGlobal(x, Exec(value, args, free, st, rt, fuel))
    case MakeClosure(arity, body, fills) =>
      (match LoadAll(fills, args, free)
       case Some(vs) => NewProcedure(TargetProc(arity, body, vs), st)
       case None => Fail(Stuck, st))
    case Branch(parts) => ExecBranch(parts, args, free, st, rt, fuel)
    case Apply(parts) => ExecApply(parts, args, free, st, rt, fuel)
    case Sequence(parts) => ExecBody(parts, args, free, st, rt, fuel)
    case _ => if Load(c, args, free).Some? then Done(Load(c, args, free).value, st) else Fail(Stuck, st)
  }

  function ExecBranch(parts: seq<Code>, args: seq<Value>, free: seq<Value>, st: State<TargetProc>, rt: Runtime,
          fuel: nat): Outcome<TargetProc>
    decreases fuel, parts, 3
  {
    if |parts| < 2 then Fail(Stuck, st)
    else
      var test := Exec(parts[0], args, free, st, rt, fuel);
      if !test.Done? then test
      else if test.v != Bool(false) then Exec(parts[1], args, free, test.st, rt, fuel)
      else if |parts| == 3 then Exec(parts[2], args, free, test.st, rt, fuel)
      else Done(Unspec, test.st)
  }

  function ExecApply(parts: seq<Code>, args: seq<Value>, free: seq<Value>, st: State<TargetProc>, rt: Runtime,
          fuel: nat): Outcome<TargetProc>
    decreases fuel, parts, 3
  {
    if parts == [] then Fail(Stuck, st)
    else
      var f := Exec(parts[0], args, free, st, rt, fuel);
      if !f.Done? then f
      else if !IsFunction(f.v, f.st) then Fail(NotAFunction, f.st)
      else
        assert parts[..0] == NO_CODE;
        EnterTarget(f.v, ExecAll(parts[1..], args, free, f.st, rt, fuel), rt, fuel)
  }

  const NO_CODE: seq<Code> := []

  function EnterTarget(f: Value, operands: Outcomes<TargetProc>, rt: Runtime, fuel: nat): Outcome<TargetProc>
    decreases fuel, NO_CODE, 0
  {
    match operands
    case OneFail(err, st) => Fail(err, st)
    case OneTimeout => Timeout
    case AllDone(actuals, st) =>
      if f.Builtin? then CallBuiltin(rt, f.name, actuals, st)
      else if fuel == 0 then Timeout
      else if !f.Procedure? || f.id >= |st.procs| then Fail(Stuck, st)
      else
        var p := st.procs[f.id];
        if !CountOk(p.arity, |actuals|) then Fail(ArgumentCount, st)
        else Exec(p.body, actuals, p.free, st, rt, fuel - 1)
  }

  function ExecBody(cs: seq<Code>, args: seq<Value>, free: seq<Value>, st: State<TargetProc>, rt: Runtime,
          fuel: nat): Outcome<TargetProc>
    decreases fuel, cs, 2
  {
    if cs == [] then Done(Unspec, st)
    else
      var o := Exec(cs[0], args, free, st, rt, fuel);
      if |cs| == 1 || !o.Done? then o else ExecBody(cs[1..], args, free, o.st, rt, fuel)
  }

  function ExecAll(cs: seq<Code>, args: seq<Value>, free: seq<Value>, st: State<TargetProc>, rt: Runtime,
          fuel: nat): Outcomes<TargetProc>
    decreases fuel, cs, 2
  {
    if cs == [] then AllDone([], st)
    else
      match Exec(cs[0], args, free, st, rt, fuel)
      case Fail(err, st') => OneFail(err, st')
      case Timeout => OneTimeout
      case Done(v, st') =>
        match ExecAll(cs[1..], args, free, st', rt, fuel)
        case AllDone(vs, st'') => AllDone([v] + vs, st'')
        case other => other
  }
}
