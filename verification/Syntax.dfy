// The abstract syntax handed from the parser to the code generator
// (src/include/astnodes.hh), the way SExprASTNode::codeGenEval dispatches on it
// (src/codegen.cc:255-311), and two facts read off the syntax alone: which names an
// expression evaluates free, and which expressions the code generator accepts.
module Syntax {

  datatype Ast =
    | Number(text: string)
    | Boolean(value: bool)
    | Symbol(name: string)
    | Str(chars: string)
    | SExpr(args: seq<Ast>, dotted: bool)

  function Size(e: Ast): (n: nat)
    ensures n > 0
  {
    match e
    case SExpr(args, _) => 1 + Sizes(args)
    case _ => 1
  }

  function Sizes(es: seq<Ast>): nat {
    if es == [] then 0 else Size(es[0]) + Sizes(es[1..])
  }

  lemma SizesDrop(es: seq<Ast>, n: nat)
    requires n <= |es|
    ensures Sizes(es[n..]) <= Sizes(es)
    decreases n
  {
    if n == 0 {
      assert es[0..] == es;
    } else {
      SizesDrop(es[1..], n - 1);
      assert es[1..][n - 1..] == es[n..];
    }
  }

  lemma SizesAt(es: seq<Ast>, i: nat)
    requires i < |es|
    ensures Size(es[i]) + Sizes(es[i + 1..]) <= Sizes(es)
  {
    SizesDrop(es, i);
    assert es[i..][1..] == es[i + 1..];
  }

  // ---- dispatch ---------------------------------------------------------------------------------

  const KEYWORDS := {"begin", "define", "lambda", "quote", "if"}

  /** What codeGenEval makes of a node. The subterms are handed on untouched. */
  datatype Form =
    | Constant
    | Variable(name: string)
    | Empty
    | Begin(parts: seq<Ast>, dotted: bool)
    | DefineVar(name: string, value: Ast)
    | DefineFun(name: string, formals: seq<Ast>, body: seq<Ast>)
    | Lambda(formals: seq<Ast>, body: seq<Ast>)
    | Quote(datum: Ast)
    | If(parts: seq<Ast>)
    | Call(parts: seq<Ast>)
    | Malformed(message: string)

  function Classify(e: Ast): (f: Form)
    ensures f.Begin? || f.If? || f.Call? ==> Sizes(f.parts) < Size(e)
    ensures f.DefineVar? ==> Size(f.value) < Size(e)
    ensures f.DefineFun? || f.Lambda? ==> Sizes(f.body) < Size(e) && f.body != []
    ensures f.If? ==> 2 <= |f.parts| <= 3
    ensures f.Call? ==> f.parts != []
  {
    match e
    case Symbol(x) => Variable(x)
    case SExpr(args, dotted) =>
      if args == [] then Empty
      else if args[0].Symbol? && args[0].name in KEYWORDS then ClassifySyntax(args, dotted)
      else if args[0].Symbol? || args[0].SExpr? then Call(args)
      else Malformed("not a function")
    case _ => Constant
  }

  function ClassifySyntax(args: seq<Ast>, dotted: bool): (f: Form)
    requires args != [] && args[0].Symbol? && args[0].name in KEYWORDS
    ensures !f.Call? && !f.Constant? && !f.Empty? && !f.Variable?
    ensures f.Begin? || f.If? ==> Sizes(f.parts) < 1 + Sizes(args)
    ensures f.DefineVar? ==> Size(f.value) < 1 + Sizes(args)
    ensures f.DefineFun? || f.Lambda? ==> Sizes(f.body) < 1 + Sizes(args) && f.body != []
    ensures f.If? ==> 2 <= |f.parts| <= 3
  {
    SizesDrop(args, 1);
    match args[0].name
    case "begin" => Begin(args[1..], dotted)
    case "quote" => if |args| != 2 then Malformed("quote takes only one argument") else Quote(args[1])
    case "if" => if |args| != 3 && |args| != 4 then Malformed("if takes 2 or 3 arguments") else If(args[1..])
    case "lambda" =>
      if |args| < 3 then Malformed("too few arguments for lambda")
      else if !args[1].SExpr? then Malformed("lambda expects argument list")
      else SizesDrop(args, 2); Lambda(args[1].args, args[2..])
    case _ =>
      if |args| < 3 then Malformed("too few arguments for define")
      else if args[1].Symbol? then
        if |args| != 3 then Malformed("defining symbol takes 2 arguments")
        else SizesAt(args, 2); DefineVar(args[1].name, args[2])
      else if args[1].SExpr? then
        // the code casts the first element to a symbol without looking
        if args[1].args == [] || !args[1].args[0].Symbol? then Malformed("undefined behaviour: define")
        else SizesDrop(args, 2); DefineFun(args[1].args[0].name, args[1].args[1..], args[2..])
      else Malformed("bad syntax for define")
  }

  /** The names of the leading symbols: what loadFuncArgs binds before it stops or fails. */
  function Names(formals: seq<Ast>): (r: seq<string>)
    ensures |r| <= |formals|
    ensures |r| == |formals| <==> AllSymbols(formals)
    ensures forall i :: 0 <= i < |r| ==> formals[i].Symbol? && r[i] == formals[i].name
    ensures |r| < |formals| ==> !formals[|r|].Symbol?
  {
    if formals == [] || !formals[0].Symbol? then [] else [formals[0].name] + Names(formals[1..])
  }

  predicate AllSymbols(formals: seq<Ast>) {
    forall i :: 0 <= i < |formals| ==> formals[i].Symbol?
  }

  /** Quoting reads one element past a dotted list that has nothing before its dot. */
  predicate Quotable(e: Ast) {
    e.SExpr? ==> (e.dotted ==> |e.args| != 1) && forall i :: 0 <= i < |e.args| ==> Quotable(e.args[i])
  }

  // ---- names ------------------------------------------------------------------------------------

  function Elements<T>(s: seq<T>): set<T> {
    set x | x in s
  }

  /** The names `e` evaluates that `e` itself does not bind. */
  function FreeNames(e: Ast): set<string>
    decreases Size(e), 1
  {
    match Classify(e)
    case Variable(x) => {x}
    case Begin(parts, _) => FreeNamesAll(parts)
    case If(parts) => FreeNamesAll(parts)
    case Call(parts) => FreeNamesAll(parts)
    case DefineVar(_, value) => FreeNames(value)
    case DefineFun(_, formals, body) => FreeNamesAll(body) - Elements(Names(formals))
    case Lambda(formals, body) => FreeNamesAll(body) - Elements(Names(formals))
    case _ => {}
  }

  function FreeNamesAll(es: seq<Ast>): set<string>
    decreases Sizes(es), 2
  {
    if es == [] then {} else FreeNames(es[0]) + FreeNamesAll(es[1..])
  }

  /** The names `e` defines, wherever the definition stands. */
  function DefinedNames(e: Ast): set<string>
    decreases Size(e), 1
  {
    match Classify(e)
    case Begin(parts, _) => DefinedNamesAll(parts)
    case If(parts) => DefinedNamesAll(parts)
    case Call(parts) => DefinedNamesAll(parts)
    case DefineVar(x, value) => {x} + DefinedNames(value)
    case DefineFun(x, _, body) => {x} + DefinedNamesAll(body)
    case Lambda(_, body) => DefinedNamesAll(body)
    case _ => {}
  }

  function DefinedNamesAll(es: seq<Ast>): set<string>
    decreases Sizes(es), 2
  {
    if es == [] then {} else DefinedNames(es[0]) + DefinedNamesAll(es[1..])
  }

  /** `e` compiles where exactly the names in `visible` are parameters of enclosing functions. */
  predicate Accepts(e: Ast, visible: set<string>)
    decreases Size(e), 1
  {
    match Classify(e)
    case Constant => true
    case Variable(_) => true
    case Empty => true
    case Begin(parts, dotted) => !dotted && AcceptsAll(parts, visible)
    case If(parts) => AcceptsAll(parts, visible)
    case Call(parts) => AcceptsAll(parts, visible)
    case Quote(d) => Quotable(d)
    case DefineVar(x, value) => x !in visible && Accepts(value, visible)
    case DefineFun(x, formals, body) => x !in visible && AcceptsFunction(formals, body, visible)
    case Lambda(formals, body) => AcceptsFunction(formals, body, visible)
    case Malformed(_) => false
  }

  predicate AcceptsFunction(formals: seq<Ast>, body: seq<Ast>, visible: set<string>)
    decreases Sizes(body), 3
  {
    AllSymbols(formals) && AcceptsAll(body, visible + Elements(Names(formals)))
  }

  predicate AcceptsAll(es: seq<Ast>, visible: set<string>)
    decreases Sizes(es), 2
  {
    es == [] || (Accepts(es[0], visible) && AcceptsAll(es[1..], visible))
  }

  /** The scopes that stay open when compiling `e` fails: one for every function whose
      body, or parameter list, was being compiled at the first error. */
  function Leak(e: Ast, visible: set<string>): seq<seq<string>>
    decreases Size(e), 1
  {
    match Classify(e)
    case Begin(parts, _) => LeakAll(parts, visible)
    case If(parts) => LeakAll(parts, visible)
    case Call(parts) => LeakAll(parts, visible)
    case DefineVar(x, value) => if x in visible then [] else Leak(value, visible)
    case DefineFun(x, formals, body) => if x in visible then [] else LeakFunction(formals, body, visible)
    case Lambda(formals, body) => LeakFunction(formals, body, visible)
    case _ => []
  }

  function LeakFunction(formals: seq<Ast>, body: seq<Ast>, visible: set<string>): seq<seq<string>>
    decreases Sizes(body), 3
  {
    if AcceptsFunction(formals, body, visible) then []
    else if !AllSymbols(formals) then [Names(formals)]
    else [Names(formals)] + LeakAll(body, visible + Elements(Names(formals)))
  }

  function LeakAll(es: seq<Ast>, visible: set<string>): seq<seq<string>>
    decreases Sizes(es), 2
  {
    if es == [] then [] else if Accepts(es[0], visible) then LeakAll(es[1..], visible) else Leak(es[0], visible)
  }

  // ---- accepted where more is visible -----------------------------------------------------------

  /** With more names visible, the forms that define one of them are rejected, and no others. */
  lemma {:induction false} AcceptsExactly(e: Ast, visible: set<string>, more: set<string>)
    ensures Accepts(e, visible + more) <==> Accepts(e, visible) && DefinedNames(e) !! more
    decreases Size(e), 1
  {
    hide AcceptsAll, AcceptsFunction, DefinedNamesAll;
    var f := Classify(e);
    if f.Begin? || f.If? || f.Call? {
      AcceptsAllExactly(f.parts, visible, more);
    } else if f.DefineVar? {
      AcceptsExactly(f.value, visible, more);
    } else if f.DefineFun? || f.Lambda? {
      AcceptsFunctionExactly(f.formals, f.body, visible, more);
    }
  }

  lemma {:induction false} AcceptsFunctionExactly(formals: seq<Ast>, body: seq<Ast>,
                                                visible: set<string>, more: set<string>)
    ensures AcceptsFunction(formals, body, visible + more) <==>
            AcceptsFunction(formals, body, visible) && DefinedNamesAll(body) !! more
    decreases Sizes(body), 3
  {
    hide AcceptsAll, DefinedNamesAll, AllSymbols;
    var own := Elements(Names(formals));
    AcceptsAllExactly(body, visible + own, more);
    assert visible + more + own == visible + own + more;
  }

  lemma {:induction false} AcceptsAllExactly(es: seq<Ast>, visible: set<string>, more: set<string>)
    ensures AcceptsAll(es, visible + more) <==> AcceptsAll(es, visible) && DefinedNamesAll(es) !! more
    decreases Sizes(es), 2
  {
    if es != [] {
      hide Accepts, DefinedNames;
      AcceptsExactly(es[0], visible, more);
      AcceptsAllExactly(es[1..], visible, more);
    }
  }
}
