# llscheme in Dafny

llscheme compiles a subset of R5RS Scheme to LLVM and links it with a C runtime. This project
models the four parts of it in which something can go subtly wrong and proves what they do, for
all inputs.

**Closure conversion** (`KeyOrder`, `Syntax`, `Convert`, `Env`, `CodeGen`, `Semantics`,
`Preservation`, `Laws`, `Session`). The compiler has no pass that computes free variables. Looking a name up while a
body is being generated captures it in every function on the way, with a placeholder, and the
placeholders are patched when the function is finished. `Env.ExecutionEnv` is the compile-time
environment with its two stacks of maps, updated in place; `CodeGen` is the generator; the LLVM
code is a small closure-converted language (`Convert.Code`). The generator is proved equal to the
textbook two-pass conversion `Convert.Conv` (free names first, nothing to patch), and that
conversion is proved to preserve meaning: `Preservation.CompileProgram` is the whole statement.
`Laws` says what the forms of the language do, one by one, and so what compiled code does.
`Session` is the interactive driver, which carries one environment from form to form, and after
errors too, and stores the builtins that were mentioned before a form is run.
Keywords in head position win over locals, the operator is evaluated and checked before the
operands, `define` writes a global, the first of two equal formals counts, and a procedure without
parameters takes any number of arguments, all as in the code.

**Exact arithmetic** (`Rational`, `Tower`, `Complex`, `Numbers`, `ArithmeticLaws`, `Ordering`). Numbers are an int32,
a big integer or a fraction, changed in place, with overflow tests, promotion and
canonicalization; complex numbers and n-ary folds are built on top. GMP integers are `int` and GMP
fractions are pairs. The result of every operation is proved to be the exact one in the one
canonical form, on exactly those operands where the code computes a result.

**The text of numbers** (`Digits`, `NumberText`, `NumberRoundTrip`, `Radixes`, `NotNumbers`,
`Decimals`, `NumberParser`). `NumberText` says on strings what `_ston` and `_ntos` do;
`NumberParser` is `_ston` as it runs, a scan that overwrites its buffer and starts again until the
text is used up. What is read, refused or inexact is said of the texts themselves.

**The reader and the printers** (`Lexing` in Lexer.dfy, `LexRoundTrip`, `Parsing` in Parser.dfy,
`Grammar`, `Program`, `Printer`, `Data` in Datum.dfy, `Pairs`, `Console`). The lexer and the parser are
classes; the parser keeps an explicit stack of nodes and calls itself behind a quote or a point,
and is proved to be recursive descent. `Grammar` has the external representations and their text,
and `Program` the loop that reads a whole text. `Pairs` puts quoted data and lists on a heap, and `Console` prints
such objects.

Where the code falls short of what it is meant to do, the code is modelled as it is and the
condition is exact:

- A small integer divided by a big one reaches `mpz_divexact` with no divisibility test. It is
  right exactly when the dividend is 0, or -2^31 divided by 2^31 (`Tower.SmallOverBig`). Complex
  division inherits this: `(/ 1 2147483648)` and `(/ 1 +50000i)` break
  (`Numbers.RealQuotientCanBreak`, `Numbers.QuotientCanBreak`).
- -2^31 divided by -1 traps in `a % b` (`Tower.ReArith2`, `Numbers.RealQuotientCanBreak`).
- A divisor with the imaginary part -2^31 loses its sign. With an integer as real part nothing is
  computed (the inner division breaks), with a fraction there is a result
  (`Complex.LostSignComputed`), and it is right exactly when the dividend is 0
  (`Complex.ComputedIsExact`); `(/ 1 1/2-2147483648i)` is not (`Numbers.QuotientLosesSign`). With
  more divisors it is right exactly when the dividend is 0 or those that lose their sign have a
  real product (`Numbers.QuotientMeaning`).
- Two small numbers are compared by subtracting them in 32 bits: the sign is right exactly when
  the difference fits, and 0 exactly for equal numbers (`Ordering.OrderIsExact`). So `=` is always
  right, and `(< 2147483647 -1)` answers true (`Ordering.ChainSortsAll`, `Ordering.OrderCanBreak`).
- The exponent of `5.e3` is lost when it is read as exact: `#e5.e3` is 5 (`Decimals.ExponentLost`).
  An exponent counts exactly when something follows the point or it makes no difference
  (`Decimals.ExponentKept`).
- A compile error inside a function leaves the scopes of the functions around it open, and the
  interactive driver goes on with them: exactly the errors outside all functions leave nothing
  open (`Session.ErrorsLeaveScopesOpen`). With scopes open, a later form is accepted exactly when it
  would be in a new environment and defines none of their parameters (`Syntax.AcceptsExactly`); it
  gets the code it would get there exactly when it uses none of them, and a placeholder that
  nothing patches exactly when it uses one of a function other than the innermost
  (`Session.LeakedScopeIsSeen`). A builtin with the name of such a parameter is stored where no
  argument is, whatever the form (`Session.CheckBuiltinProcs`, `Session.StaleStore`).
  `Session.StaleRuns` are two runs of the driver.
- The end of the input is no delimiter: an open comment, string or number makes the lexer run for
  ever (`LexRoundTrip.EndlessExactly`; `LexRoundTrip.EndOfInputIsNoDelimiter` has inputs).
- The restart loop of `_ston` takes an imaginary part before the real one, which the grammar of
  R5RS does not have (`NumberRoundTrip.EitherOrder`).
- `finePrint` reads behind the arguments of a list of one element (`Printer.FinePrint`).

The comment at `src/lexer.cc:31` leaves open whether identifiers such as `123abc` are allowed; the
code makes every word that starts with a digit a number token, and the model follows it.

## Model

| member | source | states |
|---|---|---|
| `KeyOrder.SortedIncreases` | src/codegen.cc:422-461 | the keys of a map are walked once each, in increasing order, so the loop that loads slot i and the loop that fills slot i see the same key |
| `KeyOrder.BelowIsLexicographic` | src/codegen.cc:422-461 | the order of the keys is that of strings: a beginning comes first, and else the first difference decides |
| `Syntax.Names` | src/codegen.cc:346-361 | the parameters bound before loadFuncArgs stops: all of them exactly when every formal is a symbol |
| `Syntax.AcceptsExactly` | src/codegen.cc:475-519 | with more names visible exactly the forms that define one of them are rejected in addition |
| `Convert.ConvDependsOnFreeNames` | src/codegen.cc:255-311 | code depends on the environment only through the free names of the expression |
| `Convert.ConvIsClosed` | src/codegen.cc:417-433 | no placeholder remains in converted code, at any depth, when the places given hold none |
| `Convert.ConvClosedExactly` | src/codegen.cc:417-433 | converted code keeps a placeholder exactly when a free name stands for code that has one |
| `Convert.ConvScopedExactly` | src/codegen.cc:392-472 | every argument and slot read is there, in the functions inside at any depth always, and outside exactly when the free names stand for such code |
| `Convert.ReplaceConv` | src/codegen.cc:427-427 | replacing all uses of a placeholder in the code of an expression gives the code with that one place changed, although the fills of inner functions use the placeholder too |
| `Env.ExecutionEnv.constructor` | src/env.cc:36-40 | one global scope in each stack |
| `Env.ExecutionEnv.NewScope` | src/env.cc:56-59 | a new innermost function; every other scope as it was |
| `Env.ExecutionEnv.AddBinding` | src/env.cc:48-50 | binds the next parameter of the innermost function, keeping the first of two equal names, and changes no outer scope |
| `Env.ExecutionEnv.ExitLastScope` | src/env.cc:61-67 | the innermost scope goes, every other stays |
| `Env.ExecutionEnv.GetCurrentRefs` | src/env.cc:126-128 | the captures of the innermost function: exactly the names it knows and does not bind, each with what stands for it in the function around |
| `Env.ExecutionEnv.SearchLocalBinding` | src/env.cc:86-124 | finds a name exactly when some open function has it as a parameter, captures it in exactly the scopes between, keeps the invariant of both stacks, and changes nothing when the innermost scope knows the name already |
| `Env.ExecutionEnv.MakeRefs` | src/env.cc:112-121 | on the way inwards every scope gets the outer value as its reference and a new placeholder as its own value |
| `Env.ReferencesReachParameter` | src/env.cc:106-123 | following the references of a known name ends at the innermost function that has it as a parameter: cached lookup is static-chain lookup |
| `Env.KnownIsBound` | src/env.cc:92-101 | a name a scope knows is a parameter of that function or one around it |
| `Env.KnownWasFetched` | src/env.cc:113-121 | a name known in a scope and bound in none of the functions between was captured by each of them |
| `Env.FetchedBoth` | src/env.cc:86-124 | captures of one expression after another are the captures of their names together |
| `Env.CaptureFetches` | src/env.cc:112-121 | capturing a name keeps the invariant and takes exactly the captures the name needs |
| `Env.FetchedAreKnown` | src/env.cc:92-101 | after an expression is compiled the innermost scope knows those of its free names that are visible, and no other |
| `CodeGen.CapturesAreFreeNames` | src/codegen.cc:409-417 | the captures of a finished function are the names evaluated free in its body that a function around it binds |
| `CodeGen.LaterCapturesKeepCode` | src/codegen.cc:301-306 | code already generated is not disturbed by captures made later |
| `CodeGen.PatchOne` | src/codegen.cc:422-429 | patching the n-th placeholder turns exactly the place of the n-th captured name into slot n |
| `CodeGen.FinishedFunction` | src/codegen.cc:409-472 | patched body and fills together are the conversion of the function in the scopes around it, whatever those scopes hold, placeholders included |
| `CodeGen.CodeGenEval` | src/codegen.cc:255-311 | succeeds exactly on the accepted expressions, returns their two-pass conversion, takes exactly their captures, restores the depth of the scopes, and makes a global of every name evaluated free or defined that no open function binds |
| `CodeGen.CodeGenSymbol` | src/codegen.cc:148-165 | a local place or the global |
| `CodeGen.CodeGenEach` | src/codegen.cc:301-306 | subforms left to right, stopping at the first that is not accepted |
| `CodeGen.CodeGenCall` | src/codegen.cc:282-310 | operator first, then the operands |
| `CodeGen.HandleBegin` | src/codegen.cc:315-330 | the parts in order; a dotted begin is rejected after they were compiled |
| `CodeGen.HandleIf` | src/codegen.cc:542-586 | two or three parts, all compiled |
| `CodeGen.HandleQuote` | src/codegen.cc:535-540 | exactly one datum, which is not evaluated |
| `CodeGen.HandleLambda` | src/codegen.cc:521-533 | a parameter list and a body |
| `CodeGen.HandleDefine` | src/codegen.cc:481-519 | a global is made and written; a visible parameter of that name is an error |
| `CodeGen.CheckSymbol` | src/codegen.cc:475-479 | refuses exactly the names of visible parameters, and captures nothing when it accepts |
| `CodeGen.LoadFuncArgs` | src/codegen.cc:346-361 | binds the parameters in order until one is not a symbol |
| `CodeGen.CreateFunction` | src/codegen.cc:363-473 | the closure that two-pass conversion makes of the function, and only the captures that leaves to the functions around it |
| `CodeGen.FinishFunction` | src/codegen.cc:412-468 | from the generated body to the finished closure, with the scope discarded |
| `CodeGen.BackPatch` | src/codegen.cc:417-433 | every placeholder of the function becomes the load of its slot; looking the names up again captures nothing |
| `CodeGen.FindPlaceholder` | src/codegen.cc:423-425 | a second look at a captured name finds its placeholder and changes nothing |
| `CodeGen.FillFreeList` | src/codegen.cc:456-461 | slot i is filled with what stands for the i-th captured name in the parent |
| `CodeGen.LeaksNothing` | src/codegen.cc:467-468 | an accepted expression leaves no scope open |
| `Preservation.ClosureRelated` | src/codegen.cc:442-464 | a closure made by the code has in each slot the value the captured name has in the frames of the source |
| `Preservation.Entered` | src/codegen.cc:392-407 | on entry the places of a function hold what the frames of the source hold, for every free name of the body |
| `Preservation.Simulates` | src/codegen.cc:255-311 | source and code of one expression agree on value, error, globals, heap and later procedures, from related states and with any fuel |
| `Preservation.SimulatesCall` | src/codegen.cc:282-310 | the same for calls, including calls of what is no procedure and calls with a wrong count |
| `Preservation.ConversionPreservesMeaning` | doc/closure.org:68-79 | an accepted program and its conversion give the same result, error and final globals from every start, for every set of builtins and every fuel |
| `Preservation.CompileProgram` | src/codegen.cc:255-311 | the compiler accepts exactly the accepted programs, leaves no placeholder and reads no argument or slot that is not there, and its code means what the program means |
| `Laws.SymbolLaw` | src/env.cc:92-101 | a name stands for what the innermost function that binds it was given, else for the global, and is an error when there is none |
| `Laws.GlobalLaw` | src/codegen.cc:148-165 | a name no function binds is the global |
| `Laws.DefineLaw` | src/codegen.cc:497-500 | define stores the value in the global of that name and changes nothing else |
| `Laws.DefineFunctionLaw` | src/codegen.cc:503-514 | (define (f . formals) body) is (define f (lambda formals body)) |
| `Laws.ConstantLaw` | src/codegen.cc:535-540 | constants and quoted data are made by the runtime, and nothing else happens |
| `Laws.IfLaw` | src/runtime/utils.c:140-146 | if takes its second part unless the test is #f, and then the third or nothing |
| `Laws.BeginLaw` | src/codegen.cc:315-330 | begin runs its parts in order up to the first that does not finish, and has the value of the last |
| `Laws.LambdaLaw` | src/codegen.cc:363-473 | lambda makes a new procedure with these parameters, this body and the frames around it |
| `Laws.OperatorLaw` | src/codegen.cc:282-296 | the operator is evaluated first, and when it is no procedure the operands are not touched |
| `Laws.OperandsLaw` | src/codegen.cc:301-306 | operands are evaluated from left to right, up to the first that does not finish |
| `Laws.BuiltinLaw` | src/codegen.cc:308-310 | a call of a builtin is what the runtime makes of its operands |
| `Laws.ProceduresStay` | src/codegen.cc:442-464 | no evaluation changes a procedure that was made |
| `Laws.ProcedureLaw` | src/runtime/utils.c:120-127 | with parameters a call with another count of operands stops, without any count is taken, and in the body each parameter has the operand of its first place |
| `Laws.AppliedLaw` | src/codegen.cc:392-407 | the same for a lambda called where it stands |
| `Laws.AcceptedBegin` | src/codegen.cc:315-330 | begin takes any accepted parts and no point |
| `Laws.AcceptedIf` | src/codegen.cc:542-586 | if takes two or three accepted parts |
| `Laws.AcceptedQuote` | src/codegen.cc:535-540 | quote takes one datum the compiler can quote |
| `Laws.AcceptedLambda` | src/codegen.cc:521-533 | lambda takes a list of symbols and a body that is accepted where these are visible |
| `Laws.AcceptedDefine` | src/codegen.cc:481-519 | define takes a name and a value, or a name with parameters and a body, and no name of a visible parameter |
| `Laws.AcceptedCall` | src/codegen.cc:268-281 | a call needs a name or a form in front, and everything in it accepted |
| `Laws.CodeMeans` | src/codegen.cc:255-311 | the code of an accepted program has the value or the error of the program, and leaves the same globals, objects and output |
| `Laws.DefinedIsUsed` | src/codegen.cc:497-500 | the code of (begin (define x e) x) has the value of e, which is then in the global x, with everything else as e left it |
| `Laws.OnePartIsTaken` | src/codegen.cc:542-586 | the code of an if does what the part does that its test selects |
| `Laws.ParameterIsOperand` | src/codegen.cc:392-407 | the code of ((lambda names x) operands) stops when the counts differ and else has the value of the operand at the first place of x |
| `Session.ErrorsLeaveScopesOpen` | src/main.cc:106-111 | a rejected form leaves scopes open exactly when its first error is inside a function |
| `Session.LeakedScopeIsSeen` | src/env.cc:92-101 | whatever functions are open: the code is that of a new environment exactly when the form uses none of their parameters, and the same decides whether all arguments and slots read are there; it keeps a placeholder exactly when it uses a name the innermost of them does not bind |
| `Session.Interact` | src/main.cc:102-116 | the loop: form after form through one environment, with the exact outcome of each after all errors before it, and the builtins stored before each is run |
| `Session.InterpreterRun` | src/driver.cc:365-389 | one form: compiled, and on success the builtins looked up; on an error the scopes it leaves open |
| `Session.CheckBuiltinProcs` | src/driver.cc:210-237 | looks every builtin up, capturing those that open functions bind; stores each that stands for something and was not stored, behind its global or behind what an open function has for it |
| `Session.BuiltinsAreBound` | src/driver.cc:210-237 | whatever happened before, a builtin that an accepted form evaluates, and no open function binds, was stored behind its global by the time the form is run |
| `Session.BuiltinsStoredOnce` | src/driver.cc:223-225 | no builtin is stored twice |
| `Session.DefinitionStays` | src/driver.cc:210-237 | when an accepted form defines a builtin's name, no later form stores that builtin again |
| `Session.DisplayedForm` | src/main.cc:104-105 | the form that displays a datum is accepted, leaves scopes open and uses names like the datum itself, but for `display` |
| `Session.NothingOpen` | src/main.cc:106-111 | nothing is left open exactly when every rejected form fails outside functions |
| `Session.SessionPreservesMeaning` | src/main.cc:102-116 | source and code of a whole session agree at every form, with the globals, the heap and the procedures of earlier forms, and after runtime errors |
| `Session.UntouchedSession` | src/main.cc:102-116 | when no form that compiled uses a parameter left open, the session means what those forms mean, whatever was rejected between them |
| `Session.StaleName` | src/main.cc:106-111 | after `(lambda (x) (define x 1))` was rejected the form `x` reads an argument of no function |
| `Session.StaleHole` | src/main.cc:106-111 | and after another rejected function with another parameter it is a placeholder for ever |
| `Session.StaleStore` | src/driver.cc:210-237 | with a builtin's name as parameter the next form, whatever it is, stores the procedure where no argument is |
| `Session.StaleRuns` | src/main.cc:102-116 | two runs of the loop in which this happens |
| `Rational.CanonicalUnique` | src/runtime/include/number.h:144-169 | two canonical numbers have the same value exactly when they are the same object |
| `Rational.TypeDecidesInteger` | src/runtime/number.c:71-83 | the type bits of a canonical number decide whether it is an integer |
| `Rational.MpqCanonicalize` | src/runtime/include/number.h:148-148 | lowest terms, positive denominator, same ratio |
| `Rational.LowestTermsUnique` | src/runtime/include/number.h:148-148 | a ratio has one form in lowest terms |
| `Tower.AddChecked` | src/runtime/include/number.h:209-218 | overflow is reported exactly when the sum does not fit an int32 |
| `Tower.SubChecked` | src/runtime/include/number.h:198-207 | the same for the difference |
| `Tower.MulChecked` | src/runtime/include/number.h:220-231 | the same for the product, by the upper bits of the 64-bit product |
| `Tower.MagnitudeAndSign` | src/runtime/include/number.h:240-255 | magnitude and sign of an int32, INT_MIN included |
| `Tower.LsReal.Promote` | src/runtime/include/number.h:101-139 | never to a smaller type, same value |
| `Tower.LsReal.Canonicalize` | src/runtime/include/number.h:144-169 | the canonical object of the same value |
| `Tower.LsReal.Neg` | src/runtime/include/number.h:681-698 | the negative, except that INT_MIN stays |
| `Tower.ArithSmall` | src/runtime/include/number.h:343-376 | the exact result, or the operand unchanged and a reason to promote |
| `Tower.PromoteForDivision` | src/runtime/include/number.h:378-388 | a big integer that stays one is divisible |
| `Tower.ArithWithSmall` | src/runtime/include/number.h:390-403 | a small second operand: the exact canonical result |
| `Tower.ArithWide` | src/runtime/include/number.h:405-432 | two wide operands: the exact canonical result, unless a small dividend meets a big divisor that does not divide it |
| `Tower.SmallOverBig` | src/runtime/include/number.h:378-425 | the precondition of the exact division holds exactly for 0 and for -2^31 over 2^31 |
| `Tower.ReArith2` | src/runtime/include/number.h:335-433 | all operators and types: computed exactly under the stated condition, and then dst is the exact result in canonical form and src is unchanged |
| `Tower.OneResult` | src/runtime/include/number.h:335-433 | there is one such result |
| `Complex.LsNumber.Update` | src/runtime/include/number.h:610-661 | the complex bit is set exactly when the imaginary part is not 0 |
| `Complex.MultiplyParts` | src/runtime/number.c:319-335 | the exact complex product, in place |
| `Complex.Invert` | src/runtime/number.c:298-314 | the reciprocal, or the reason why an inner division fails |
| `Complex.NormFacts` | src/runtime/number.c:303-310 | when c^2+d^2 is 0, small or 2^31, which decides the inner divisions |
| `Complex.ReciprocalDivides` | src/runtime/number.c:309-331 | multiplying by c/n - di/n divides by c+di |
| `Complex.Arith2` | src/runtime/number.c:274-343 | computed under the stated condition, src unchanged; the result is the exact one exactly when it is no division by an imaginary part of INT_MIN, or 0 is divided |
| `Complex.WrongSign` | src/runtime/include/number.h:685-687 | an exact quotient by the divisor without its sign is one by the divisor given exactly when the dividend is 0 |
| `Complex.FractionNorm` | src/runtime/number.c:303-308 | c^2+d^2 of a fraction and an integer is a fraction, so the inner divisions are exact |
| `Complex.LostSignComputed` | src/runtime/number.c:303-310 | with INT_MIN as imaginary part a quotient is computed exactly when the real part is a fraction |
| `Complex.ComputedIsExact` | src/runtime/number.c:274-343 | a result that was computed is exact, but for a dividend other than 0 and a divisor that loses its sign |
| `Complex.ResultUnique` | src/runtime/number.c:274-343 | an exact complex result is one number, quotients included |
| `Numbers.Arith` | src/runtime/number.c:345-386 | the fold of the arguments, with every error it can meet, in a new valid object; no argument changes |
| `Numbers.AccumulateAll` | src/runtime/number.c:380-383 | the loop of the fold, up to the first argument that is no number or the first failing division |
| `Numbers.SumMeaning` | src/runtime/number.c:388-394 | n-ary + never fails and is the sum |
| `Numbers.ProductMeaning` | src/runtime/number.c:405-411 | n-ary * never fails and is the product |
| `Numbers.DifferenceMeaning` | src/runtime/number.c:359-366 | (- a) and (- a b ...) |
| `Numbers.QuotientMeaning` | src/runtime/number.c:368-375 | what (/ a) and (/ a b ...) give, times the divisors, is the dividend exactly when that is 0 or the divisors that lose their sign have a real product |
| `Numbers.FoldQuotient` | src/runtime/number.c:380-383 | what n-ary / gives, times what it divided by, is the dividend |
| `Numbers.ConjugateDivides` | src/runtime/include/number.h:685-687 | dividing by conjugates instead is right exactly for 0 and when their product is real |
| `Numbers.QuotientLosesSign` | src/runtime/number.c:303-310 | (/ 1 1/2-2147483648i) is computed and is the conjugate of the quotient |
| `Numbers.QuotientCanBreak` | src/runtime/number.c:309-310 | (/ 1 +50000i) reaches an exact division that is not exact |
| `Numbers.RealQuotientCanBreak` | src/runtime/include/number.h:378-425 | (/ -2147483648 -1) traps and (/ 1 2147483648) reaches an exact division that is not exact |
| `Numbers.OrderIrrelevant` | src/runtime/number.c:380-383 | the object + or * returns is the same for every order of the arguments |
| `ArithmeticLaws.WrongCountExactly` | src/runtime/number.c:351-353 | a wrong count is reported for - and / without arguments, and never else |
| `ArithmeticLaws.NotANumberExactly` | src/runtime/number.c:380-383 | an argument that is no number is reported, unless a division before it broke |
| `ArithmeticLaws.OneArgument` | src/runtime/number.c:359-375 | (- a) answers as (- 0 a) and (/ a) as (/ 1 a) |
| `ArithmeticLaws.LeftToRight` | src/runtime/number.c:380-383 | (/ a b c ...) answers as (/ q c ...) with q what (/ a b) answers, and so with - |
| `ArithmeticLaws.RealQuotient` | src/runtime/include/number.h:335-433 | two reals: refused by 0, trapping for -2^31 over -1, broken for a small number other than 0 over a big one but for -2^31 over 2^31, and else the exact quotient |
| `ArithmeticLaws.ComplexQuotient` | src/runtime/number.c:298-314 | with a complex number: refused by 0, broken exactly when a part of the divisor is a nonzero int32 and c^2+d^2 is an integer beyond int32, and else answered |
| `Ordering.OrderIsExact` | src/runtime/include/number.h:445-568 | the comparison is the sign of the difference exactly when two small numbers are not further apart than an int32; it is 0 exactly for equal numbers |
| `Ordering.ReOrder2` | src/runtime/include/number.h:445-568 | the comparison over all pairs of types |
| `Ordering.LsoIsReal` | src/runtime/number.c:52-69 | the complex bit decides realness; an object that is no number is answered no |
| `Ordering.LsoIsInteger` | src/runtime/number.c:71-83 | the type bits decide integrality; an object that is no number is answered no |
| `Ordering.Order` | src/runtime/number.c:164-225 | every number is in order with the next; arguments behind the first pair out of order are not looked at |
| `Ordering.AdmissibleExactly` | src/runtime/number.c:174-186 | the arguments are taken up to the first that is no number or, but for =, has an imaginary part |
| `Ordering.InOrderMeans` | src/runtime/number.c:188-217 | one comparison decides the relation meant exactly when the difference fits an int32, or the relation is = |
| `Ordering.ChainSortsAll` | src/runtime/number.c:179-224 | the chain test decides the order of all pairs exactly when neighbours are within reach, or for =; otherwise a yes is wrong and a sorted sequence is refused |
| `Ordering.OrderCanBreak` | src/runtime/include/number.h:445-568 | (< 2147483647 -1) is true |
| `NumberText.IsDigit` | src/runtime/number.c:433-452 | the digits of a radix, whatever it is, and the point |
| `NumberText.OnePass` | src/runtime/number.c:646-753 | a pass that yields a part used up allowre or allowim, which is why the restart loop ends |
| `NumberRoundTrip.RoundTrip` | src/runtime/number.c:603-874 | string->number of number->text is the number, for every exact real or complex number, with the same parts |
| `NumberRoundTrip.PrintedExamples` | src/runtime/number.c:790-874 | 50, -7/2, -i, 3+i and 1/2-4i are printed so |
| `NumberRoundTrip.ReadPart` | src/runtime/number.c:646-753 | one printed part is read back with what follows left alone |
| `NumberRoundTrip.EitherOrder` | src/runtime/number.c:738-753 | the imaginary part may come before the real one: the restart loop reads both orders as the same number |
| `Radixes.PrefixIsRadix` | src/runtime/number.c:629-644 | #b, #o, #d and #x read what is behind them in base 2, 8, 10 and 16 |
| `Radixes.PrefixesCommute` | src/runtime/number.c:612-644 | a prefix for exactness may stand on either side of it |
| `Radixes.PrefixRefused` | src/runtime/number.c:616-637 | two prefixes of one kind make it no number |
| `Radixes.UnknownPrefix` | src/runtime/number.c:638-641 | nor is it one with another letter |
| `Radixes.IntegerWithRadix` | src/runtime/number.c:646-763 | an integer in any radix from 2 to 62 is read as the value of its digits, exact but for #i |
| `Radixes.RatioWithRadix` | src/runtime/number.c:656-763 | a ratio is read as the ratio of both values, and a denominator of 0 stops |
| `Radixes.IntegerInRadix` | src/runtime/number.c:629-644 | the integer behind #b, #o, #d or #x is the value of its digits in base 2, 8, 10 or 16 |
| `Radixes.Examples` | src/runtime/number.c:629-644 | #b101 is 5, #o17 is 15, #d17 is 17, #x1F and #x1f are 31 |
| `Radixes.LettersInLargeRadix` | src/runtime/number.c:433-452 | (string->number "12" 40) is 42, and "A" and "a" are 10 and 36 there |
| `NotNumbers.NoStart` | src/runtime/number.c:454-485 | a text that starts with no digit, sign or # is no number |
| `NotNumbers.SignAlone` | src/runtime/number.c:483-486 | nor is a sign alone |
| `NotNumbers.JunkBehind` | src/runtime/number.c:750-757 | nor is an integer with something behind it that cannot go on |
| `NotNumbers.TwoReals` | src/runtime/number.c:668-670 | nor are two reals one behind the other |
| `NotNumbers.UnsignedImaginary` | src/runtime/number.c:738-741 | nor is an imaginary part without a sign |
| `NotNumbers.SignedDenominator` | src/runtime/number.c:656-664 | nor is a ratio with a sign in its denominator |
| `NotNumbers.DecimalIsInexact` | src/runtime/number.c:731-736 | a decimal literal without #e is inexact |
| `NumberRoundTrip.NumberFitsInt32` | src/codegen.cc:48-60 | true exactly for nine digits at most, and then the value fits an int32 |
| `NumberRoundTrip.ShortcutAgrees` | src/codegen.cc:62-79 | the literal the compiler makes is the object the runtime would read from the same text |
| `Decimals.ExactDecimal` | src/runtime/number.c:542-601 | #e of a decimal literal is sign, digits and effective exponent exactly, # read as 0 and an exponent with a sign and no digits as 0; an exponent out of range stops |
| `Decimals.ExponentKept` | src/runtime/number.c:566-579 | the written exponent takes effect exactly when something follows the point, or it does not matter |
| `Decimals.ExponentLost` | src/runtime/number.c:566-579 | #e5.e3 is read as 5 |
| `Decimals.DecimalExamples` | src/runtime/number.c:542-601 | #e1.5 is 3/2 and #e-12.5e-1 is -5/4 |
| `Decimals.ExponentRange` | src/runtime/number.c:566-579 | #e1e255 is read, #e1e256 and #e1e00001 stop |
| `Decimals.ScanLiteral` | src/runtime/number.c:454-539 | what the scan leaves in the buffer for a decimal literal |
| `NumberParser.ScanDigits` | src/runtime/number.c:469-480 | the digits, with at most one point and that in radix ten only |
| `NumberParser.ScanPounds` | src/runtime/number.c:488-499 | each # becomes 0 in the buffer; nothing else changes |
| `NumberParser.ScanExponent` | src/runtime/number.c:501-519 | the marker becomes @ in the buffer; an exponent needs a sign or a digit |
| `NumberParser.StonParseReal` | src/runtime/number.c:454-539 | the scan in place is the scan on strings, and leaves the rest of the buffer alone |
| `NumberParser.StonPass` | src/runtime/number.c:646-753 | one pass in place |
| `NumberParser.StonPrefix` | src/runtime/number.c:612-644 | radix and exactness prefixes, each kind once, in either order |
| `NumberParser.Ston` | src/runtime/number.c:603-763 | _ston as it runs, with its restart loop, is the function on strings, and ends |
| `Lexing.Lexer.NextToken` | src/lexer.cc:42-73 | the token the remaining text starts with, an exception, or no end, and the position behind the token |
| `Lexing.Lexer.GetNumber` | src/lexer.cc:99-107 | the word up to a delimiter, or no end |
| `Lexing.Lexer.GetIdentifier` | src/lexer.cc:75-85 | a symbol, which must be followed by a delimiter |
| `Lexing.Lexer.GetPeculiarIdentifier` | src/lexer.cc:87-97 | + and - alone, else a number |
| `Lexing.Lexer.GetDot` | src/lexer.cc:109-126 | the period, the symbol ..., or a number |
| `Lexing.Lexer.GetString` | src/lexer.cc:135-147 | up to the closing quotation mark, or no end |
| `Lexing.Lexer.GetPoundSpecial` | src/lexer.cc:149-172 | booleans and prefixed numbers |
| `Lexing.Lexer.SkipComment` | src/lexer.cc:128-133 | up to and with the newline, or no end |
| `LexRoundTrip.TokenRoundTrip` | src/lexer.cc:42-172 | a well-formed token, printed and delimited, is read back with its kind and text |
| `LexRoundTrip.TokenShape` | src/lexer.cc:42-172 | the lexer returns no other tokens, and each stands in the text and is delimited |
| `LexRoundTrip.AtmosphereSkipped` | src/lexer.cc:44-60 | blanks and comments make no difference to the token behind them |
| `LexRoundTrip.EndlessExactly` | src/lexer.cc:99-147 | the lexer runs for ever exactly when an open comment, string or number is what is left |
| `LexRoundTrip.PrintedTokensReadBack` | src/lexer.cc:42-172 | any sequence of well-formed tokens with blanks and comments between them is read back, kinds and texts |
| `LexRoundTrip.ReadTokensWerePrinted` | src/lexer.cc:42-172 | every text is such a sequence up to where the lexer ends or fails |
| `LexRoundTrip.OnlyAnOpenStringLoops` | src/lexer.cc:135-147 | on a text that ends with a newline only an open string keeps the lexer from ending |
| `LexRoundTrip.EndOfInputIsNoDelimiter` | src/lexer.cc:75-147 | an open comment, number and string on which the lexer does not end; an identifier at the end is an error |
| `LexRoundTrip.SmallClasses` | src/lexer.cc:202-213 | blanks, delimiters and digits, character by character |
| `LexRoundTrip.IdentifierClasses` | src/lexer.cc:174-200 | the characters identifiers start with and go on with |
| `Parsing.NextDatum` | src/parser.cc:72-106 | whatever the stack holds, the parse goes on with one datum and then with the stack |
| `Parsing.Parser.PeekToken` | src/parser.cc:48-53 | shows the token any number of places ahead and uses none; the end of the input is seen again and again |
| `Parsing.Parser.FillToken` | src/parser.cc:35-39 | looks at so many more tokens, or ends like the lexer where that fails |
| `Parsing.Parser.Consume` | src/parser.cc:41-46 | uses one token; one not looked at yet may make the lexer fail |
| `Parsing.Parser.ParseSExp` | src/parser.cc:68-128 | the loop over the stack is recursive descent: the same tree or the same failure, and the same tokens left; it ends |
| `Parsing.Parser.ParseQuoted` | src/parser.cc:97-102 | 'x is a node of quote and x |
| `Parsing.Parser.ParseDotted` | src/parser.cc:108-114 | one datum behind the point, then a closing parenthesis |
| `Grammar.DerivationParses` | src/parser.cc:68-128 | every derivation of a datum is parsed to its tree, up to its last token |
| `Grammar.ParsedHasDerivation` | src/parser.cc:68-128 | what is parsed has a derivation with that tree: nothing else is accepted |
| `Grammar.Unambiguous` | src/parser.cc:68-128 | no token sequence has two trees |
| `Grammar.NoDatum` | src/parser.cc:86-127 | at the end of the input there is no result, a failing lexer fails the parser and one that does not end keeps it waiting; a parenthesis or a point too many is an error |
| `Grammar.OpenAtTheEnd` | src/parser.cc:86-106 | a quotation or a list still open at the end, with or without its point, is like nothing at all |
| `Grammar.OneBehindThePoint` | src/parser.cc:108-114 | anything but a closing parenthesis behind the datum behind a point is an error |
| `Grammar.QuoteIsQuotation` | src/parser.cc:95-102 | 'x and (quote x) are one tree |
| `Grammar.TextLexes` | src/lexer.cc:42-172 | the text of a derivation is read as its tokens |
| `Grammar.TextReads` | src/parser.cc:68-128 | and parsed as its tree |
| `Grammar.ReadFirst` | src/parser.cc:68-128 | lexer and parser together give that reading |
| `Program.ReadProgram` | src/main.cc:102-118 | the reading loop over lexer and parser gives the trees of the whole text, and says why it stopped |
| `Program.DerivationsParse` | src/main.cc:102-118 | a sequence of derivations is read as its trees, and the loop goes on behind it |
| `Program.ParsedHaveDerivations` | src/main.cc:102-118 | the trees read come from derivations, and the loop reaches the end exactly when nothing else is left |
| `Program.ProgramsAreDerivations` | src/main.cc:102-118 | a text is read to its end exactly when its tokens are those of a sequence of derivations, and the lines of these are read as the same trees |
| `Program.NamesAreSymbols` | src/driver.cc:146-205 | every builtin and every keyword is read as a symbol with that name |
| `Printer.FinePrint` | src/include/astnodes.hh:207-228 | writes the text of the tree's derivation, and reads behind its arguments exactly when some list has one element |
| `Printer.FinePrintReadsBack` | src/include/astnodes.hh:207-228 | a printed tree whose leaves are tokens is read back as it was |
| `Printer.ReadPrintRead` | src/include/astnodes.hh:207-228 | whatever was read is such a tree |
| `Data.DisplayIsText` | src/runtime/io.c:64-82 | what display prints is the text of a derivation: a chain prints as one list, (a . (b)) as (a b) |
| `Data.DisplayExamples` | src/runtime/io.c:64-82 | (a #t), (a . #t) and ((a) . #t) |
| `Data.ShownNumberReads` | src/runtime/io.c:43-47 | a displayed number is a token and reads as that number, through the compiler or the runtime |
| `Data.DatumReads` | src/codegen.cc:216-253 | the tree of a displayed datum quotes to the datum |
| `Data.DisplayReadsBack` | src/runtime/io.c:39-105 | display, lex, parse and quote give an equal datum, for every readable datum and whatever follows |
| `Data.ReadDisplayRead` | src/codegen.cc:216-253 | reading a text, displaying what was quoted and reading that changes nothing |
| `Data.StonIsCanonical` | src/runtime/number.c:731-748 | string->number makes canonical numbers only, from any text |
| `Data.DatumIsQuotable` | src/codegen.cc:216-253 | a tree has a datum exactly when the compiler can quote it and its number literals are exact |
| `Data.JunkIsFalse` | src/codegen.cc:62-79 | a number token that is no number, such as 1x, quotes to #f |
| `Data.InexactHasNone` | src/runtime/number.c:731-736 | a decimal literal has no datum here |
| `Pairs.Quote` | src/codegen.cc:216-253 | fresh objects that represent the quoted datum |
| `Pairs.QuoteElements` | src/codegen.cc:225-240 | the loop with the moving tail pointer: the pairs so far are linked and the last one is open |
| `Pairs.QuoteList` | src/codegen.cc:220-252 | the finished chain, proper or dotted |
| `Pairs.MakeList` | src/runtime/pairlist.c:109-130 | list, from the last argument to the first: a chain of exactly the arguments, ended by nil |
| `Pairs.Length` | src/runtime/pairlist.c:135-148 | the number of elements of a proper list, counted in an int that wraps around; -1 for any other chain |
| `Pairs.ListP` | src/runtime/pairlist.c:150-161 | true exactly for proper lists |
| `Pairs.ListRef` | src/runtime/pairlist.c:192-215 | the element at the index, by the value of the index: none for a negative or too large one, none for a chain that is no proper list; for an index that is no small integer, what its bits are as an int |
| `Pairs.ChainUnique` | src/runtime/pairlist.c:135-148 | an object has one chain |
| `Pairs.ChainIsAcyclic` | src/runtime/pairlist.c:135-148 | a chain does not come back to a pair |
| `Pairs.CycleHasNoChain` | src/runtime/pairlist.c:140-145 | from a pair on a cycle there is no chain, so the walk does not end |
| `Pairs.ChainRepresents` | src/runtime/pairlist.c:122-127 | chains of the same elements represent the same list, whether quote or list made them |
| `Pairs.RepresentedHasChain` | src/runtime/pairlist.c:135-148 | what represents a datum has a chain with the elements of the datum |
| `Pairs.QuotedListHasChain` | src/codegen.cc:220-247 | a quoted list without a point is a proper list of what its elements quote to, so length counts them and list-ref finds them |
| `Pairs.RepresentsOne` | src/runtime/io.c:39-105 | an object represents one datum |
| `Console.Output.Show` | src/runtime/io.c:39-105 | what is printed for an object on the heap is the text of the datum it represents |
| `Console.DisplayAndQuote` | src/runtime/io.c:108-116 | an object, displayed, read and quoted, comes back as a new one of the same structure |
| `Console.QuoteDisplayQuote` | src/codegen.cc:216-253 | and so does what was quoted from any text |

## Left out

- LLVM, the JIT, module output, and of `main` everything but its loops: foreign calls and I/O. The
  emitted code is the language `Convert.Code`; `builtin` and `datum` in `Semantics.Runtime` stand
  for calls into the runtime and are arbitrary. That a compile error also leaves half-built LLVM
  functions and the insertion point of the builder behind is not modelled.
- Session.CheckBuiltinProcs: says where each builtin is stored; that the module has the procedure
  from then on is the parameter `declared`, and the store itself is not run in `Semantics`, where
  the globals of the start are arbitrary.
- The garbage collector and the insides of GMP: exact operations with their documented
  preconditions. Where GMP refuses a text or a base and leaves the result open, as it does outside
  the bases 2 to 62, `NumberText.Pass` says so.
- Inexact numbers, precision suffixes and square roots: they depend on GMP's floats. A text with an
  inexact number has no datum in `Data.DatumOf`.
- The slow path of number literals calls whatever `string->number` is bound to; `Data.NumberDatum`
  takes it as the builtin, and `Semantics` takes every literal as a constant.
- Functions without captures are static objects in the code; the model makes a new procedure at
  each evaluation. They behave alike, but are not `eq?` alike.
- Undefined behaviour of the compiler is an error in the model: a define whose function name is no
  symbol or is missing, and quoting a dotted list with nothing in front of the point.
- The number printer and `display` ignore the radix, as the code does; the terminator `_ston`
  writes behind a part while GMP reads it is left out.
- Numbers.Arith: the number objects of the arguments do not change because nothing but the new
  object is modified; the freeing of old parts is not modelled.
- Pairs.ListRef: the bits of an index that is no small integer are a parameter.
- Pairs.Quote: makes all objects anew at each evaluation, as the code does for pairs, nil and
  booleans; the code makes one static object for each symbol, string and small number written in
  a quotation, which every evaluation of it shares.
- A radix whose double overflows an int in the digit test of `_ston`.
- Positions, error messages and what the lexer or parser does after it has failed.
- Strings end at the first NUL, as C strings do (`Data.CString`).
- Vectors, string procedures, `set-car!` and `set-cdr!`, procedures and unspecified values in the
  printers.
- Conformance of `_ston` to the number grammar of section 7.1.1 of R5RS: it also takes texts such
  as `+i3` (`NumberRoundTrip.EitherOrder`), and the model takes what the code takes.
