// Laws of the arithmetic builtins, said of their answers alone: which argument counts they take,
// which arguments they refuse, when a quotient is computed, and that many arguments are worked
// through from left to right (src/runtime/number.c:345-420).
module ArithmeticLaws {
  import opened Rational
  import opened Tower
  import opened Complex
  import opened Numbers

  // ---- which arguments are taken ----------------------------------------------------------------

  /** A wrong count is reported for `-` and `/` without arguments, and never else. */
  lemma WrongCountExactly(op: Op, ps: seq<Parts>, argc: nat)
    requires AllCanonical(ps) && |ps| <= argc
    ensures Expected(op, ps, argc) == WrongCount <==> (op == Sub || op == Div) && argc == 0
  {
    hide Canonical, Fold;
  }

  /** An argument that is no number is reported, unless a division before it broke. */
  lemma NotANumberExactly(op: Op, ps: seq<Parts>, argc: nat)
    requires AllCanonical(ps) && |ps| < argc
    ensures op != Div || |ps| < 2 ==> Expected(op, ps, argc) == NotANumber
    ensures |ps| >= 2 ==>
              var r := Expected(op, ps, |ps|);
              Expected(op, ps, argc) == if r.Answer? then NotANumber else r
  {
    hide Canonical, ArithStatus, ResultOf;
    if op == Div && |ps| == 1 && argc == 1 { assert false; }
    if op != Div { FoldIsFine(op, Unit(op), ps); }
    if op == Sub && ps != [] { FoldIsFine(op, ps[0], ps[1..]); }
  }

  lemma {:induction false} FoldIsFine(op: Op, acc: Parts, ps: seq<Parts>)
    requires CanonicalParts(acc) && AllCanonical(ps) && op != Div
    ensures Fold(op, acc, ps).0 == Fine
    decreases |ps|
  {
    hide Canonical, ResultOf;
    if ps != [] { FoldIsFine(op, ResultOf(op, acc, ps[0]), ps[1..]); }
  }

  // ---- one argument and many --------------------------------------------------------------------

  /** (- a) answers as (- 0 a), and (/ a) as (/ 1 a). */
  lemma OneArgument(a: Parts)
    requires CanonicalParts(a)
    ensures Expected(Sub, [a], 1) == Expected(Sub, [Parts(Small(0), Small(0)), a], 2)
    ensures Expected(Div, [a], 1) == Expected(Div, [Parts(Small(1), Small(0)), a], 2)
  {
    hide ArithStatus, ResultOf, Fold;
    assert [Parts(Small(0), Small(0)), a][1..] == [a] && [Parts(Small(1), Small(0)), a][1..] == [a];
  }

  /** (- a b c ...) answers as (- r c ...) with r what (- a b) answers; so does /. */
  lemma LeftToRight(op: Op, a: Parts, b: Parts, cs: seq<Parts>, argc: nat)
    requires CanonicalParts(a) && CanonicalParts(b) && AllCanonical(cs) && 2 + |cs| <= argc && 2 < argc
    requires op == Sub || op == Div
    ensures var r := Expected(op, [a, b], 2);
            if r.Answer?
            then
              && AllCanonical([r.value] + cs)
              && Expected(op, [a, b] + cs, argc) == Expected(op, [r.value] + cs, argc - 1)
            else Expected(op, [a, b] + cs, argc) == r
  {
    hide Canonical, ArithStatus, ResultOf, Fold;
    assert ([a, b] + cs)[1..] == [b] + cs && [a, b][1..] == [b];
    FoldFirst(op, a, b, cs);
    FoldFirst(op, a, b, []);
    assert [b] + [] == [b];
    var r := Expected(op, [a, b], 2);
    if r.Answer? {
      assert CanonicalParts(r.value) && ([r.value] + cs)[1..] == cs;
    }
  }

  lemma FoldFirst(op: Op, a: Parts, b: Parts, cs: seq<Parts>)
    requires CanonicalParts(a) && CanonicalParts(b) && AllCanonical(cs)
    ensures var one := Fold(op, a, [b]);
            if one.0 == Fine then Fold(op, a, [b] + cs) == Fold(op, one.1, cs) else Fold(op, a, [b] + cs) == one
  {
    hide Canonical, ArithStatus, ResultOf;
    assert ([b] + cs)[1..] == cs && [b][1..] == [];
    if ArithStatus(op, a, b).Fine? { FineDivisor(op, a, b); }
  }

  // ---- when there is a quotient -----------------------------------------------------------------

  /** The quotient of two reals: refused by 0, trapping for -2^31 over -1, broken for a small number
      other than 0 over a big one but for -2^31 over 2^31, and answered otherwise. */
  lemma RealQuotient(a: Exact, b: Exact)
    requires Canonical(a) && Canonical(b)
    ensures var r := Expected(Div, [Parts(a, Small(0)), Parts(b, Small(0))], 2);
            if Value(b) == 0.0 then r == Broken(DivideByZero)
            else if a == Small(-2147483648) && b == Small(-1) then r == Broken(DivisionOverflow)
            else if a.Small? && a.v != 0 && b.Big? && (a.v != -2147483648 || b.z != 2147483648)
            then r == Broken(InexactDivision)
            else r.Answer? && IsQuotient(r.value, a, b)
  {
    var p, q := Parts(a, Small(0)), Parts(b, Small(0));
    assert CanonicalParts(p) && CanonicalParts(q);
    RealStatus(a, b);
    CanonicalZero(b);
    hide Canonical, ResultOf, Value, ArithStatus, IsQuotient;
    TwoArguments(p, q);
    if ArithStatus(Div, p, q).Fine? {
      QuotientIsReal(a, b);
    }
  }

  predicate IsQuotient(r: Parts, a: Exact, b: Exact)
    requires Canonical(a) && Canonical(b)
  {
    r.im == Small(0) && Canonical(r.re) && Value(r.re) * Value(b) == Value(a)
  }

  lemma RealStatus(a: Exact, b: Exact)
    requires Canonical(a) && Canonical(b)
    ensures ArithStatus(Div, Parts(a, Small(0)), Parts(b, Small(0))) ==
            if Value(b) == 0.0 then DivideByZero
            else if a == Small(-2147483648) && b == Small(-1) then DivisionOverflow
            else if a.Small? && a.v != 0 && b.Big? && (a.v != -2147483648 || b.z != 2147483648) then InexactDivision
            else Fine
  {
    hide Value, Norm;
    CanonicalZero(b);
  }

  lemma TwoArguments(a: Parts, b: Parts)
    requires CanonicalParts(a) && CanonicalParts(b)
    ensures var status := ArithStatus(Div, a, b);
            if status.Fine? then b != SMALL_ZERO && Expected(Div, [a, b], 2) == Answer(ResultOf(Div, a, b))
            else Expected(Div, [a, b], 2) == Broken(status)
  {
    hide ArithStatus, Canonical;
    if ArithStatus(Div, a, b).Fine? { OneDivision(a, b); } else { BrokenDivision(a, b); }
  }

  lemma QuotientIsReal(a: Exact, b: Exact)
    requires Canonical(a) && Canonical(b) && b != Small(0)
    ensures IsQuotient(ResultOf(Div, Parts(a, Small(0)), Parts(b, Small(0))), a, b)
  {
    var p, q := Parts(a, Small(0)), Parts(b, Small(0));
    hide ResultOf, Value, Times, Operand;
    assert Value(Small(0)) == 0.0 by { CanonicalZero(Small(0)); }
    CanonicalZero(b);
    OperandIsSource(Div, q);
    var r := ResultOf(Div, p, q);
    ResultDivides(p, q);
    RealDividend(Value(a), Value(b), Denotes(r));
    CanonicalZero(r.im);
  }

  lemma ResultDivides(a: Parts, b: Parts)
    requires CanonicalParts(a) && CanonicalParts(b) && b != SMALL_ZERO
    ensures Times(Denotes(ResultOf(Div, a, b)), Operand(Div, b)) == Denotes(a)
  {
    hide Canonical, Value, ResultOf, Operand, Times;
    var r := ResultOf(Div, a, b);
    assert Resulting(Div, a, b, r.re, r.im);
  }

  lemma RealDividend(a: real, b: real, r: Number)
    requires b != 0.0 && Times(r, Number(b, 0.0)) == Number(a, 0.0)
    ensures r.im == 0.0 && r.re * b == a
  {
    assert r.im * b == 0.0;
  }

  /** A quotient with a complex number in it: refused by 0, broken exactly when a part of the divisor
      is a small number other than 0 and c^2 + d^2 is an integer beyond int32. */
  lemma ComplexQuotient(a: Parts, b: Parts)
    requires CanonicalParts(a) && CanonicalParts(b) && (Value(a.im) != 0.0 || Value(b.im) != 0.0)
    ensures var r := Expected(Div, [a, b], 2);
            var c, d := Value(b.re), Value(b.im);
            if c == 0.0 && d == 0.0 then r == Broken(DivideByZero)
            else if ((b.re.Small? && b.re.v != 0) || (b.im.Small? && b.im.v != 0)) && Beyond(c * c + d * d)
            then r == Broken(InexactDivision)
            else r.Answer?
  {
    ComplexStatus(a, b);
    hide Canonical, ResultOf, Value, ArithStatus, Beyond;
    TwoArguments(a, b);
  }

  lemma ComplexStatus(a: Parts, b: Parts)
    requires CanonicalParts(a) && CanonicalParts(b) && (Value(a.im) != 0.0 || Value(b.im) != 0.0)
    ensures var c, d := Value(b.re), Value(b.im);
            ArithStatus(Div, a, b) ==
            if c == 0.0 && d == 0.0 then DivideByZero
            else if ((b.re.Small? && b.re.v != 0) || (b.im.Small? && b.im.v != 0)) && Beyond(c * c + d * d)
            then InexactDivision
            else Fine
  {
    hide Value, Beyond, Gcd;
    CanonicalZero(a.im);
    CanonicalZero(b.re);
    CanonicalZero(b.im);
    BigExactly(Norm(b));
  }

  /** An integer beyond int32. */
  predicate Beyond(x: real) { x == x.Floor as real && !(-2147483648 <= x.Floor <= 2147483647) }

  lemma BigExactly(x: Exact)
    requires Canonical(x)
    ensures x.Big? <==> Beyond(Value(x))
  {
    TypeDecidesInteger(x);
    if x.Rat? {
      hide Canonical;
    } else {
      ValueOfInteger(x);
    }
  }
}
