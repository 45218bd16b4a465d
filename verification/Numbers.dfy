// The builtins + - * and / on any number of arguments (src/runtime/number.c:345-386).
module Numbers {
  import opened Rational
  import opened Tower
  import opened Complex

  /** What a builtin is handed: a number object or something else. */
  datatype Arg = Numeric(obj: LsNumber) | Other

  datatype Answer<+T> = Answer(value: T) | WrongCount | NotANumber | NotReal | Broken(status: Status)

  ghost predicate ValidArgs(args: seq<Arg>)
    reads set a | a in args && a.Numeric? :: a.obj
  {
    forall i :: 0 <= i < |args| ==> args[i].Numeric? ==> args[i].obj.Valid()
  }

  /** The numbers before the first argument that is not one. */
  ghost function Operands(args: seq<Arg>): (ps: seq<Parts>)
    requires ValidArgs(args)
    reads set a | a in args && a.Numeric? :: a.obj
    ensures |ps| <= |args| && (|ps| < |args| ==> args[|ps|].Other?)
    ensures forall i :: 0 <= i < |ps| ==> args[i].Numeric? && ps[i] == args[i].obj.View() && CanonicalParts(ps[i])
  {
    if args == [] || args[0].Other? then []
    else
      assert forall i :: 0 <= i < |args[1..]| ==> args[1..][i] == args[i + 1];
      [args[0].obj.View()] + Operands(args[1..])
  }

  predicate AllCanonical(ps: seq<Parts>) {
    forall i :: 0 <= i < |ps| ==> CanonicalParts(ps[i])
  }

  // ---- one step ---------------------------------------------------------------------------------

  function ProductOf(a: Parts, b: Parts): (r: Parts)
    requires CanonicalParts(a) && CanonicalParts(b)
    ensures CanonicalParts(r) && Denotes(r) == Times(Denotes(a), Denotes(b))
  {
    hide Value, Apply, Times;
    var r := Parts(Exactly(Sub, Exactly(Mul, a.re, b.re), Exactly(Mul, a.im, b.im)),
                   Exactly(Add, Exactly(Mul, a.im, b.re), Exactly(Mul, a.re, b.im)));
    ProductParts(Value(a.re), Value(a.im), Value(b.re), Value(b.im), Value(r.re), Value(r.im));
    r
  }

  /** -x as _re_neg leaves it. */
  function Negative(x: Exact): (y: Exact)
    requires Canonical(x)
    ensures Stored(y) && Value(y) == Conjugated(x)
  {
    match x
    case Small(v) => Small(Wrap(0 - v))
    case Big(z) => Big(-z)
    case Rat(n, d) => Rat(-n, d)
  }

  function ReciprocalOf(b: Parts): (r: Parts)
    requires CanonicalParts(b) && b != Parts(Small(0), Small(0))
    ensures CanonicalParts(r) && Inverted(b, r.re, r.im)
  {
    hide Value, Norm;
    NormIsZero(b);
    CanonicalZero(Norm(b));
    Parts(Exactly(Div, b.re, Norm(b)), Exactly(Div, Negative(b.im), Norm(b)))
  }

  /** The canonical parts of the result, when the runtime computes one. */
  function ResultOf(op: Op, a: Parts, b: Parts): (r: Parts)
    requires CanonicalParts(a) && CanonicalParts(b) && (op.Div? ==> b != Parts(Small(0), Small(0)))
    ensures CanonicalParts(r) && Resulting(op, a, b, r.re, r.im)
  {
    match op
    case Mul => ProductOf(a, b)
    case Div =>
      var inverse := ReciprocalOf(b);
      QuotientParts(Value(a.re), Value(a.im), b, inverse.re, inverse.im);
      ProductOf(a, inverse)
    case _ => Parts(Exactly(op, a.re, b.re), Exactly(op, a.im, b.im))
  }

  lemma ResultIsOf(op: Op, a: Parts, b: Parts, re: Exact, im: Exact)
    requires CanonicalParts(a) && CanonicalParts(b) && (op.Div? ==> b != Parts(Small(0), Small(0)))
    requires Resulting(op, a, b, re, im)
    ensures Parts(re, im) == ResultOf(op, a, b)
  {
    var r := ResultOf(op, a, b);
    ResultUnique(op, Denotes(a), Operand(op, b), Denotes(Parts(re, im)), Denotes(r));
    PartsUnique(Parts(re, im), r);
  }

  lemma FineDivisor(op: Op, a: Parts, b: Parts)
    requires CanonicalParts(a) && CanonicalParts(b) && ArithStatus(op, a, b).Fine?
    ensures op.Div? ==> b != Parts(Small(0), Small(0))
  {
  }

  // ---- the fold ---------------------------------------------------------------------------------

  /** What _arith makes of its arguments, one after another. */
  function Fold(op: Op, acc: Parts, ps: seq<Parts>): (r: (Status, Parts))
    requires CanonicalParts(acc) && AllCanonical(ps)
    ensures CanonicalParts(r.1)
    decreases |ps|
  {
    if ps == [] then (Fine, acc)
    else if !ArithStatus(op, acc, ps[0]).Fine? then (ArithStatus(op, acc, ps[0]), acc)
    else FineDivisor(op, acc, ps[0]); Fold(op, ResultOf(op, acc, ps[0]), ps[1..])
  }

  const SMALL_ZERO := Parts(Small(0), Small(0))
  const SMALL_ONE := Parts(Small(1), Small(0))

  /** The fold of `-` and `/` starts from the first of several arguments, else from the unit. */
  predicate FromFirst(op: Op, argc: nat) { (op.Sub? || op.Div?) && argc > 1 }

  function Unit(op: Op): (u: Parts)
    ensures CanonicalParts(u)
  {
    if op.Mul? || op.Div? then SMALL_ONE else SMALL_ZERO
  }

  /** The answer when `ps` are the arguments up to the first that is not a number. */
  function Expected(op: Op, ps: seq<Parts>, argc: nat): Answer<Parts>
    requires AllCanonical(ps) && |ps| <= argc
  {
    if (op.Sub? || op.Div?) && argc == 0 then WrongCount
    else if FromFirst(op, argc) && ps == [] then NotANumber
    else
      var (status, r) := if FromFirst(op, argc) then Fold(op, ps[0], ps[1..]) else Fold(op, Unit(op), ps);
      if !status.Fine? then Broken(status)
      else if |ps| < argc then NotANumber
      else Answer(r)
  }

  lemma {:induction false} OperandsAt(args: seq<Arg>, i: nat)
    requires ValidArgs(args) && i < |args|
    requires forall j :: 0 <= j < i ==> args[j].Numeric?
    ensures |Operands(args)| >= i
    ensures |Operands(args)| > i <==> args[i].Numeric?
    ensures args[i].Numeric? ==> Operands(args)[i] == args[i].obj.View()
  {
    var ps := Operands(args);
    if |ps| <= i {
      assert args[|ps|].Other?;
    }
  }

  lemma FoldAt(op: Op, acc: Parts, ps: seq<Parts>, i: nat)
    requires CanonicalParts(acc) && AllCanonical(ps) && i <= |ps|
    ensures i == |ps| ==> Fold(op, acc, ps[i..]) == (Fine, acc)
    ensures i < |ps| ==>
              var status := ArithStatus(op, acc, ps[i]);
              && (!status.Fine? ==> Fold(op, acc, ps[i..]).0 == status)
              && (status.Fine? ==>
                    && (op.Div? ==> ps[i] != SMALL_ZERO)
                    && Fold(op, acc, ps[i..]) == Fold(op, ResultOf(op, acc, ps[i]), ps[i + 1..]))
  {
    if i < |ps| {
      if ArithStatus(op, acc, ps[i]).Fine? { FineDivisor(op, acc, ps[i]); }
      assert ps[i..][0] == ps[i] && ps[i..][1..] == ps[i + 1..];
    }
  }

  method Accumulate(op: Op, ret: LsNumber, obj: LsNumber) returns (status: Status)
    requires ret != obj && ret.Valid() && obj.Valid()
    modifies ret
    ensures status == ArithStatus(op, old(ret.View()), obj.View())
    ensures status.Fine? ==>
              && (op.Div? ==> obj.View() != SMALL_ZERO)
              && ret.Valid() && ret.View() == ResultOf(op, old(ret.View()), obj.View())
  {
    ghost var acc := ret.View();
    status := Arith2(op, ret, obj);
    if status.Fine? {
      FineDivisor(op, acc, obj.View());
      ResultIsOf(op, acc, obj.View(), ret.re, ret.im);
    }
  }

  /** The loop of _arith, from argument `from` on. */
  method AccumulateAll(op: Op, ret: LsNumber, args: seq<Arg>, from: nat, ghost ps: seq<Parts>)
    returns (status: Status, complete: bool)
    requires ValidArgs(args) && ps == Operands(args) && from <= |ps|
    requires ret.Valid() && forall i :: 0 <= i < |args| ==> args[i] != Numeric(ret)
    modifies ret
    ensures status.Fine? ==> ret.Valid()
    ensures status.Fine? && complete ==> |ps| == |args| && Fold(op, old(ret.View()), ps[from..]) == (Fine, ret.View())
    ensures status.Fine? && !complete ==> |ps| < |args| && Fold(op, old(ret.View()), ps[from..]).0.Fine?
    ensures !status.Fine? ==> Fold(op, old(ret.View()), ps[from..]).0 == status
  {
    hide Canonical, ArithStatus, ResultOf, Fold, Operands;
    var i := from;
    ghost var acc := ret.View();
    while i < |args|
      invariant from <= i <= |ps|
      invariant ret.Valid() && ValidArgs(args) && ps == Operands(args)
      invariant Fold(op, acc, ps[from..]) == Fold(op, ret.View(), ps[i..])
    {
      OperandsAt(args, i);
      FoldAt(op, ret.View(), ps, i);
      if args[i].Other? {
        assert i == |ps|;
        return Fine, false;
      }
      status := Accumulate(op, ret, args[i].obj);
      if !status.Fine? {
        return status, false;
      }
      i := i + 1;
    }
    FoldAt(op, ret.View(), ps, i);
    return Fine, true;
  }

  method Arith(op: Op, args: seq<Arg>) returns (r: Answer<LsNumber>)
    requires ValidArgs(args)
    ensures r.Answer? ==> fresh(r.value) && r.value.Valid()
    ensures Expected(op, Operands(args), |args|) ==
            match r
            case Answer(n) => Answer(n.View())
            case WrongCount => WrongCount
            case NotANumber => NotANumber
            case NotReal => NotReal
            case Broken(status) => Broken(status)
  {
    hide Canonical, Fold, Operands;
    ghost var ps := Operands(args);
    if (op.Div? || op.Sub?) && |args| == 0 {
      return WrongCount;
    }
    var ret: LsNumber;
    var i := 0;
    if (op.Sub? || op.Div?) && |args| > 1 {
      OperandsAt(args, 0);
      if args[0].Other? {
        return NotANumber;
      }
      ret := new LsNumber(args[0].obj.re, args[0].obj.im);
      i := 1;
    } else {
      ret := new LsNumber(if op.Mul? || op.Div? then Small(1) else Small(0), Small(0));
      assert ps[0..] == ps;
    }
    var status, complete := AccumulateAll(op, ret, args, i, ps);
    r := if !status.Fine? then Broken(status) else if !complete then NotANumber else Answer(ret);
  }

  // ---- what the folds mean ----------------------------------------------------------------------

  function Sum(ps: seq<Parts>): Number
    requires AllCanonical(ps)
  {
    if ps == [] then ZERO else Plus(Denotes(ps[0]), Sum(ps[1..]))
  }

  function Product(ps: seq<Parts>): Number
    requires AllCanonical(ps)
  {
    if ps == [] then ONE else Times(Denotes(ps[0]), Product(ps[1..]))
  }

  /** The product of the divisors that lose their sign: imaginary part INT_MIN. */
  function LostProduct(ps: seq<Parts>): Number
    requires AllCanonical(ps)
  {
    if ps == [] then ONE
    else if ps[0].im == Small(INT_MIN) then Times(Denotes(ps[0]), LostProduct(ps[1..]))
    else LostProduct(ps[1..])
  }

  /** The product of the others. */
  function KeptProduct(ps: seq<Parts>): Number
    requires AllCanonical(ps)
  {
    if ps == [] then ONE
    else if ps[0].im == Small(INT_MIN) then KeptProduct(ps[1..])
    else Times(Denotes(ps[0]), KeptProduct(ps[1..]))
  }

  /** The product of what the runtime divides by. */
  function OperandProduct(ps: seq<Parts>): Number
    requires AllCanonical(ps)
  {
    if ps == [] then ONE else Times(Operand(Div, ps[0]), OperandProduct(ps[1..]))
  }

  function Conjugate(a: Number): Number { Number(a.re, -a.im) }

  lemma TimesAssociative(a: Number, b: Number, c: Number)
    ensures Times(Times(a, b), c) == Times(a, Times(b, c))
    ensures Times(a, b) == Times(b, a)
  {
    TimesParts(a.re, a.im, b.re, b.im, c.re, c.im);
  }

  lemma TimesParts(a: real, b: real, c: real, d: real, e: real, f: real)
    ensures (a * c - b * d) * e - (a * d + b * c) * f == a * (c * e - d * f) - b * (c * f + d * e)
    ensures (a * c - b * d) * f + (a * d + b * c) * e == a * (c * f + d * e) + b * (c * e - d * f)
  {
  }

  /** n-ary + and * never break, and give the sum and the product. */
  lemma {:induction false} FoldSum(acc: Parts, ps: seq<Parts>)
    requires CanonicalParts(acc) && AllCanonical(ps)
    ensures Fold(Add, acc, ps).0 == Fine
    ensures Denotes(Fold(Add, acc, ps).1) == Plus(Denotes(acc), Sum(ps))
    decreases |ps|
  {
    hide Value;
    if ps != [] {
      FoldSum(ResultOf(Add, acc, ps[0]), ps[1..]);
    }
  }

  lemma {:induction false} FoldProduct(acc: Parts, ps: seq<Parts>)
    requires CanonicalParts(acc) && AllCanonical(ps)
    ensures Fold(Mul, acc, ps).0 == Fine
    ensures Denotes(Fold(Mul, acc, ps).1) == Times(Denotes(acc), Product(ps))
    decreases |ps|
  {
    hide Value;
    if ps != [] {
      FoldProduct(ResultOf(Mul, acc, ps[0]), ps[1..]);
      TimesAssociative(Denotes(acc), Denotes(ps[0]), Product(ps[1..]));
    }
  }

  lemma {:induction false} FoldDifference(acc: Parts, ps: seq<Parts>)
    requires CanonicalParts(acc) && AllCanonical(ps)
    ensures Fold(Sub, acc, ps).0 == Fine
    ensures Denotes(Fold(Sub, acc, ps).1) == Minus(Denotes(acc), Sum(ps))
    decreases |ps|
  {
    hide Value;
    if ps != [] {
      FoldDifference(ResultOf(Sub, acc, ps[0]), ps[1..]);
    }
  }

  /** When n-ary / does not break, multiplying back by what it divided by gives the dividend. */
  lemma {:induction false} FoldQuotient(acc: Parts, ps: seq<Parts>)
    requires CanonicalParts(acc) && AllCanonical(ps) && Fold(Div, acc, ps).0 == Fine
    ensures Times(Denotes(Fold(Div, acc, ps).1), OperandProduct(ps)) == Denotes(acc)
    decreases |ps|
  {
    hide Value, Times, Norm, ArithStatus, ResultOf, Canonical, Operand;
    if ps != [] {
      FineDivisor(Div, acc, ps[0]);
      var q := ResultOf(Div, acc, ps[0]);
      FoldQuotient(q, ps[1..]);
      var r, d, rest := Denotes(Fold(Div, acc, ps).1), Operand(Div, ps[0]), OperandProduct(ps[1..]);
      TimesAssociative(r, rest, d);
      TimesAssociative(d, rest, ONE);
    } else {
      UnitIsNeutral(Denotes(acc));
    }
  }

  lemma ConjugateTimes(a: Number, b: Number)
    ensures Conjugate(Times(a, b)) == Times(Conjugate(a), Conjugate(b))
  {
    assert a.re * -b.im == -(a.re * b.im) && -a.im * b.re == -(a.im * b.re) && -a.im * -b.im == a.im * b.im;
  }

  lemma Swap(a: Number, b: Number, c: Number)
    ensures Times(a, Times(b, c)) == Times(b, Times(a, c))
  {
    hide Times;
    TimesAssociative(a, b, c);
    TimesAssociative(b, a, c);
  }

  lemma OperandIsConjugate(p: Parts)
    requires CanonicalParts(p)
    ensures Operand(Div, p) == if p.im == Small(INT_MIN) then Conjugate(Denotes(p)) else Denotes(p)
  {
  }

  lemma UnitConjugate()
    ensures Conjugate(ONE) == ONE
  {
  }

  /** The divisors that lose their sign count as their conjugates. */
  lemma {:induction false} ProductsSplit(ps: seq<Parts>)
    requires AllCanonical(ps)
    ensures Product(ps) == Times(LostProduct(ps), KeptProduct(ps))
    ensures OperandProduct(ps) == Times(Conjugate(LostProduct(ps)), KeptProduct(ps))
    decreases |ps|
  {
    hide Value, Times, Canonical, Operand, Conjugate;
    if ps == [] {
      UnitIsNeutral(ONE);
      UnitConjugate();
    } else {
      var d, lost, kept := Denotes(ps[0]), LostProduct(ps[1..]), KeptProduct(ps[1..]);
      ProductsSplit(ps[1..]);
      OperandIsConjugate(ps[0]);
      if ps[0].im == Small(INT_MIN) {
        TimesAssociative(d, lost, kept);
        ConjugateTimes(d, lost);
        TimesAssociative(Conjugate(d), Conjugate(lost), kept);
      } else {
        Swap(d, lost, kept);
        Swap(d, Conjugate(lost), kept);
      }
    }
  }

  lemma ZeroFactor(a: Number, b: Number)
    ensures Times(a, b) == ZERO <==> a == ZERO || b == ZERO
  {
    if b != ZERO && Times(a, b) == ZERO {
      assert Times(ZERO, b) == ZERO;
      ResultUnique(Div, ZERO, b, a, ZERO);
    }
  }

  /** Dividing by the conjugates instead is right exactly for 0 and when their product is real. */
  lemma ConjugateDivides(q: Number, lost: Number, kept: Number, a: Number)
    requires Times(q, Times(Conjugate(lost), kept)) == a
    ensures Times(q, Times(lost, kept)) == a <==> a == ZERO || lost.im == 0.0
  {
    hide Times;
    Swap(q, Conjugate(lost), kept);
    Swap(q, lost, kept);
    var w := Times(q, kept);
    TimesAssociative(w, lost, ONE);
    TimesAssociative(w, Conjugate(lost), ONE);
    if lost.im == 0.0 {
      assert Conjugate(lost) == lost;
    } else if a == ZERO {
      ZeroFactor(Conjugate(lost), w);
      ZeroFactor(lost, w);
    } else if Times(lost, w) == a {
      BothSigns(a, w, lost.re, lost.im);
    }
  }

  lemma UnitIsNeutral(a: Number)
    ensures Times(ONE, a) == a && Times(a, ONE) == a && Plus(ZERO, a) == a
  {
  }

  lemma UnitDenotes()
    ensures Denotes(SMALL_ZERO) == ZERO && Denotes(SMALL_ONE) == ONE
    ensures CanonicalParts(SMALL_ZERO) && CanonicalParts(SMALL_ONE)
  {
  }

  lemma ZeroIsNeutral(a: Number)
    ensures Plus(ZERO, a) == a
  {
  }

  /** (+ a b ...) and (* a b ...), whatever the types. */
  lemma SumMeaning(ps: seq<Parts>)
    requires AllCanonical(ps)
    ensures var r := Expected(Add, ps, |ps|); r.Answer? && CanonicalParts(r.value) && Denotes(r.value) == Sum(ps)
  {
    UnitDenotes();
    hide Value, Canonical, Denotes, Fold, Sum;
    FoldSum(SMALL_ZERO, ps);
    ZeroIsNeutral(Sum(ps));
  }

  lemma ProductMeaning(ps: seq<Parts>)
    requires AllCanonical(ps)
    ensures var r := Expected(Mul, ps, |ps|); r.Answer? && CanonicalParts(r.value) && Denotes(r.value) == Product(ps)
  {
    hide Value, Times;
    UnitDenotes();
    FoldProduct(SMALL_ONE, ps);
    UnitIsNeutral(Product(ps));
  }

  /** (- a) and (- a b ...) */
  lemma DifferenceMeaning(ps: seq<Parts>)
    requires AllCanonical(ps) && ps != []
    ensures var r := Expected(Sub, ps, |ps|);
            && r.Answer? && CanonicalParts(r.value)
            && Denotes(r.value) ==
               if |ps| == 1 then Minus(ZERO, Denotes(ps[0])) else Minus(Denotes(ps[0]), Sum(ps[1..]))
  {
    hide Value;
    UnitDenotes();
    if |ps| == 1 {
      FoldDifference(SMALL_ZERO, ps);
      assert Sum(ps[1..]) == ZERO;
    } else {
      FoldDifference(ps[0], ps[1..]);
    }
  }

  /** (/ a) and (/ a b ...): what is computed, times the divisors, is the dividend exactly when
      that is 0 or the divisors that lose their sign have a real product. */
  lemma QuotientMeaning(ps: seq<Parts>)
    requires AllCanonical(ps) && ps != []
    ensures var r := Expected(Div, ps, |ps|);
            r.Answer? ==>
              && CanonicalParts(r.value)
              && (|ps| == 1 ==>
                    (Times(Denotes(r.value), Denotes(ps[0])) == ONE <==> LostProduct(ps).im == 0.0))
              && (|ps| > 1 ==>
                    (Times(Denotes(r.value), Product(ps[1..])) == Denotes(ps[0]) <==>
                     ps[0] == SMALL_ZERO || LostProduct(ps[1..]).im == 0.0))
  {
    hide Value, Times, Fold, Operand, LostProduct, KeptProduct, OperandProduct;
    UnitDenotes();
    if |ps| == 1 {
      assert Product(ps[1..]) == ONE;
      UnitIsNeutral(Denotes(ps[0]));
      QuotientOf(SMALL_ONE, ps);
    } else {
      PartsUnique(ps[0], SMALL_ZERO);
      QuotientOf(ps[0], ps[1..]);
    }
  }

  lemma QuotientOf(acc: Parts, ps: seq<Parts>)
    requires CanonicalParts(acc) && AllCanonical(ps)
    ensures Fold(Div, acc, ps).0 == Fine ==>
              (Times(Denotes(Fold(Div, acc, ps).1), Product(ps)) == Denotes(acc) <==>
               Denotes(acc) == ZERO || LostProduct(ps).im == 0.0)
  {
    hide Value, Times, Fold, Product, LostProduct, KeptProduct, OperandProduct, Conjugate;
    if Fold(Div, acc, ps).0 == Fine {
      FoldQuotient(acc, ps);
      ProductsSplit(ps);
      ConjugateDivides(Denotes(Fold(Div, acc, ps).1), LostProduct(ps), KeptProduct(ps), Denotes(acc));
    }
  }

  const TWO_TO_64_AND_1 := 18446744073709551617

  /** (/ 1 1/2-2147483648i) is computed, with the wrong sign in its imaginary part. */
  lemma QuotientLosesSign()
    ensures var d := Parts(Rat(1, 2), Small(INT_MIN));
            var r := Parts(Rat(2, TWO_TO_64_AND_1), Rat(-8589934592, TWO_TO_64_AND_1));
            && CanonicalParts(d) && CanonicalParts(r)
            && Expected(Div, [SMALL_ONE, d], 2) == Answer(r)
            && !IsResult(Div, Denotes(SMALL_ONE), Denotes(d), Denotes(r))
            && IsResult(Div, Denotes(SMALL_ONE), Denotes(d), Conjugate(Denotes(r)))
  {
    var d := Parts(Rat(1, 2), Small(INT_MIN));
    var r := Parts(Rat(2, TWO_TO_64_AND_1), Rat(-8589934592, TWO_TO_64_AND_1));
    LostSignCanonical();
    LostSignResult();
    hide Canonical, Value, Norm, ResultOf, Resulting, IsResult, Operand, Conjugate, ArithStatus, Expected;
    LostSignComputed(SMALL_ONE, d);
    ResultIsOf(Div, SMALL_ONE, d, r.re, r.im);
    ComputedIsExact(Div, SMALL_ONE, d, r.re, r.im);
    OneDivision(SMALL_ONE, d);
  }

  lemma OneDivision(a: Parts, b: Parts)
    requires CanonicalParts(a) && CanonicalParts(b) && ArithStatus(Div, a, b).Fine?
    ensures b != SMALL_ZERO && Expected(Div, [a, b], 2) == Answer(ResultOf(Div, a, b))
  {
    hide Canonical, Value, Norm, ResultOf, ArithStatus;
    FineDivisor(Div, a, b);
    var q := ResultOf(Div, a, b);
    assert [a, b][1..] == [b] && [b][1..] == [];
    assert Fold(Div, q, []) == (Fine, q);
    assert Fold(Div, a, [b]) == (Fine, q);
  }

  lemma LostSignCanonical()
    ensures Canonical(Rat(1, 2)) && Canonical(Rat(2, TWO_TO_64_AND_1)) && Canonical(Rat(-8589934592, TWO_TO_64_AND_1))
  {
    assert Gcd(1, 2) == Gcd(2, 1) == Gcd(1, 0) == 1;
    assert Gcd(2, TWO_TO_64_AND_1) == Gcd(TWO_TO_64_AND_1, 2) == Gcd(2, 1);
    assert Gcd(8589934592, TWO_TO_64_AND_1) == Gcd(TWO_TO_64_AND_1, 8589934592) == Gcd(8589934592, 1) == Gcd(1, 0);
  }

  lemma LostSignResult()
    requires Canonical(Rat(1, 2)) && Canonical(Rat(2, TWO_TO_64_AND_1)) && Canonical(Rat(-8589934592, TWO_TO_64_AND_1))
    ensures var d := Parts(Rat(1, 2), Small(INT_MIN));
            var r := Parts(Rat(2, TWO_TO_64_AND_1), Rat(-8589934592, TWO_TO_64_AND_1));
            && Resulting(Div, SMALL_ONE, d, r.re, r.im)
            && IsResult(Div, Denotes(SMALL_ONE), Denotes(d), Conjugate(Denotes(r)))
  {
    hide Gcd;
  }

  /** `(/ 1 +50000i)` does not: 50000^2 is beyond int32, and 50000 is not. */
  lemma QuotientCanBreak()
    ensures Expected(Div, [SMALL_ONE, Parts(Small(0), Small(50000))], 2) == Broken(InexactDivision)
  {
    hide Value, Norm;
    var d := Parts(Small(0), Small(50000));
    ValueOfInteger(d.re);
    ValueOfInteger(d.im);
    ValueOfInteger(Big(2500000000));
    assert Value(Norm(d)) == 2500000000.0 by { assert 0.0 * 0.0 + 50000.0 * 50000.0 == 2500000000.0; }
    CanonicalUnique(Norm(d), Big(2500000000));
    assert ArithStatus(Div, SMALL_ONE, d) == InexactDivision;
    BrokenDivision(SMALL_ONE, d);
  }

  /** `(/ -2147483648 -1)` traps, and `(/ 1 2147483648)` reaches an exact division that is not. */
  lemma RealQuotientCanBreak()
    ensures Expected(Div, [Parts(Small(INT_MIN), Small(0)), Parts(Small(-1), Small(0))], 2) == Broken(DivisionOverflow)
    ensures Expected(Div, [SMALL_ONE, Parts(Big(2147483648), Small(0))], 2) == Broken(InexactDivision)
  {
    BrokenDivision(Parts(Small(INT_MIN), Small(0)), Parts(Small(-1), Small(0)));
    BrokenDivision(SMALL_ONE, Parts(Big(2147483648), Small(0)));
  }

  lemma BrokenDivision(a: Parts, b: Parts)
    requires CanonicalParts(a) && CanonicalParts(b) && !ArithStatus(Div, a, b).Fine?
    ensures Expected(Div, [a, b], 2) == Broken(ArithStatus(Div, a, b))
  {
    hide Canonical, ArithStatus, ResultOf;
    assert [a, b][1..] == [b];
  }

  // ---- order of arguments -----------------------------------------------------------------------

  lemma {:induction false} PullOut(ps: seq<Parts>, i: nat)
    requires AllCanonical(ps) && i < |ps|
    ensures Sum(ps) == Plus(Denotes(ps[i]), Sum(ps[..i] + ps[i + 1..]))
    ensures Product(ps) == Times(Denotes(ps[i]), Product(ps[..i] + ps[i + 1..]))
  {
    hide Value, Times;
    var rest := ps[..i] + ps[i + 1..];
    if i == 0 {
      assert rest == ps[1..];
    } else {
      PullOut(ps[1..], i - 1);
      assert rest[1..] == ps[1..][..i - 1] + ps[1..][i..];
      var a, b, c := Denotes(ps[0]), Denotes(ps[i]), Product(rest[1..]);
      TimesAssociative(a, b, c);
      TimesAssociative(b, a, c);
    }
  }

  lemma {:induction false} ReorderedTotals(ps: seq<Parts>, qs: seq<Parts>)
    requires AllCanonical(ps) && AllCanonical(qs) && multiset(ps) == multiset(qs)
    ensures Sum(ps) == Sum(qs) && Product(ps) == Product(qs)
    decreases |ps|
  {
    hide Value, Times, AllCanonical;
    if ps == [] {
      assert |multiset(qs)| == 0;
    } else {
      assert ps[0] in multiset(ps);
      var i :| 0 <= i < |qs| && qs[i] == ps[0];
      var rest := qs[..i] + qs[i + 1..];
      Removed(ps, 0);
      Removed(qs, i);
      assert ps[..0] + ps[1..] == ps[1..];
      PullOut(qs, i);
      ReorderedTotals(ps[1..], rest);
    }
  }

  lemma Removed(ps: seq<Parts>, i: nat)
    requires i < |ps|
    ensures multiset(ps[..i] + ps[i + 1..]) == multiset(ps) - multiset{ps[i]}
    ensures AllCanonical(ps) ==> AllCanonical(ps[..i] + ps[i + 1..])
  {
    hide CanonicalParts;
    assert ps == ps[..i] + [ps[i]] + ps[i + 1..];
  }

  /** The object that + or * returns does not depend on the order of the arguments. */
  lemma OrderIrrelevant(op: Op, ps: seq<Parts>, qs: seq<Parts>)
    requires op.Add? || op.Mul?
    requires AllCanonical(ps) && AllCanonical(qs) && multiset(ps) == multiset(qs)
    ensures Expected(op, ps, |ps|) == Expected(op, qs, |qs|)
  {
    hide *;
    ReorderedTotals(ps, qs);
    if op.Add? {
      SumMeaning(ps);
      SumMeaning(qs);
    } else {
      ProductMeaning(ps);
      ProductMeaning(qs);
    }
    PartsUnique(Expected(op, ps, |ps|).value, Expected(op, qs, |qs|).value);
  }
}
