// Number objects and complex arithmetic on them (src/runtime/number.c:274-343), built from
// _re_arith2.
module Complex {
  import opened Rational
  import opened Tower

  /** A number's two parts, as stored. */
  datatype Parts = Parts(re: Exact, im: Exact)

  predicate CanonicalParts(p: Parts) { Canonical(p.re) && Canonical(p.im) }

  /** The number they stand for. */
  datatype Number = Number(re: real, im: real)

  function Denotes(p: Parts): Number
    requires CanonicalParts(p)
  {
    Number(Value(p.re), Value(p.im))
  }

  const ZERO := Number(0.0, 0.0)
  const ONE := Number(1.0, 0.0)

  function Plus(a: Number, b: Number): Number { Number(a.re + b.re, a.im + b.im) }
  function Minus(a: Number, b: Number): Number { Number(a.re - b.re, a.im - b.im) }
  function Times(a: Number, b: Number): Number { Number(a.re * b.re - a.im * b.im, a.re * b.im + a.im * b.re) }

  /** `r` is the exact result of a op b. A quotient is what gives back `a` when multiplied. */
  predicate IsResult(op: Op, a: Number, b: Number, r: Number) {
    match op
    case Add => r == Plus(a, b)
    case Sub => r == Minus(a, b)
    case Mul => r == Times(a, b)
    case Div => b != ZERO && Times(r, b) == a
  }

  lemma PartsUnique(p: Parts, q: Parts)
    requires CanonicalParts(p) && CanonicalParts(q)
    ensures Denotes(p) == Denotes(q) <==> p == q
  {
    CanonicalUnique(p.re, q.re);
    CanonicalUnique(p.im, q.im);
  }

  // ---- when division works ----------------------------------------------------------------------

  /** c^2 + d^2 as the runtime stores it. */
  function Norm(p: Parts): (n: Exact)
    requires CanonicalParts(p)
    ensures Canonical(n) && Value(n) == Value(p.re) * Value(p.re) + Value(p.im) * Value(p.im)
  {
    Exactly(Add, Exactly(Mul, p.re, p.re), Exactly(Mul, p.im, p.im))
  }

  predicate NonzeroSmall(x: Exact) { x.Small? && x.v != 0 }

  /** Exactly when dst op src is computed. A complex quotient fails as soon as a nonzero int32
      part of the divisor meets a norm beyond int32. */
  function ArithStatus(op: Op, dst: Parts, src: Parts): Status
    requires CanonicalParts(dst) && CanonicalParts(src)
  {
    if !op.Div? then Fine
    else if dst.im == Small(0) && src.im == Small(0) then StatusOf(Div, dst.re, src.re)
    else if src == Parts(Small(0), Small(0)) then DivideByZero
    else if Norm(src).Big? && (NonzeroSmall(src.re) || NonzeroSmall(src.im)) then InexactDivision
    else Fine
  }

  // ---- real algebra -----------------------------------------------------------------------------

  lemma Square(x: real)
    ensures x * x >= 0.0 && (x * x == 0.0 <==> x == 0.0)
  {
    if x != 0.0 {
      assert (x * x) / x == x;
    }
  }

  lemma SumOfSquares(c: real, d: real)
    ensures c * c + d * d >= c * c >= 0.0 && c * c + d * d >= d * d >= 0.0
    ensures c * c + d * d == 0.0 <==> c == 0.0 && d == 0.0
  {
    Square(c);
    Square(d);
  }

  /** Multiplying by c/n and -d/n divides by c + di. */
  lemma ReciprocalDivides(a: real, b: real, c: real, d: real, n: real)
    requires n == c * c + d * d && n != 0.0
    ensures var u, v := c / n, -d / n;
            IsResult(Div, Number(a, b), Number(c, d), Number(a * u - b * v, b * u + a * v))
  {
    var u, v := c / n, -d / n;
    var p, q := u * c - v * d, v * c + u * d;
    assert u * n == c && v * n == -d;
    assert p * n == (u * n) * c - (v * n) * d;
    assert q * n == (v * n) * c + (u * n) * d;
    Cancel(p, 1.0, n);
    Cancel(q, 0.0, n);
    assert (a * u - b * v) * c - (b * u + a * v) * d == a * p - b * q;
    assert (a * u - b * v) * d + (b * u + a * v) * c == a * q + b * p;
    SumOfSquares(c, d);
  }

  lemma ProductParts(a: real, b: real, c: real, d: real, x: real, y: real)
    requires x == Apply(Sub, Apply(Mul, a, c), Apply(Mul, b, d))
    requires y == Apply(Add, Apply(Mul, b, c), Apply(Mul, a, d))
    ensures Number(x, y) == Times(Number(a, b), Number(c, d))
  {
    hide Apply;
    Applied(a, c);
    Applied(b, d);
    Applied(b, c);
    Applied(a, d);
    Applied(a * c, b * d);
    Applied(b * c, a * d);
  }

  lemma Applied(a: real, b: real)
    ensures Apply(Add, a, b) == a + b && Apply(Sub, a, b) == a - b && Apply(Mul, a, b) == a * b
  {
  }

  lemma Cancel(x: real, y: real, n: real)
    requires n != 0.0 && x * n == y * n
    ensures x == y
  {
    assert (x - y) * n == 0.0;
  }

  /** The exact result is one number. */
  lemma ResultUnique(op: Op, a: Number, b: Number, r: Number, r': Number)
    requires IsResult(op, a, b, r) && IsResult(op, a, b, r')
    ensures r == r'
  {
    if op.Div? {
      var x, y, c, d := r.re - r'.re, r.im - r'.im, b.re, b.im;
      assert x * c - y * d == 0.0 && x * d + y * c == 0.0;
      SumOfSquares(c, d);
      var n := c * c + d * d;
      assert x * n == (x * c - y * d) * c + (x * d + y * c) * d;
      assert y * n == (x * d + y * c) * c - (x * c - y * d) * d;
      Cancel(x, 0.0, n);
      Cancel(y, 0.0, n);
    }
  }

  // ---- _arith2 ----------------------------------------------------------------------------------

  /** A number object: two parts and the complex bit, which is set exactly when it should be. */
  class LsNumber {
    var re: Exact
    var im: Exact
    var complex: bool

    ghost predicate Valid() reads this {
      CanonicalParts(Parts(re, im)) && (complex <==> im != Small(0))
    }

    function View(): Parts reads this { Parts(re, im) }

    constructor (re: Exact, im: Exact)
      requires Canonical(re) && Canonical(im)
      ensures Valid() && View() == Parts(re, im)
    {
      this.re := re;
      this.im := im;
      complex := !(im.Small? && im.v == 0);
    }

    /** _re_update_lso_re and _re_update_lso_im */
    method Update(dr: LsReal, di: LsReal)
      requires Canonical(dr.x) && Canonical(di.x)
      modifies this
      ensures Valid() && View() == Parts(dr.x, di.x)
    {
      re := dr.x;
      im := di.x;
      complex := !(im.Small? && im.v == 0);
    }
  }

  ghost predicate Holds(dr: LsReal, di: LsReal, n: Number)
    reads dr, di
  {
    Canonical(dr.x) && Canonical(di.x) && Number(Value(dr.x), Value(di.x)) == n
  }

  /** (dr + di i) * (sr + si i) into dr and di. */
  method MultiplyParts(dr: LsReal, di: LsReal, sr: LsReal, si: LsReal)
    requires dr != di && dr != sr && dr != si && di != sr && di != si
    requires Canonical(dr.x) && Canonical(di.x) && Canonical(sr.x) && Canonical(si.x)
    modifies dr, di
    ensures Holds(dr, di, Times(Number(Value(old(dr.x)), Value(old(di.x))), Number(Value(sr.x), Value(si.x))))
  {
    hide Value, Apply, Times;
    ghost var a, b, c, d := Value(dr.x), Value(di.x), Value(sr.x), Value(si.x);
    var r := new LsReal(dr.x);
    var i := new LsReal(di.x);
    var status := ReArith2(Mul, dr, sr);    // ac
    status := ReArith2(Mul, di, sr);        // bc
    status := ReArith2(Mul, r, si);         // ad
    status := ReArith2(Mul, i, si);         // bd
    status := ReArith2(Sub, dr, i);         // ac - bd
    status := ReArith2(Add, di, r);         // bc + ad
    ProductParts(a, b, c, d, Value(dr.x), Value(di.x));
  }

  /** What Invert does with the norm in hand. */
  function InvertStatus(p: Parts): Status
    requires CanonicalParts(p)
  {
    if p == Parts(Small(0), Small(0)) then DivideByZero
    else if Norm(p).Big? && (NonzeroSmall(p.re) || NonzeroSmall(p.im)) then InexactDivision
    else Fine
  }

  /** The sign of INT_MIN is lost when the runtime conjugates the divisor. */
  function Conjugated(im: Exact): real
    requires Canonical(im)
  {
    if im == Small(INT_MIN) then Value(im) else -Value(im)
  }

  ghost predicate Inverted(p: Parts, re: Exact, im: Exact)
    requires CanonicalParts(p)
  {
    && Value(Norm(p)) != 0.0
    && Canonical(re) && Value(re) == Value(p.re) / Value(Norm(p))
    && Canonical(im) && Value(im) == Conjugated(p.im) / Value(Norm(p))
  }

  /** sr + si i becomes its reciprocal, (c - di) / (c^2 + d^2). */
  method Invert(sr: LsReal, si: LsReal) returns (status: Status)
    requires sr != si && Canonical(sr.x) && Canonical(si.x)
    modifies sr, si
    ensures status == InvertStatus(old(Parts(sr.x, si.x)))
    ensures status.Fine? ==> Inverted(old(Parts(sr.x, si.x)), sr.x, si.x)
  {
    hide Value, Norm;
    ghost var p := Parts(sr.x, si.x);
    var r := SumSquares(sr, si);
    NormFacts(p);
    si.Neg();
    Negated(p.im, si.x);
    status := ReArith2(Div, sr, r);         // c / (c^2 + d^2)
    if !status.Fine? {
      return;
    }
    assert Value(sr.x) == Value(p.re) / Value(Norm(p));
    status := ReArith2(Div, si, r);         // -d / (c^2 + d^2)
  }

  lemma Negated(x: Exact, y: Exact)
    requires Canonical(x) && Den(y) == Den(x)
    requires Num(y) == if x == Small(INT_MIN) then INT_MIN else -Num(x)
    ensures Value(y) == Conjugated(x)
  {
  }

  method SumSquares(sr: LsReal, si: LsReal) returns (r: LsReal)
    requires sr != si && Canonical(sr.x) && Canonical(si.x)
    ensures fresh(r) && r.x == Norm(Parts(sr.x, si.x))
  {
    r := new LsReal(sr.x);
    var i := new LsReal(si.x);
    var status := ReArith2(Mul, r, sr);     // c^2
    OneResult(Mul, sr.x, sr.x, r.x);
    status := ReArith2(Mul, i, si);         // d^2
    OneResult(Mul, si.x, si.x, i.x);
    ghost var r2 := r.x;
    status := ReArith2(Add, r, i);          // c^2 + d^2
    OneResult(Add, r2, i.x, r.x);
  }

  lemma NormIsZero(p: Parts)
    requires CanonicalParts(p)
    ensures Norm(p) == Small(0) <==> p == Parts(Small(0), Small(0))
  {
    hide Value, Norm;
    CanonicalZero(p.re);
    CanonicalZero(p.im);
    var c, d, n := Value(p.re), Value(p.im), Norm(p);
    assert Value(n) == 0.0 <==> c == 0.0 && d == 0.0 by { SumOfSquares(c, d); }
    CanonicalZero(n);
  }

  lemma SmallestValue()
    ensures Value(Small(INT_MIN)) == -2147483648.0
  {
  }

  lemma NormIsLarge(p: Parts)
    requires CanonicalParts(p) && (p.re == Small(INT_MIN) || p.im == Small(INT_MIN))
    ensures Value(Norm(p)) >= 4611686018427387904.0
  {
    hide Norm;
    var c, d := Value(p.re), Value(p.im);
    SmallestValue();
    hide Value;
    LargeSquare(c, d);
  }

  lemma LargeSquare(c: real, d: real)
    requires c == -2147483648.0 || d == -2147483648.0
    ensures c * c + d * d >= 4611686018427387904.0
  {
    SumOfSquares(c, d);
    assert -2147483648.0 * -2147483648.0 == 4611686018427387904.0;
  }

  lemma ValueOfInteger(x: Exact)
    requires Den(x) == 1
    ensures Value(x) == Num(x) as real
  {
  }

  lemma NormFacts(p: Parts)
    requires CanonicalParts(p)
    ensures Norm(p) == Small(0) <==> p == Parts(Small(0), Small(0))
    ensures p.re == Small(INT_MIN) || p.im == Small(INT_MIN) ==> !Norm(p).Small?
    ensures p.re == Small(INT_MIN) || p.im == Small(INT_MIN) ==> Norm(p) != Big(-INT_MIN)
    ensures Norm(p) != Small(-1)
  {
    hide Value, Norm;
    NormIsZero(p);
    SumOfSquares(Value(p.re), Value(p.im));
    if !Norm(p).Rat? { ValueOfInteger(Norm(p)); }
    if p.re == Small(INT_MIN) || p.im == Small(INT_MIN) { NormIsLarge(p); }
  }

  /** What the runtime divides by: the divisor, except that an imaginary part of INT_MIN
      loses its sign. */
  function Operand(op: Op, src: Parts): Number
    requires CanonicalParts(src)
  {
    if op.Div? then Number(Value(src.re), -Conjugated(src.im)) else Denotes(src)
  }

  lemma OperandIsSource(op: Op, src: Parts)
    requires CanonicalParts(src) && (op.Div? ==> src.im != Small(INT_MIN))
    ensures Operand(op, src) == Denotes(src)
  {
  }

  lemma BothSigns(a: Number, r: Number, c: real, d: real)
    requires d != 0.0 && Times(r, Number(c, d)) == a && Times(r, Number(c, -d)) == a
    ensures a == ZERO
  {
    var x, y := r.re, r.im;
    assert x * -d == -(x * d) && y * -d == -(y * d);
    Cancel(x, 0.0, d);
    Cancel(y, 0.0, d);
  }

  /** With an imaginary part of INT_MIN, a quotient that is computed is wrong unless it is 0. */
  lemma WrongSign(src: Parts, a: Number, r: Number)
    requires CanonicalParts(src) && src.im == Small(INT_MIN)
    requires IsResult(Div, a, Operand(Div, src), r)
    ensures IsResult(Div, a, Denotes(src), r) <==> a == ZERO
  {
    var c, d := Value(src.re), Value(src.im);
    assert d == -2147483648.0;
    if IsResult(Div, a, Denotes(src), r) {
      BothSigns(a, r, c, d);
    }
    if a == ZERO {
      ResultUnique(Div, ZERO, Operand(Div, src), r, ZERO);
    }
  }

  /** The square of a fraction in lowest terms is no integer. */
  lemma SquareOfFraction(n: int, d: nat, k: int)
    requires d > 1 && Gcd(Abs(n), d) == 1
    ensures n * n != k * (d * d)
  {
    if n * n == k * (d * d) {
      hide Gcd;
      assert n * n == d * (k * d) by { Regroup(d, k, d); }
      CoprimeDivides(d, n, n);
      DividesAbs(d, n);
      assert d * 1 == d;
      CommonDivisor(d, Abs(n), d);
      DividesBound(d, 1);
    }
  }

  lemma FractionSquared(n: int, d: int, k: int)
    requires d != 0 && k as real == (n as real / d as real) * (n as real / d as real)
    ensures n * n == k * (d * d)
  {
    ProductAsReal(n, n);
    ProductAsReal(d, d);
    ProductAsReal(k, d * d);
    SquareOfQuotient(n as real, d as real, n as real / d as real);
  }

  lemma SquareOfQuotient(n: real, d: real, x: real)
    requires x * d == n
    ensures (x * x) * (d * d) == n * n
  {
    assert (x * x) * (d * d) == (x * d) * (x * d);
  }

  /** A fraction and an integer: c^2 + d^2 is a fraction. */
  lemma FractionNorm(p: Parts)
    requires CanonicalParts(p) && p.re.Rat? && !p.im.Rat?
    ensures Norm(p).Rat?
  {
    hide Norm, Gcd, Value;
    if !Norm(p).Rat? {
      var v := Num(p.im);
      var k := Num(Norm(p)) - v * v;
      ValueOfInteger(Norm(p));
      ValueOfInteger(p.im);
      ProductAsReal(v, v);
      assert Value(p.re) * Value(p.re) == k as real;
      ValueOfFraction(p.re);
      FractionSquared(p.re.num, p.re.den, k);
      SquareOfFraction(p.re.num, p.re.den, k);
    }
  }

  lemma ValueOfFraction(x: Exact)
    requires x.Rat? && x.den != 0
    ensures Value(x) == x.num as real / x.den as real
  {
  }

  /** Two integers: c^2 + d^2 is an integer. */
  lemma IntegerNorm(p: Parts)
    requires CanonicalParts(p) && !p.re.Rat? && !p.im.Rat?
    ensures !Norm(p).Rat?
  {
    hide Norm, Value, Gcd;
    ValueOfInteger(p.re);
    ValueOfInteger(p.im);
    var c, d := Num(p.re), Num(p.im);
    ProductAsReal(c, c);
    ProductAsReal(d, d);
    assert Value(Norm(p)) == (c * c + d * d) as real;
    TypeDecidesInteger(Norm(p));
  }

  /** Of the divisors that lose their sign, exactly those with a fraction as real part get as
      far as a result. */
  lemma LostSignComputed(dst: Parts, src: Parts)
    requires CanonicalParts(dst) && CanonicalParts(src) && src.im == Small(INT_MIN)
    ensures ArithStatus(Div, dst, src).Fine? <==> src.re.Rat?
  {
    hide Norm, Value, Gcd;
    NormFacts(src);
    if src.re.Rat? { FractionNorm(src); } else { IntegerNorm(src); }
  }

  /** A result that was computed is the exact one, unless a quotient other than 0 met a divisor
      that loses its sign. */
  lemma ComputedIsExact(op: Op, dst: Parts, src: Parts, re: Exact, im: Exact)
    requires CanonicalParts(dst) && CanonicalParts(src) && ArithStatus(op, dst, src).Fine?
    requires Resulting(op, dst, src, re, im)
    ensures IsResult(op, Denotes(dst), Denotes(src), Denotes(Parts(re, im))) <==>
            !op.Div? || src.im != Small(INT_MIN) || dst == Parts(Small(0), Small(0))
  {
    hide IsResult, Operand, Norm;
    if op.Div? && src.im == Small(INT_MIN) {
      WrongSign(src, Denotes(dst), Denotes(Parts(re, im)));
      PartsUnique(dst, Parts(Small(0), Small(0)));
      ZeroDenotes();
    } else {
      OperandIsSource(op, src);
    }
  }

  lemma ZeroDenotes()
    ensures Denotes(Parts(Small(0), Small(0))) == ZERO
  {
  }

  lemma RealResult(op: Op, a: real, c: real, r: real)
    requires (op.Div? ==> c != 0.0) && r == Apply(op, a, c)
    ensures IsResult(op, Number(a, 0.0), Number(c, 0.0), Number(r, 0.0))
  {
  }

  /** The result in dr and di is that of dst op src. */
  ghost predicate Resulting(op: Op, dst: Parts, src: Parts, re: Exact, im: Exact)
    requires CanonicalParts(dst) && CanonicalParts(src)
  {
    Canonical(re) && Canonical(im) &&
    IsResult(op, Denotes(dst), Operand(op, src), Denotes(Parts(re, im)))
  }

  method Linear(op: Op, dr: LsReal, di: LsReal, sr: LsReal, si: LsReal, complex: bool)
    requires dr != di && dr != sr && dr != si && di != sr && di != si && (op.Add? || op.Sub?)
    requires Canonical(dr.x) && Canonical(di.x) && Canonical(sr.x) && Canonical(si.x)
    requires !complex ==> di.x == Small(0) && si.x == Small(0)
    modifies dr, di
    ensures Resulting(op, old(Parts(dr.x, di.x)), Parts(sr.x, si.x), dr.x, di.x)
  {
    var status := ReArith2(op, dr, sr);
    if complex {
      status := ReArith2(op, di, si);
    }
  }

  method Multiply(dr: LsReal, di: LsReal, sr: LsReal, si: LsReal, complex: bool)
    requires dr != di && dr != sr && dr != si && di != sr && di != si
    requires Canonical(dr.x) && Canonical(di.x) && Canonical(sr.x) && Canonical(si.x)
    requires !complex ==> di.x == Small(0) && si.x == Small(0)
    modifies dr, di
    ensures Holds(dr, di, Times(Number(Value(old(dr.x)), Value(old(di.x))), Number(Value(sr.x), Value(si.x))))
  {
    if complex {
      MultiplyParts(dr, di, sr, si);
    } else {
      hide Value;
      ValueOfInteger(di.x);
      RealResult(Mul, Value(dr.x), Value(sr.x), Apply(Mul, Value(dr.x), Value(sr.x)));
      var status := ReArith2(Mul, dr, sr);
    }
  }

  method Divide(dr: LsReal, di: LsReal, sr: LsReal, si: LsReal, complex: bool) returns (status: Status)
    requires dr != di && dr != sr && dr != si && di != sr && di != si && sr != si
    requires Canonical(dr.x) && Canonical(di.x) && Canonical(sr.x) && Canonical(si.x)
    requires complex <==> !(di.x == Small(0) && si.x == Small(0))
    modifies dr, di, sr, si
    ensures status == ArithStatus(Div, old(Parts(dr.x, di.x)), old(Parts(sr.x, si.x)))
    ensures status.Fine? ==> Resulting(Div, old(Parts(dr.x, di.x)), old(Parts(sr.x, si.x)), dr.x, di.x)
  {
    hide Value, Norm, Apply, Times;
    ghost var a, b, p := Value(dr.x), Value(di.x), Parts(sr.x, si.x);
    if !complex {
      ghost var c := Value(sr.x);
      ValueOfInteger(di.x);
      status := ReArith2(Div, dr, sr);
      if status.Fine? {
        RealResult(Div, a, c, Value(dr.x));
      }
      return;
    }
    status := Invert(sr, si);
    if !status.Fine? {
      return;
    }
    MultiplyParts(dr, di, sr, si);
    QuotientParts(a, b, p, sr.x, si.x);
  }

  lemma QuotientParts(a: real, b: real, p: Parts, u: Exact, v: Exact)
    requires CanonicalParts(p) && Inverted(p, u, v)
    ensures IsResult(Div, Number(a, b), Operand(Div, p), Times(Number(a, b), Number(Value(u), Value(v))))
  {
    hide Value, Norm;
    var c, d, n := Value(p.re), -Conjugated(p.im), Value(Norm(p));
    assert d * d == Value(p.im) * Value(p.im);
    ReciprocalDivides(a, b, c, d, n);
  }

  /** dst := dst op src. src does not change. */
  method Arith2(op: Op, dst: LsNumber, src: LsNumber) returns (status: Status)
    requires dst != src && dst.Valid() && src.Valid()
    modifies dst
    ensures status == ArithStatus(op, old(dst.View()), src.View())
    ensures status.Fine? ==> dst.Valid() && Resulting(op, old(dst.View()), src.View(), dst.re, dst.im)
    ensures status.Fine? ==>
              (IsResult(op, Denotes(old(dst.View())), Denotes(src.View()), Denotes(dst.View())) <==>
               !op.Div? || src.im != Small(INT_MIN) || old(dst.View()) == Parts(Small(0), Small(0)))
  {
    ghost var before := dst.View();
    var complex := dst.complex || src.complex;
    var dr := new LsReal(dst.re);
    var sr := new LsReal(src.re);
    var di := new LsReal(if dst.complex then dst.im else Small(0));
    var si := new LsReal(if src.complex then src.im else Small(0));
    match op {
      case Add => Linear(op, dr, di, sr, si, complex); status := Fine;
      case Sub => Linear(op, dr, di, sr, si, complex); status := Fine;
      case Mul => Multiply(dr, di, sr, si, complex); status := Fine;
      case Div => status := Divide(dr, di, sr, si, complex);
    }
    if status.Fine? {
      dst.Update(dr, di);
      ComputedIsExact(op, before, src.View(), dst.re, dst.im);
    }
  }
}
