// Arithmetic on one exact real, in place (src/runtime/include/number.h): int32 operations
// with overflow predicates, promotion no further than needed, canonicalization afterwards.
module Tower {
  import opened Rational

  datatype Op = Add | Sub | Mul | Div

  /** Whether an operation was carried out, or else what goes wrong in the C code: a hardware
      trap, a GMP division by zero, or an exact division that is not exact. */
  datatype Status = Fine | DivideByZero | DivisionOverflow | InexactDivision

  // ---- int32 ------------------------------------------------------------------------------------

  /** Two's complement wrap-around. */
  function Wrap(n: int): (w: int)
    ensures FitsInt(w)
    ensures FitsInt(n) ==> w == n
  {
    (n + 0x8000_0000) % 0x1_0000_0000 - 0x8000_0000
  }

  datatype Checked = Overflow | Result(value: int)

  function AddChecked(a: int, b: int): (r: Checked)
    requires FitsInt(a) && FitsInt(b)
    ensures r == if FitsInt(a + b) then Result(a + b) else Overflow
  {
    var t := Wrap(a + b);
    if (a < 0) == (b < 0) && (t < 0) != (a < 0) then Overflow else Result(t)
  }

  function SubChecked(a: int, b: int): (r: Checked)
    requires FitsInt(a) && FitsInt(b)
    ensures r == if FitsInt(a - b) then Result(a - b) else Overflow
  {
    var t := Wrap(a - b);
    if (a < 0) == (b > 0) && (t < 0) != (a < 0) then Overflow else Result(t)
  }

  /** A 64-bit product whose upper half must be a sign extension. */
  function MulChecked(a: int, b: int): (r: Checked)
    requires FitsInt(a) && FitsInt(b)
    ensures r == if FitsInt(a * b) then Result(a * b) else Overflow
  {
    ProductFits64(a, b);
    var x := a * b;
    var y := Wrap(x / 0x8000_0000);   // arithmetic shift by 31
    if y != 0 && y != -1 then Overflow else Result(Wrap(x))
  }

  lemma ProductFits64(a: int, b: int)
    requires FitsInt(a) && FitsInt(b)
    ensures -0x4000_0000_0000_0000 <= a * b <= 0x4000_0000_0000_0000
  {
    AbsProduct(a, b);
    var m, n, k := Abs(a), Abs(b), 0x8000_0000;
    ProductGrows(m, k, n);
    ProductGrows(n, k, k);
  }

  lemma ProductGrows(m: nat, k: nat, n: nat)
    requires m <= k
    ensures 0 <= m * n <= k * n
  {
    ProductSign(m, n);
    ProductSign(k - m, n);
    assert k * n == m * n + (k - m) * n;
  }

  /** C division truncates. */
  function TruncDiv(a: int, b: int): (q: int)
    requires b != 0
    ensures Abs(a - q * b) < Abs(b)
    ensures if a < 0 then a - q * b <= 0 else a - q * b >= 0
  {
    if a < 0 then -(-a / b) else a / b
  }

  function TruncMod(a: int, b: int): int
    requires b != 0
  {
    a - TruncDiv(a, b) * b
  }

  /** __si_to_ui: magnitude and sign, without overflow at INT_MIN. */
  function MagnitudeAndSign(si: int): (r: (int, int))
    requires FitsInt(si)
    ensures r.0 == Abs(si) && si == r.0 * r.1
  {
    if si > 0 then (si, 1) else if si < 0 then (-(si + 1) + 1, -1) else (0, 0)
  }

  // ---- in place ---------------------------------------------------------------------------------

  function Type(x: Exact): nat {
    match x case Small(_) => 0 case Big(_) => 1 case Rat(_, _) => 2
  }

  class LsReal {
    var x: Exact

    constructor (x: Exact)
      ensures this.x == x
    {
      this.x := x;
    }

    /** _re_promote among the exact types: never down, value unchanged. */
    method Promote(dtype: nat)
      requires dtype <= 2
      modifies this
      ensures Num(x) == Num(old(x)) && Den(x) == Den(old(x))
      ensures Type(x) == if Type(old(x)) >= dtype then Type(old(x)) else dtype
    {
      if Type(x) < dtype {
        x := if dtype == 1 then Big(Num(x)) else Rat(Num(x), 1);
      }
    }

    /** _re_canonicalize: lowest terms, then down to the smallest type that holds the value. */
    method Canonicalize() returns (status: Status)
      requires x.Small? ==> FitsInt(x.v)
      modifies this
      ensures status == if Den(old(x)) == 0 then DivideByZero else Fine
      ensures status.Fine? ==> Canonical(x) && Value(x) == Value(old(x))
    {
      if x.Rat? {
        if x.den == 0 {
          return DivideByZero;
        }
        var q := MpqCanonicalize(x.num, x.den);
        SameRatio(q.0, q.1, x.num, x.den);
        x := Rat(q.0, q.1);
        if x.den == 1 {
          x := Big(x.num);
        }
      }
      if x.Big? && FitsInt(x.z) {
        x := Small(x.z);
      }
      return Fine;
    }

    /** _re_neg, with the wrap-around of 0 - INT_MIN. It does not canonicalize: the negative of
        2^31 stays a GMP integer although it would fit. */
    method Neg()
      requires Canonical(x)
      modifies this
      ensures Stored(x) && Type(x) == Type(old(x))
      ensures Num(x) == if old(x) == Small(INT_MIN) then INT_MIN else -Num(old(x))
      ensures Den(x) == Den(old(x))
    {
      match x
      case Small(v) => x := Small(Wrap(0 - v));
      case Big(z) => x := Big(-z);
      case Rat(n, d) => x := Rat(-n, d);
    }
  }

  // ---- what arithmetic is meant to do -----------------------------------------------------------

  /** What the operations take as their destination: weaker than canonical. */
  predicate Stored(x: Exact) {
    Den(x) > 0 && (x.Small? ==> FitsInt(x.v))
  }

  /** The exact result. */
  function Apply(op: Op, a: real, b: real): real
    requires op.Div? ==> b != 0.0
  {
    match op case Add => a + b case Sub => a - b case Mul => a * b case Div => a / b
  }

  /** Exactly when dst op src is computed. The last case is a small number divided by a big
      one: it reaches mpz_divexact without a divisibility test. */
  function StatusOf(op: Op, dst: Exact, src: Exact): Status {
    if !op.Div? then Fine
    else if src == Small(0) then DivideByZero
    else if dst == Small(INT_MIN) && src == Small(-1) then DivisionOverflow
    else if dst.Small? && src.Big? && dst.v != 0 && !(dst.v == INT_MIN && src.z == -INT_MIN) then InexactDivision
    else Fine
  }

  lemma CanonicalZero(x: Exact)
    requires Canonical(x)
    ensures Num(x) == 0 <==> x == Small(0)
    ensures Value(x) == 0.0 <==> x == Small(0)
  {
    SameRatio(Num(x), Den(x), 0, 1);
    if x.Rat? {
      GcdZero(x.den);
    }
  }

  lemma GcdZero(d: nat)
    ensures Gcd(0, d) == d
  {
    if d > 0 {
      assert 0 % d == 0;
      assert Gcd(d, 0) == d;
    }
  }

  // ---- the GMP calls behind each macro case -----------------------------------------------------

  /** mpz_*_ui with the sign put back: integer and machine integer. Division must be exact. */
  function IntUi(op: Op, z: int, ui: nat, sgn: int): int
    requires op.Div? ==> ui != 0
  {
    match op
    case Add => if sgn != -1 then z + ui else z - ui
    case Sub => if sgn != -1 then z - ui else z + ui
    case Mul => if sgn == -1 then -(z * ui) else z * ui
    case Div => if sgn == -1 then -(z / ui) else z / ui
  }

  /** mpz_addmul_ui and friends on numerator or denominator: rational and machine integer. */
  function RatUi(op: Op, num: int, den: int, ui: nat, sgn: int): (int, int) {
    match op
    case Add => if sgn != -1 then (num + den * ui, den) else (num - den * ui, den)
    case Sub => if sgn != -1 then (num - den * ui, den) else (num + den * ui, den)
    case Mul => if sgn == -1 then (-(num * ui), den) else (num * ui, den)
    case Div => if sgn == -1 then (num, -(den * ui)) else (num, den * ui)
  }

  /** The same with a GMP integer. */
  function RatInt(op: Op, num: int, den: int, z: int): (int, int) {
    match op
    case Add => (num + den * z, den)
    case Sub => (num - den * z, den)
    case Mul => (num * z, den)
    case Div => (num, den * z)
  }

  function IntInt(op: Op, a: int, b: int): int
    requires op.Div? ==> b != 0
  {
    match op case Add => a + b case Sub => a - b case Mul => a * b case Div => a / b
  }

  function RatRat(op: Op, n1: int, d1: int, n2: int, d2: int): (int, int) {
    match op
    case Add => (n1 * d2 + n2 * d1, d1 * d2)
    case Sub => (n1 * d2 - n2 * d1, d1 * d2)
    case Mul => (n1 * n2, d1 * d2)
    case Div => (n1 * d2, d1 * n2)
  }

  function Ratio(q: (int, int)): real
    requires q.1 != 0
  {
    q.0 as real / q.1 as real
  }

  lemma SignedIntUi(op: Op, z: int, si: int)
    requires FitsInt(si) && (op.Div? ==> si != 0 && Divides(si, z))
    ensures var (ui, sgn) := MagnitudeAndSign(si); IntUi(op, z, ui, sgn) == IntInt(op, z, si)
  {
    if op.Div? {
      SignedQuotient(z, si);
    }
  }

  lemma SignedQuotient(z: int, si: int)
    requires si != 0 && Divides(si, z)
    ensures z / si == if si < 0 then -(z / Abs(si)) else z / Abs(si)
  {
    ExactQuotient(z, si);
    DividesMagnitude(si, z);
    ExactQuotient(z, Abs(si));
    if si < 0 {
      assert Abs(si) * (z / Abs(si)) == -(z / Abs(si)) * si;
      SameFactor(z / si, -(z / Abs(si)), si);
    }
  }

  lemma SignedRatUi(op: Op, num: int, den: int, si: int)
    requires FitsInt(si)
    ensures var (ui, sgn) := MagnitudeAndSign(si); RatUi(op, num, den, ui, sgn) == RatInt(op, num, den, si)
  {
    var (ui, sgn) := MagnitudeAndSign(si);
    assert den * si == if si < 0 then -(den * ui) else den * ui;
    assert num * si == if si < 0 then -(num * ui) else num * ui;
  }

  lemma DividesMagnitude(d: int, n: int)
    ensures Divides(d, n) <==> Divides(Abs(d), n)
  {
    if Divides(d, n) {
      var k :| d * k == n;
      assert Abs(d) * (if d < 0 then -k else k) == n;
    }
    if Divides(Abs(d), n) {
      var k :| Abs(d) * k == n;
      assert d * (if d < 0 then -k else k) == n;
    }
  }

  lemma NonzeroProduct(a: int, b: int)
    requires a != 0 && b != 0
    ensures a * b != 0
  {
  }

  lemma RealSum(a: real, b: real, c: real, d: real)
    requires b != 0.0 && d != 0.0
    ensures b * d != 0.0 && (a * d + c * b) / (b * d) == a / b + c / d
    ensures (a * d - c * b) / (b * d) == a / b - c / d
  {
  }

  lemma RealProduct(a: real, b: real, c: real, d: real)
    requires b != 0.0 && d != 0.0
    ensures b * d != 0.0 && (a * c) / (b * d) == (a / b) * (c / d)
  {
  }

  lemma RealQuotient(a: real, b: real, c: real, d: real)
    requires b != 0.0 && c != 0.0 && d != 0.0
    ensures b * c != 0.0 && c / d != 0.0 && (a * d) / (b * c) == (a / b) / (c / d)
  {
    RealProduct(a, b, d, c);
    assert (c / d) * (d / c) == 1.0;
  }

  lemma ProductAsReal(a: int, b: int)
    ensures (a * b) as real == a as real * b as real
  {
  }

  lemma RatioOfSum(n1: int, d1: int, n2: int, d2: int)
    requires d1 != 0 && d2 != 0
    ensures d1 * d2 != 0
    ensures (n1 * d2 + n2 * d1) as real / (d1 * d2) as real == n1 as real / d1 as real + n2 as real / d2 as real
    ensures (n1 * d2 - n2 * d1) as real / (d1 * d2) as real == n1 as real / d1 as real - n2 as real / d2 as real
  {
    ProductAsReal(n1, d2);
    ProductAsReal(n2, d1);
    ProductAsReal(d1, d2);
    RealSum(n1 as real, d1 as real, n2 as real, d2 as real);
  }

  lemma RatioOfProduct(n1: int, d1: int, n2: int, d2: int)
    requires d1 != 0 && d2 != 0
    ensures d1 * d2 != 0
    ensures (n1 * n2) as real / (d1 * d2) as real == (n1 as real / d1 as real) * (n2 as real / d2 as real)
  {
    ProductAsReal(n1, n2);
    ProductAsReal(d1, d2);
    RealProduct(n1 as real, d1 as real, n2 as real, d2 as real);
  }

  lemma RatioOfQuotient(n1: int, d1: int, n2: int, d2: int)
    requires d1 != 0 && d2 != 0 && n2 != 0
    ensures d1 * n2 != 0 && n2 as real / d2 as real != 0.0
    ensures (n1 * d2) as real / (d1 * n2) as real == (n1 as real / d1 as real) / (n2 as real / d2 as real)
  {
    ProductAsReal(n1, d2);
    ProductAsReal(d1, n2);
    RealQuotient(n1 as real, d1 as real, n2 as real, d2 as real);
  }

  lemma RatRatValue(op: Op, n1: int, d1: int, n2: int, d2: int)
    requires d1 != 0 && d2 != 0 && (op.Div? ==> n2 != 0)
    ensures RatRat(op, n1, d1, n2, d2).1 != 0
    ensures op.Div? ==> n2 as real / d2 as real != 0.0
    ensures Ratio(RatRat(op, n1, d1, n2, d2)) == Apply(op, n1 as real / d1 as real, n2 as real / d2 as real)
  {
    match op
    case Mul => RatioOfProduct(n1, d1, n2, d2);
    case Div => RatioOfQuotient(n1, d1, n2, d2);
    case _ => RatioOfSum(n1, d1, n2, d2);
  }

  lemma RatIntValue(op: Op, n: int, d: int, z: int)
    requires d != 0 && (op.Div? ==> z != 0)
    ensures var q := RatInt(op, n, d, z);
            q.1 != 0 && Ratio(q) == Apply(op, n as real / d as real, z as real)
  {
    RatRatValue(op, n, d, z, 1);
    var q, r := RatInt(op, n, d, z), RatRat(op, n, d, z, 1);
    if op.Div? { NonzeroProduct(d, z); }
    assert z as real / 1 as real == z as real;
    SameRatio(q.0, q.1, r.0, r.1);
  }

  lemma IntIntValue(op: Op, a: int, b: int)
    requires op.Div? ==> b != 0 && Divides(b, a)
    ensures IntInt(op, a, b) as real == Apply(op, a as real, b as real)
  {
    if op.Div? {
      ExactQuotient(a, b);
      assert (b * (a / b)) as real == b as real * (a / b) as real;
    }
    assert (a * b) as real == a as real * b as real;
  }

  // ---- _re_arith2 -------------------------------------------------------------------------------

  /** dst op src is well defined and dst holds it, exactly and in canonical form. */
  ghost predicate Computed(op: Op, a: Exact, b: Exact, r: Exact) {
    Stored(a) && Canonical(b) && (op.Div? ==> Value(b) != 0.0) &&
    Canonical(r) && Value(r) == Apply(op, Value(a), Value(b))
  }

  /** The same as a function: there is one exact result in canonical form. */
  function Exactly(op: Op, a: Exact, b: Exact): (r: Exact)
    requires Stored(a) && Canonical(b) && (op.Div? ==> b != Small(0))
    ensures Computed(op, a, b, r)
  {
    CanonicalZero(b);
    RatRatValue(op, Num(a), Den(a), Num(b), Den(b));
    var q := RatRat(op, Num(a), Den(a), Num(b), Den(b));
    OfRatio(q.0, q.1)
  }

  lemma OneResult(op: Op, a: Exact, b: Exact, r: Exact)
    requires Computed(op, a, b, r)
    ensures (op.Div? ==> b != Small(0)) && r == Exactly(op, a, b)
  {
    CanonicalZero(b);
    CanonicalUnique(r, Exactly(op, a, b));
  }

  /** Plain integers as long as the result is one that fits. */
  method ArithSmall(op: Op, dst: LsReal, src: LsReal) returns (status: Status, promote: bool)
    requires dst != src && Stored(dst.x) && Canonical(src.x) && dst.x.Small? && src.x.Small?
    modifies dst
    ensures status == StatusOf(op, old(dst.x), src.x)
    ensures status.Fine? && !promote ==> Computed(op, old(dst.x), src.x, dst.x)
    ensures promote ==> status.Fine? && dst.x == old(dst.x) && (op.Div? ==> !Divides(src.x.v, dst.x.v))
    ensures !op.Div? && promote ==> !FitsInt(IntInt(op, dst.x.v, src.x.v))
  {
    var a, b := dst.x.v, src.x.v;
    match op
    case Add =>
      var r := AddChecked(a, b);
      if r.Result? { dst.x := Small(r.value); }
      return Fine, r.Overflow?;
    case Sub =>
      var r := SubChecked(a, b);
      if r.Result? { dst.x := Small(r.value); }
      return Fine, r.Overflow?;
    case Mul =>
      var r := MulChecked(a, b);
      ProductAsReal(a, b);
      if r.Result? { dst.x := Small(r.value); }
      return Fine, r.Overflow?;
    case Div => status, promote := DivideSmall(dst, src);
  }

  method DivideSmall(dst: LsReal, src: LsReal) returns (status: Status, promote: bool)
    requires dst != src && Stored(dst.x) && Canonical(src.x) && dst.x.Small? && src.x.Small?
    modifies dst
    ensures status == StatusOf(Div, old(dst.x), src.x)
    ensures status.Fine? && !promote ==> Computed(Div, old(dst.x), src.x, dst.x)
    ensures promote ==> status.Fine? && dst.x == old(dst.x) && !Divides(src.x.v, dst.x.v)
  {
    var a, b := dst.x.v, src.x.v;
    if b == 0 {
      return DivideByZero, false;
    }
    if a == INT_MIN && b == -1 {
      return DivisionOverflow, false;       // the hardware traps on a % b
    }
    TruncatedDivision(a, b);
    if TruncMod(a, b) != 0 {
      return Fine, true;
    }
    TruncatedDivisionFits(a, b);
    IntIntValue(Div, a, b);
    dst.x := Small(TruncDiv(a, b));
    return Fine, false;
  }

  lemma TruncatedDivision(a: int, b: int)
    requires b != 0
    ensures TruncMod(a, b) == 0 <==> Divides(b, a)
    ensures Divides(b, a) ==> TruncDiv(a, b) == a / b
  {
    var q := TruncDiv(a, b);
    if Divides(b, a) {
      var k :| b * k == a;
      assert b * -k == -a;
      ExactQuotient(a, b);
      ExactQuotient(-a, b);
      assert b * -(-a / b) == a;
      SameFactor(a / b, -(-a / b), b);
    }
    if TruncMod(a, b) == 0 {
      assert b * q == a;
    }
  }

  lemma TruncatedDivisionFits(a: int, b: int)
    requires b != 0 && FitsInt(a) && FitsInt(b) && !(a == INT_MIN && b == -1)
    ensures FitsInt(TruncDiv(a, b))
  {
    QuotientShrinks(Abs(a), b);
  }

  lemma QuotientShrinks(n: nat, b: int)
    requires b != 0
    ensures Abs(n / b) <= n && (Abs(n / b) == n ==> n == 0 || Abs(b) == 1)
    ensures b == -1 ==> n / b == 0 - n
    ensures b == 1 ==> n / b == n
  {
    var q := n / b;
    assert n == b * q + n % b;
    AbsProduct(b, q);
    ProductSign(Abs(q), Abs(b));
    if Abs(b) > 1 { ProductSign(Abs(q), Abs(b) - 1); assert Abs(b) * Abs(q) == Abs(q) + Abs(q) * (Abs(b) - 1); }
  }

  /** The destination is widened where a quotient would not stay an integer. */
  method PromoteForDivision(dst: LsReal, src: LsReal)
    requires dst != src && Stored(dst.x) && Canonical(src.x)
    modifies dst
    ensures Num(dst.x) == Num(old(dst.x)) && Den(dst.x) == Den(old(dst.x)) && Type(dst.x) >= Type(old(dst.x))
    ensures dst.x.Big? && src.x != Small(0) && !src.x.Rat? ==> Divides(Num(src.x), dst.x.z)
    ensures dst.x.Big? ==> src.x != Small(0) || dst.x.z == 0
    ensures !old(dst.x).Big? ==> dst.x == old(dst.x)
  {
    match (dst.x, src.x)
    case (Big(z), Small(v)) =>
      var m := MagnitudeAndSign(v);
      if !(if m.0 == 0 then z == 0 else z % m.0 == 0) {        // mpz_divisible_ui_p
        dst.Promote(2);
      } else if v != 0 {
        assert m.0 * (z / m.0) == z;
        DividesMagnitude(v, z);
      }
    case (Big(z), Big(w)) =>
      if z % w != 0 {                                          // mpz_divisible_p
        dst.Promote(2);
      } else {
        assert w * (z / w) == z;
      }
    case _ =>
  }

  /** A machine integer as the second operand needs no GMP object. */
  method ArithWithSmall(op: Op, dst: LsReal, src: LsReal) returns (status: Status)
    requires dst != src && Stored(dst.x) && Canonical(src.x) && !dst.x.Small? && src.x.Small?
    requires op.Div? && dst.x.Big? ==> src.x.v == 0 || Divides(src.x.v, dst.x.z)
    modifies dst
    ensures status == if op.Div? && src.x.v == 0 then DivideByZero else Fine
    ensures status.Fine? ==> Computed(op, old(dst.x), src.x, dst.x)
  {
    hide Gcd, IntUi, IntInt, RatInt, Apply, MagnitudeAndSign;
    var si := src.x.v;
    var m := MagnitudeAndSign(si);
    match dst.x
    case Big(z) =>
      if op.Div? && si == 0 {
        return DivideByZero;                                   // mpz_divexact_ui
      }
      SignedIntUi(op, z, si);
      IntIntValue(op, z, si);
      dst.x := Big(IntUi(op, z, m.0, m.1));
      status := dst.Canonicalize();
    case Rat(n, d) =>
      SignedRatUi(op, n, d, si);
      if !op.Div? || si != 0 { RatIntValue(op, n, d, si); }
      var q := RatUi(op, n, d, m.0, m.1);
      dst.x := Rat(q.0, q.1);
      status := dst.Canonicalize();
  }

  /** Both operands brought to the wider type. */
  method ArithWide(op: Op, dst: LsReal, src: LsReal) returns (status: Status)
    requires dst != src && Stored(dst.x) && Canonical(src.x) && !src.x.Small?
    requires op.Div? && dst.x.Big? && src.x.Big? ==> Divides(src.x.z, dst.x.z)
    modifies dst
    ensures status ==
            if op.Div? && old(dst.x).Small? && src.x.Big? && !Divides(src.x.z, old(dst.x).v)
            then InexactDivision else Fine
    ensures status.Fine? ==> Computed(op, old(dst.x), src.x, dst.x)
  {
    if dst.x.Rat? && src.x.Big? {
      status := ArithRatInt(op, dst, src);
      return;
    }
    if Type(dst.x) < Type(src.x) {
      dst.Promote(Type(src.x));
    }
    if dst.x.Big? {
      status := ArithIntInt(op, dst, src);
    } else {
      status := ArithRatRat(op, dst, src);
    }
  }

  method ArithRatInt(op: Op, dst: LsReal, src: LsReal) returns (status: Status)
    requires dst != src && Stored(dst.x) && Canonical(src.x) && dst.x.Rat? && src.x.Big?
    modifies dst
    ensures status.Fine? && Computed(op, old(dst.x), src.x, dst.x)
  {
    RatIntValue(op, dst.x.num, dst.x.den, src.x.z);
    var q := RatInt(op, dst.x.num, dst.x.den, src.x.z);
    dst.x := Rat(q.0, q.1);
    status := dst.Canonicalize();
  }

  method ArithIntInt(op: Op, dst: LsReal, src: LsReal) returns (status: Status)
    requires dst != src && dst.x.Big? && Canonical(src.x) && src.x.Big?
    modifies dst
    ensures status == if op.Div? && !Divides(src.x.z, old(dst.x).z) then InexactDivision else Fine
    ensures status.Fine? ==> Computed(op, old(dst.x), src.x, dst.x)
  {
    var a, b := dst.x.z, src.x.z;
    if op.Div? && a % b != 0 {
      NotDivisible(b, a);
      return InexactDivision;               // mpz_divexact needs divisibility
    }
    if op.Div? { assert b * (a / b) == a; }
    IntIntValue(op, a, b);
    dst.x := Big(IntInt(op, a, b));
    status := dst.Canonicalize();
  }

  method ArithRatRat(op: Op, dst: LsReal, src: LsReal) returns (status: Status)
    requires dst != src && Stored(dst.x) && Canonical(src.x) && dst.x.Rat? && src.x.Rat?
    modifies dst
    ensures status.Fine? && Computed(op, old(dst.x), src.x, dst.x)
  {
    CanonicalZero(src.x);
    RatRatValue(op, dst.x.num, dst.x.den, src.x.num, src.x.den);
    var q := RatRat(op, dst.x.num, dst.x.den, src.x.num, src.x.den);
    dst.x := Rat(q.0, q.1);
    status := dst.Canonicalize();
  }

  lemma NotDivisible(d: int, n: int)
    requires d != 0 && n % d != 0
    ensures !Divides(d, n)
  {
    if Divides(d, n) { ExactQuotient(n, d); }
  }

  /** A small number is a multiple of a big one only when it is 0 or opposite to it. */
  lemma SmallOverBig(a: int, b: int)
    requires FitsInt(a) && !FitsInt(b)
    ensures Divides(b, a) <==> a == 0 || (a == INT_MIN && b == -INT_MIN)
  {
    if Divides(b, a) {
      var k :| b * k == a;
      AbsProduct(b, k);
      ProductSign(Abs(b), Abs(k));
    }
    if a == 0 { assert b * 0 == a; }
    if b == -INT_MIN { assert b * -1 == INT_MIN; }
  }

  /** dst := dst op src. The outcome is the one StatusOf predicts; when it is fine, dst is the
      exact result in canonical form. src does not change. */
  method ReArith2(op: Op, dst: LsReal, src: LsReal) returns (status: Status)
    requires dst != src && Stored(dst.x) && Canonical(src.x)
    modifies dst
    ensures status == StatusOf(op, old(dst.x), src.x)
    ensures status.Fine? ==> Computed(op, old(dst.x), src.x, dst.x)
  {
    if dst.x.Small? && src.x.Small? {
      var promote;
      status, promote := ArithSmall(op, dst, src);
      if !promote {
        return;
      }
      dst.Promote(if op.Div? then 2 else 1);
    }
    if op.Div? {
      PromoteForDivision(dst, src);
    }
    if src.x.Small? {
      status := ArithWithSmall(op, dst, src);
    } else {
      if dst.x.Small? && src.x.Big? { SmallOverBig(dst.x.v, src.x.z); }
      status := ArithWide(op, dst, src);
    }
  }
}
