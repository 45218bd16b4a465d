// Exact reals as the runtime stores them (src/runtime/include/number.h:31-42, types 0 to 2),
// the canonical form, and why it is unique.
module Rational {

  const INT_MIN := -0x8000_0000
  const INT_MAX := 0x7FFF_FFFF

  predicate FitsInt(n: int) { INT_MIN <= n <= INT_MAX }

  /** The tagged union: an int, a GMP integer, or a GMP rational. */
  datatype Exact = Small(v: int) | Big(z: int) | Rat(num: int, den: int)

  function Num(x: Exact): int {
    match x case Small(v) => v case Big(z) => z case Rat(n, _) => n
  }

  function Den(x: Exact): int {
    match x case Rat(_, d) => d case _ => 1
  }

  function Value(x: Exact): real
    requires Den(x) != 0
  {
    Num(x) as real / Den(x) as real
  }

  predicate Canonical(x: Exact) {
    match x
    case Small(v) => FitsInt(v)
    case Big(z) => !FitsInt(z)
    case Rat(n, d) => d > 1 && Gcd(Abs(n), d) == 1
  }

  function Abs(n: int): nat { if n < 0 then -n else n }

  // ---- divisors ---------------------------------------------------------------------------------

  ghost predicate Divides(d: int, n: int) { exists k: int :: d * k == n }

  lemma DividesSum(d: int, m: int, n: int, k: int)
    requires Divides(d, m) && Divides(d, n)
    ensures Divides(d, m + n * k)
  {
    var a :| d * a == m;
    var b :| d * b == n;
    assert d * (a + b * k) == m + n * k;
  }

  function Gcd(a: nat, b: nat): (g: nat)
    ensures a > 0 || b > 0 ==> g > 0
    decreases b
  {
    if b == 0 then a else Gcd(b, a % b)
  }

  lemma {:induction false} GcdDivides(a: nat, b: nat)
    ensures Divides(Gcd(a, b), a) && Divides(Gcd(a, b), b)
    decreases b
  {
    if b == 0 {
      assert a * 1 == a && a * 0 == b;
    } else {
      GcdDivides(b, a % b);
      DividesSum(Gcd(a, b), a % b, b, a / b);
      assert a % b + b * (a / b) == a;
    }
  }

  lemma {:induction false} Bezout(a: nat, b: nat) returns (x: int, y: int)
    ensures a * x + b * y == Gcd(a, b)
    decreases b
  {
    if b == 0 {
      x, y := 1, 0;
    } else {
      var q := a / b;
      var u, v := Bezout(b, a % b);
      x, y := v, u - q * v;
      assert a % b == a - b * q;
      assert b * u + (a - b * q) * v == a * v + b * (u - q * v);
    }
  }

  lemma CommonDivisor(d: int, a: nat, b: nat)
    requires Divides(d, a) && Divides(d, b)
    ensures Divides(d, Gcd(a, b))
  {
    hide Gcd;
    var x, y := Bezout(a, b);
    var j :| d * j == a;
    var k :| d * k == b;
    Distribute(d, j, x, k, y);
  }

  lemma Distribute(d: int, j: int, x: int, k: int, y: int)
    ensures d * (j * x + k * y) == (d * j) * x + (d * k) * y
  {
  }

  lemma DividesSign(d: int, n: int)
    requires Divides(d, Abs(n))
    ensures Divides(d, n)
  {
    var k :| d * k == Abs(n);
    assert d * (if n < 0 then -k else k) == n;
  }

  lemma DividesAbs(d: int, n: int)
    requires Divides(d, n)
    ensures Divides(d, Abs(n))
  {
    var k :| d * k == n;
    assert d * (if n < 0 then -k else k) == Abs(n);
  }

  lemma SignMoves(n: int, x: int)
    ensures n * (if n < 0 then -x else x) == Abs(n) * x
  {
  }

  lemma Collect(a: int, b: int, m: int)
    ensures a * m + b * m == (a + b) * m
  {
  }

  /** Gauss: a divisor of a product that is coprime to one factor divides the other. */
  lemma CoprimeDivides(d: nat, n: int, m: int)
    requires d > 0 && Gcd(Abs(n), d) == 1 && Divides(d, n * m)
    ensures Divides(d, m)
  {
    hide Gcd;
    var x, y := Bezout(Abs(n), d);
    var s := if n < 0 then -x else x;
    SignMoves(n, x);
    var k :| d * k == n * m;
    calc {
      d * (k * s + y * m);
      { Distribute(d, k, s, y, m); Regroup(n, s, m); }
      (n * s) * m + (d * y) * m;
      { Collect(n * s, d * y, m); }
      (n * s + d * y) * m;
      m;
    }
  }

  lemma PositiveFactor(d: int, k: int)
    requires d > 0 && d * k > 0
    ensures k > 0 && d <= d * k
  {
  }

  lemma DividesBound(d: int, n: int)
    requires Divides(d, n) && d > 0 && n > 0
    ensures d <= n
  {
    var k :| d * k == n;
    PositiveFactor(d, k);
  }

  lemma LowestTermsUnique(n1: int, d1: nat, n2: int, d2: nat)
    requires d1 > 0 && d2 > 0 && Gcd(Abs(n1), d1) == 1 && Gcd(Abs(n2), d2) == 1
    requires n1 * d2 == n2 * d1
    ensures n1 == n2 && d1 == d2
  {
    hide Gcd, Divides;
    CrossDivides(n1, d1, n2, d2);
    CrossDivides(n2, d2, n1, d1);
    DividesBound(d1, d2);
    DividesBound(d2, d1);
    SameFactor(n1, n2, d1);
  }

  lemma CrossDivides(n1: int, d1: nat, n2: int, d2: nat)
    requires d1 > 0 && Gcd(Abs(n1), d1) == 1 && n1 * d2 == n2 * d1
    ensures Divides(d1, d2)
  {
    hide Gcd;
    assert d1 * n2 == n1 * d2;
    CoprimeDivides(d1, n1, d2);
  }

  lemma SameFactor(a: int, b: int, d: int)
    requires d != 0 && a * d == b * d
    ensures a == b
  {
    assert (a - b) * d == 0;
  }

  lemma GcdOne(n: nat)
    ensures Gcd(n, 1) == 1
  {
    assert n % 1 == 0;
    assert Gcd(n, 1) == Gcd(1, 0);
  }

  // ---- ratios as reals --------------------------------------------------------------------------

  lemma SameRatio(n: int, b: int, m: int, d: int)
    requires b != 0 && d != 0
    ensures n * d == m * b <==> n as real / b as real == m as real / d as real
  {
    assert (n * d) as real == n as real * d as real;
    assert (m * b) as real == m as real * b as real;
  }

  /** The canonical form is unique: equal value means identical structure. */
  lemma CanonicalUnique(x: Exact, y: Exact)
    requires Canonical(x) && Canonical(y)
    ensures Value(x) == Value(y) <==> x == y
  {
    if Value(x) == Value(y) {
      SameRatio(Num(x), Den(x), Num(y), Den(y));
      GcdOne(Abs(Num(x)));
      GcdOne(Abs(Num(y)));
      LowestTermsUnique(Num(x), Den(x), Num(y), Den(y));
    }
  }

  /** So the type bits decide integrality. */
  lemma TypeDecidesInteger(x: Exact)
    requires Canonical(x)
    ensures !x.Rat? <==> Value(x) == Value(x).Floor as real
  {
    if !x.Rat? {
      assert Value(x) == Num(x) as real;
    } else {
      var n := Value(x).Floor;
      CanonicalUnique(x, if FitsInt(n) then Small(n) else Big(n));
    }
  }

  // ---- canonicalization -------------------------------------------------------------------------

  lemma AbsProduct(a: int, b: int)
    ensures Abs(a * b) == Abs(a) * Abs(b)
  {
    assert (-a) * b == -(a * b) && a * -b == -(a * b) && (-a) * -b == a * b;
    ProductSign(Abs(a), Abs(b));
  }

  lemma ProductSign(a: nat, b: nat)
    ensures a * b >= 0 && (b > 0 ==> a * b >= a) && (a > 0 && b > 0 ==> a * b > 0)
  {
  }

  lemma MultipleBound(d: int, t: int)
    ensures t != 0 ==> Abs(d * t) >= Abs(d)
  {
    AbsProduct(d, t);
    ProductSign(Abs(d), Abs(t));
  }

  lemma ExactQuotient(n: int, d: int)
    requires d != 0 && Divides(d, n)
    ensures d * (n / d) == n
  {
    var k :| d * k == n;
    MultipleBound(d, k - n / d);
    assert d * (k - n / d) == n % d;
  }

  lemma NotLarger(g: nat, h: nat)
    requires g > 0 && h > 0 && g * h <= g
    ensures h == 1
  {
    assert g * h == g + g * (h - 1);
    ProductSign(g, h - 1);
  }

  lemma ReducedIsCoprime(g: nat, n: int, d: nat)
    requires g > 0 && d > 0 && g == Gcd(Abs(g * n), g * d)
    ensures Gcd(Abs(n), d) == 1
  {
    var h := Gcd(Abs(n), d);
    GcdDivides(Abs(n), d);
    DividesSign(h, n);
    ScaledDivides(g, h, n);
    ScaledDivides(g, h, d);
    DividesAbs(g * h, g * n);
    CommonDivisor(g * h, Abs(g * n), g * d);
    ProductSign(g, h);
    DividesBound(g * h, g);
    NotLarger(g, h);
  }

  lemma ScaledDivides(g: int, h: int, n: int)
    requires Divides(h, n)
    ensures Divides(g * h, g * n)
  {
    var i :| h * i == n;
    assert (g * h) * i == g * (h * i);
  }

  lemma Regroup(g: int, a: int, b: int)
    ensures a * (g * b) == (g * a) * b
  {
  }

  lemma LowestTerms(n: int, d: nat)
    requires d > 0
    ensures var g := Gcd(Abs(n), d);
            && g > 0 && d / g > 0
            && Gcd(Abs(n / g), d / g) == 1
            && (n / g) * d == n * (d / g)
  {
    var g := Gcd(Abs(n), d);
    GcdDivides(Abs(n), d);
    DividesSign(g, n);
    ExactQuotient(n, g);
    ExactQuotient(d, g);
    PositiveFactor(g, d / g);
    ReducedIsCoprime(g, n / g, d / g);
    hide Gcd;
    Regroup(g, n / g, d / g);
  }

  /** mpq_canonicalize: positive denominator, lowest terms. */
  function MpqCanonicalize(num: int, den: int): (q: (int, int))
    requires den != 0
    ensures q.1 > 0 && Gcd(Abs(q.0), q.1) == 1
    ensures q.0 * den == num * q.1
  {
    if den < 0 then ReduceFraction(-num, -den) else ReduceFraction(num, den)
  }

  function ReduceFraction(n: int, d: nat): (q: (int, int))
    requires d > 0
    ensures q.1 > 0 && Gcd(Abs(q.0), q.1) == 1
    ensures q.0 * d == n * q.1
  {
    LowestTerms(n, d);
    (n / Gcd(Abs(n), d), d / Gcd(Abs(n), d))
  }

  /** The canonical object for an integer, and for a ratio: _re_canonicalize in one step. */
  function OfInt(n: int): (x: Exact)
    ensures Canonical(x) && Num(x) == n && Den(x) == 1
  {
    if FitsInt(n) then Small(n) else Big(n)
  }

  function OfRatio(num: int, den: int): (x: Exact)
    requires den != 0
    ensures Canonical(x)
    ensures Value(x) == num as real / den as real
  {
    var (n, d) := MpqCanonicalize(num, den);
    SameRatio(n, d, num, den);
    if d == 1 then OfInt(n) else Rat(n, d)
  }
}
