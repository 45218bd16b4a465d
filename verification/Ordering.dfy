// Comparison of exact reals (src/runtime/include/number.h:444-568) and the chained orderings
// and predicates built on it (src/runtime/number.c:52-83, 164-225).
module Ordering {
  import opened Rational
  import opened Tower
  import opened Complex
  import opened Numbers

  function Sgn(n: int): int { if n < 0 then -1 else if n != 0 then 1 else 0 }

  function SignOf(x: real): int { if x < 0.0 then -1 else if x != 0.0 then 1 else 0 }

  /** sgn(dst - src), but for two small numbers the difference wraps around. */
  function OrderOf(a: Exact, b: Exact): int
    requires Canonical(a) && Canonical(b)
  {
    if a.Small? && b.Small? then Sgn(Wrap(a.v - b.v)) else SignOf(Value(a) - Value(b))
  }

  /** It is the sign of the exact difference iff that difference does not overflow. */
  lemma OrderIsExact(a: Exact, b: Exact)
    requires Canonical(a) && Canonical(b)
    ensures OrderOf(a, b) == SignOf(Value(a) - Value(b)) <==> (a.Small? && b.Small? ==> FitsInt(a.v - b.v))
    ensures OrderOf(a, b) == 0 <==> a == b
  {
    CanonicalUnique(a, b);
    if a.Small? && b.Small? {
      ValueOfInteger(a);
      ValueOfInteger(b);
      assert Value(a) - Value(b) == (a.v - b.v) as real;
    }
  }

  lemma CrossSign(n1: int, d1: int, n2: int, d2: int)
    requires d1 > 0 && d2 > 0
    ensures Sgn(n1 * d2 - n2 * d1) == SignOf(n1 as real / d1 as real - n2 as real / d2 as real)
  {
    var x, y, d := n1 as real / d1 as real, n2 as real / d2 as real, d1 as real * d2 as real;
    assert x * d == n1 as real * d2 as real;
    assert y * d == n2 as real * d1 as real;
    ProductAsReal(n1, d2);
    ProductAsReal(n2, d1);
    assert (n1 * d2 - n2 * d1) as real == (x - y) * d;
    SignTimesPositive(x - y, d);
  }

  lemma SignTimesPositive(x: real, d: real)
    requires d > 0.0
    ensures SignOf(x * d) == SignOf(x)
  {
  }

  lemma SignOfRatio(n: int, d: int)
    requires d > 0
    ensures Sgn(n) == SignOf(n as real / d as real)
  {
    CrossSign(n, d, 0, 1);
  }

  /** _re_order2 */
  method ReOrder2(dst: Exact, src: Exact) returns (result: int)
    requires Canonical(dst) && Canonical(src)
    ensures result == OrderOf(dst, src)
  {
    CrossSign(Num(dst), Den(dst), Num(src), Den(src));
    SignOfRatio(Num(dst), Den(dst));
    SignOfRatio(Num(src), Den(src));
    if src.Small? {
      match dst
      case Small(v) => result := Sgn(Wrap(v - src.v));
      case Big(z) => result := Sgn(z - src.v);                     // mpz_cmp_si
      case Rat(n, d) => result := Sgn(n - src.v * d);              // mpq_cmp_si
    } else if dst.Small? {
      match src
      case Big(z) => result := -Sgn(z - dst.v);
      case Rat(n, d) => result := -Sgn(n - dst.v * d);
    } else if dst.Big? && src.Rat? {
      var s1, s2 := Sgn(dst.z), Sgn(src.num);
      if s1 != s2 {
        result := if s1 > s2 then 1 else -1;
      } else {
        result := Sgn(dst.z * src.den - src.num);
      }
    } else if dst.Rat? && src.Big? {
      var s1, s2 := Sgn(dst.num), Sgn(src.z);
      if s1 != s2 {
        result := if s1 > s2 then 1 else -1;
      } else {
        result := Sgn(dst.num - src.z * dst.den);
      }
    } else if dst.Big? {
      result := Sgn(dst.z - src.z);                                // mpz_cmp
    } else {
      result := Sgn(dst.num * src.den - src.num * dst.den);        // mpq_cmp
    }
  }

  // ---- chains -----------------------------------------------------------------------------------

  datatype Rel = Equal | Less | Greater | LessEqual | GreaterEqual

  predicate Accepted(rel: Rel, result: int) {
    match rel
    case Equal => result == 0
    case Less => result < 0
    case Greater => result > 0
    case LessEqual => result <= 0
    case GreaterEqual => result >= 0
  }

  /** Neighbours as _order compares them: `=` goes on to the imaginary parts. */
  predicate InOrder(rel: Rel, a: Parts, b: Parts)
    requires CanonicalParts(a) && CanonicalParts(b)
  {
    var re := OrderOf(a.re, b.re);
    Accepted(rel, if rel.Equal? && re == 0 then OrderOf(a.im, b.im) else re)
  }

  predicate IsReal(p: Parts) { p.im == Small(0) }

  /** lso_is_real: no for what is no number; on numbers it reads the complex bit only, and
      decides realness. */
  method LsoIsReal(arg: Arg) returns (r: bool)
    requires arg.Numeric? ==> arg.obj.Valid()
    ensures r <==> arg.Numeric? && IsReal(arg.obj.View())
    ensures arg.Numeric? ==> (r <==> Denotes(arg.obj.View()).im == 0.0)
  {
    if arg.Other? {
      return false;
    }
    CanonicalZero(arg.obj.im);
    r := !arg.obj.complex;
  }

  /** lso_is_integer: the same with the type bits, and decides integrality. */
  method LsoIsInteger(arg: Arg) returns (r: bool)
    requires arg.Numeric? ==> arg.obj.Valid()
    ensures r ==> arg.Numeric?
    ensures arg.Numeric? ==> var n := Denotes(arg.obj.View()); r <==> n.im == 0.0 && n.re == n.re.Floor as real
  {
    r := LsoIsReal(arg);
    if r {
      TypeDecidesInteger(arg.obj.re);
      r := Type(arg.obj.re) != 2;
    }
  }

  predicate Admitted(rel: Rel, p: Parts) { rel.Equal? || IsReal(p) }

  /** The numbers up to the first argument that _order refuses. */
  ghost function Admissible(rel: Rel, args: seq<Arg>): (ps: seq<Parts>)
    requires ValidArgs(args)
    reads set a | a in args && a.Numeric? :: a.obj
    ensures |ps| <= |args| && AllCanonical(ps)
    ensures forall i :: 0 <= i < |ps| ==> args[i].Numeric? && ps[i] == args[i].obj.View() && Admitted(rel, ps[i])
    ensures |ps| < |args| ==> args[|ps|].Other? || !Admitted(rel, args[|ps|].obj.View())
  {
    if args == [] || args[0].Other? || !Admitted(rel, args[0].obj.View()) then []
    else [args[0].obj.View()] + Admissible(rel, args[1..])
  }

  /** The arguments are taken up to the first that is no number or, but for `=`, is not real. */
  lemma {:induction false} AdmissibleExactly(rel: Rel, args: seq<Arg>, n: nat)
    requires ValidArgs(args) && n <= |args|
    ensures n <= |Admissible(rel, args)| <==>
            forall i :: 0 <= i < n ==> args[i].Numeric? && (rel == Equal || Denotes(args[i].obj.View()).im == 0.0)
  {
    var ps := Admissible(rel, args);
    forall i | 0 <= i < n && args[i].Numeric?
      ensures Admitted(rel, args[i].obj.View()) <==> rel == Equal || Denotes(args[i].obj.View()).im == 0.0
    {
      CanonicalZero(args[i].obj.im);
    }
  }

  /** Is every number in order with the next? */
  predicate Chained(rel: Rel, ps: seq<Parts>)
    requires AllCanonical(ps)
  {
    forall i :: 0 <= i < |ps| - 1 ==> InOrder(rel, ps[i], ps[i + 1])
  }

  method CheckOperand(rel: Rel, arg: Arg) returns (admitted: bool)
    requires arg.Numeric? ==> arg.obj.Valid()
    ensures admitted <==> arg.Numeric? && Admitted(rel, arg.obj.View())
  {
    if rel.Equal? {
      return arg.Numeric?;
    }
    admitted := LsoIsReal(arg);
  }

  method CompareOperands(rel: Rel, a: LsNumber, b: LsNumber) returns (inOrder: bool)
    requires a.Valid() && b.Valid()
    ensures inOrder == InOrder(rel, a.View(), b.View())
  {
    var res := ReOrder2(a.re, b.re);
    if rel.Equal? && res == 0 {
      res := ReOrder2(a.im, b.im);
    }
    inOrder := Accepted(rel, res);
  }

  /** _order. An argument out of order settles the answer before later ones are looked at. */
  method Order(rel: Rel, args: seq<Arg>) returns (r: Answer<bool>)
    requires ValidArgs(args)
    ensures var ps := Admissible(rel, args);
            r == if !Chained(rel, ps) then Answer(false) 
                 else if |ps| == |args| then Answer(true)
                 else if rel == Equal then NotANumber
                 else NotReal
  {
    hide Admissible, InOrder, Canonical, Admitted, Chained;
    ghost var ps := Admissible(rel, args);
    ShortChain(rel, ps);
    if |args| == 0 {
      return Answer(true);
    }
    var refusal := if rel == Equal then NotANumber else NotReal;
    var ok := CheckOperand(rel, args[0]);
    if !ok {
      return refusal;
    }
    var i := 1;
    while i < |args|
      invariant 1 <= i <= |ps|
      invariant Chained(rel, ps[..i])
    {
      ok := CheckOperand(rel, args[i]);
      if !ok {
        assert ps[..i] == ps;
        return refusal;
      }
      assert ps[i - 1] == args[i - 1].obj.View() && ps[i] == args[i].obj.View();
      var inOrder := CompareOperands(rel, args[i - 1].obj, args[i].obj);
      ChainStep(rel, ps, i);
      if !inOrder {
        return Answer(false);
      }
      i := i + 1;
    }
    assert ps[..i] == ps;
    return Answer(true);
  }

  lemma ShortChain(rel: Rel, ps: seq<Parts>)
    requires AllCanonical(ps)
    ensures |ps| == 0 ==> Chained(rel, ps)
    ensures |ps| > 0 ==> Chained(rel, ps[..1])
  {
  }

  lemma ChainStep(rel: Rel, ps: seq<Parts>, i: nat)
    requires AllCanonical(ps) && 1 <= i < |ps| && Chained(rel, ps[..i])
    ensures Chained(rel, ps[..i + 1]) <==> InOrder(rel, ps[i - 1], ps[i])
    ensures !InOrder(rel, ps[i - 1], ps[i]) ==> !Chained(rel, ps)
  {
    hide InOrder, Canonical;
    var qs := ps[..i + 1];
    assert qs[i - 1] == ps[i - 1] && qs[i - 1 + 1] == ps[i] == ps[i - 1 + 1];
    if InOrder(rel, ps[i - 1], ps[i]) {
      forall j | 0 <= j < i ensures InOrder(rel, qs[j], qs[j + 1]) {
        if j < i - 1 { assert ps[..i][j] == qs[j] && ps[..i][j + 1] == qs[j + 1]; }
      }
    }
  }

  /** The relation meant. */
  predicate Related(rel: Rel, a: Number, b: Number) {
    match rel
    case Equal => a == b
    case Less => a.re < b.re
    case Greater => a.re > b.re
    case LessEqual => a.re <= b.re
    case GreaterEqual => a.re >= b.re
  }

  /** No two small neighbours are more than an int32 apart. */
  predicate WithinReach(ps: seq<Parts>) {
    forall i :: 0 <= i < |ps| - 1 ==> Near(ps[i].re, ps[i + 1].re)
  }

  predicate Near(a: Exact, b: Exact) { a.Small? && b.Small? ==> FitsInt(a.v - b.v) }

  /** One comparison decides the relation exactly when the two numbers are near, or it is `=`. */
  lemma InOrderMeans(rel: Rel, a: Parts, b: Parts)
    requires CanonicalParts(a) && CanonicalParts(b)
    ensures (InOrder(rel, a, b) <==> Related(rel, Denotes(a), Denotes(b))) <==> rel.Equal? || Near(a.re, b.re)
  {
    hide Value, Canonical;
    OrderIsExact(a.re, b.re);
    OrderIsExact(a.im, b.im);
    PartsUnique(a, b);
    if !Near(a.re, b.re) {
      ValueOfInteger(a.re);
      ValueOfInteger(b.re);
    }
  }

  lemma RelatedTransitive(rel: Rel, a: Number, b: Number, c: Number)
    requires Related(rel, a, b) && Related(rel, b, c)
    ensures Related(rel, a, c)
  {
  }

  /** Every number stands in the relation to every later one. */
  predicate Sorted(rel: Rel, ps: seq<Parts>)
    requires AllCanonical(ps)
  {
    forall i, j :: 0 <= i < j < |ps| ==> Related(rel, Denotes(ps[i]), Denotes(ps[j]))
  }

  predicate Step(rel: Rel, ps: seq<Parts>, i: nat)
    requires AllCanonical(ps) && i + 1 < |ps|
  {
    Related(rel, Denotes(ps[i]), Denotes(ps[i + 1]))
  }

  lemma SortedBySteps(rel: Rel, ps: seq<Parts>)
    requires AllCanonical(ps)
    ensures Sorted(rel, ps) <==> forall i: nat :: i + 1 < |ps| ==> Step(rel, ps, i)
  {
    hide Value, Related;
    if forall i: nat :: i + 1 < |ps| ==> Step(rel, ps, i) {
      forall i, j | 0 <= i < j < |ps| ensures Related(rel, Denotes(ps[i]), Denotes(ps[j])) {
        ChainReaches(rel, ps, i, j);
      }
    }
  }

  /** The chain test decides the relation between all pairs, not only neighbours, when neighbours
      are within reach. Else a yes is wrong, and a sorted sequence is refused. */
  lemma ChainSortsAll(rel: Rel, ps: seq<Parts>)
    requires AllCanonical(ps)
    ensures rel.Equal? || WithinReach(ps) ==> (Chained(rel, ps) <==> Sorted(rel, ps))
    ensures Chained(rel, ps) ==> (Sorted(rel, ps) <==> rel.Equal? || WithinReach(ps))
    ensures Sorted(rel, ps) ==> (Chained(rel, ps) <==> rel.Equal? || WithinReach(ps))
  {
    hide Value, InOrder, Sorted, Near;
    SortedBySteps(rel, ps);
    forall i: nat | i + 1 < |ps|
      ensures (InOrder(rel, ps[i], ps[i + 1]) <==> Step(rel, ps, i)) <==> rel.Equal? || Near(ps[i].re, ps[i + 1].re)
    {
      InOrderMeans(rel, ps[i], ps[i + 1]);
    }
  }

  /** (< 2147483647 -1) is true: the difference wraps around. */
  lemma OrderCanBreak()
    ensures var ps := [Parts(Small(INT_MAX), Small(0)), Parts(Small(-1), Small(0))];
            AllCanonical(ps) && Chained(Less, ps) && !Sorted(Less, ps)
  {
    var a, b := Parts(Small(INT_MAX), Small(0)), Parts(Small(-1), Small(0));
    var ps := [a, b];
    ValueOfInteger(a.re);
    ValueOfInteger(b.re);
    assert !Related(Less, Denotes(ps[0]), Denotes(ps[1]));
  }

  lemma {:induction false} ChainReaches(rel: Rel, ps: seq<Parts>, i: nat, j: nat)
    requires AllCanonical(ps) && i < j < |ps|
    requires forall k: nat :: k + 1 < |ps| ==> Step(rel, ps, k)
    ensures Related(rel, Denotes(ps[i]), Denotes(ps[j]))
    decreases j - i
  {
    hide Value, Related;
    assert Step(rel, ps, j - 1);
    if i + 1 < j {
      ChainReaches(rel, ps, i, j - 1);
      RelatedTransitive(rel, Denotes(ps[i]), Denotes(ps[j - 1]), Denotes(ps[j]));
    }
  }
}
