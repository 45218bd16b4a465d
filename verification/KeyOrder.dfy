// std::map<std::string, ...> iterates in increasing key order. createFunction relies on two
// such iterations over the same map agreeing (src/codegen.cc:422 and 456).
module KeyOrder {

  predicate Below(a: string, b: string) {
    b != [] && (a == [] || a[0] < b[0] || (a[0] == b[0] && Below(a[1..], b[1..])))
  }

  lemma {:induction false} BelowIsTotal(a: string, b: string)
    ensures a == b || Below(a, b) || Below(b, a)
    ensures !(Below(a, b) && Below(b, a)) && !Below(a, a)
  {
    if a != [] && b != [] {
      BelowIsTotal(a[1..], b[1..]);
      assert a == [a[0]] + a[1..] && b == [b[0]] + b[1..];
    }
    if a != [] { BelowIsTotal(a[1..], a[1..]); }
  }

  lemma {:induction false} BelowIsTransitive(a: string, b: string, c: string)
    requires Below(a, b) && Below(b, c)
    ensures Below(a, c)
  {
    if a != [] && a[0] == b[0] && b[0] == c[0] { BelowIsTransitive(a[1..], b[1..], c[1..]); }
  }

  /** It is the order of a dictionary: a beginning comes first, and else the first difference decides. */
  lemma {:induction false} BelowIsLexicographic(a: string, c: char, s: string, d: char, t: string)
    ensures Below(a, a + [c] + s)
    ensures c < d ==> Below(a + [c] + s, a + [d] + t)
  {
    var x, y := a + [c] + s, a + [d] + t;
    if a != "" {
      BelowIsLexicographic(a[1..], c, s, d, t);
      assert x[1..] == a[1..] + [c] + s && y[1..] == a[1..] + [d] + t;
    }
  }

  predicate IsLeast(x: string, s: set<string>) {
    x in s && forall y | y in s :: y == x || Below(x, y)
  }

  lemma LeastExists(s: set<string>)
    requires s != {}
    ensures exists x :: IsLeast(x, s)
    decreases |s|
  {
    var z :| z in s;
    if s == {z} {
      assert IsLeast(z, s);
    } else {
      var rest := s - {z};
      assert s == {z} + rest;
      LeastExists(rest);
      var x :| IsLeast(x, rest);
      BelowIsTotal(x, z);
      var least := if Below(x, z) then x else z;
      forall y | y in s ensures y == least || Below(least, y) {
        if y != z && y != x && least == z { BelowIsTransitive(z, x, y); }
      }
      assert IsLeast(least, s);
    }
  }

  function Least(s: set<string>): (x: string)
    requires s != {}
    ensures IsLeast(x, s)
  {
    LeastExists(s);
    assert forall x, y | IsLeast(x, s) && IsLeast(y, s) :: x == y by {
      forall x, y | IsLeast(x, s) && IsLeast(y, s) ensures x == y { BelowIsTotal(x, y); }
    }
    var x :| x in s && IsLeast(x, s);
    x
  }

  predicate Distinct<T(==)>(s: seq<T>) {
    forall i, j :: 0 <= i < j < |s| ==> s[i] != s[j]
  }

  /** The keys in iteration order. */
  function Sorted(s: set<string>): (r: seq<string>)
    ensures forall x :: x in r <==> x in s
    decreases |s|
  {
    if s == {} then []
    else var x := Least(s); [x] + Sorted(s - {x})
  }

  /** Increasing order: with the contract of Sorted, this makes it the only such sequence. */
  lemma {:induction false} SortedIncreases(s: set<string>)
    ensures Distinct(Sorted(s))
    ensures forall i, j :: 0 <= i < j < |Sorted(s)| ==> Below(Sorted(s)[i], Sorted(s)[j])
    decreases |s|
  {
    if s != {} {
      var x, r := Least(s), Sorted(s);
      SortedIncreases(s - {x});
      forall i, j | 0 <= i < j < |r| ensures Below(r[i], r[j]) {
        assert r[j] == Sorted(s - {x})[j - 1];
        assert r[j] in s - {x};
      }
      forall i, j | 0 <= i < j < |r| ensures r[i] != r[j] { BelowIsTotal(r[i], r[j]); }
    }
  }

  /** The position of the first occurrence. */
  function Position<T(==)>(s: seq<T>, x: T): (i: nat)
    requires x in s
    ensures i < |s| && s[i] == x
    ensures forall j :: 0 <= j < i ==> s[j] != x
  {
    if s[0] == x then 0 else 1 + Position(s[1..], x)
  }

  lemma PositionOf<T>(s: seq<T>, i: nat)
    requires Distinct(s) && i < |s|
    ensures Position(s, s[i]) == i
  {
  }
}
