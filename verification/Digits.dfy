// Digit strings: what GMP and printf read and write.
module Digits {

  /** The value of a digit or hexadecimal letter. */
  function DigitOf(c: char): (d: int)
    ensures d < 16
  {
    if '0' <= c <= '9' then c as int - '0' as int
    else if 'a' <= c <= 'f' then c as int - 'a' as int + 10
    else if 'A' <= c <= 'F' then c as int - 'A' as int + 10
    else -1
  }

  /** The digit GMP takes a character for: in a base above 36 the small letters come behind all
      capital ones. */
  function DigitIn(c: char, base: int): (d: int)
    ensures base <= 36 || !('a' <= c <= 'f') ==> d == DigitOf(c)
  {
    if base > 36 && 'a' <= c <= 'f' then DigitOf(c) + 26 else DigitOf(c)
  }

  predicate IsDecimal(c: char) { '0' <= c <= '9' }

  predicate AllDecimal(s: string) { forall i :: 0 <= i < |s| ==> IsDecimal(s[i]) }

  predicate AllDigits(s: string, radix: nat) { forall i :: 0 <= i < |s| ==> 0 <= DigitIn(s[i], radix) < radix }

  /** The number a string of digits stands for, most significant digit first. */
  function ValueOf(s: string, radix: nat): (n: nat)
    requires AllDigits(s, radix)
  {
    if s == "" then 0 else ValueOf(s[..|s| - 1], radix) * radix + DigitIn(s[|s| - 1], radix)
  }

  lemma DecimalDigits(s: string)
    requires AllDecimal(s)
    ensures AllDigits(s, 10)
  {
  }

  function Pow(b: nat, n: nat): nat { if n == 0 then 1 else b * Pow(b, n - 1) }

  lemma {:induction false} PowPositive(b: nat, n: nat)
    requires b > 0
    ensures Pow(b, n) > 0
  {
    if n > 0 {
      PowPositive(b, n - 1);
      assert b * Pow(b, n - 1) > 0;
    }
  }

  lemma DigitFits(v: nat, p: nat, k: nat, d: nat)
    requires v < p && d < k
    ensures v * k + d < k * p
  {
    assert k * p == k * (v + 1) + k * (p - v - 1);
  }

  lemma {:induction false} ValueOfBound(s: string, radix: nat)
    requires AllDigits(s, radix)
    ensures ValueOf(s, radix) < Pow(radix, |s|)
  {
    if s != "" {
      var u := s[..|s| - 1];
      ValueOfBound(u, radix);
      DigitFits(ValueOf(u, radix), Pow(radix, |u|), radix, DigitIn(s[|s| - 1], radix));
    }
  }

  function DecimalDigit(d: nat): (c: char)
    requires d < 10
    ensures IsDecimal(c) && DigitOf(c) == d
  {
    '0' + d as char
  }

  /** %d and %Zd of a number that is not negative. */
  function NatText(n: nat): (s: string)
    ensures s != "" && AllDecimal(s)
  {
    if n < 10 then [DecimalDigit(n)] else NatText(n / 10) + [DecimalDigit(n % 10)]
  }

  lemma {:induction false} NatTextValue(n: nat)
    ensures ValueOf(NatText(n), 10) == n
  {
    if n < 10 {
      assert NatText(n)[..0] == "";
    } else {
      NatTextValue(n / 10);
      assert NatText(n)[..|NatText(n)| - 1] == NatText(n / 10);
    }
  }

  /** %d and %Zd. */
  function IntText(n: int): string {
    if n < 0 then "-" + NatText(-n) else NatText(n)
  }

  // ---- spans ------------------------------------------------------------------------------------

  /** How many characters at the front satisfy `p`. */
  function Span(s: string, p: char -> bool): (n: nat)
    ensures n <= |s|
    ensures forall i :: 0 <= i < n ==> p(s[i])
    ensures n < |s| ==> !p(s[n])
  {
    if s == "" || !p(s[0]) then 0 else 1 + Span(s[1..], p)
  }

  lemma SpanIs(s: string, p: char -> bool, n: nat)
    requires n <= |s| && (forall i :: 0 <= i < n ==> p(s[i])) && (n < |s| ==> !p(s[n]))
    ensures Span(s, p) == n
  {
    if n > 0 { SpanIs(s[1..], p, n - 1); }
  }

  lemma {:induction false} SpanReaches(s: string, p: char -> bool, k: nat)
    requires k <= |s| && forall i :: 0 <= i < k ==> p(s[i])
    ensures Span(s, p) >= k
  {
    if k > 0 { SpanReaches(s[1..], p, k - 1); }
  }

  function Count(s: string, c: char): nat {
    if s == "" then 0 else (if s[|s| - 1] == c then 1 else 0) + Count(s[..|s| - 1], c)
  }

  lemma {:induction false} CountNone(s: string, c: char)
    requires c !in s
    ensures Count(s, c) == 0
  {
    if s != "" { CountNone(s[..|s| - 1], c); }
  }

  // ---- slices of concatenations -----------------------------------------------------------------

  lemma Parts2<T>(a: seq<T>, b: seq<T>)
    ensures (a + b)[|a|..] == b && (a + b)[..|a|] == a
  {
  }

  lemma Parts3<T>(a: seq<T>, b: seq<T>, c: seq<T>)
    ensures var s := a + b + c;
            && s == a + (b + c) && |s| == |a| + |b| + |c|
            && s[|a|..] == b + c && s[|a + b|..] == c && s[|a|..|a + b|] == b && s[..|a + b|] == a + b
  {
  }

  lemma InitAndLast<T>(s: seq<T>)
    requires s != []
    ensures s == s[..|s| - 1] + [s[|s| - 1]]
  {
  }
}
