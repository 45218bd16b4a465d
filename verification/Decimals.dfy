// Exact decimal literals such as #e-12.5e3 (src/runtime/number.c:488-517, 541-601, 705-713).
module Decimals {
  import opened Wrappers
  import opened Rational
  import opened Tower
  import opened Digits
  import opened NumberText
  import opened NumberRoundTrip

  // ---- the shape of a literal -------------------------------------------------------------------

  /** A sign, digits with perhaps a point, # for trailing digits, perhaps an exponent. */
  datatype Literal = Literal(sign: string, digits: string, pounds: string,
                             marker: string, exSign: string, exDigits: string)

  function ExponentText(l: Literal): string { l.marker + l.exSign + l.exDigits }

  function Text(l: Literal): string { l.sign + l.digits + l.pounds + ExponentText(l) }

  predicate IsDecimalOrPoint(c: char) { IsDecimal(c) || c == '.' }

  /** A decimal, not an integer: it has a point or an exponent. Pound signs end the digits. */
  predicate WellFormed(l: Literal) {
    && IsSignText(l.sign)
    && l.digits != "" && l.digits != "." && (forall i :: 0 <= i < |l.digits| ==> IsDecimalOrPoint(l.digits[i]))
    && (forall i :: 0 <= i < |l.pounds| ==> IsPointOrPound(l.pounds[i])) && At(l.pounds, 0) != '.'
    && (if l.marker == "" then l.exSign == l.exDigits == ""
        else
          && |l.marker| == 1 && IsMarker(l.marker[0])
          && IsSignText(l.exSign) && AllDecimal(l.exDigits) && l.exSign + l.exDigits != "")
  }

  /** The digits before and after the point, # read as 0. */
  predicate Splits(l: Literal, point: bool, whole: string, fraction: string) {
    && AllDecimal(whole) && AllDecimal(fraction) && (!point ==> fraction == "")
    && l.digits + Unpound(l.pounds) == whole + if point then "." + fraction else ""
  }

  // ---- scanning ---------------------------------------------------------------------------------

  lemma {:induction false} CountConcat(s: string, t: string, c: char)
    ensures Count(s + t, c) == Count(s, c) + Count(t, c)
  {
    if t == "" {
      assert s + t == s;
    } else {
      CountConcat(s, t[..|t| - 1], c);
      assert (s + t)[..|s + t| - 1] == s + t[..|t| - 1];
    }
  }

  lemma {:induction false} CountUnpound(s: string)
    ensures Count(Unpound(s), '.') == Count(s, '.')
  {
    if s != "" {
      CountUnpound(s[..|s| - 1]);
      assert Unpound(s)[..|s| - 1] == Unpound(s[..|s| - 1]);
    }
  }

  lemma PointCount(l: Literal, point: bool, whole: string, fraction: string)
    requires Splits(l, point, whole, fraction)
    ensures Count(l.digits, '.') + Count(l.pounds, '.') == if point then 1 else 0
  {
    CountConcat(l.digits, Unpound(l.pounds), '.');
    CountUnpound(l.pounds);
    CountNone(whole, '.');
    CountNone(fraction, '.');
    if point {
      CountConcat(whole, "." + fraction, '.');
      CountConcat(".", fraction, '.');
      assert Count(".", '.') == 1 by { assert "."[..0] == ""; }
    } else {
      CountConcat(whole, "", '.');
    }
  }

  lemma ExponentScans(l: Literal)
    requires WellFormed(l)
    ensures ExponentLength(ExponentText(l)) == Some(|ExponentText(l)|)
    ensures MarkExponent(ExponentText(l)) == if l.marker == "" then "" else "@" + l.exSign + l.exDigits
  {
    if l.marker != "" {
      if l.exDigits == "" {
        SignScans(l.marker, l.exSign);
        assert ExponentText(l) == l.marker + l.exSign && "@" + l.exSign + l.exDigits == "@" + l.exSign;
      } else {
        MarkerScans(l.marker, l.exSign, l.exDigits);
      }
    }
  }

  lemma MarkerScans(marker: string, sign: string, digits: string)
    requires |marker| == 1 && IsMarker(marker[0]) && IsSignText(sign) && digits != "" && AllDecimal(digits)
    ensures var s := marker + sign + digits; ExponentLength(s) == Some(|s|) && MarkExponent(s) == "@" + sign + digits
  {
    hide Span, SignLength;
    var s := marker + sign + digits;
    SignedStart(sign, digits, "");
    assert sign + digits + "" == sign + digits;
    Parts3(marker, sign, digits);
    SpanIs(digits, IsDecimal, |digits|);
  }

  lemma SignScans(marker: string, sign: string)
    requires |marker| == 1 && IsMarker(marker[0]) && (sign == "+" || sign == "-")
    ensures var s := marker + sign; ExponentLength(s) == Some(|s|) && MarkExponent(s) == "@" + sign
  {
    var s := marker + sign;
    Parts2(marker, sign);
    assert s[1..] == sign && s[1 + 1..] == "";
  }

  lemma ScanLiteral(l: Literal, point: bool, whole: string, fraction: string)
    requires WellFormed(l) && Splits(l, point, whole, fraction) && (point || l.marker != "")
    ensures var r := ScanReal(Text(l), 10);
            && r.Scan? && r.decimal && r.signed == (l.sign != "") && !r.iunit
            && r.text == l.sign + l.digits + Unpound(l.pounds) + MarkExponent(ExponentText(l))
  {
    hide ScanFrom, Span, ExponentText, Text, MarkExponent, Unpound;
    var s := Text(l);
    LiteralSpans(l);
    ScanLiteralFrom(l, point, whole, fraction);
  }

  lemma LiteralSpans(l: Literal)
    requires WellFormed(l)
    ensures var s := Text(l);
            && SignLength(s) == |l.sign|
            && Span(s[|l.sign|..], DigitTest(10)) == |l.digits|
            && Span(s[|l.sign + l.digits|..], IsPointOrPound) == |l.pounds|
  {
    hide Span, ExponentText, IsDigit;
    LiteralEnds(l);
    LiteralTails(l);
    SpanIs(l.digits + (l.pounds + ExponentText(l)), DigitTest(10), |l.digits|);
    SpanIs(l.pounds + ExponentText(l), IsPointOrPound, |l.pounds|);
  }

  lemma LiteralTails(l: Literal)
    ensures var s := Text(l);
            && s[|l.sign|..] == l.digits + (l.pounds + ExponentText(l))
            && s[|l.sign + l.digits|..] == l.pounds + ExponentText(l)
  {
    hide ExponentText;
    Parts3(l.sign, l.digits, l.pounds + ExponentText(l));
    assert Text(l) == l.sign + l.digits + (l.pounds + ExponentText(l));
  }

  lemma LiteralEnds(l: Literal)
    requires WellFormed(l)
    ensures !IsPointOrPound(At(ExponentText(l), 0)) && !IsDigit(At(ExponentText(l), 0), 10)
    ensures !IsDigit(At(l.pounds + ExponentText(l), 0), 10)
  {
    if l.pounds != "" { assert IsPointOrPound(l.pounds[0]); }
  }

  lemma ScanLiteralFrom(l: Literal, point: bool, whole: string, fraction: string)
    requires WellFormed(l) && Splits(l, point, whole, fraction) && (point || l.marker != "")
    ensures var r := ScanFrom(Text(l), 10, |l.sign|, |l.sign + l.digits|, |l.sign + l.digits + l.pounds|);
            && r.Scan? && r.decimal && r.signed == (l.sign != "") && !r.iunit
            && r.text == l.sign + l.digits + Unpound(l.pounds) + MarkExponent(ExponentText(l))
  {
    hide Count, ExponentLength, MarkExponent, Unpound, ExponentText, Text, Splits;
    PointCount(l, point, whole, fraction);
    ExponentScans(l);
    LiteralSlices(l);
  }

  lemma LiteralSlices(l: Literal)
    requires WellFormed(l)
    ensures var s, n, k, m := Text(l), |l.sign|, |l.sign + l.digits|, |l.sign + l.digits + l.pounds|;
            && m + |ExponentText(l)| == |s|
            && s[n..k] == l.digits && s[k..m] == l.pounds && s[m..] == ExponentText(l) && s[..k] == l.sign + l.digits
            && s[m..m + |ExponentText(l)|] == ExponentText(l)
            && (At(s, k) == 'i' ==> n < k) && At(s, m) == At(ExponentText(l), 0)
  {
    hide ExponentText;
    Parts3(l.sign, l.digits, l.pounds + ExponentText(l));
    Parts3(l.sign + l.digits, l.pounds, ExponentText(l));
  }

  // ---- values -----------------------------------------------------------------------------------

  /** The exponent that takes effect: none when the point has no digit (or #) after it. */
  function EffectiveExponent(l: Literal, point: bool, fraction: string): int
    requires WellFormed(l)
  {
    if l.marker == "" || (point && fraction == "") then 0
    else DecimalDigits(l.exDigits); Negate(l.exSign == "-", ValueOf(l.exDigits, 10))
  }

  /** At most four characters of exponent, and less than 256. */
  predicate InRange(l: Literal, point: bool, fraction: string)
    requires WellFormed(l)
  {
    l.marker == "" || (point && fraction == "") ||
    (|l.exSign + l.exDigits| < 5 && EffectiveExponent(l, point, fraction) < 256)
  }

  lemma ExponentParses(sign: string, digits: string)
    requires IsSignText(sign) && digits != "" && AllDecimal(digits) && AllDigits(digits, 10)
    ensures ParseExponent(sign + digits) == (|sign + digits|, Negate(sign == "-", ValueOf(digits, 10)))
  {
    hide ValueOf;
    var s := sign + digits;
    assert IsDecimal(digits[0]);
    assert SignLength(s) == |sign|;
    assert s[|sign|..] == digits;
    SpanIs(digits, IsDecimal, |digits|);
    assert s[|sign|..|sign| + |digits|] == digits;
    assert At(s, 0) == '-' <==> sign == "-";
  }

  lemma FractionParses(fraction: string, mark: string)
    requires AllDecimal(fraction) && !IsDecimal(At(mark, 0))
    ensures FractionOf("." + fraction + mark) ==
            if fraction == "" then ("", "." + fraction + mark) else (fraction, mark)
  {
    var t := "." + fraction + mark;
    assert t == ['.'] + (fraction + mark);
    assert t[1..] == fraction + mark;
    SpanIs(fraction + mark, IsDecimal, |fraction|);
    assert t[1..1 + |fraction|] == fraction;
    assert t[1 + |fraction|..] == mark;
  }

  function Unsigned(point: bool, whole: string, fraction: string, mark: string): string {
    whole + if point then "." + fraction + mark else mark
  }

  /** _lsrt_mpq_set_decimal behind the sign. */
  lemma DecimalParses(negative: bool, point: bool, whole: string, fraction: string, mark: string)
    requires AllDecimal(whole) && AllDecimal(fraction) && (!point ==> fraction == "")
    requires AllDigits(whole, 10) && AllDigits(fraction, 10) && (mark == "" || mark[0] == '@')
    ensures var body := Unsigned(point, whole, fraction, mark);
            var (width, ex) := if point && fraction == "" then (0, 0) else ExponentOf(mark);
            UnsignedDecimal(negative, body) ==
              if width >= 5 || ex >= 256 then OutOfRange
              else Scaled(Negate(negative, ValueOf(fraction, 10) + ValueOf(whole, 10) * Pow(10, |fraction|)),
                          |fraction|, ex)
  {
    hide ParseExponent, Scaled, ValueOf, Pow, FractionOf, UnsignedDecimal, ExponentOf, Span;
    var tail := if point then "." + fraction + mark else mark;
    var body := whole + tail;
    SpanIs(body, IsDecimal, |whole|);
    assert body[|whole|..] == tail && body[..|whole|] == whole;
    UnsignedParses(negative, body, whole);
    if point {
      FractionParses(fraction, mark);
      if fraction == "" { NoExponent("." + fraction + mark); }
    } else {
      NoFraction(mark);
    }
  }

  lemma NoExponent(t: string)
    requires At(t, 0) == '.'
    ensures ExponentOf(t) == (0, 0)
  {
  }

  lemma UnsignedParses(negative: bool, t: string, whole: string)
    requires Span(t, IsDecimal) == |whole| && t[..|whole|] == whole && AllDigits(whole, 10)
    ensures var (fraction, rest) := FractionOf(t[|whole|..]);
            var (width, ex) := ExponentOf(rest);
            && AllDigits(fraction, 10)
            && UnsignedDecimal(negative, t) ==
               if width >= 5 || ex >= 256 then OutOfRange
               else Scaled(Negate(negative, ValueOf(fraction, 10) + ValueOf(whole, 10) * Pow(10, |fraction|)),
                          |fraction|, ex)
  {
    hide ParseExponent, Scaled, ValueOf, Pow, FractionOf, ExponentOf, Span;
    DecimalDigits(FractionOf(t[|whole|..]).0);
  }

  lemma NoFraction(mark: string)
    requires mark == "" || mark[0] == '@'
    ensures FractionOf(mark) == ("", mark)
  {
  }

  // ---- meaning ----------------------------------------------------------------------------------

  function Pow10(ex: int): (r: real)
    ensures r > 0.0
  {
    PowPositive(10, Abs(ex));
    if ex >= 0 then Pow(10, ex) as real else 1.0 / Pow(10, -ex) as real
  }

  /** sign * (whole + fraction / 10^k) * 10^ex */
  function Meaning(negative: bool, whole: string, fraction: string, ex: int): real
    requires AllDigits(whole, 10) && AllDigits(fraction, 10)
  {
    Mixed(if negative then -1.0 else 1.0, ValueOf(whole, 10) as real, ValueOf(fraction, 10) as real,
          Pow10(|fraction|), Pow10(ex))
  }

  function Mixed(sign: real, whole: real, fraction: real, unit: real, power: real): real
    requires unit > 0.0
  {
    sign * (whole + fraction / unit) * power
  }

  lemma ScaledValue(num: int, k: nat, ex: int)
    ensures var r := Scaled(num, k, ex); r.num as real / r.den as real == num as real / Pow10(k) * Pow10(ex)
  {
    if ex >= 0 { ScaledUp(num, k, ex); } else { ScaledDown(num, k, ex); }
  }

  lemma ScaledUp(num: int, k: nat, ex: nat)
    ensures var r := Scaled(num, k, ex); r.num as real / r.den as real == num as real / Pow10(k) * Pow10(ex)
  {
    hide Pow;
    PowPositive(10, k);
    ProductAsReal(num, Pow(10, ex));
    var a, p, q := num as real, Pow(10, k) as real, Pow(10, ex) as real;
    ScaleUp(a, p, q);
    var r := Scaled(num, k, ex);
    assert r.num as real == a * q && r.den as real == p;
    assert Pow10(k) == p && Pow10(ex) == q;
  }

  lemma ScaledDown(num: int, k: nat, ex: int)
    requires ex < 0
    ensures var r := Scaled(num, k, ex); r.num as real / r.den as real == num as real / Pow10(k) * Pow10(ex)
  {
    hide Pow;
    PowPositive(10, k);
    PowPositive(10, -ex);
    ProductAsReal(Pow(10, k), Pow(10, -ex));
    var a, p, q := num as real, Pow(10, k) as real, Pow(10, -ex) as real;
    ScaleDown(a, p, q);
    var r := Scaled(num, k, ex);
    assert r.num as real == a && r.den as real == p * q;
    assert Pow10(k) == p && Pow10(ex) == 1.0 / q;
  }

  lemma ScaleUp(a: real, p: real, q: real)
    requires p > 0.0
    ensures (a * q) / p == a / p * q
  {
  }

  lemma ScaleDown(a: real, p: real, q: real)
    requires p > 0.0 && q > 0.0
    ensures p * q > 0.0 && a / (p * q) == a / p * (1.0 / q)
  {
    RealProduct(a, p, 1.0, q);
  }

  lemma MixedValue(negative: bool, w: nat, f: nat, p: nat)
    requires p > 0
    ensures Negate(negative, f + w * p) as real / p as real ==
            (if negative then -1.0 else 1.0) * (w as real + f as real / p as real)
  {
    ProductAsReal(w, p);
    var x := f as real / p as real;
    assert x * p as real == f as real;
    assert (w as real + x) * p as real == (f + w * p) as real;
    Divided((w as real + x), (f + w * p) as real, p as real);
  }

  lemma Divided(x: real, y: real, p: real)
    requires p > 0.0 && x * p == y
    ensures y / p == x && -y / p == -x
  {
  }

  lemma DecimalMeaning(negative: bool, whole: string, fraction: string, ex: int)
    requires AllDigits(whole, 10) && AllDigits(fraction, 10)
    ensures var r := Scaled(Negate(negative, ValueOf(fraction, 10) + ValueOf(whole, 10) * Pow(10, |fraction|)),
                          |fraction|, ex);
            r.num as real / r.den as real == Meaning(negative, whole, fraction, ex)
  {
    hide Scaled, ValueOf, Pow, Pow10, Negate;
    var k := |fraction|;
    PowPositive(10, k);
    Pow10OfNat(k);
    ScaledValue(Negate(negative, ValueOf(fraction, 10) + ValueOf(whole, 10) * Pow(10, k)), k, ex);
    MixedValue(negative, ValueOf(whole, 10), ValueOf(fraction, 10), Pow(10, k));
  }

  lemma Pow10OfNat(k: nat)
    ensures Pow10(k) == Pow(10, k) as real
  {
  }

  /** What the runtime reads from the scanned text. */
  lemma LiteralDecimal(l: Literal, point: bool, whole: string, fraction: string)
    requires WellFormed(l) && Splits(l, point, whole, fraction)
    requires AllDigits(whole, 10) && AllDigits(fraction, 10)
    ensures DecimalValue(StripPlus(l.sign + l.digits + Unpound(l.pounds) + MarkExponent(ExponentText(l)))) ==
            if !InRange(l, point, fraction) then OutOfRange
            else Scaled(Negate(l.sign == "-", ValueOf(fraction, 10) + ValueOf(whole, 10) * Pow(10, |fraction|)),
                        |fraction|, EffectiveExponent(l, point, fraction))
  {
    hide Scaled, ValueOf, Pow, UnsignedDecimal, Unsigned, MarkExponent, ExponentText,
         ExponentOf, Unpound, DecimalValue, StripPlus, Splits;
    var mark := MarkExponent(ExponentText(l));
    var body := Unsigned(point, whole, fraction, mark);
    LiteralMark(l);
    SplitsDigits(l, point, whole, fraction);
    DecimalParses(l.sign == "-", point, whole, fraction, mark);
    LiteralBody(l, point, whole, fraction, mark);
    NoDigits();
    SignedText(l.sign, body);
  }

  lemma NoDigits()
    ensures ValueOf("", 10) == 0
  {
  }

  lemma SplitsDigits(l: Literal, point: bool, whole: string, fraction: string)
    requires Splits(l, point, whole, fraction)
    ensures AllDecimal(whole) && AllDecimal(fraction) && (!point ==> fraction == "")
  {
  }

  lemma LiteralBody(l: Literal, point: bool, whole: string, fraction: string, mark: string)
    requires WellFormed(l) && Splits(l, point, whole, fraction)
    ensures var body := Unsigned(point, whole, fraction, mark);
            && l.sign + l.digits + Unpound(l.pounds) + mark == l.sign + body
            && body != "" && IsDecimalOrPoint(body[0])
  {
    hide Unpound;
    var body := whole + if point then "." + fraction + mark else mark;
    var digits := l.digits + Unpound(l.pounds);
    assert l.sign + l.digits + Unpound(l.pounds) + mark == l.sign + (digits + mark);
    assert digits + mark == body;
    assert body[0] == digits[0] == l.digits[0];
  }

  lemma SignedText(sign: string, body: string)
    requires IsSignText(sign) && body != "" && IsDecimalOrPoint(body[0])
    ensures DecimalValue(StripPlus(sign + body)) == UnsignedDecimal(sign == "-", body)
  {
    if sign == "" { assert sign + body == body; }
    if sign == "-" { assert (sign + body)[1..] == body; }
    if sign == "+" { assert (sign + body)[1..] == body; }
  }

  lemma LiteralMark(l: Literal)
    requires WellFormed(l)
    ensures var mark := MarkExponent(ExponentText(l));
            && (mark == "" || mark[0] == '@')
            && ExponentOf(mark) == if l.marker == "" || l.exDigits == "" then (0, 0)
               else (DecimalDigits(l.exDigits); (|l.exSign + l.exDigits|,
                                                  Negate(l.exSign == "-", ValueOf(l.exDigits, 10))))
  {
    hide ParseExponent, ValueOf, MarkExponent, ExponentText, ExponentOf;
    ExponentScans(l);
    if l.marker != "" {
      DecimalDigits(l.exDigits);
      if l.exDigits == "" {
        SignOnly(l.exSign);
        assert "@" + l.exSign + l.exDigits == "@" + l.exSign;
      } else {
        MarkedExponent(l.exSign, l.exDigits);
      }
    } else {
      assert ExponentOf("") == (0, 0) by { NoMark(); }
    }
  }

  /** sscanf finds no number in a sign alone. */
  lemma SignOnly(sign: string)
    requires sign == "+" || sign == "-"
    ensures ExponentOf("@" + sign) == (0, 0) && ("@" + sign)[0] == '@'
  {
    assert ("@" + sign)[1..] == sign && sign[1..] == "";
  }

  lemma NoMark()
    ensures ExponentOf("") == (0, 0)
  {
  }

  lemma MarkedExponent(sign: string, digits: string)
    requires IsSignText(sign) && digits != "" && AllDecimal(digits) && AllDigits(digits, 10)
    ensures ExponentOf("@" + sign + digits) == (|sign + digits|, Negate(sign == "-", ValueOf(digits, 10)))
    ensures ("@" + sign + digits)[0] == '@'
  {
    hide ParseExponent, ValueOf;
    ExponentParses(sign, digits);
    assert ("@" + sign + digits)[1..] == sign + digits;
  }

  /** An exact decimal is the number its digits say, with the exponent that takes effect; an
      exponent out of range stops the process. */
  lemma ExactDecimal(l: Literal, point: bool, whole: string, fraction: string)
    requires WellFormed(l) && Splits(l, point, whole, fraction) && (point || l.marker != "")
    ensures AllDigits(whole, 10) && AllDigits(fraction, 10)
    ensures var r := Ston("#e" + Text(l), 10);
            if !InRange(l, point, fraction) then r == Aborted
            else
              && r.Parsed? && r.im == ZERO_PART && r.re.ExactPart? && Canonical(r.re.x)
              && Value(r.re.x) == Meaning(l.sign == "-", whole, fraction, EffectiveExponent(l, point, fraction))
  {
    hide OnePass, OfRatio, DecimalValue, StripPlus, Scaled, Meaning, Text, Pieces, Ston, Canonical, Value;
    hide WellFormed, MarkExponent, ExponentText;
    DecimalDigits(whole);
    DecimalDigits(fraction);
    LiteralPass(l, point, whole, fraction);
    LiteralDecimal(l, point, whole, fraction);
    DecimalMeaning(l.sign == "-", whole, fraction, EffectiveExponent(l, point, fraction));
    ExactPrefix(l);
    OnePiece(Text(l), AskedExact);
  }

  lemma OnePiece(s: string, exactness: Exactness)
    ensures var p := OnePass(s, 10, exactness, true, true);
            && (p.Stopped? ==> Pieces(s, 10, exactness, true, true, ZERO_PART, ZERO_PART) == Aborted)
            && (p.Piece? && !p.imaginary && p.length == |s| ==>
                Pieces(s, 10, exactness, true, true, ZERO_PART, ZERO_PART) == Parsed(p.part, ZERO_PART))
  {
    hide OnePass;
    assert s[|s|..] == "";
  }

  lemma LiteralPass(l: Literal, point: bool, whole: string, fraction: string)
    requires WellFormed(l) && Splits(l, point, whole, fraction) && (point || l.marker != "")
    ensures var text := l.sign + l.digits + Unpound(l.pounds) + MarkExponent(ExponentText(l));
            OnePass(Text(l), 10, AskedExact, true, true) ==
            match DecimalValue(StripPlus(text))
            case OutOfRange => Stopped
            case Fraction(n, d) => Piece(false, ExactPart(OfRatio(n, d)), |Text(l)|)
  {
    hide ScanReal, OfRatio, DecimalValue, StripPlus, Text, ExponentText, MarkExponent;
    ScanLiteral(l, point, whole, fraction);
    ScanLength(l);
  }

  lemma ScanLength(l: Literal)
    requires WellFormed(l)
    ensures |Text(l)| == |l.sign + l.digits + Unpound(l.pounds) + MarkExponent(ExponentText(l))|
  {
  }

  lemma ExactPrefix(l: Literal)
    requires WellFormed(l)
    ensures Ston("#e" + Text(l), 10) == Pieces(Text(l), 10, AskedExact, true, true, ZERO_PART, ZERO_PART)
  {
    hide Pieces;
    var s := "#e" + Text(l);
    assert s[2..] == Text(l);
    assert IsDecimalOrPoint(l.digits[0]);
    assert At(Text(l), 0) != '#' by { assert Text(l)[0] == if l.sign == "" then l.digits[0] else l.sign[0]; }
    assert ReadPrefix(Text(l), None, AskedExact) == Prefix(None, AskedExact, 0);
  }

  lemma {:induction false} Pow10Grows(n: nat)
    ensures Pow(10, n) >= 1 && (n > 0 ==> Pow(10, n) > 1)
  {
    if n > 0 { Pow10Grows(n - 1); }
  }

  lemma Pow10One(ex: int)
    ensures Pow10(ex) == 1.0 <==> ex == 0
  {
    Pow10Grows(Abs(ex));
    if ex < 0 {
      var p := Pow(10, -ex) as real;
      assert p > 1.0 && 1.0 / p < 1.0;
    }
  }

  /** #e1.5 is 3/2, and #e-12.5e-1 is -5/4. */
  lemma DecimalExamples()
    ensures Ston("#e1.5", 10) == Parsed(ExactPart(Rat(3, 2)), ZERO_PART)
    ensures Ston("#e-12.5e-1", 10) == Parsed(ExactPart(Rat(-5, 4)), ZERO_PART)
  {
    hide Ston, Meaning, ValueOf, Canonical, WellFormed, Splits, EffectiveExponent;
    ExampleMeanings();
    var l, m := Literal("", "1.5", "", "", "", ""), Literal("-", "12.5", "", "e", "-", "1");
    FirstShape(l);
    SecondShape(m);
    ReadsAs(l, "1", "5", Rat(3, 2));
    ReadsAs(m, "12", "5", Rat(-5, 4));
  }

  lemma ReadsAs(l: Literal, whole: string, fraction: string, x: Exact)
    requires WellFormed(l) && Splits(l, true, whole, fraction) && InRange(l, true, fraction) && Canonical(x)
    requires AllDigits(whole, 10) && AllDigits(fraction, 10)
    requires Value(x) == Meaning(l.sign == "-", whole, fraction, EffectiveExponent(l, true, fraction))
    ensures Ston("#e" + Text(l), 10) == Parsed(ExactPart(x), ZERO_PART)
  {
    hide Ston, Meaning, Canonical, WellFormed, Splits, EffectiveExponent, InRange, Text, Value;
    ExactDecimal(l, true, whole, fraction);
    CanonicalUnique(Ston("#e" + Text(l), 10).re.x, x);
  }

  lemma FirstShape(l: Literal)
    requires l == Literal("", "1.5", "", "", "", "")
    ensures WellFormed(l) && Splits(l, true, "1", "5") && "#e" + Text(l) == "#e1.5"
    ensures EffectiveExponent(l, true, "5") == 0 && InRange(l, true, "5")
  {
    assert l.digits + Unpound(l.pounds) == "1" + ("." + "5");
  }

  lemma SecondShape(l: Literal)
    requires l == Literal("-", "12.5", "", "e", "-", "1")
    ensures WellFormed(l) && Splits(l, true, "12", "5") && "#e" + Text(l) == "#e-12.5e-1"
    ensures EffectiveExponent(l, true, "5") == -1 && InRange(l, true, "5")
  {
    assert l.digits + Unpound(l.pounds) == "12" + ("." + "5");
    assert "1"[..0] == "";
  }

  lemma ExampleMeanings()
    ensures AllDigits("1", 10) && AllDigits("5", 10) && AllDigits("12", 10)
    ensures Canonical(Rat(3, 2)) && Canonical(Rat(-5, 4))
    ensures Meaning(false, "1", "5", 0) == Value(Rat(3, 2))
    ensures ValueOf("1", 10) == 1 && Meaning(true, "12", "5", -1) == Value(Rat(-5, 4))
  {
    assert "1"[..0] == "" && "5"[..0] == "" && "12"[..1] == "1";
    assert ValueOf("12", 10) == 12 && ValueOf("5", 10) == 5;
    assert Pow10(0) == 1.0 && Pow10(1) == 10.0 && Pow10(-1) == 1.0 / 10.0;
    assert Gcd(3, 2) == Gcd(2, 1) == Gcd(1, 0) && Gcd(5, 4) == Gcd(4, 1) == Gcd(1, 0);
  }

  /** Exponents go up to 255, and have four characters at most. */
  lemma ExponentRange()
    ensures Ston("#e1e256", 10) == Aborted && Ston("#e1e00001", 10) == Aborted && Ston("#e1e255", 10).Parsed?
  {
    hide Ston, Meaning, ValueOf;
    OneTo("256");
    OneTo("00001");
    OneTo("255");
    assert "#e1e" + "256" == "#e1e256" && "#e1e" + "00001" == "#e1e00001" && "#e1e" + "255" == "#e1e255";
    assert ValueOf("256", 10) == 256 && ValueOf("255", 10) == 255 by { RangeValues(); }
  }

  lemma RangeValues()
    ensures ValueOf("256", 10) == 256 && ValueOf("255", 10) == 255
  {
    assert "256"[..2] == "25" && "255"[..2] == "25" && "25"[..1] == "2" && "2"[..0] == "";
  }

  lemma OneTo(digits: string)
    requires digits != "" && AllDecimal(digits)
    ensures AllDigits(digits, 10)
    ensures var r := Ston("#e1e" + digits, 10);
            if |digits| < 5 && ValueOf(digits, 10) < 256 then r.Parsed? else r == Aborted
  {
    hide Ston, Meaning, ValueOf;
    var l := Literal("", "1", "", "e", "", digits);
    assert Text(l) == "1e" + digits && "#e" + Text(l) == "#e1e" + digits;
    assert l.digits + Unpound(l.pounds) == "1" + "";
    DecimalDigits(digits);
    ExactDecimal(l, false, "1", "");
  }

  /** #e5.e3 is 5. */
  lemma ExponentLost()
    ensures Ston("#e5.e3", 10) == Parsed(ExactPart(Small(5)), ZERO_PART)
  {
    hide Ston, Meaning, ValueOf, Canonical;
    var l := Literal("", "5.", "", "e", "", "3");
    assert Text(l) == "5.e3" && "#e" + Text(l) == "#e5.e3";
    assert Unpound("") == "" && l.digits + Unpound(l.pounds) == "5" + ("." + "");
    ExactDecimal(l, true, "5", "");
    FiveMeans();
    CanonicalUnique(Ston("#e5.e3", 10).re.x, Small(5));
  }

  lemma FiveMeans()
    ensures AllDigits("5", 10) && AllDigits("", 10) && Meaning(false, "5", "", 0) == 5.0
    ensures Canonical(Small(5)) && Value(Small(5)) == 5.0
  {
    hide Gcd;
    assert ValueOf("5", 10) == 5 by { assert "5"[..0] == ""; }
    assert Pow10(0) == 1.0;
  }

  /** The written exponent counts for what it says unless a point with nothing after it comes
      before it: `#e5.e3` is 5. */
  lemma ExponentKept(l: Literal, point: bool, whole: string, fraction: string)
    requires WellFormed(l) && Splits(l, point, whole, fraction) && l.marker != ""
    requires AllDigits(whole, 10) && AllDigits(fraction, 10) && AllDigits(l.exDigits, 10)
    ensures var written := Negate(l.exSign == "-", ValueOf(l.exDigits, 10));
            Meaning(l.sign == "-", whole, fraction, EffectiveExponent(l, point, fraction)) ==
            Meaning(l.sign == "-", whole, fraction, written)
            <==> !(point && fraction == "") || written == 0 || ValueOf(whole, 10) == 0
  {
    hide Pow10, ValueOf;
    var written := Negate(l.exSign == "-", ValueOf(l.exDigits, 10));
    if point && fraction == "" {
      Pow10One(written);
      Pow10One(0);
      WithoutFraction(l.sign == "-", whole, written);
      WithoutFraction(l.sign == "-", whole, 0);
      ScaledByOne(ValueOf(whole, 10) as real, Pow10(written));
    }
  }

  lemma NoDigitsValue()
    ensures ValueOf("", 10) == 0
  {
  }

  lemma WithoutFraction(negative: bool, whole: string, ex: int)
    requires AllDigits(whole, 10)
    ensures Meaning(negative, whole, "", ex) == Negate(negative, 1) as real * (ValueOf(whole, 10) as real * Pow10(ex))
  {
    hide Pow10, ValueOf, Mixed;
    NoDigitsValue();
    var s, w, p, q := if negative then -1.0 else 1.0, ValueOf(whole, 10) as real, Pow10(ex), Pow10(0);
    assert Meaning(negative, whole, "", ex) == Mixed(s, w, 0.0, q, p);
    assert Negate(negative, 1) as real == s;
    Unmixed(s, w, q, p);
  }

  lemma Unmixed(s: real, w: real, q: real, p: real)
    requires q > 0.0
    ensures Mixed(s, w, 0.0, q, p) == s * (w * p)
  {
    assert 0.0 / q == 0.0;
    assert s * w * p == s * (w * p);
  }

  lemma ScaledByOne(w: real, p: real)
    ensures w * p == w <==> w == 0.0 || p == 1.0
  {
    if w != 0.0 { assert (w * p) / w == p; }
  }
}
