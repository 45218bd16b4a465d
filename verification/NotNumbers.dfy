// Texts that string->number refuses, and texts of inexact numbers (src/runtime/number.c:454-763).
module NotNumbers {
  import opened Rational
  import opened Digits
  import opened NumberText
  import opened NumberRoundTrip
  import opened Radixes
  import Decimals

  // ---- what is refused --------------------------------------------------------------------------

  /** Exponent markers. */
  lemma Markers(c: char)
    ensures IsMarker(c) <==> c in "esfdl"
    ensures IsSign(c) <==> c in "+-"
    ensures IsPointOrPound(c) <==> c in "#."
  {
  }

  /** A number starts with a digit, a sign, a prefix, or the point of a decimal. */
  lemma NoStart(c: char, t: string, radix: int)
    requires !IsDigit(c, radix) && !IsSign(c) && c != '#'
    ensures Ston([c] + t, radix) == NotANumber
    ensures Ston("", radix) == NotANumber
  {
    hide OnePass;
    var s := [c] + t;
    assert s[0..] == s && ""[0..] == "";
    RefusedStart(s, radix, true, true);
    RefusedStart("", radix, true, true);
  }

  lemma RefusedStart(s: string, radix: int, allowre: bool, allowim: bool)
    requires s == "" || (!IsDigit(s[0], radix) && !IsSign(s[0]))
    ensures OnePass(s, radix, Either, allowre, allowim) == Refused
  {
    SpanIs(s[0..], DigitTest(radix), 0) by { assert s[0..] == s; }
    assert DigitsEnd(s, radix) == 0;
  }

  /** A sign alone is no number. */
  lemma SignAlone(c: char, radix: int)
    requires IsSign(c)
    ensures Ston([c], radix) == NotANumber
  {
    var s := [c];
    assert s[0..] == s && s[1..] == "";
    assert ScanReal(s, radix) == BadScan;
  }

  /** What the pass over an integer yields, with something behind it. */
  lemma IntegerBefore(sign: string, digits: string, rest: string, radix: nat)
    requires IsSignText(sign) && digits != "" && AllDigits(digits, radix) && 2 <= radix <= 62
    requires EndsReal(At(rest, 0), radix) && At(rest, 0) != '/' && At(rest, 0) != 'i'
    ensures var p := OnePass(sign + digits + rest, radix, Either, true, true);
            p.Piece? && !p.imaginary && p.length == |sign + digits|
    ensures OnePass(sign + digits + rest, radix, Either, false, true) == Refused
  {
    hide ScanReal, OfRatio, ValueOf, StripPlus, ParseInt;
    ScanInRadix(sign, digits, rest, radix);
    ParseInRadix(sign, digits, radix);
    AtAppended(sign + digits, rest);
  }

  lemma NumberStart(sign: string, digits: string, rest: string, radix: nat)
    requires IsSignText(sign) && digits != "" && AllDigits(digits, radix) && 2 <= radix <= 62
    ensures var s := sign + digits + rest;
            s != "" && At(s, 0) != '#' && s[|sign + digits|..] == rest
            && Ston(s, radix) == Pieces(s, radix, Either, true, true, ZERO_PART, ZERO_PART)
  {
    hide Pieces;
    var s := sign + digits + rest;
    DigitsThenEnd(digits, "", radix);
    assert s[0] == if sign == "" then digits[0] else sign[0];
    assert s[0..] == s;
  }

  /** An integer with anything behind it that cannot go on is no number. */
  lemma JunkBehind(sign: string, digits: string, c: char, t: string, radix: nat)
    requires IsSignText(sign) && digits != "" && AllDigits(digits, radix) && 2 <= radix <= 62
    requires EndsReal(c, radix) && c != '/' && c != 'i' && !IsSign(c)
    ensures Ston(sign + digits + ([c] + t), radix) == NotANumber
  {
    hide OnePass;
    var rest := [c] + t;
    assert At(rest, 0) == c;
    IntegerBefore(sign, digits, rest, radix);
    NumberStart(sign, digits, rest, radix);
    RefusedStart(rest, radix, false, true);
  }

  /** Two reals one behind the other are no number. */
  lemma TwoReals(sign: string, m: string, sign': string, n: string, radix: nat)
    requires IsSignText(sign) && IsSignText(sign') && sign' != "" && 2 <= radix <= 62
    requires m != "" && AllDigits(m, radix) && n != "" && AllDigits(n, radix)
    ensures Ston(sign + m + (sign' + n), radix) == NotANumber
  {
    hide OnePass;
    var rest := sign' + n;
    SignEnds(sign', n, radix);
    IntegerBefore(sign, m, rest, radix);
    NumberStart(sign, m, rest, radix);
    IntegerBefore(sign', n, "", radix);
    assert sign' + n + "" == rest;
  }

  lemma SignEnds(sign: string, n: string, radix: nat)
    requires IsSignText(sign) && sign != ""
    ensures EndsReal(At(sign + n, 0), radix) && At(sign + n, 0) != '/' && At(sign + n, 0) != 'i'
    ensures EndsReal(At("", 0), radix) && At("", 0) != '/' && At("", 0) != 'i'
  {
  }

  /** The imaginary part needs its sign. */
  lemma UnsignedImaginary(digits: string, radix: nat)
    requires digits != "" && AllDigits(digits, radix) && 2 <= radix <= 62
    ensures Ston(digits + "i", radix) == NotANumber
  {
    hide ScanReal, OfRatio, ValueOf, StripPlus, ParseInt;
    assert EndsReal('i', radix) && At("i", 0) == 'i';
    ScanInRadix("", digits, "i", radix);
    ParseInRadix("", digits, radix);
    AtAppended(digits, "i");
    NumberStart("", digits, "i", radix);
    assert "" + digits == digits && "" + digits + "i" == digits + "i";
  }

  /** A denominator has no sign. */
  lemma SignedDenominator(sign: string, n: string, sign': string, d: string, radix: nat)
    requires IsSignText(sign) && IsSignText(sign') && sign' != "" && 2 <= radix <= 62
    requires n != "" && AllDigits(n, radix) && d != "" && AllDigits(d, radix)
    ensures Ston(sign + n + ("/" + (sign' + d)), radix) == NotANumber
  {
    hide ScanReal, Pieces;
    var rest := "/" + (sign' + d);
    var s, k := sign + n + rest, |sign + n|;
    assert At(rest, 0) == '/';
    ScanInRadix(sign, n, rest, radix);
    ScanInRadix(sign', d, "", radix);
    assert sign' + d + "" == sign' + d && s[k + 1..] == sign' + d;
    AtAppended(sign + n, rest);
    assert OnePass(s, radix, Either, true, true) == Refused;
    NumberStart(sign, n, rest, radix);
    OnePieceRead(s, radix, Either);
    RefusedRead(s, radix);
  }

  lemma RefusedRead(s: string, radix: int)
    requires OnePass(s, radix, Either, true, true) == Refused
    ensures Pieces(s, radix, Either, true, true, ZERO_PART, ZERO_PART) == NotANumber
  {
    hide OnePass;
  }

  // ---- inexact numbers --------------------------------------------------------------------------

  /** Without #e a decimal literal is inexact. */
  lemma DecimalIsInexact(l: Decimals.Literal, point: bool, whole: string, fraction: string)
    requires Decimals.WellFormed(l) && Decimals.Splits(l, point, whole, fraction) && (point || l.marker != "")
    ensures Ston(Decimals.Text(l), 10) == Parsed(InexactPart, ZERO_PART)
  {
    hide ScanReal, Pieces;
    var s := Decimals.Text(l);
    Decimals.ScanLiteral(l, point, whole, fraction);
    Decimals.ScanLength(l);
    assert OnePass(s, 10, Either, true, true) == Piece(false, InexactPart, |s|);
    OnePieceRead(s, 10, Either);
    assert At(s, 0) != '#' by { assert s[0] == if l.sign == "" then l.digits[0] else l.sign[0]; }
    NoPrefix(s);
  }
}
