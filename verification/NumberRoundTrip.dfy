// Printing an exact number and reading the text back (src/runtime/number.c:603-874), and the
// compile-time shortcut for literals (src/codegen.cc:48-70).
module NumberRoundTrip {
  import opened Wrappers
  import opened Rational
  import opened Complex
  import opened Digits
  import opened NumberText

  // ---- printing ---------------------------------------------------------------------------------

  function MagnitudeText(x: Exact): string
    requires x.Rat? ==> x.den > 0
  {
    NatText(Abs(Num(x))) + if x.Rat? then "/" + NatText(x.den) else ""
  }

  /** %d, %Zd or %Qd, and the same with %+. */
  function RealText(x: Exact): string
    requires x.Rat? ==> x.den > 0
  {
    (if Num(x) < 0 then "-" else "") + MagnitudeText(x)
  }

  function SignedRealText(x: Exact): string
    requires x.Rat? ==> x.den > 0
  {
    (if Num(x) < 0 then "-" else "+") + MagnitudeText(x)
  }

  /** _ntos: a zero real part is left out, and so is the 1 of a unit imaginary part. */
  function Ntos(p: Parts): string
    requires CanonicalParts(p)
  {
    if p.im == Small(0) then RealText(p.re)
    else
      (if p.re == Small(0) then "" else RealText(p.re)) +
      if p.im == Small(1) then "+i"
      else if p.im == Small(-1) then "-i"
      else SignedRealText(p.im) + "i"
  }

  lemma SmallTexts()
    ensures NatText(1) == "1" && NatText(2) == "2" && NatText(3) == "3" && NatText(4) == "4" && NatText(7) == "7"
    ensures NatText(50) == "50"
  {
    assert NatText(50) == NatText(5) + [DecimalDigit(0)];
  }

  lemma LowestTerms()
    ensures Canonical(Rat(-7, 2)) && Canonical(Rat(1, 2))
  {
    assert Gcd(7, 2) == Gcd(2, 1) == Gcd(1, 0) && Gcd(1, 2) == Gcd(2, 1);
  }

  /** 50, -7/2, -i, 3+i and 1/2-4i are printed so. */
  lemma PrintedExamples()
    ensures Ntos(Parts(Small(50), Small(0))) == "50"
    ensures Ntos(Parts(Small(0), Small(-1))) == "-i" && Ntos(Parts(Small(3), Small(1))) == "3+i"
    ensures var p := Parts(Rat(-7, 2), Small(0)); CanonicalParts(p) && Ntos(p) == "-7/2"
    ensures var p := Parts(Rat(1, 2), Small(-4)); CanonicalParts(p) && Ntos(p) == "1/2-4i"
  {
    hide NatText, Gcd;
    SmallTexts();
    LowestTerms();
  }

  // ---- scanning what was printed ----------------------------------------------------------------

  predicate Stops(c: char) { !IsDigit(c, 10) && c != '#' && !IsMarker(c) }

  predicate IsSignText(sign: string) { sign == "" || sign == "+" || sign == "-" }

  lemma ScanPlain(sign: string, digits: string, rest: string)
    requires IsSignText(sign) && digits != "" && AllDecimal(digits) && Stops(At(rest, 0))
    ensures ScanReal(sign + digits + rest, 10) == Scan(sign != "", false, false, false, sign + digits)
  {
    hide ScanFrom, Span, SignLength, At;
    SignedStart(sign, digits, rest);
    Parts3(sign, digits, rest);
    DigitsThen(digits, rest);
    ScanFromPlain(sign, digits, rest, 10);
  }

  lemma SignedStart(sign: string, digits: string, rest: string)
    requires IsSignText(sign) && digits != "" && AllDecimal(digits)
    ensures SignLength(sign + digits + rest) == |sign|
  {
    assert IsDecimal(digits[0]);
  }

  lemma DigitsThen(digits: string, rest: string)
    requires AllDecimal(digits) && Stops(At(rest, 0))
    ensures Span(digits + rest, DigitTest(10)) == |digits| && Span(rest, IsPointOrPound) == 0
    ensures !IsMarker(At(rest, 0))
  {
    hide Span;
    SpanIs(digits + rest, DigitTest(10), |digits|);
    SpanIs(rest, IsPointOrPound, 0);
  }

  lemma ScanFromPlain(sign: string, digits: string, rest: string, radix: int)
    requires IsSignText(sign) && '.' !in digits && !IsMarker(At(rest, 0))
    requires digits == "" ==> At(rest, 0) == 'i'
    ensures var s, k := sign + digits + rest, |sign + digits|;
            ScanFrom(s, radix, |sign|, k, k) == Scan(sign != "", digits == "", false, false, sign + digits)
  {
    var s, k := sign + digits + rest, |sign + digits|;
    assert s[|sign|..k] == digits;
    CountNone(digits, '.');
    assert s[k..k] == "" && s[k..] == rest && s[..k] == sign + digits;
    assert Unpound("") == "";
    assert At(s, k) == At(rest, 0);
  }

  lemma ScanUnit(sign: string, rest: string)
    requires sign == "+" || sign == "-"
    ensures ScanReal(sign + "i" + rest, 10) == Scan(true, true, false, false, sign)
  {
    var s := sign + "i" + rest;
    assert s[1..] == "i" + rest;
    SpanIs(s[1..], DigitTest(10), 0);
    SpanIs(s[1..], IsPointOrPound, 0);
    ScanFromPlain(sign, "", "i" + rest, 10);
    assert sign + "" + ("i" + rest) == s;
  }

  lemma ParsePlain(sign: string, digits: string)
    requires IsSignText(sign) && digits != "" && AllDecimal(digits)
    ensures AllDigits(digits, 10)
    ensures ParseInt(StripPlus(sign + digits), 10) == Some(Negate(sign == "-", ValueOf(digits, 10)))
  {
    DecimalDigits(digits);
    var text := StripPlus(sign + digits);
    assert sign == "-" ==> text[1..] == digits;
    assert sign != "-" ==> text == digits && text[0..] == digits;
  }

  lemma OfRatioIsIdentity(x: Exact)
    requires Canonical(x)
    ensures OfRatio(Num(x), Den(x)) == x
  {
    CanonicalUnique(OfRatio(Num(x), Den(x)), x);
  }

  lemma StripDigits(digits: string)
    requires digits != "" && AllDecimal(digits)
    ensures StripPlus(digits) == digits
  {
    assert IsDecimal(digits[0]);
  }

  /** What may follow a printed part. */
  predicate Ends(rest: string, sign: string) {
    rest == "" || IsSign(rest[0]) || (rest[0] == 'i' && sign != "")
  }

  lemma ReadInteger(sign: string, digits: string, rest: string, allowre: bool, allowim: bool)
    requires IsSignText(sign) && digits != "" && AllDecimal(digits) && Ends(rest, sign)
    requires if At(rest, 0) == 'i' then allowim else allowre
    ensures AllDigits(digits, 10)
    ensures var im := At(rest, 0) == 'i';
            OnePass(sign + digits + rest, 10, Either, allowre, allowim) ==
            Piece(im, ExactPart(OfRatio(Negate(sign == "-", ValueOf(digits, 10)), 1)),
                  |sign + digits| + if im then 1 else 0)
  {
    hide ScanReal, OfRatio, ParseInt, StripPlus, ValueOf;
    var text := sign + digits;
    ScanPlain(sign, digits, rest);
    assert At(text + rest, |text|) == At(rest, 0);
    ParsePlain(sign, digits);
  }

  lemma RatioPart(sign: string, n: nat, d: nat)
    requires IsSignText(sign) && d != 0
    ensures PartOf(Scan(sign != "", false, false, false, sign + NatText(n)),
                   Some(Scan(false, false, false, false, NatText(d))),
                   false, 10, Either) == Piece(true, ExactPart(OfRatio(Negate(sign == "-", n), d)), 0)
  {
    hide OfRatio, ParseInt, StripPlus, NatText;
    NaturalParses(sign, n);
    NaturalParses("", d);
    assert "" + NatText(d) == NatText(d);
    StripDigits(NatText(d));
  }

  lemma NaturalParses(sign: string, n: nat)
    requires IsSignText(sign)
    ensures ParseInt(StripPlus(sign + NatText(n)), 10) == Some(Negate(sign == "-", n))
  {
    hide ParseInt, StripPlus, NatText;
    ParsePlain(sign, NatText(n));
    NatTextValue(n);
  }

  lemma RatioScans(sign: string, n: nat, d: nat, rest: string)
    requires IsSignText(sign) && Ends(rest, sign)
    ensures var first, second := sign + NatText(n), NatText(d);
            var s := first + "/" + second + rest;
            && ScanReal(s, 10) == Scan(sign != "", false, false, false, first)
            && At(s, |first|) == '/'
            && ScanReal(s[|first| + 1..], 10) == Scan(false, false, false, false, second)
            && At(s, |first| + 1 + |second|) == At(rest, 0)
  {
    hide ScanReal, NatText, At, Stops, Ends;
    var first, second := sign + NatText(n), NatText(d);
    var t := "/" + second + rest;
    RatioSlices(first, second, rest);
    assert first + t == first + "/" + second + rest;
    ScanPlain(sign, NatText(n), t);
    assert "" + second == second;
    EndsStop(rest, sign);
    ScanPlain("", second, rest);
  }

  lemma RatioSlices(first: string, second: string, rest: string)
    ensures var s := first + "/" + second + rest;
            && s[|first| + 1..] == second + rest && At(s, |first|) == '/'
            && At(s, |first| + 1 + |second|) == At(rest, 0)
    ensures Stops(At("/" + second + rest, 0))
  {
    AtAppended(first + "/" + second, rest);
  }

  lemma EndsStop(rest: string, sign: string)
    requires Ends(rest, sign)
    ensures Stops(At(rest, 0))
  {
  }

  lemma AtAppended(s: string, t: string)
    ensures At(s + t, |s|) == At(t, 0)
  {
  }

  lemma ReadRatio(sign: string, n: nat, d: nat, rest: string, allowre: bool, allowim: bool)
    requires IsSignText(sign) && Ends(rest, sign) && d != 0
    requires if At(rest, 0) == 'i' then allowim else allowre
    ensures var im := At(rest, 0) == 'i';
            var text := sign + NatText(n) + "/" + NatText(d);
            OnePass(text + rest, 10, Either, allowre, allowim) ==
            Piece(im, ExactPart(OfRatio(Negate(sign == "-", n), d)), |text| + if im then 1 else 0)
  {
    hide ScanReal, OfRatio, PartOf, NatText;
    RatioScans(sign, n, d, rest);
    RatioPart(sign, n, d);
    assert sign + NatText(n) + "/" + NatText(d) + rest == (sign + NatText(n)) + "/" + NatText(d) + rest;
  }

  /** Reading one printed part, with something that ends it behind. */
  lemma ReadPart(sign: string, x: Exact, rest: string, allowre: bool, allowim: bool)
    requires Canonical(x) && IsSignText(sign) && (sign == "-" <==> Num(x) < 0) && Ends(rest, sign)
    requires if At(rest, 0) == 'i' then allowim else allowre
    ensures var im := At(rest, 0) == 'i';
            OnePass(sign + MagnitudeText(x) + rest, 10, Either, allowre, allowim) ==
            Piece(im, ExactPart(x), |sign + MagnitudeText(x)| + if im then 1 else 0)
  {
    hide OnePass, OfRatio, NatText;
    OfRatioIsIdentity(x);
    var n := Abs(Num(x));
    if x.Rat? {
      assert sign + MagnitudeText(x) == sign + NatText(n) + "/" + NatText(x.den);
      ReadRatio(sign, n, x.den, rest, allowre, allowim);
    } else {
      assert sign + MagnitudeText(x) == sign + NatText(n);
      ReadInteger(sign, NatText(n), rest, allowre, allowim);
      NatTextValue(n);
    }
  }

  lemma ReadUnit(sign: string, x: Exact, allowre: bool)
    requires (sign == "+" && x == Small(1)) || (sign == "-" && x == Small(-1))
    ensures OnePass(sign + "i", 10, Either, allowre, true) == Piece(true, ExactPart(x), 2)
  {
    hide ScanReal;
    ScanUnit(sign, "");
    assert sign + "i" + "" == sign + "i";
  }

  /** An imaginary part at the end of the text. */
  lemma ReadImaginary(im: Exact, allowre: bool, re: Part)
    requires Canonical(im) && im != Small(0)
    ensures var text := if im == Small(1) then "+i" else if im == Small(-1) then "-i" else SignedRealText(im) + "i";
            Pieces(text, 10, Either, allowre, true, re, ZERO_PART) == Parsed(re, ExactPart(im))
  {
    hide OnePass, MagnitudeText, Canonical;
    if im == Small(1) {
      ReadUnit("+", im, allowre);
      assert "+" + "i" == "+i" && "+i"[2..] == "";
    } else if im == Small(-1) {
      ReadUnit("-", im, allowre);
      assert "-" + "i" == "-i" && "-i"[2..] == "";
    } else {
      ReadPart(if Num(im) < 0 then "-" else "+", im, "i", allowre, true);
    }
  }

  lemma NoPrefix(s: string)
    requires At(s, 0) != '#'
    ensures Ston(s, 10) == Pieces(s, 10, Either, true, true, ZERO_PART, ZERO_PART)
  {
    assert s[0..] == s;
  }

  lemma PrintedStart(x: Exact)
    requires x.Rat? ==> x.den > 0
    ensures At(MagnitudeText(x), 0) != '#' && MagnitudeText(x) != "" && !IsSign(At(MagnitudeText(x), 0))
  {
    assert IsDecimal(NatText(Abs(Num(x)))[0]);
  }

  /** string->number undoes number->text on every exact number, real or complex. */
  lemma RoundTrip(p: Parts)
    requires CanonicalParts(p)
    ensures Ston(Ntos(p), 10) == Parsed(ExactPart(p.re), ExactPart(p.im))
  {
    hide Pieces, OnePass, MagnitudeText;
    var sign := if Num(p.re) < 0 then "-" else "";
    var real_ := sign + MagnitudeText(p.re);
    PrintedStart(p.re);
    PrintedStart(p.im);
    NoPrefix(Ntos(p));
    if p.im == Small(0) {
      ReadPart(sign, p.re, "", true, true);
      assert real_ + "" == real_;
      LastPiece(real_, p.re);
    } else {
      var im := if p.im == Small(1) then "+i" else if p.im == Small(-1) then "-i" else SignedRealText(p.im) + "i";
      if p.re == Small(0) {
        assert Ntos(p) == im;
        ReadImaginary(p.im, true, ZERO_PART);
      } else {
        ReadPart(sign, p.re, im, true, true);
        FirstPiece(real_, p.re, im);
        ReadImaginary(p.im, false, ExactPart(p.re));
      }
    }
  }

  lemma LastPiece(text: string, x: Exact)
    requires OnePass(text, 10, Either, true, true) == Piece(false, ExactPart(x), |text|)
    ensures Pieces(text, 10, Either, true, true, ZERO_PART, ZERO_PART) == Parsed(ExactPart(x), ZERO_PART)
  {
    hide OnePass;
    assert text[|text|..] == "";
  }

  lemma FirstPiece(text: string, x: Exact, rest: string)
    requires rest != "" && OnePass(text + rest, 10, Either, true, true) == Piece(false, ExactPart(x), |text|)
    ensures Pieces(text + rest, 10, Either, true, true, ZERO_PART, ZERO_PART) ==
            Pieces(rest, 10, Either, false, true, ExactPart(x), ZERO_PART)
  {
    hide OnePass;
    assert (text + rest)[|text|..] == rest;
  }

  // ---- what else is read ------------------------------------------------------------------------

  function ImaginaryText(x: Exact): string
    requires x.Rat? ==> x.den > 0
  {
    (if x == Small(1) then "+" else if x == Small(-1) then "-" else SignedRealText(x)) + "i"
  }

  /** The restart loop takes the two parts in either order: `+i3` is 3+i, although the grammar
      of section 7.1.1 of R5RS has no such number. */
  lemma EitherOrder(p: Parts)
    requires CanonicalParts(p) && p.im != Small(0)
    ensures Ston(ImaginaryText(p.im) + SignedRealText(p.re), 10) == Parsed(ExactPart(p.re), ExactPart(p.im))
  {
    hide Pieces, OnePass, MagnitudeText, SignedRealText, ImaginaryText, Gcd;
    var sign := if Num(p.re) < 0 then "-" else "+";
    var real_ := SignedRealText(p.re);
    SignedStarts(p.re);
    SignedStarts(p.im);
    ImaginaryPass(p.im, real_);
    ReadPart(sign, p.re, "", true, false);
    assert sign + MagnitudeText(p.re) + "" == real_;
    Parts2(ImaginaryText(p.im), real_);
    NoPrefix(ImaginaryText(p.im) + real_);
    BothPieces(ImaginaryText(p.im), real_, p);
  }

  lemma SignedStarts(x: Exact)
    requires x.Rat? ==> x.den > 0
    ensures SignedRealText(x) == (if Num(x) < 0 then "-" else "+") + MagnitudeText(x)
            && IsSign(At(SignedRealText(x), 0))
    ensures forall rest :: At(ImaginaryText(x) + rest, 0) != '#'
    ensures Ends(SignedRealText(x), "")
  {
    hide MagnitudeText;
  }

  lemma ImaginaryPass(im: Exact, rest: string)
    requires Canonical(im) && im != Small(0) && IsSign(At(rest, 0))
    ensures OnePass(ImaginaryText(im) + rest, 10, Either, true, true) ==
            Piece(true, ExactPart(im), |ImaginaryText(im)|)
  {
    hide OnePass, MagnitudeText, Gcd;
    if im == Small(1) || im == Small(-1) {
      UnitPass(if im == Small(1) then "+" else "-", im, rest);
    } else {
      var sign := if Num(im) < 0 then "-" else "+";
      ReadPart(sign, im, "i" + rest, true, true);
      assert ImaginaryText(im) + rest == sign + MagnitudeText(im) + ("i" + rest);
    }
  }

  lemma UnitPass(sign: string, x: Exact, rest: string)
    requires (sign == "+" && x == Small(1)) || (sign == "-" && x == Small(-1))
    ensures OnePass(sign + "i" + rest, 10, Either, true, true) == Piece(true, ExactPart(x), 2)
  {
    hide ScanReal;
    ScanUnit(sign, rest);
    var s := sign + "i" + rest;
    assert At(s, 1) == 'i';
  }

  lemma BothPieces(first: string, second: string, p: Parts)
    requires second != "" && OnePass(first + second, 10, Either, true, true) == Piece(true, ExactPart(p.im), |first|)
    requires OnePass(second, 10, Either, true, false) == Piece(false, ExactPart(p.re), |second|)
    ensures Pieces(first + second, 10, Either, true, true, ZERO_PART, ZERO_PART) ==
            Parsed(ExactPart(p.re), ExactPart(p.im))
  {
    hide OnePass;
    Parts2(first, second);
    assert second[|second|..] == "";
  }

  // ---- literals ---------------------------------------------------------------------------------

  /** The compiler's shortcut: nine digits at most fit an int32. */
  method NumberFitsInt32(val: string) returns (fits: bool)
    ensures fits <==> |val| <= 9 && AllDecimal(val)
    ensures fits ==> AllDigits(val, 10) && FitsInt(ValueOf(val, 10))
  {
    if |val| > 9 {
      return false;
    }
    var i := 0;
    while i < |val|
      invariant 0 <= i <= |val|
      invariant forall j :: 0 <= j < i ==> IsDecimal(val[j])
    {
      if !IsDecimal(val[i]) {
        return false;
      }
      i := i + 1;
    }
    DecimalDigits(val);
    ValueOfBound(val, 10);
    PowGrows(|val|, 9);
    assert Pow(10, 9) == 1000000000;
    return true;
  }

  lemma {:induction false} PowGrows(m: nat, n: nat)
    requires m <= n
    ensures Pow(10, m) <= Pow(10, n)
  {
    if m < n {
      PowGrows(m, n - 1);
      PowPositive(10, n - 1);
    }
  }

  /** The shortcut's object is the one the runtime would read from the same text. */
  lemma ShortcutAgrees(val: string)
    requires val != "" && |val| <= 9 && AllDecimal(val) && AllDigits(val, 10)
    ensures Ston(val, 10) == Parsed(ExactPart(Small(ValueOf(val, 10))), ZERO_PART)
  {
    hide OnePass, OfRatio, ValueOf;
    var x := Small(ValueOf(val, 10));
    ValueOfBound(val, 10);
    PowGrows(|val|, 9);
    assert Pow(10, 9) == 1000000000;
    assert IsDecimal(val[0]);
    NoPrefix(val);
    ReadInteger("", val, "", true, true);
    assert "" + val + "" == val && "" + val == val;
    OfRatioIsIdentity(x);
    LastPiece(val, x);
  }
}
