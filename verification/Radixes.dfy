// Numbers in other radixes than ten, and the prefixes for radix and exactness
// (src/runtime/number.c:603-763), said by the numbers that are read.
module Radixes {
  import opened Wrappers
  import opened Rational
  import opened Digits
  import opened NumberText
  import opened NumberRoundTrip

  // ---- prefixes ---------------------------------------------------------------------------------

  /** The letter of a radix. */
  predicate Letter(c: char, base: nat) {
    (c == 'b' && base == 2) || (c == 'o' && base == 8) || (c == 'd' && base == 10) || (c == 'x' && base == 16)
  }

  /** A radix prefix reads what is behind it in that radix, whatever radix was asked for. */
  lemma PrefixIsRadix(c: char, base: nat, t: string, radix: int)
    requires Letter(c, base) && At(t, 0) != '#'
    ensures Ston("#" + [c] + t, radix) == Ston(t, base)
  {
    hide Pieces;
    assert ("#" + [c] + t)[2..] == t && t[0..] == t;
    assert ReadPrefix(t, Some(base), Either) == Prefix(Some(base), Either, 0);
  }

  /** With a prefix for exactness, it may stand on either side of it. */
  lemma PrefixesCommute(c: char, base: nat, e: char, t: string, radix: int)
    requires Letter(c, base) && (e == 'e' || e == 'i') && At(t, 0) != '#'
    ensures Ston("#" + [c] + ("#" + [e] + t), radix) == Ston("#" + [e] + t, base)
    ensures Ston("#" + [e] + ("#" + [c] + t), radix) == Ston("#" + [e] + t, base)
  {
    hide Pieces;
    var first, second := "#" + [c] + t, "#" + [e] + t;
    assert first[2..] == t && second[2..] == t && t[0..] == t;
    assert ("#" + [c] + second)[2..] == second && ("#" + [e] + first)[2..] == first;
    assert ("#" + [c] + second)[4..] == t && ("#" + [e] + first)[4..] == t;
    var exactness := if e == 'e' then AskedExact else AskedInexact;
    assert ReadPrefix(t, Some(base), exactness) == Prefix(Some(base), exactness, 0);
    assert ReadPrefix(t, None, exactness) == Prefix(None, exactness, 0);
    assert ReadPrefix(second, Some(base), Either) == Prefix(Some(base), exactness, 2);
    assert ReadPrefix(first, None, exactness) == Prefix(Some(base), exactness, 2);
  }

  /** Two prefixes of one kind, or an unknown one, make it no number. */
  lemma PrefixRefused(c: char, base: nat, d: char, base': nat, e: char, e': char, t: string, radix: int)
    requires Letter(c, base) && Letter(d, base') && (e == 'e' || e == 'i') && (e' == 'e' || e' == 'i')
    ensures Ston("#" + [c] + ("#" + [d] + t), radix) == NotANumber
    ensures Ston("#" + [e] + ("#" + [e'] + t), radix) == NotANumber
  {
    hide Pieces;
    var more, more' := "#" + [d] + t, "#" + [e'] + t;
    assert ("#" + [c] + more)[2..] == more && ("#" + [e] + more')[2..] == more';
    assert ReadPrefix(more, Some(base), Either) == BadPrefix;
    assert ReadPrefix(more', None, if e == 'e' then AskedExact else AskedInexact) == BadPrefix;
  }

  lemma UnknownPrefix(c: char, t: string, radix: int)
    requires c != 'e' && c != 'i' && c != 'b' && c != 'o' && c != 'd' && c != 'x'
    ensures Ston("#" + [c] + t, radix) == NotANumber
  {
    hide Pieces;
    var s := "#" + [c] + t;
    assert s[0] == '#' && s[1] == c;
    assert ReadPrefix(s, None, Either) == BadPrefix;
  }

  // ---- the scan in any radix --------------------------------------------------------------------

  /** A character that ends a real in this radix. */
  predicate EndsReal(c: char, radix: int) { !IsDigit(c, radix) && c != '#' && !IsMarker(c) }

  lemma DigitsThenEnd(digits: string, rest: string, radix: nat)
    requires AllDigits(digits, radix) && 2 <= radix <= 62 && EndsReal(At(rest, 0), radix)
    ensures Span(digits + rest, DigitTest(radix)) == |digits| && Span(rest, IsPointOrPound) == 0
    ensures '.' !in digits && '#' !in digits && (digits != "" ==> !IsSign(digits[0]) && digits[0] != '#')
  {
    hide Span;
    SpanIs(digits + rest, DigitTest(radix), |digits|);
    SpanIs(rest, IsPointOrPound, 0);
  }

  lemma SignBefore(sign: string, digits: string, rest: string)
    requires IsSignText(sign) && digits != "" && !IsSign(digits[0])
    ensures SignLength(sign + digits + rest) == |sign|
  {
    assert (sign + digits + rest)[0] == if sign == "" then digits[0] else sign[0];
  }

  lemma ScanInRadix(sign: string, digits: string, rest: string, radix: nat)
    requires IsSignText(sign) && digits != "" && AllDigits(digits, radix) && 2 <= radix <= 62
    requires EndsReal(At(rest, 0), radix)
    ensures ScanReal(sign + digits + rest, radix) == Scan(sign != "", false, false, false, sign + digits)
  {
    hide ScanFrom, Span, SignLength, IsMarker, DigitTest;
    DigitsThenEnd(digits, rest, radix);
    SignBefore(sign, digits, rest);
    Parts3(sign, digits, rest);
    ScanFromPlain(sign, digits, rest, radix);
  }

  lemma ParseInRadix(sign: string, digits: string, radix: nat)
    requires IsSignText(sign) && digits != "" && AllDigits(digits, radix) && 2 <= radix <= 62
    ensures ParseInt(StripPlus(sign + digits), radix) == Some(Negate(sign == "-", ValueOf(digits, radix)))
    ensures sign == "" ==> ParseInt(digits, radix) == Some(ValueOf(digits, radix) as int)
  {
    hide ValueOf;
    DigitsThenEnd(digits, "", radix);
    var text := StripPlus(sign + digits);
    assert sign == "-" ==> text[1..] == digits;
    assert sign != "-" ==> text == digits && text[0..] == digits;
  }

  // ---- what is read -----------------------------------------------------------------------------

  /** As a number is read with a prefix for exactness, or without. */
  function ExactnessOf(prefix: string): Exactness
    requires prefix in ["", "#e", "#i"]
  {
    if prefix == "" then Either else if prefix == "#e" then AskedExact else AskedInexact
  }

  lemma ExactnessRead(prefix: string, t: string, radix: int)
    requires prefix in ["", "#e", "#i"] && At(t, 0) != '#'
    ensures Ston(prefix + t, radix) == Pieces(t, radix, ExactnessOf(prefix), true, true, ZERO_PART, ZERO_PART)
  {
    hide Pieces;
    assert t[0..] == t;
    if prefix == "" {
      assert "" + t == t;
    } else {
      assert (prefix + t)[2..] == t;
      assert ReadPrefix(t, None, ExactnessOf(prefix)) == Prefix(None, ExactnessOf(prefix), 0);
    }
  }

  lemma OnePieceRead(t: string, radix: int, exactness: Exactness)
    ensures var p, r := OnePass(t, radix, exactness, true, true),
                        Pieces(t, radix, exactness, true, true, ZERO_PART, ZERO_PART);
            && (p == Stopped ==> r == Aborted)
            && (p.Piece? && !p.imaginary && p.length == |t| ==> r == Parsed(p.part, ZERO_PART))
  {
    hide OnePass;
    assert t[|t|..] == "";
  }

  /** The part that is a ratio in a text, exact unless #i was asked for. */
  predicate IsRatio(part: Part, inexact: bool, n: int, d: nat)
    requires d != 0
  {
    if inexact then part == InexactPart
    else part.ExactPart? && Canonical(part.x) && Value(part.x) == n as real / d as real
  }

  lemma RatioIs(n: int, d: nat, inexact: bool)
    requires d != 0
    ensures IsRatio(if inexact then InexactPart else ExactPart(OfRatio(n, d)), inexact, n, d)
  {
    hide Canonical, Value;
  }

  /** An integer in any radix up to 62 is the value of its digits, with #e and without. */
  lemma IntegerWithRadix(prefix: string, sign: string, digits: string, radix: nat)
    requires prefix in ["", "#e", "#i"] && IsSignText(sign)
    requires digits != "" && AllDigits(digits, radix) && 2 <= radix <= 62
    ensures var r := Ston(prefix + (sign + digits), radix);
            && r.Parsed? && r.im == ZERO_PART
            && IsRatio(r.re, prefix == "#i", Negate(sign == "-", ValueOf(digits, radix)), 1)
  {
    hide ScanReal, OfRatio, ValueOf, StripPlus, ParseInt, Pieces, IsRatio, Ston;
    var t, n := sign + digits, Negate(sign == "-", ValueOf(digits, radix));
    assert t + "" == t;
    ScanInRadix(sign, digits, "", radix);
    ParseInRadix(sign, digits, radix);
    RatioIs(n, 1, prefix == "#i");
    DigitsThenEnd(digits, "", radix);
    assert At(t, 0) != '#' by { if sign == "" { assert t[0] == digits[0]; } }
    ExactnessRead(prefix, t, radix);
    OnePieceRead(t, radix, ExactnessOf(prefix));
  }

  /** And a ratio is the ratio of both values; a denominator of 0 stops the process. */
  lemma RatioWithRadix(prefix: string, sign: string, n: string, d: string, radix: nat)
    requires prefix in ["", "#e", "#i"] && IsSignText(sign) && 2 <= radix <= 62
    requires n != "" && AllDigits(n, radix) && d != "" && AllDigits(d, radix)
    ensures var r := Ston(prefix + (sign + n + "/" + d), radix);
            if ValueOf(d, radix) == 0 then r == Aborted
            else
              && r.Parsed? && r.im == ZERO_PART
              && IsRatio(r.re, prefix == "#i", Negate(sign == "-", ValueOf(n, radix)), ValueOf(d, radix))
  {
    hide ScanReal, OfRatio, ValueOf, StripPlus, ParseInt, Pieces, IsRatio, Ston;
    var t := sign + n + "/" + d;
    RatioScans(sign, n, d, radix);
    ParseInRadix(sign, n, radix);
    ParseInRadix("", d, radix);
    if ValueOf(d, radix) != 0 {
      RatioIs(Negate(sign == "-", ValueOf(n, radix)), ValueOf(d, radix), prefix == "#i");
    }
    DigitsThenEnd(n, "", radix);
    assert At(t, 0) != '#' by { if sign == "" { assert t[0] == n[0]; } else { assert t[0] == sign[0]; } }
    ExactnessRead(prefix, t, radix);
    OnePieceRead(t, radix, ExactnessOf(prefix));
  }

  lemma SlashEnds(d: string, radix: nat)
    ensures EndsReal(At("/" + d, 0), radix) && EndsReal(At("", 0), radix)
  {
  }

  lemma SlashJoined(s: string, d: string)
    ensures s + ("/" + d) == s + "/" + d == s + "/" + d + "" && |s + "/" + d| == |s| + 1 + |d|
    ensures "" + d + "" == d && "" + d == d && d + "" == d
  {
  }

  lemma NothingAt()
    ensures At("", 0) == '\0'
  {
  }

  lemma RatioScans(sign: string, n: string, d: string, radix: nat)
    requires IsSignText(sign) && 2 <= radix <= 62
    requires n != "" && AllDigits(n, radix) && d != "" && AllDigits(d, radix)
    ensures var t, k := sign + n + "/" + d, |sign + n|;
            && ScanReal(t, radix) == Scan(sign != "", false, false, false, sign + n) && At(t, k) == '/'
            && ScanReal(t[k + 1..], radix) == Scan(false, false, false, false, d)
            && k + 1 + |d| == |t| && At(t, |t|) == '\0'
  {
    hide ScanReal, At, ValueOf, AllDigits;
    RatioSlices(sign + n, d, "");
    SlashEnds(d, radix);
    ScanInRadix(sign, n, "/" + d, radix);
    ScanInRadix("", d, "", radix);
    SlashJoined(sign + n, d);
    NothingAt();
  }

  /** #b, #o, #d and #x read integers by their value in base 2, 8, 10 and 16. */
  lemma IntegerInRadix(c: char, base: nat, sign: string, digits: string)
    requires Letter(c, base) && IsSignText(sign) && digits != "" && AllDigits(digits, base)
    ensures Ston("#" + [c] + (sign + digits), 10) ==
            Parsed(ExactPart(OfInt(Negate(sign == "-", ValueOf(digits, base)))), ZERO_PART)
  {
    hide Ston, ValueOf, OfInt;
    var t, n := sign + digits, Negate(sign == "-", ValueOf(digits, base));
    DigitsThenEnd(digits, "", base);
    assert At(t, 0) != '#' by { if sign == "" { assert t[0] == digits[0]; } }
    PrefixIsRadix(c, base, t, 10);
    IntegerWithRadix("", sign, digits, base);
    assert "" + t == t;
    CanonicalUnique(Ston(t, base).re.x, OfInt(n));
  }

  /** #b101 is 5, #o17 is 15, #d17 is 17, #x1F and #x1f are 31. */
  lemma Examples()
    ensures Ston("#b101", 10) == Parsed(ExactPart(Small(5)), ZERO_PART)
    ensures Ston("#o17", 10) == Parsed(ExactPart(Small(15)), ZERO_PART)
    ensures Ston("#d17", 10) == Parsed(ExactPart(Small(17)), ZERO_PART)
    ensures Ston("#x1F", 10) == Ston("#x1f", 10) == Parsed(ExactPart(Small(31)), ZERO_PART)
  {
    hide Ston, ValueOf, AllDigits;
    ExampleValues();
    Prefixed('b', 2, "101");
    Prefixed('o', 8, "17");
    Prefixed('d', 10, "17");
    Prefixed('x', 16, "1F");
    Prefixed('x', 16, "1f");
    assert "#" + ['b'] + "101" == "#b101" && "#" + ['o'] + "17" == "#o17" && "#" + ['d'] + "17" == "#d17";
    assert "#" + ['x'] + "1F" == "#x1F" && "#" + ['x'] + "1f" == "#x1f";
  }

  lemma ExampleValues()
    ensures AllDigits("101", 2) && ValueOf("101", 2) == 5
    ensures AllDigits("17", 8) && ValueOf("17", 8) == 15 && AllDigits("17", 10) && ValueOf("17", 10) == 17
    ensures AllDigits("1F", 16) && ValueOf("1F", 16) == 31 && AllDigits("1f", 16) && ValueOf("1f", 16) == 31
  {
    assert "101"[..2] == "10" && "10"[..1] == "1";
    TwoDigits('1', '7', 8);
    TwoDigits('1', '7', 10);
    TwoDigits('1', 'F', 16);
    TwoDigits('1', 'f', 16);
    TwoDigits('1', '0', 2);
    assert ['1', '7'] == "17" && ['1', 'F'] == "1F" && ['1', 'f'] == "1f" && ['1', '0'] == "10";
  }

  lemma TwoDigits(c: char, d: char, base: nat)
    requires AllDigits([c, d], base)
    ensures ValueOf([c, d], base) == DigitIn(c, base) * base + DigitIn(d, base)
  {
    hide DigitIn;
    var s := [c, d];
    assert s[0] == c && 0 <= DigitIn(s[0], base) < base;
    OneDigit(c, base);
    assert s[..|s| - 1] == [c] && s[|s| - 1] == d && s[0] == c;
  }

  lemma OneDigit(c: char, base: nat)
    requires 0 <= DigitIn(c, base) < base
    ensures AllDigits([c], base) && ValueOf([c], base) == DigitIn(c, base)
  {
    hide DigitIn;
    var s := [c];
    assert s[..|s| - 1] == "" && ValueOf("", base) == 0 && s[|s| - 1] == c;
    assert 0 * base == 0;
  }

  lemma Prefixed(c: char, base: nat, digits: string)
    requires Letter(c, base) && digits != "" && AllDigits(digits, base)
    ensures Ston("#" + [c] + digits, 10) == Parsed(ExactPart(OfInt(ValueOf(digits, base))), ZERO_PART)
  {
    hide Ston, ValueOf, AllDigits, OfInt;
    IntegerInRadix(c, base, "", digits);
    assert "" + digits == digits;
  }

  /** (string->number "12" 40) is 42. From radix 37 on the small letters come behind the capital
      ones. */
  lemma LettersInLargeRadix()
    ensures Ston("12", 40) == Parsed(ExactPart(Small(42)), ZERO_PART)
    ensures Ston("A", 40) == Parsed(ExactPart(Small(10)), ZERO_PART)
    ensures Ston("a", 40) == Parsed(ExactPart(Small(36)), ZERO_PART)
    ensures Ston("a", 36) == Parsed(ExactPart(Small(10)), ZERO_PART)
  {
    hide Ston;
    assert "12"[..1] == "1" && "1"[..0] == "" && "A"[..0] == "" && "a"[..0] == "";
    Unprefixed("12", 40);
    Unprefixed("A", 40);
    Unprefixed("a", 40);
    Unprefixed("a", 36);
  }

  lemma Unprefixed(digits: string, radix: nat)
    requires digits != "" && AllDigits(digits, radix) && 2 <= radix <= 62
    ensures Ston(digits, radix) == Parsed(ExactPart(OfInt(ValueOf(digits, radix))), ZERO_PART)
  {
    hide Ston, ValueOf, OfInt;
    IntegerWithRadix("", "", digits, radix);
    assert "" + ("" + digits) == digits;
    CanonicalUnique(Ston(digits, radix).re.x, OfInt(ValueOf(digits, radix)));
  }
}
