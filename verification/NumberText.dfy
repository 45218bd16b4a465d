// What string->number makes of a text and what number->text writes (src/runtime/number.c:433-874),
// stated on strings. Module NumberParser runs the same scan in place over a buffer.
module NumberText {
  import opened Wrappers
  import opened Rational
  import opened Digits

  // ---- one real ---------------------------------------------------------------------------------

  /** The place of a character in ".0123456789aAbBcCdDeEfF". */
  function TableIndex(c: char): int {
    if c == '.' then 0
    else if '0' <= c <= '9' then 1 + (c as int - '0' as int)
    else if 'a' <= c <= 'f' then 11 + 2 * (c as int - 'a' as int)
    else if 'A' <= c <= 'F' then 12 + 2 * (c as int - 'A' as int)
    else -1
  }

  /** _ston_isdigit: the digits of the radix, and the point. */
  function IsDigit(c: char, radix: int): (b: bool)
    ensures b <==> radix >= 0 && (c == '.' || 0 <= DigitOf(c) < radix)
  {
    var req := if radix <= 10 then radix else 2 * radix - 10;
    0 <= TableIndex(c) <= req
  }

  function At(s: string, i: nat): char { if i < |s| then s[i] else '\0' }

  predicate IsSign(c: char) { c == '+' || c == '-' }

  predicate IsMarker(c: char) { c == 'e' || c == 's' || c == 'f' || c == 'd' || c == 'l' }

  predicate IsPointOrPound(c: char) { c == '.' || c == '#' }

  function SignLength(s: string): (n: nat)
    ensures n <= |s|
  {
    if IsSign(At(s, 0)) then 1 else 0
  }

  /** Points allowed in a real: one, in radix ten only. */
  function Points(radix: int): nat { if radix == 10 then 1 else 0 }

  /** What _ston_parse_real finds: flags, how far it got, and the buffer it leaves behind, in
      which # has become 0 and the exponent marker @. */
  datatype Scan = Scan(signed: bool, iunit: bool, decimal: bool, pound: bool, text: string) | BadScan

  function Unpound(s: string): (r: string)
    ensures |r| == |s| && forall i :: 0 <= i < |s| ==> r[i] == if s[i] == '#' then '0' else s[i]
  {
    seq(|s|, i requires 0 <= i < |s| => if s[i] == '#' then '0' else s[i])
  }

  function DigitTest(radix: int): char -> bool
  {
    c => IsDigit(c, radix)
  }

  /** The exponent part: nothing, or a marker with a sign or digits behind it. */
  function ExponentLength(s: string): (r: Option<nat>)
    ensures r.Some? ==> r.value <= |s|
  {
    if !IsMarker(At(s, 0)) then Some(0)
    else
      var n := SignLength(s[1..]);
      var d := Span(s[1 + n..], IsDecimal);
      if n + d == 0 then None else Some(1 + n + d)
  }

  function MarkExponent(s: string): (r: string)
    ensures |r| == |s|
  {
    if s == "" then "" else "@" + s[1..]
  }

  function ScanReal(s: string, radix: int): (r: Scan)
    ensures r.Scan? ==> |r.text| <= |s|
  {
    var k := DigitsEnd(s, radix);
    ScanFrom(s, radix, SignLength(s), k, PoundsEnd(s, k))
  }

  function DigitsEnd(s: string, radix: int): (k: nat)
    ensures SignLength(s) <= k <= |s|
  {
    SignLength(s) + Span(s[SignLength(s)..], DigitTest(radix))
  }

  function PoundsEnd(s: string, k: nat): (m: nat)
    requires k <= |s|
    ensures k <= m <= |s|
  {
    k + Span(s[k..], IsPointOrPound)
  }

  /** The sign ends at n, the digits at k, the pound signs at m. */
  function ScanFrom(s: string, radix: int, n: nat, k: nat, m: nat): (r: Scan)
    requires n <= k <= m <= |s|
    ensures r.Scan? ==> |r.text| <= |s|
  {
    var points := Count(s[n..k], '.');
    var all := points + Count(s[k..m], '.');
    if points > Points(radix) || s[n..k] == "." then BadScan
    else if n == k && At(s, k) != 'i' then BadScan
    else if all > Points(radix) then BadScan
    else
      var e := ExponentLength(s[m..]);
      if e.None? || (IsMarker(At(s, m)) && radix != 10) then BadScan
      else Scan(n == 1, n == k, all > 0 || e.value > 0, '#' in s[k..m],
                s[..k] + Unpound(s[k..m]) + MarkExponent(s[m..m + e.value]))
  }

  // ---- values -----------------------------------------------------------------------------------

  function Negate(negative: bool, n: int): int { if negative then -n else n }

  /** mpz_set_str; it refuses a text without a digit or with a stray character, and a base
      outside 2..62, and then leaves the value open. */
  function ParseInt(text: string, radix: int): Option<int> {
    var n := if At(text, 0) == '-' then 1 else 0;
    var digits := text[n..];
    if digits == "" || !(2 <= radix <= 62) || !AllDigits(digits, radix) then None
    else Some(Negate(n == 1, ValueOf(digits, radix)))
  }

  /** The %d behind an @: its width in characters, and its value; sscanf may find no number. */
  function ParseExponent(s: string): (r: (nat, int)) {
    var n := SignLength(s);
    var d := Span(s[n..], IsDecimal);
    DecimalDigits(s[n..n + d]);
    var v := ValueOf(s[n..n + d], 10);
    if d == 0 then (0, 0) else (n + d, Negate(At(s, 0) == '-', v))
  }

  datatype Decimal = OutOfRange | Fraction(num: int, den: nat)

  /** The digits behind a point, and where the scan goes on. When no digit follows the point,
      it stays on the point. */
  function FractionOf(t: string): (r: (string, string))
    ensures AllDecimal(r.0)
  {
    var k := if At(t, 0) == '.' then Span(t[1..], IsDecimal) else 0;
    if k == 0 then ("", t) else (t[1..1 + k], t[1 + k..])
  }

  function ExponentOf(t: string): (nat, int) {
    if At(t, 0) == '@' then ParseExponent(t[1..]) else (0, 0)
  }

  /** _lsrt_mpq_set_decimal */
  function DecimalValue(text: string): (r: Decimal)
    ensures r.Fraction? ==> r.den > 0
  {
    if At(text, 0) == '-' then UnsignedDecimal(true, text[1..]) else UnsignedDecimal(false, text)
  }

  function UnsignedDecimal(negative: bool, t: string): (r: Decimal)
    ensures r.Fraction? ==> r.den > 0
  {
    var n := Span(t, IsDecimal);
    var (fraction, rest) := FractionOf(t[n..]);
    var (width, ex) := ExponentOf(rest);
    if width >= 5 || ex >= 256 then OutOfRange
    else
      DecimalDigits(t[..n]);
      DecimalDigits(fraction);
      Scaled(Negate(negative, ValueOf(fraction, 10) + ValueOf(t[..n], 10) * Pow(10, |fraction|)), |fraction|, ex)
  }

  /** num / 10^k * 10^ex, not in lowest terms. */
  function Scaled(num: int, k: nat, ex: int): (r: Decimal)
    ensures r.Fraction? && r.den > 0
  {
    PowPositive(10, k);
    if ex >= 0 then Fraction(num * Pow(10, ex), Pow(10, k))
    else
      PowPositive(10, -ex);
      assert Pow(10, k) * Pow(10, -ex) > 0;
      Fraction(num, Pow(10, k) * Pow(10, -ex))
  }

  // ---- whole numbers ----------------------------------------------------------------------------

  datatype Exactness = Either | AskedExact | AskedInexact

  datatype Part = ExactPart(x: Exact) | InexactPart

  /** One pass of _ston. The text may be refused, the process may stop (a GMP division by zero,
      or a range error), or GMP may be given something it leaves open. */
  datatype Pass = Refused | Stopped | Open | Piece(imaginary: bool, part: Part, length: nat)

  function StripPlus(s: string): string { if At(s, 0) == '+' then s[1..] else s }

  /** The part of type `scan`, or of a ratio when there is a second scan. */
  function PartOf(scan: Scan, second: Option<Scan>, unit: bool, radix: int, exactness: Exactness): Pass
    requires scan.Scan? && (second.Some? ==> second.value.Scan?)
  {
    var text := StripPlus(scan.text);
    var rounded := exactness.AskedInexact? || (scan.pound && !exactness.AskedExact?);
    if unit then
      Piece(true, if rounded then InexactPart else ExactPart(Small(if At(scan.text, 0) == '+' then 1 else -1)), 0)
    else if scan.decimal then
      if !exactness.AskedExact? then Piece(true, InexactPart, 0)
      else
        match DecimalValue(text)
        case OutOfRange => Stopped
        case Fraction(n, d) => Piece(true, ExactPart(OfRatio(n, d)), 0)
    else
      match (ParseInt(text, radix), if second.Some? then ParseInt(second.value.text, radix) else Some(1))
      case (Some(n), Some(d)) =>
        if d == 0 then Stopped
        else Piece(true, if rounded then InexactPart else ExactPart(OfRatio(n, d)), 0)
      case _ => Open
  }

  function OnePass(s: string, radix: int, exactness: Exactness, allowre: bool, allowim: bool): (r: Pass)
    ensures r.Piece? ==> r.length <= |s| && (if r.imaginary then allowim else allowre)
  {
    var scan := ScanReal(s, radix);
    if scan.BadScan? then Refused
    else
      var n := |scan.text|;
      var slash := At(s, n) == '/';
      var second := if slash then ScanReal(s[n + 1..], radix) else BadScan;
      var end := if slash && second.Scan? then n + 1 + |second.text| else n;
      var imaginary := At(s, end) == 'i';
      if slash && (second.BadScan? || scan.decimal || second.signed || second.decimal) then Refused
      else if if imaginary then !allowim else !allowre then Refused
      else
        var p := PartOf(scan, if slash then Some(second) else None, imaginary && scan.iunit, radix, exactness);
        if p.Stopped? then Stopped
        else if imaginary && !scan.signed then Refused
        else if p.Piece? then Piece(imaginary, p.part, if imaginary then end + 1 else end)
        else p
  }

  datatype Parsed = NotANumber | Aborted | Unspecified | Parsed(re: Part, im: Part)

  const ZERO_PART := ExactPart(Small(0))

  /** The restart loop: at most one real and one imaginary piece, in either order. */
  function Pieces(s: string, radix: int, exactness: Exactness, allowre: bool, allowim: bool, re: Part, im: Part): Parsed
    decreases (if allowre then 1 else 0) + (if allowim then 1 else 0)
  {
    match OnePass(s, radix, exactness, allowre, allowim)
    case Refused => NotANumber
    case Stopped => Aborted
    case Open => Unspecified
    case Piece(imaginary, part, n) =>
      var re', im' := if imaginary then re else part, if imaginary then part else im;
      if s[n..] == "" then Parsed(re', im')
      else Pieces(s[n..], radix, exactness, allowre && imaginary, allowim && !imaginary, re', im')
  }

  datatype Prefix = BadPrefix | Prefix(radix: Option<nat>, exactness: Exactness, length: nat)

  /** #e #i #b #o #d #x, each kind once, in any order. */
  function ReadPrefix(s: string, radix: Option<nat>, exactness: Exactness): (r: Prefix)
    ensures r.Prefix? ==> r.length <= |s|
    decreases |s|
  {
    if At(s, 0) != '#' then Prefix(radix, exactness, 0)
    else
      var c := At(s, 1);
      var rest :=
        if c == 'i' || c == 'e' then
          if exactness.Either? then ReadPrefix(s[2..], radix, if c == 'i' then AskedInexact else AskedExact)
          else BadPrefix
        else if c == 'b' || c == 'o' || c == 'd' || c == 'x' then
          if radix.None? then ReadPrefix(s[2..], Some(RadixOf(c)), exactness) else BadPrefix
        else BadPrefix;
      if rest.BadPrefix? then BadPrefix else rest.(length := rest.length + 2)
  }

  function RadixOf(c: char): (r: nat)
    ensures 2 <= r <= 16
  {
    if c == 'b' then 2 else if c == 'o' then 8 else if c == 'd' then 10 else 16
  }

  /** _ston */
  function Ston(s: string, defradix: int): Parsed
  {
    match ReadPrefix(s, None, Either)
    case BadPrefix => NotANumber
    case Prefix(radix, exactness, n) =>
      Pieces(s[n..], if radix.Some? then radix.value else defradix, exactness, true, true, ZERO_PART, ZERO_PART)
  }
}
