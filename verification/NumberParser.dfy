// _ston as it runs (src/runtime/number.c:454-539, 603-763): a copy of the text is scanned in
// place, overwritten while it is scanned, and the scan restarts until the text is used up.
module NumberParser {
  import opened Wrappers
  import opened Digits
  import opened NumberText

  /** A C string in a buffer: the text from p on, up to the terminator in the last cell. */
  function Rest(buf: array<char>, p: nat): (s: string)
    requires p < buf.Length
    reads buf
    ensures |s| == buf.Length - 1 - p
    ensures forall i :: 0 <= i < |s| ==> s[i] == buf[p + i]
  {
    buf[p..buf.Length - 1]
  }

  ghost predicate Terminated(buf: array<char>)
    reads buf
  {
    buf.Length > 0 && buf[buf.Length - 1] == '\0' && forall i :: 0 <= i < buf.Length - 1 ==> buf[i] != '\0'
  }

  lemma {:induction false} CountPrefix(s: string, n: nat, c: char)
    requires n <= |s|
    ensures Count(s[..n], c) <= Count(s, c)
  {
    if n < |s| {
      CountPrefix(s[..|s| - 1], n, c);
      assert s[..|s| - 1][..n] == s[..n];
    } else {
      assert s[..n] == s;
    }
  }

  lemma CountSnoc(s: string, d: char, c: char)
    ensures Count(s + [d], c) == Count(s, c) + if d == c then 1 else 0
  {
    assert (s + [d])[..|s|] == s;
  }

  lemma NoPoints(s: string)
    ensures Count(s[..0], '.') == 0
  {
  }

  /** The digits of a real; a second point, or a point in another radix than ten, ends it. */
  method ScanDigits(buf: array<char>, start: nat, radix: int) returns (ok: bool, decimal: bool, ptr: nat)
    requires Terminated(buf) && start < buf.Length
    ensures var s := Rest(buf, start);
            var n := Span(s, DigitTest(radix));
            && (ok <==> Count(s[..n], '.') <= Points(radix))
            && (ok ==> ptr == start + n && (decimal <==> Count(s[..n], '.') > 0))
  {
    hide Count, Span;
    ghost var s := Rest(buf, start);
    ghost var n := Span(s, DigitTest(radix));
    ptr, decimal := start, false;
    NoPoints(s);
    while IsDigit(buf[ptr], radix)
      invariant start <= ptr < buf.Length
      invariant forall i :: 0 <= i < ptr - start ==> IsDigit(s[i], radix)
      invariant Count(s[..ptr - start], '.') == if decimal then 1 else 0
      invariant decimal ==> radix == 10
      decreases buf.Length - ptr
    {
      ghost var k := ptr - start;
      assert s[k] == buf[ptr];
      assert s[..k + 1] == s[..k] + [s[k]];
      CountSnoc(s[..k], s[k], '.');
      if buf[ptr] == '.' {
        if decimal || radix != 10 {
          SpanReaches(s, DigitTest(radix), k + 1);
          CountPrefix(s[..n], k + 1, '.');
          assert s[..n][..k + 1] == s[..k + 1];
          return false, decimal, ptr;
        }
        decimal := true;
      }
      ptr := ptr + 1;
    }
    SpanIs(s, DigitTest(radix), ptr - start);
    return true, decimal, ptr;
  }

  /** Trailing # and point. Each # becomes 0 in the buffer. */
  method ScanPounds(buf: array<char>, start: nat, radix: int, pointSeen: bool) returns (ok: bool, decimal: bool,
          pound: bool, ptr: nat)
    requires Terminated(buf) && start < buf.Length && (pointSeen ==> radix == 10)
    modifies buf
    ensures Terminated(buf) && buf[..start] == old(buf[..start])
    ensures var s := old(Rest(buf, start));
            var h := Span(s, IsPointOrPound);
            var points := (if pointSeen then 1 else 0) + Count(s[..h], '.');
            && (ok <==> points <= Points(radix))
            && (ok ==>
                  && ptr == start + h && (decimal <==> points > 0) && (pound <==> '#' in s[..h])
                  && buf[start..ptr] == Unpound(s[..h]) && buf[ptr..] == old(buf[ptr..]))
  {
    hide Count, Span, Unpound, PointsSeen, Replaced, Terminated, IsPointOrPound, EndsOnce;
    PointOrPound();
    TerminatedText(buf);
    TerminatedEnd(buf);
    ghost var s := Rest(buf, start);
    ghost var before := buf[..];
    ptr, decimal, pound := start, pointSeen, false;
    PointsTotal(s, pointSeen);
    PointsStep(s, 0, pointSeen);
    ReplacedNothing(before, start);
    while buf[ptr] == '.' || buf[ptr] == '#'
      invariant start <= ptr < buf.Length
      invariant forall i :: 0 <= i < ptr - start ==> IsPointOrPound(s[i])
      invariant (if decimal then 1 else 0) == PointsSeen(s, ptr - start, pointSeen)
      invariant decimal ==> radix == 10
      invariant pound <==> '#' in s[..ptr - start]
      invariant Replaced(before, buf[..], start, ptr) && buf[ptr] == before[ptr]
      decreases buf.Length - ptr
    {
      ghost var k, was := ptr - start, buf[..];
      assert s[k] == before[ptr];
      PointsStep(s, k, pointSeen);
      assert s[..k + 1] == s[..k] + [s[k]];
      if buf[ptr] == '#' {
        pound := true;
        buf[ptr] := '0';
      } else {
        if decimal || radix != 10 {
          PointsBeyond(s, k, pointSeen);
          break;
        }
        decimal := true;
      }
      ReplacedMore(before, was, buf[..], start, ptr);
      ptr := ptr + 1;
    }
    ghost var k := ptr - start;
    PoundsReplaced(before, buf[..], start, ptr);
    TerminatedText(buf);
    assert k < |s| ==> s[k] == before[ptr];
    if k < |s| ==> !IsPointOrPound(s[k]) { SpanIs(s, IsPointOrPound, k); }
    ok := !(buf[ptr] == '.' || buf[ptr] == '#');
  }

  /** The one NUL of a text is its last character. */
  ghost predicate EndsOnce(text: seq<char>) {
    text != [] && text[|text| - 1] == '\0' && forall i :: 0 <= i < |text| - 1 ==> text[i] != '\0'
  }

  lemma TerminatedText(buf: array<char>)
    ensures Terminated(buf) <==> EndsOnce(buf[..])
  {
  }

  /** From a to b every # has become 0, and nothing else has changed. */
  ghost predicate Replaced(before: seq<char>, after: seq<char>, a: nat, b: nat) {
    && |after| == |before|
    && forall i :: 0 <= i < |after| ==> after[i] == if a <= i < b && before[i] == '#' then '0' else before[i]
  }

  lemma ReplacedNothing(before: seq<char>, a: nat)
    ensures Replaced(before, before, a, a)
  {
  }

  lemma ReplacedMore(before: seq<char>, was: seq<char>, now: seq<char>, a: nat, b: nat)
    requires Replaced(before, was, a, b) && a <= b && b + 1 < |was|
    requires now == if was[b] == '#' then was[b := '0'] else was
    ensures Replaced(before, now, a, b + 1) && now[b + 1] == before[b + 1]
  {
  }

  lemma PointOrPound()
    ensures forall c :: IsPointOrPound(c) <==> c == '.' || c == '#'
  {
  }

  lemma PoundsReplaced(before: seq<char>, after: seq<char>, a: nat, b: nat)
    requires a <= b < |before| && Replaced(before, after, a, b)
    ensures |after| == |before| && (EndsOnce(before) ==> EndsOnce(after))
    ensures after[a..b] == Unpound(before[a..|before| - 1][..b - a])
    ensures after[..a] == before[..a] && after[b..] == before[b..]
  {
  }

  ghost function PointsSeen(s: string, k: nat, pointSeen: bool): nat
    requires k <= |s|
  {
    (if pointSeen then 1 else 0) + Count(s[..k], '.')
  }

  lemma PointsTotal(s: string, pointSeen: bool)
    ensures var h := Span(s, IsPointOrPound);
            PointsSeen(s, h, pointSeen) == (if pointSeen then 1 else 0) + Count(s[..h], '.')
  {
  }

  lemma PointsStep(s: string, k: nat, pointSeen: bool)
    requires k <= |s|
    ensures k == 0 ==> PointsSeen(s, k, pointSeen) == if pointSeen then 1 else 0
    ensures k < |s| ==> PointsSeen(s, k + 1, pointSeen) == PointsSeen(s, k, pointSeen) + if s[k] == '.' then 1 else 0
  {
    if k < |s| {
      assert s[..k + 1] == s[..k] + [s[k]];
      CountSnoc(s[..k], s[k], '.');
    }
  }

  lemma PointsBeyond(s: string, k: nat, pointSeen: bool)
    requires k < |s| && forall i :: 0 <= i <= k ==> IsPointOrPound(s[i])
    ensures PointsSeen(s, Span(s, IsPointOrPound), pointSeen) >= PointsSeen(s, k + 1, pointSeen)
  {
    hide Count;
    var h := Span(s, IsPointOrPound);
    SpanReaches(s, IsPointOrPound, k + 1);
    CountPrefix(s[..h], k + 1, '.');
    assert s[..h][..k + 1] == s[..k + 1];
  }

  method SkipDecimals(buf: array<char>, start: nat) returns (ptr: nat)
    requires Terminated(buf) && start < buf.Length
    ensures ptr == start + Span(Rest(buf, start), IsDecimal)
  {
    ghost var s := Rest(buf, start);
    ptr := start;
    while IsDecimal(buf[ptr])
      invariant start <= ptr < buf.Length
      invariant forall i :: 0 <= i < ptr - start ==> IsDecimal(s[i])
      decreases buf.Length - ptr
    {
      ptr := ptr + 1;
    }
    SpanIs(s, IsDecimal, ptr - start);
  }

  lemma RestSuffix(buf: array<char>, p: nat, q: nat)
    requires p <= q < buf.Length
    ensures Rest(buf, q) == Rest(buf, p)[q - p..]
  {
  }

  lemma Slices(s: string, a: nat, b: nat)
    requires a <= b <= |s|
    ensures s[a..][..b - a] == s[a..b] && s[a..][b - a..] == s[b..]
  {
  }

  /** The exponent; its marker becomes @ in the buffer. */
  method ScanExponent(buf: array<char>, start: nat, radix: int) returns (ok: bool, ptr: nat)
    requires Terminated(buf) && start < buf.Length
    modifies buf
    ensures var s := old(Rest(buf, start));
            var e := ExponentLength(s);
            && (ok <==> e.Some? && (IsMarker(At(s, 0)) ==> radix == 10))
            && (ok ==> ptr == start + e.value)
    ensures Terminated(buf) && (ptr > start ==> buf[start] == '@')
    ensures forall i :: 0 <= i < buf.Length && (i != start || ptr == start) ==> buf[i] == old(buf[i])
  {
    hide Span;
    ptr := start;
    if !IsMarker(buf[ptr]) {
      return true, ptr;
    }
    if radix != 10 {
      return false, ptr;
    }
    buf[ptr] := '@';
    var exp := ptr + 1;
    assert Rest(buf, exp) == old(Rest(buf, start))[1..];
    ptr := if IsSign(buf[exp]) then exp + 1 else exp;
    RestSuffix(buf, exp, ptr);
    ptr := SkipDecimals(buf, ptr);
    ok := ptr != exp;
  }

  // ---- the two halves of the scan ---------------------------------------------------------------

  datatype Head = NoHead | Head(sign: nat, end: nat, point: bool)

  /** Sign and digits. */
  function HeadOf(s: string, radix: int): (r: Head)
    ensures r.Head? ==> r.sign <= 1 && r.sign <= r.end <= |s| && (r.point ==> radix == 10)
  {
    var n, k := SignLength(s), DigitsEnd(s, radix);
    var points := Count(s[n..k], '.');
    if points > Points(radix) || s[n..k] == "." || (n == k && At(s, k) != 'i') then NoHead
    else Head(n, k, points > 0)
  }

  datatype Tail = NoTail | Tail(decimal: bool, pound: bool, text: string)

  /** Pound signs and exponent. */
  function TailOf(s: string, radix: int, point: bool): (r: Tail)
    ensures r.Tail? ==> |r.text| <= |s|
  {
    var h := Span(s, IsPointOrPound);
    var points := (if point then 1 else 0) + Count(s[..h], '.');
    var e := ExponentLength(s[h..]);
    if points > Points(radix) || e.None? || (IsMarker(At(s[h..], 0)) && radix != 10) then NoTail
    else Tail(points > 0 || e.value > 0, '#' in s[..h], Unpound(s[..h]) + MarkExponent(s[h..h + e.value]))
  }

  lemma TailIs(s: string, radix: int, point: bool, h: nat)
    requires h == Span(s, IsPointOrPound)
    ensures var points := (if point then 1 else 0) + Count(s[..h], '.');
            var e := ExponentLength(s[h..]);
            TailOf(s, radix, point) ==
            if points > Points(radix) || e.None? || (IsMarker(At(s[h..], 0)) && radix != 10) then NoTail
            else Tail(points > 0 || e.value > 0, '#' in s[..h], Unpound(s[..h]) + MarkExponent(s[h..h + e.value]))
  {
    hide Span, Count, ExponentLength, Unpound, MarkExponent, Points, IsMarker, At;
  }

  function Behind(s: string, k: nat): string
    requires k <= |s|
  {
    s[k..]
  }

  lemma ScanHalves(s: string, radix: int)
    ensures ScanReal(s, radix) ==
            match HeadOf(s, radix)
            case NoHead => BadScan
            case Head(n, k, point) =>
              match TailOf(Behind(s, k), radix, point)
              case NoTail => BadScan
              case Tail(decimal, pound, text) => Scan(n == 1, n == k, decimal, pound, s[..k] + text)
  {
    hide DigitsEnd, PoundsEnd, Count, TailOf, Behind, ScanFrom;
    ScanFromHalves(s, radix, SignLength(s), DigitsEnd(s, radix));
  }

  lemma ScanFromHalves(s: string, radix: int, n: nat, k: nat)
    requires n <= 1 && n <= k <= |s|
    ensures ScanFrom(s, radix, n, k, PoundsEnd(s, k)) ==
            if Count(s[n..k], '.') > Points(radix) || s[n..k] == "." || (n == k && At(s, k) != 'i') then BadScan
            else
              match TailOf(Behind(s, k), radix, Count(s[n..k], '.') > 0)
              case NoTail => BadScan
              case Tail(decimal, pound, text) => Scan(n == 1, n == k, decimal, pound, s[..k] + text)
  {
    hide Span, Count, ExponentLength, MarkExponent, Unpound;
    var m := PoundsEnd(s, k);
    var e := ExponentLength(s[m..]);
    var length := if e.Some? then e.value else 0;
    TailSlices(s, k, m, length);
    assert Points(radix) <= 1;
    assert s[..k] + Unpound(s[k..m]) + MarkExponent(s[m..m + length]) ==
           s[..k] + (Unpound(s[k..m]) + MarkExponent(s[m..m + length]));
  }

  lemma TailSlices(s: string, k: nat, m: nat, e: nat)
    requires k <= m && m + e <= |s|
    ensures s[k..][..m - k] == s[k..m] && s[k..][m - k..] == s[m..] && At(s[m..], 0) == At(s, m)
    ensures s[k..][m - k..m - k + e] == s[m..m + e]
  {
  }

  lemma HeadIs(s: string, radix: int, n: nat, k: nat)
    requires n == SignLength(s) && k == DigitsEnd(s, radix)
    ensures n <= k <= |s| && k == n + Span(s[n..], DigitTest(radix))
    ensures var points := Count(s[n..k], '.');
            HeadOf(s, radix) ==
            if points > Points(radix) || s[n..k] == "." || (n == k && At(s, k) != 'i') then NoHead
            else Head(n, k, points > 0)
  {
    hide Span, Count;
  }

  /** _ston_parse_real up to the digits. */
  method ScanHead(buf: array<char>, start: nat, radix: int) returns (ok: bool, decimal: bool, digits: nat, ptr: nat)
    requires Terminated(buf) && start < buf.Length
    ensures match HeadOf(Rest(buf, start), radix)
            case NoHead => !ok
            case Head(n, k, point) => ok && decimal == point && digits == start + n && ptr == start + k < buf.Length
  {
    hide Span, Count, HeadOf, DigitsEnd, Points, Terminated, DigitTest;
    TerminatedEnd(buf);
    ghost var s := Rest(buf, start);
    digits := if IsSign(buf[start]) then start + 1 else start;
    ghost var n := digits - start;
    RestSuffix(buf, start, digits);
    ok, decimal, ptr := ScanDigits(buf, digits, radix);
    ghost var k := DigitsEnd(s, radix);
    HeadIs(s, radix, n, k);
    Slices(s, n, k);
    if ok {
      assert ptr - digits == 1 ==> s[n..k] == [s[n]] && s[n] == buf[digits];
      ok := !(ptr - digits == 1 && buf[digits] == '.') && (ptr != digits || buf[ptr] == 'i');
    }
  }

  /** _ston_parse_real behind the digits. */
  method ScanTail(buf: array<char>, start: nat, radix: int, point: bool) returns (ok: bool, decimal: bool,
          pound: bool, ptr: nat)
    requires Terminated(buf) && start < buf.Length && (point ==> radix == 10)
    modifies buf
    ensures Terminated(buf) && buf[..start] == old(buf[..start])
    ensures match TailOf(old(Rest(buf, start)), radix, point)
            case NoTail => !ok
            case Tail(d, p, text) =>
              && ok && decimal == d && pound == p && ptr == start + |text| < buf.Length
              && buf[start..ptr] == text && buf[ptr..] == old(buf[ptr..])
  {
    hide Span, Count, ExponentLength, MarkExponent, Unpound, TailOf, IsPointOrPound, Points, IsMarker, Terminated;
    ghost var s := Rest(buf, start);
    ghost var before := buf[..];
    var mark;
    ok, decimal, pound, mark := ScanPounds(buf, start, radix, point);
    ptr := mark;
    if !ok {
      TailIs(s, radix, point, Span(s, IsPointOrPound));
      return;
    }
    assert s[..mark - start] == before[start..mark];
    ghost var middle := buf[..];
    RestUnchanged(before, middle, start, mark);
    ok, ptr := ScanExponent(buf, mark, radix);
    decimal := decimal || ptr > mark;
    TailScanned(before, middle, buf[..], start, mark, ptr, radix, point, ok);
  }

  /** The buffer before the tail is scanned, behind the pound signs, and behind the exponent. */
  lemma TailScanned(before: seq<char>, middle: seq<char>, after: seq<char>, start: nat, mark: nat, ptr: nat,
                    radix: int, point: bool, ok: bool)
    requires start <= mark < |before| == |middle| == |after| && before[mark..] == middle[mark..]
    requires before[..start] == middle[..start]
    requires forall i :: 0 <= i < |before| && (i != mark || ptr == mark) ==> after[i] == middle[i]
    requires var s := before[start..|before| - 1];
             var h := mark - start;
             var e := ExponentLength(s[h..]);
             && h == Span(s, IsPointOrPound) && middle[start..mark] == Unpound(s[..h])
             && (if point then 1 else 0) + Count(s[..h], '.') <= Points(radix)
             && (ok <==> e.Some? && (IsMarker(At(s[h..], 0)) ==> radix == 10))
             && (ok ==> ptr == mark + e.value && (ptr > mark ==> after[mark] == '@'))
    ensures after[..start] == before[..start]
    ensures match TailOf(before[start..|before| - 1], radix, point)
            case NoTail => !ok
            case Tail(d, p, text) =>
              && ok && ptr == start + |text| < |after| && after[start..ptr] == text && after[ptr..] == before[ptr..]
              && d == ((if point then 1 else 0) + Count(before[start..mark], '.') > 0 || ptr > mark)
              && p == ('#' in before[start..mark])
  {
    hide Span, Count, ExponentLength, MarkExponent, Unpound, TailOf, IsPointOrPound, Points, IsMarker;
    var s := before[start..|before| - 1];
    TailIs(s, radix, point, mark - start);
    assert s[..mark - start] == before[start..mark];
    if ok {
      ExponentMarked(before, middle, after, start, mark, ptr);
    }
  }

  lemma RestUnchanged(before: seq<char>, after: seq<char>, a: nat, b: nat)
    requires a <= b < |before| == |after| && before[b..] == after[b..]
    ensures after[b..|after| - 1] == before[a..|before| - 1][b - a..]
  {
    assert after[b..|after| - 1] == after[b..][..|after| - 1 - b];
  }

  /** Of the three buffers, the second has the pound signs replaced, the third the marker too. */
  lemma ExponentMarked(before: seq<char>, middle: seq<char>, after: seq<char>, a: nat, b: nat, c: nat)
    requires a <= b <= c < |before| == |middle| == |after| && before[b..] == middle[b..]
    requires forall i :: 0 <= i < |before| && (i != b || c == b) ==> after[i] == middle[i]
    requires c > b ==> after[b] == '@'
    ensures var s := before[a..|before| - 1];
            after[a..c] == middle[a..b] + MarkExponent(s[b - a..c - a])
    ensures after[c..] == before[c..] && after[..a] == middle[..a]
  {
    hide MarkExponent;
    SliceOfSlice(before, a, |before| - 1, b - a, c - a);
    forall i | b <= i < |before| ensures before[i] == middle[i] {
      assert before[i] == before[b..][i - b] && middle[i] == middle[b..][i - b];
    }
    MarkedHere(before, after, b, c);
    assert after[a..c] == after[a..b] + after[b..c] && after[a..b] == middle[a..b];
  }

  lemma SliceOfSlice(t: seq<char>, x: nat, y: nat, u: nat, v: nat)
    requires x <= y <= |t| && u <= v <= y - x
    ensures t[x..y][u..v] == t[x + u..x + v]
  {
    assert forall i :: 0 <= i < v - u ==> t[x..y][u..v][i] == t[x + u..x + v][i];
  }

  lemma MarkedHere(before: seq<char>, after: seq<char>, b: nat, c: nat)
    requires b <= c <= |before| == |after| && (c > b ==> after[b] == '@')
    requires forall i :: b <= i < |before| && (i != b || c == b) ==> after[i] == before[i]
    ensures after[b..c] == MarkExponent(before[b..c]) && after[c..] == before[c..]
  {
    SameSlice(before, after, c, |before|);
    if c > b {
      SameSlice(before, after, b + 1, c);
      assert before[b..c][1..] == before[b + 1..c];
      assert after[b..c] == [after[b]] + after[b + 1..c];
    }
  }

  lemma SameSlice(before: seq<char>, after: seq<char>, x: nat, y: nat)
    requires x <= y <= |before| == |after| && forall i :: x <= i < y ==> after[i] == before[i]
    ensures after[x..y] == before[x..y]
  {
  }

  /** _ston_parse_real */
  method StonParseReal(buf: array<char>, start: nat, radix: int) returns (scan: Scan, out: nat)
    requires Terminated(buf) && start < buf.Length
    modifies buf
    ensures Terminated(buf) && buf[..start] == old(buf[..start])
    ensures scan == ScanReal(old(Rest(buf, start)), radix)
    ensures scan.Scan? ==>
              && out == start + |scan.text| && out < buf.Length
              && buf[start..out] == scan.text && buf[out..] == old(buf[out..])
  {
    hide HeadOf, TailOf, ScanReal, Behind, Terminated;
    ghost var s := Rest(buf, start);
    ghost var before := buf[..];
    ScanHalves(s, radix);
    var ok, decimal, digits, pounds := ScanHead(buf, start, radix);
    if !ok {
      return BadScan, start;
    }
    ghost var k := pounds - start;
    RestBehind(buf, start, pounds);
    var iunit := pounds == digits;
    var pound, ptr;
    ok, decimal, pound, ptr := ScanTail(buf, pounds, radix, decimal);
    if !ok {
      return BadScan, start;
    }
    Joined(before, buf[..], start, pounds, ptr);
    return Scan(digits != start, iunit, decimal, pound, buf[start..ptr]), ptr;
  }

  lemma RestBehind(buf: array<char>, p: nat, q: nat)
    requires p <= q < buf.Length
    ensures Rest(buf, q) == Behind(Rest(buf, p), q - p)
    ensures Rest(buf, p)[..q - p] == buf[p..q]
  {
  }

  lemma Joined(before: seq<char>, after: seq<char>, a: nat, b: nat, c: nat)
    requires a <= b <= c <= |after| == |before| && before[..b] == after[..b]
    ensures after[a..c] == before[a..b] + after[b..c]
    ensures before[..a] == after[..a]
  {
    assert before[a..b] == before[..b][a..] == after[..b][a..] == after[a..b];
    assert before[..a] == before[..b][..a] == after[..b][..a] == after[..a];
  }

  // ---- _ston ------------------------------------------------------------------------------------

  lemma TerminatedEnd(buf: array<char>)
    requires Terminated(buf)
    ensures buf.Length > 0 && buf[buf.Length - 1] == '\0'
  {
  }

  /** The character at a place, the terminator behind the end. */
  lemma CharAt(before: seq<char>, after: seq<char>, a: nat, p: nat)
    requires a <= p < |before| == |after| && before[|before| - 1] == '\0' && before[p..] == after[p..]
    ensures after[p] == At(before[a..|before| - 1], p - a)
  {
    assert after[p] == after[p..][0] == before[p];
  }

  datatype Reals = NoReals | Reals(first: Scan, second: Option<Scan>, end: nat)

  /** A real, or a ratio of two. */
  function RealsOf(s: string, radix: int): (r: Reals)
    ensures r.Reals? ==> r.first.Scan? && (r.second.Some? ==> r.second.value.Scan?) && r.end <= |s|
  {
    var first := ScanReal(s, radix);
    if first.BadScan? then NoReals
    else if At(s, |first.text|) != '/' then Reals(first, None, |first.text|)
    else SecondReal(s[|first.text| + 1..], first, radix)
  }

  /** With the denominator, which starts `s`. */
  function SecondReal(s: string, first: Scan, radix: int): (r: Reals)
    requires first.Scan?
    ensures r.Reals? ==> r.first == first && r.second.Some? && r.second.value.Scan?
    ensures r.Reals? ==> r.end == |first.text| + 1 + |r.second.value.text| <= |first.text| + 1 + |s|
  {
    var second := ScanReal(s, radix);
    if second.BadScan? || first.decimal || second.signed || second.decimal then NoReals
    else Reals(first, Some(second), |first.text| + 1 + |second.text|)
  }

  lemma RealsAre(s: string, radix: int)
    ensures var first := ScanReal(s, radix);
            && (first.BadScan? ==> RealsOf(s, radix) == NoReals)
            && (first.Scan? && At(s, |first.text|) != '/' ==> RealsOf(s, radix) == Reals(first, None, |first.text|))
            && (first.Scan? && At(s, |first.text|) == '/' ==>
                  |first.text| < |s| && RealsOf(s, radix) == SecondReal(s[|first.text| + 1..], first, radix))
  {
    hide ScanReal;
  }

  lemma BehindSlash(before: seq<char>, middle: seq<char>, start: nat, slash: nat)
    requires start <= slash < |before| - 1 && |middle| == |before| && before[slash..] == middle[slash..]
    ensures middle[slash + 1..|middle| - 1] == before[start..|before| - 1][slash + 1 - start..]
  {
    SameBehind(before, middle, slash, slash + 1);
    RestUnchanged(before, middle, start, slash + 1);
  }

  /** The reals found at `start`; the text behind them is left as it was. */
  method ScanReals(buf: array<char>, start: nat, radix: int) returns (reals: Reals, end: nat)
    requires Terminated(buf) && start < buf.Length
    modifies buf
    ensures Terminated(buf) && reals == RealsOf(old(Rest(buf, start)), radix)
    ensures reals.Reals? ==>
              && end == start + reals.end < buf.Length && buf[end..] == old(buf[end..])
              && buf[end] == At(old(Rest(buf, start)), reals.end)
  {
    hide ScanReal, Terminated, RealsOf, At;
    TerminatedEnd(buf);
    ghost var s := Rest(buf, start);
    RealsAre(s, radix);
    ghost var before := buf[..];
    var first;
    first, end := StonParseReal(buf, start, radix);
    if first.BadScan? {
      return NoReals, start;
    }
    CharAt(before, buf[..], start, end);
    if buf[end] != '/' {
      return Reals(first, None, end - start), end;
    }
    ghost var slash := end;
    ghost var middle := buf[..];
    BehindSlash(before, middle, start, slash);
    var second;
    second, end := StonParseReal(buf, end + 1, radix);
    if second.BadScan? || first.decimal || second.signed || second.decimal {
      return NoReals, start;
    }
    SameBehind(before, middle, slash, end);
    CharAt(before, buf[..], start, end);
    return Reals(first, Some(second), end - start), end;
  }

  /** One pass, from `start`. */
  method StonPass(buf: array<char>, start: nat, radix: int, exactness: Exactness, allowre: bool, allowim: bool)
    returns (pass: Pass, next: nat)
    requires Terminated(buf) && start < buf.Length
    modifies buf
    ensures Terminated(buf) && pass == OnePass(old(Rest(buf, start)), radix, exactness, allowre, allowim)
    ensures pass.Piece? ==> next == start + pass.length < buf.Length && buf[next..] == old(buf[next..])
  {
    hide ScanReal, PartOf, RealsOf, Terminated;
    ghost var s := Rest(buf, start);
    ghost var before := buf[..];
    PassOf(s, radix, exactness, allowre, allowim);
    var reals, end := ScanReals(buf, start, radix);
    next := start;
    if reals.NoReals? {
      return Refused, start;
    }
    var scan := reals.first;
    var imaginary := buf[end] == 'i';
    if (imaginary && !allowim) || (!imaginary && !allowre) {
      return Refused, start;
    }
    pass := PartOf(scan, reals.second, imaginary && scan.iunit, radix, exactness);
    if pass.Stopped? {
      return;
    }
    if imaginary && !scan.signed {
      return Refused, start;
    }
    if pass.Piece? {
      next := if imaginary then end + 1 else end;
      pass := Piece(imaginary, pass.part, next - start);
      SameBehind(before, buf[..], end, next);
    }
  }

  /** One pass, on the reals found. */
  lemma PassOf(s: string, radix: int, exactness: Exactness, allowre: bool, allowim: bool)
    ensures OnePass(s, radix, exactness, allowre, allowim) ==
            match RealsOf(s, radix)
            case NoReals => Refused
            case Reals(first, second, end) =>
              var imaginary := At(s, end) == 'i';
              var p := PartOf(first, second, imaginary && first.iunit, radix, exactness);
              if !(if imaginary then allowim else allowre) then Refused
              else if p.Stopped? then Stopped
              else if imaginary && !first.signed then Refused
              else if p.Piece? then Piece(imaginary, p.part, if imaginary then end + 1 else end)
              else p
  {
    hide ScanReal, PartOf;
  }

  lemma SameBehind(before: seq<char>, after: seq<char>, a: nat, b: nat)
    requires a <= b <= |before| == |after| && before[a..] == after[a..]
    ensures before[b..] == after[b..]
  {
    assert before[b..] == before[a..][b - a..];
    assert after[b..] == after[a..][b - a..];
  }

  function Advanced(p: Prefix, k: nat): Prefix { if p.BadPrefix? then p else p.(length := p.length + k) }

  /** The radix and exactness prefixes. */
  method StonPrefix(buf: array<char>) returns (prefix: Prefix)
    requires Terminated(buf)
    ensures prefix == ReadPrefix(Rest(buf, 0), None, Either)
  {
    ghost var s := Rest(buf, 0);
    var ptr := 0;
    var exactness, radix: Option<nat> := Either, None;
    while buf[ptr] == '#'
      invariant ptr < buf.Length
      invariant ReadPrefix(s, None, Either) == Advanced(ReadPrefix(s[ptr..], radix, exactness), ptr)
      decreases buf.Length - ptr
    {
      assert ptr + 2 <= |s| ==> s[ptr..][2..] == s[ptr + 2..];
      ptr := ptr + 1;
      var c := buf[ptr];
      if c == 'i' || c == 'e' {
        if exactness != Either {
          return BadPrefix;
        }
        exactness := if c == 'i' then AskedInexact else AskedExact;
      } else if c == 'b' || c == 'o' || c == 'd' || c == 'x' {
        if radix != None {
          return BadPrefix;
        }
        radix := Some(RadixOf(c));
      } else {
        return BadPrefix;
      }
      ptr := ptr + 1;
    }
    return Prefix(radix, exactness, ptr);
  }

  lemma NextPiece(s: string, radix: int, exactness: Exactness, allowre: bool, allowim: bool, re: Part, im: Part)
    ensures Pieces(s, radix, exactness, allowre, allowim, re, im) ==
            match OnePass(s, radix, exactness, allowre, allowim)
            case Refused => NotANumber
            case Stopped => Aborted
            case Open => Unspecified
            case Piece(imaginary, part, n) =>
              var re', im' := if imaginary then re else part, if imaginary then part else im;
              if s[n..] == "" then Parsed(re', im')
              else Pieces(s[n..], radix, exactness, allowre && imaginary, allowim && !imaginary, re', im')
  {
    hide OnePass;
  }

  /** _ston; a C string holds no terminator. */
  method Ston(num: string, defradix: int) returns (r: Parsed)
    requires '\0' !in num
    ensures r == NumberText.Ston(num, defradix)
  {
    hide OnePass, ReadPrefix, Pieces;
    var dup := new char[|num| + 1](i requires 0 <= i < |num| + 1 => if i < |num| then num[i] else '\0');
    assert Rest(dup, 0) == num;
    var prefix := StonPrefix(dup);
    if prefix.BadPrefix? {
      return NotANumber;
    }
    var ptr: nat := prefix.length;
    var radix := if prefix.radix.Some? then prefix.radix.value else defradix;
    var allowre, allowim := true, true;
    var re, im := ZERO_PART, ZERO_PART;
    RestSuffix(dup, 0, ptr);
    while true
      invariant Terminated(dup) && ptr < dup.Length
      invariant NumberText.Ston(num, defradix) ==
                Pieces(Rest(dup, ptr), radix, prefix.exactness, allowre, allowim, re, im)
      decreases if allowre then 1 else 0, if allowim then 1 else 0
    {
      ghost var before, start := dup[..], ptr;
      ghost var s := Rest(dup, ptr);
      var pass;
      NextPiece(s, radix, prefix.exactness, allowre, allowim, re, im);
      pass, ptr := StonPass(dup, ptr, radix, prefix.exactness, allowre, allowim);
      if pass.Refused? {
        return NotANumber;
      } else if pass.Stopped? {
        return Aborted;
      } else if pass.Open? {
        return Unspecified;
      }
      RestUnchanged(before, dup[..], start, ptr);
      if pass.imaginary {
        allowim, im := false, pass.part;
      } else {
        allowre, re := false, pass.part;
      }
      if dup[ptr] == '\0' {
        return Parsed(re, im);
      }
    }
  }
}
