/** Printing and parsing unsigned numbers. */
module Numbers {
  import opened Arithmetic

  const MAX: nat := 0xFFFF_FFFF_FFFF_FFFF
  const NUMBUFSIZ: nat := 24

  // ----- Digits

  function DigitChar(d: nat, lower: bool): char
    requires d < 16
  {
    if lower then "0123456789abcdef"[d] else "0123456789ABCDEF"[d]
  }

  /** The digit the parser takes `c` for, or -1. The first test reaches past '9' when the base is over 10. */
  function DigitOf(c: char, base: nat): int {
    if '0' <= c && c as int < '0' as int + base then c as int - '0' as int
    else if base > 10 && 'a' <= c && c as int < 'a' as int + base - 10 then c as int - 'a' as int + 10
    else if base > 10 && 'A' <= c && c as int < 'A' as int + base - 10 then c as int - 'A' as int + 10
    else -1
  }

  /** Section 7.22.1.4 of C11: letters stand for 10 to 35, and only digits below the base are permitted. */
  function StandardDigit(c: char, base: nat): int {
    var d :=
      if '0' <= c <= '9' then c as int - '0' as int
      else if 'a' <= c <= 'z' then c as int - 'a' as int + 10
      else if 'A' <= c <= 'Z' then c as int - 'A' as int + 10
      else -1;
    if d < base then d else -1
  }

  /** The characters between '9' and '0' + base. */
  predicate Gap(c: char, base: nat) {
    '9' < c && c as int < '0' as int + base
  }

  /** The parser reads a character as the standard does except between '9' and '0' + base. */
  lemma DigitIsStandardIff(c: char, base: nat)
    requires 2 <= base <= 36
    ensures DigitOf(c, base) == StandardDigit(c, base) <==> !Gap(c, base)
    ensures Gap(c, base) ==> DigitOf(c, base) >= 0 && DigitOf(c, base) > StandardDigit(c, base)
  {
  }

  /** Values by Horner's rule, without a bound. */
  function Value(text: seq<char>, base: nat): int {
    if text == [] then 0 else Value(text[..|text| - 1], base) * base + DigitOf(text[|text| - 1], base)
  }

  predicate AllDigits(text: seq<char>, base: nat) {
    forall k: nat :: k < |text| ==> DigitOf(text[k], base) >= 0
  }

  /** The usual numeral. */
  function Digits(v: nat, base: nat, lower: bool): (r: seq<char>)
    requires 2 <= base <= 16
    ensures |r| >= 1
  {
    if v < base then [DigitChar(v, lower)]
    else Digits(v / base, base, lower) + [DigitChar(v % base, lower)]
  }

  lemma DigitCharReads(d: nat, base: nat, lower: bool)
    requires d < base <= 16
    ensures DigitOf(DigitChar(d, lower), base) == d
  {
  }

  lemma ValueSnoc(p: seq<char>, c: char, base: nat)
    ensures Value(p + [c], base) == Value(p, base) * base + DigitOf(c, base)
    ensures AllDigits(p + [c], base) <==> AllDigits(p, base) && DigitOf(c, base) >= 0
  {
    assert (p + [c])[..|p|] == p;
    assert (p + [c])[|p|] == c;
    assert forall k: nat :: k < |p| ==> (p + [c])[k] == p[k];
  }

  lemma Divides(v: nat, base: nat)
    requires base >= 2
    ensures v / base * base + v % base == v && v % base < base && (v > 0 ==> v / base < v)
            && (v < base <==> v / base == 0)
  {
    Parts(v, base);
    Sign(v / base, base);
  }

  lemma {:induction false} ValueOfDigits(v: nat, base: nat, lower: bool)
    requires 2 <= base <= 16
    ensures Value(Digits(v, base, lower), base) == v && AllDigits(Digits(v, base, lower), base)
  {
    hide Value, DigitOf, DigitChar, AllDigits;
    Divides(v, base);
    var d, q := v % base, v / base;
    DigitCharReads(d, base, lower);
    if v < base {
      NoDigits(base);
      ValueSnoc([], DigitChar(d, lower), base);
      assert [] + [DigitChar(d, lower)] == Digits(v, base, lower);
    } else {
      ValueOfDigits(q, base, lower);
      ValueSnoc(Digits(q, base, lower), DigitChar(d, lower), base);
    }
  }

  lemma NoDigits(base: nat)
    ensures Value([], base) == 0 && AllDigits([], base)
  {
  }

  /** A canonical numeral: digits as the printer writes them, no leading zero unless alone. */
  predicate Canonical(text: seq<char>, base: nat, lower: bool)
    requires base <= 16
  {
    && text != [] && (text[0] == '0' ==> |text| == 1)
    && forall k: nat :: k < |text| ==> exists d: nat :: d < base && text[k] == DigitChar(d, lower)
  }

  /** The other way round: printing the value of a canonical numeral gives it back. */
  lemma {:induction false} DigitsOfValue(text: seq<char>, base: nat, lower: bool)
    requires 2 <= base <= 16 && Canonical(text, base, lower)
    ensures Value(text, base) >= 0 && Digits(Value(text, base), base, lower) == text
    ensures text[0] != '0' ==> Value(text, base) > 0
  {
    hide Value, DigitOf, DigitChar, Digits;
    var n := |text| - 1;
    var d: nat :| d < base && text[n] == DigitChar(d, lower);
    DigitCharReads(d, base, lower);
    var p := text[..n];
    assert text == p + [text[n]];
    ValueSnoc(p, text[n], base);
    if n == 0 {
      NoDigits(base);
      ZeroDigit(d, lower);
      DigitsStep(d, base, lower, []);
    } else {
      DigitsOfValue(p, base, lower);
      Shift(Value(p, base), base, d);
      var v := Value(text, base);
      DigitsStep(v, base, lower, []);
      assert p + ([text[n]] + []) == text && Digits(v, base, lower) + [] == Digits(v, base, lower);
    }
  }

  lemma ZeroDigit(d: nat, lower: bool)
    requires d < 16
    ensures d == 0 <==> DigitChar(d, lower) == '0'
  {
  }

  lemma Shift(q: nat, base: nat, d: nat)
    requires d < base && q > 0
    ensures (q * base + d) / base == q && (q * base + d) % base == d && q * base + d >= base
  {
    DivUnique(q * base + d, base, q, d);
    Sign(q, base);
  }

  function Ten(k: nat): nat {
    if k == 0 then 1 else 10 * Ten(k - 1)
  }

  lemma {:induction false} DigitsShort(v: nat, base: nat, lower: bool, k: nat)
    requires 10 <= base <= 16 && 1 <= k && v < Ten(k)
    ensures |Digits(v, base, lower)| <= k
  {
    if v >= base {
      assert Ten(1) == 10;
      assert v / base <= v / 10 by { Smaller(v, base); }
      DigitsShort(v / base, base, lower, k - 1);
    }
  }

  lemma Smaller(v: nat, base: nat)
    requires base >= 10
    ensures v / base <= v / 10
  {
    var q := v / base;
    assert q * 10 <= q * base <= v;
  }

  /** The digits of any 64-bit number and the terminator fit the print buffer. */
  lemma DigitsFit(v: nat, base: nat, lower: bool)
    requires 10 <= base <= 16 && v <= MAX
    ensures |Digits(v, base, lower)| + 1 <= 21 < NUMBUFSIZ
  {
    assert Ten(5) == 100_000;
    assert Ten(10) == 10_000_000_000;
    assert Ten(15) == 1_000_000_000_000_000;
    assert Ten(20) == 100_000_000_000_000_000_000;
    DigitsShort(v, base, lower, 20);
  }

  // ----- fill_numbuf

  /** Write the digits of `val` and a terminator so that they end at `end`; a negative base asks for lower case. */
  method FillNumbuf(numbuf: array<char>, end: nat, val: nat, base: int) returns (at: nat)
    requires 2 <= base <= 16 || -16 <= base <= -2
    requires val <= MAX && |Digits(val, if base < 0 then -base else base, base < 0)| < end <= numbuf.Length
    modifies numbuf
    ensures at < end && numbuf[at..end] == Digits(val, if base < 0 then -base else base, base < 0) + ['\0']
    ensures numbuf[..at] == old(numbuf[..at]) && numbuf[end..] == old(numbuf[end..])
    // which characters: capital letters for a positive base, small ones for a negative; read as C11 reads them they
    // are the number, without leading zeros
    ensures var text := numbuf[at..end]; var n := |text| - 1;
            && n > 0 && text[n] == '\0' && (text[0] == '0' ==> n == 1)
            && (forall i: nat :: i < n ==>
                  '0' <= text[i] <= '9' || (base < 0 && 'a' <= text[i] <= 'f') || (base > 0 && 'A' <= text[i] <= 'F'))
            && AllStandard(text[..n], if base < 0 then -base else base)
            && StandardValue(text[..n], if base < 0 then -base else base) == val
  {
    hide DigitChar, Digits, StandardDigit, StandardValue, AllStandard;
    var lower := base < 0;
    var b: nat := if base < 0 then -base else base;
    at := end - 1;
    numbuf[at] := '\0';
    var v: nat := val;
    ghost var all := Digits(val, b, lower);
    assert all + numbuf[at..end] == all + ['\0'];
    var more := true;
    while more
      invariant at < end
      invariant more ==> |Digits(v, b, lower)| <= at && Digits(v, b, lower) + numbuf[at..end] == all + ['\0']
      invariant !more ==> numbuf[at..end] == all + ['\0']
      invariant numbuf[..at] == old(numbuf[..])[..at] && numbuf[end..] == old(numbuf[end..])
      decreases more, v
    {
      ghost var rest := numbuf[at..end];
      Shrinks(v, b);
      DigitsStep(v, b, lower, rest);
      at := Prepend(numbuf, at, end, DigitChar(v % b, lower));
      v := v / b;
      more := v != 0;
    }
    Printed(val, b, lower, numbuf[at..end]);
  }

  lemma Printed(v: nat, base: nat, lower: bool, text: seq<char>)
    requires 2 <= base <= 16 && text == Digits(v, base, lower) + ['\0']
    ensures var n := |text| - 1;
            && n > 0 && text[n] == '\0' && (text[0] == '0' ==> n == 1)
            && (forall i: nat :: i < n ==>
                  '0' <= text[i] <= '9' || (lower && 'a' <= text[i] <= 'f') || (!lower && 'A' <= text[i] <= 'F'))
            && AllStandard(text[..n], base) && StandardValue(text[..n], base) == v
  {
    hide Digits, StandardDigit, StandardValue, AllStandard;
    DigitsAre(v, base, lower);
    NumeralStart(v, base, lower);
    assert text[..|text| - 1] == Digits(v, base, lower);
  }

  /** The characters of a numeral, its length, and its value as C11 reads it. */
  lemma {:induction false} DigitsAre(v: nat, base: nat, lower: bool)
    requires 2 <= base <= 16
    ensures var d := Digits(v, base, lower);
            && (forall i: nat :: i < |d| ==>
                  '0' <= d[i] <= '9' || (lower && 'a' <= d[i] <= 'f') || (!lower && 'A' <= d[i] <= 'F'))
            && AllStandard(d, base) && StandardValue(d, base) == v
  {
    hide StandardDigit, DigitChar, StandardValue, AllStandard;
    Divides(v, base);
    DigitCharIs(v % base, base, lower);
    var c, p := DigitChar(v % base, lower), if v < base then [] else Digits(v / base, base, lower);
    StandardSnoc(p, c, base);
    if v < base {
      NoStandardDigits(base);
      assert p + [c] == Digits(v, base, lower);
    } else {
      DigitsAre(v / base, base, lower);
    }
  }

  lemma StandardSnoc(p: seq<char>, c: char, base: nat)
    ensures StandardValue(p + [c], base) == StandardValue(p, base) * base + StandardDigit(c, base)
    ensures AllStandard(p + [c], base) <==> AllStandard(p, base) && StandardDigit(c, base) >= 0
  {
    assert (p + [c])[..|p|] == p;
    assert (p + [c])[|p|] == c;
    assert forall k: nat :: k < |p| ==> (p + [c])[k] == p[k];
  }

  lemma NoStandardDigits(base: nat)
    ensures StandardValue([], base) == 0 && AllStandard([], base)
  {
  }

  lemma DigitCharIs(d: nat, base: nat, lower: bool)
    requires d < base <= 16
    ensures var c := DigitChar(d, lower);
            && ('0' <= c <= '9' || (lower && 'a' <= c <= 'f') || (!lower && 'A' <= c <= 'F'))
            && StandardDigit(c, base) == d
  {
  }

  lemma NumeralStart(v: nat, base: nat, lower: bool)
    requires 2 <= base <= 16
    ensures var d := Digits(v, base, lower); d[0] == '0' ==> |d| == 1
  {
    hide DigitChar;
    PlainStart(v, base, lower);
  }

  /** `*--p = c`. */
  method Prepend(a: array<char>, p: nat, end: nat, c: char) returns (at: nat)
    requires 0 < p <= end <= a.Length
    modifies a
    ensures at == p - 1 && a[at..end] == [c] + old(a[p..end])
    ensures a[..at] == old(a[..p])[..at] && a[end..] == old(a[end..])
  {
    at := p - 1;
    a[at] := c;
  }

  lemma Shrinks(v: nat, base: nat)
    requires base >= 2
    ensures v % base < base && (v > 0 ==> v / base < v) && (v < base <==> v / base == 0)
  {
    Divides(v, base);
  }

  /** Moving one digit from the number to the text behind it. */
  lemma DigitsStep(v: nat, base: nat, lower: bool, rest: seq<char>)
    requires 2 <= base <= 16
    ensures v < base ==> v % base == v && Digits(v, base, lower) == [DigitChar(v, lower)]
    ensures v >= base ==>
              && |Digits(v / base, base, lower)| + 1 == |Digits(v, base, lower)|
              && Digits(v / base, base, lower) + ([DigitChar(v % base, lower)] + rest) == Digits(v, base, lower) + rest
  {
    hide DigitChar;
    Divides(v, base);
  }

  // ----- strtoul

  /** A string in memory ends with a zero byte. */
  function At(s: seq<char>, i: nat): char {
    if i < |s| then s[i] else '\0'
  }

  function IsSpace(c: char): bool {
    (9 <= c as int <= 13) || c == ' '
  }

  function SkipSpace(s: seq<char>, i: nat): (r: nat)
    ensures i <= |s| ==> i <= r <= |s|
    decreases |s| - i
  {
    if i < |s| && IsSpace(s[i]) then SkipSpace(s, i + 1) else i
  }

  function AfterSign(s: seq<char>, i: nat): (r: nat)
    ensures i <= |s| ==> i <= r <= |s|
  {
    if At(s, i) == '-' || At(s, i) == '+' then i + 1 else i
  }

  function HexPrefix(s: seq<char>, i: nat): bool {
    At(s, i) == '0' && (At(s, i + 1) == 'x' || At(s, i + 1) == 'X')
  }

  /** Where the digits begin, and in which base. */
  function Begin(s: seq<char>, i: nat, base: nat): (r: (nat, nat))
    ensures i <= |s| ==> i <= r.0 <= |s|
  {
    if (base == 0 || base == 16) && HexPrefix(s, i) then (i + 2, 16)
    else if base == 0 then (i, if At(s, i) == '0' then 8 else 10)
    else (i, base)
  }

  function DigitsFrom(s: seq<char>, base: nat): (nat, nat) {
    Begin(s, AfterSign(s, SkipSpace(s, 0)), base)
  }

  function Saturated(v: int, negative: bool): int {
    var x := if v > MAX then MAX else v;
    if negative && x != 0 then MAX + 1 - x else x
  }

  lemma {:induction false} ValueNonNegative(text: seq<char>, base: nat)
    requires AllDigits(text, base)
    ensures Value(text, base) >= 0
  {
    hide DigitOf, Value;
    if text == [] {
      NoDigits(base);
    } else {
      var n := |text| - 1;
      assert text == text[..n] + [text[n]];
      ValueSnoc(text[..n], text[n], base);
      ValueNonNegative(text[..n], base);
      Scale(0, Value(text[..n], base), base);
    }
  }

  /** The overflow test is exact. */
  lemma OverflowTest(x: nat, d: nat, base: nat)
    requires base > 0 && d <= MAX
    ensures x > (MAX - d) / base <==> x * base + d > MAX
  {
    var q := (MAX - d) / base;
    Floor(MAX - d, base);
    if x > q {
      Scale(q + 1, x, base);
    } else {
      Scale(x, q, base);
    }
  }

  // ----- What section 7.22.1.4 of C11 asks of strtoul

  /** Where the digits of the subject sequence begin and their base: a hexadecimal prefix belongs to it only if a
      hexadecimal digit follows. */
  function StandardBegin(s: seq<char>, i: nat, base: nat): (r: (nat, nat))
    ensures i <= |s| ==> i <= r.0 <= |s|
  {
    if (base == 0 || base == 16) && HexPrefix(s, i) && StandardDigit(At(s, i + 2), 16) >= 0 then (i + 2, 16)
    else if base == 0 then (i, if At(s, i) == '0' then 8 else 10)
    else (i, base)
  }

  /** The end of the longest run of digits from `i`. */
  function StandardEnd(s: seq<char>, i: nat, base: nat): (r: nat)
    ensures i <= |s| ==> i <= r <= |s|
    ensures i <= |s| ==> StandardDigit(At(s, r), base) < 0 || r >= |s|
    ensures i <= |s| ==> forall k: nat :: i <= k < r ==> StandardDigit(s[k], base) >= 0
    decreases |s| - i
  {
    if i < |s| && StandardDigit(s[i], base) >= 0 then StandardEnd(s, i + 1, base) else i
  }

  function StandardValue(text: seq<char>, base: nat): int {
    if text == [] then 0 else StandardValue(text[..|text| - 1], base) * base + StandardDigit(text[|text| - 1], base)
  }

  /** A value out of range gives 2^64 - 1, with a minus or without; others are negated after a minus. */
  function StandardResult(v: int, negative: bool): int {
    if v > MAX then MAX else if negative && v != 0 then MAX + 1 - v else v
  }

  function BodyStart(s: seq<char>): (r: nat)
    ensures r <= |s|
  {
    AfterSign(s, SkipSpace(s, 0))
  }

  predicate Negative(s: seq<char>) {
    At(s, SkipSpace(s, 0)) == '-'
  }

  /** The result and the end that C11 prescribes; an empty subject sequence gives 0 and the start of the string. */
  function Standard(s: seq<char>, base: nat): (int, nat) {
    var (from, b) := StandardBegin(s, BodyStart(s), base);
    var end := StandardEnd(s, from, b);
    if end == from then (0, 0) else (StandardResult(StandardValue(s[from..end], b), Negative(s)), end)
  }

  predicate BarePrefix(s: seq<char>, base: nat) {
    (base == 0 || base == 16) && HexPrefix(s, BodyStart(s)) && StandardDigit(At(s, BodyStart(s) + 2), 16) < 0
  }

  predicate HasGap(text: seq<char>, base: nat) {
    exists k: nat :: k < |text| && Gap(text[k], base)
  }

  /** When `strtoul` does what C11 asks: no hexadecimal prefix without a digit; some digit, or nothing skipped;
      no gap character right after the digits; no value out of range after a minus; and no gap character among the
      digits (in bases over 17 they include capital letters) unless the value is the largest or more anyway. */
  predicate Conforms(s: seq<char>, base: nat) {
    var (from, b) := StandardBegin(s, BodyStart(s), base);
    var end := StandardEnd(s, from, b);
    var v := StandardValue(s[from..end], b);
    && !BarePrefix(s, base)
    && (end > from || BodyStart(s) == 0)
    && !Gap(At(s, end), b)
    && (Negative(s) ==> v <= MAX)
    && (HasGap(s[from..end], b) ==> v >= MAX)
  }

  predicate AllStandard(text: seq<char>, base: nat) {
    forall k: nat :: k < |text| ==> StandardDigit(text[k], base) >= 0
  }

  /** The parser's value is the standard's, and more if a gap character is among the digits. */
  lemma {:induction false} ValueCompare(text: seq<char>, base: nat)
    requires 2 <= base <= 36 && AllStandard(text, base)
    ensures Value(text, base) >= StandardValue(text, base) >= 0
    ensures Value(text, base) > StandardValue(text, base) <==> HasGap(text, base)
  {
    if text != [] {
      var n := |text| - 1;
      var p, c := text[..n], text[n];
      ValueCompare(p, base);
      assert text == p + [c];
      DigitIsStandardIff(c, base);
      hide DigitOf, StandardDigit, Gap;
      GapSnoc(p, c, base);
      Scale(StandardValue(p, base), Value(p, base), base);
      Scale(0, StandardValue(p, base), base);
      if HasGap(p, base) {
        Scale(StandardValue(p, base) + 1, Value(p, base), base);
        More(StandardValue(p, base), base);
      }
    }
  }

  lemma GapSnoc(p: seq<char>, c: char, base: nat)
    ensures HasGap(p + [c], base) <==> HasGap(p, base) || Gap(c, base)
  {
    if HasGap(p, base) {
      var k: nat :| k < |p| && Gap(p[k], base);
      assert Gap((p + [c])[k], base);
    }
    if Gap(c, base) {
      assert Gap((p + [c])[|p|], base);
    }
  }

  lemma ResultsAgreeIff(v: int, w: int, negative: bool)
    requires v >= w >= 0
    ensures Saturated(v, negative) == StandardResult(w, negative) <==> (negative ==> w <= MAX) && (v > w ==> w >= MAX)
  {
  }

  /** The parser's run of digits contains the standard's, and goes on exactly if a gap character follows that. */
  lemma RunsAgreeIff(s: seq<char>, from: nat, base: nat, end: nat)
    requires 2 <= base <= 36 && from <= end <= |s| && AllDigits(s[from..end], base) && DigitOf(At(s, end), base) < 0
    ensures var e := StandardEnd(s, from, base); e <= end && (e == end <==> !Gap(At(s, e), base))
  {
    var e := StandardEnd(s, from, base);
    DigitIsStandardIff(At(s, end), base);
    DigitIsStandardIff(At(s, e), base);
    hide DigitOf, StandardDigit, Gap;
    StandardIsDigit(base);
    if e < end {
      assert DigitOf(s[from..end][e - from], base) >= 0;
    }
  }

  lemma StandardIsDigit(base: nat)
    requires 2 <= base <= 36
    ensures forall c: char :: StandardDigit(c, base) >= 0 ==> DigitOf(c, base) >= 0
    ensures StandardDigit('\0', base) < 0
  {
    forall c: char | StandardDigit(c, base) >= 0 ensures DigitOf(c, base) >= 0 {
      DigitIsStandardIff(c, base);
    }
  }

  /** Any result that is right for the parser's own reading is C11's exactly when the text conforms. */
  lemma ConformsIff(s: seq<char>, base: nat, x: int, end: nat)
    requires base == 0 || 2 <= base <= 36
    requires var (from, b) := DigitsFrom(s, base);
             && from <= end <= |s| && AllDigits(s[from..end], b) && DigitOf(At(s, end), b) < 0
             && x == Saturated(Value(s[from..end], b), Negative(s))
    ensures (x, end) == Standard(s, base) <==> Conforms(s, base)
  {
    hide Value, StandardValue, DigitOf, AllDigits, Saturated, StandardResult, SkipSpace, Gap, HasGap;
    var i := BodyStart(s);
    if BarePrefix(s, base) {
      BarePrefixEnds(s, base);
    } else {
      var (from, b) := DigitsFrom(s, base);
      assert (from, b) == StandardBegin(s, i, base);
      RunsAgreeIff(s, from, b, end);
      var e := StandardEnd(s, from, b);
      if e == end {
        StandardRun(s, from, b);
        ValueCompare(s[from..e], b);
        ResultsAgreeIff(Value(s[from..e], b), StandardValue(s[from..e], b), Negative(s));
        if e == from {
          NothingRead(s, b);
        }
      }
    }
  }

  lemma StandardRun(s: seq<char>, from: nat, base: nat)
    requires from <= |s|
    ensures AllStandard(s[from..StandardEnd(s, from, base)], base)
  {
  }

  /** Without digits and without anything skipped both give 0 and the start. */
  lemma NothingRead(s: seq<char>, base: nat)
    ensures Value([], base) == StandardValue([], base) == 0 && !HasGap([], base)
    ensures BodyStart(s) == 0 ==> !Negative(s)
    ensures Saturated(0, Negative(s)) == 0
  {
  }

  lemma BarePrefixEnds(s: seq<char>, base: nat)
    requires BarePrefix(s, base)
    ensures Standard(s, base).1 == BodyStart(s) + 1 && DigitsFrom(s, base).0 == BodyStart(s) + 2
  {
    var i := BodyStart(s);
    var (from, b) := StandardBegin(s, i, base);
    assert from == i && (b == 8 || b == 16);
    assert StandardEnd(s, i, b) == StandardEnd(s, i + 1, b) == i + 1;
  }

  /** `strtoul`: the longest run of digits after blanks, sign and prefix; its exact value, or 2^64 - 1. */
  method Strtoul(s: seq<char>, base: nat) returns (x: nat, end: nat)
    requires base == 0 || 2 <= base <= 36
    ensures var (from, b) := DigitsFrom(s, base);
            && from <= end <= |s| && AllDigits(s[from..end], b) && DigitOf(At(s, end), b) < 0
            && x == Saturated(Value(s[from..end], b), Negative(s))
    ensures x <= MAX
    ensures (x, end) == Standard(s, base) <==> Conforms(s, base)
  {
    hide Value, AllDigits, DigitOf, Standard, Conforms;
    var i := 0;
    while IsSpace(At(s, i))
      invariant i <= |s| && SkipSpace(s, i) == SkipSpace(s, 0)
      decreases |s| - i
    {
      i := i + 1;
    }
    var negative := At(s, i) == '-';
    i := if negative || At(s, i) == '+' then i + 1 else i;
    var b := base;
    if b == 0 {
      if HexPrefix(s, i) {
        b, i := 16, i + 2;
      } else if At(s, i) == '0' {
        b := 8;
      } else {
        b := 10;
      }
    } else if b == 16 && HexPrefix(s, i) {
      i := i + 2;
    }
    var v, overflow;
    v, overflow, end := ReadDigits(s, i, b);
    x := if overflow then MAX else v;
    x := if negative then (MAX + 1 - x) % (MAX + 1) else x;
    ConformsIff(s, base, x, end);
  }

  lemma DigitBelow(c: char, base: nat)
    requires 2 <= base <= 36
    ensures DigitOf(c, base) < base && DigitOf('\0', base) < 0
  {
  }

  /** One pass of the digit loop: `x` and `overflow` tell the value of the digits so far. */
  lemma DigitStep(text: seq<char>, c: char, base: nat, x: nat, overflow: bool)
    requires base > 0 && AllDigits(text, base) && 0 <= DigitOf(c, base) < 36 && x <= MAX
    requires (overflow <==> Value(text, base) > MAX) && (!overflow ==> x == Value(text, base))
    ensures AllDigits(text + [c], base)
    ensures var d := DigitOf(c, base);
            var big := x > (MAX - d) / base;
            && (overflow || big <==> Value(text + [c], base) > MAX)
            && (!(overflow || big) ==> x * base + d == Value(text + [c], base))
            && (!big ==> x * base + d <= MAX)
  {
    hide Value, AllDigits, DigitOf;
    var v := Value(text, base);
    ValueNonNegative(text, base);
    ValueSnoc(text, c, base);
    OverflowTest(x, DigitOf(c, base), base);
    Scale(1, base, v);
    Swap(v, base);
  }

  /** The digit loop of `strtoul`. */
  method ReadDigits(s: seq<char>, from: nat, base: nat) returns (x: nat, overflow: bool, end: nat)
    requires from <= |s| && 2 <= base <= 36
    ensures from <= end <= |s| && AllDigits(s[from..end], base) && DigitOf(At(s, end), base) < 0
    ensures x <= MAX && (overflow <==> Value(s[from..end], base) > MAX)
    ensures !overflow ==> x == Value(s[from..end], base)
  {
    hide Value, AllDigits, DigitOf;
    NoDigits(base);
    DigitBelow('0', base);
    assert s[from..from] == [];
    x, overflow, end := 0, false, from;
    while DigitOf(At(s, end), base) >= 0
      invariant from <= end <= |s| && x <= MAX && AllDigits(s[from..end], base)
      invariant overflow <==> Value(s[from..end], base) > MAX
      invariant !overflow ==> x == Value(s[from..end], base)
      decreases |s| - end
    {
      var d := DigitOf(At(s, end), base);
      DigitBelow(s[end], base);
      assert s[from..end + 1] == s[from..end] + [s[end]];
      DigitStep(s[from..end], s[end], base, x, overflow);
      if x > (MAX - d) / base {
        overflow := true;
      } else {
        x := x * base + d;
      }
      end := end + 1;
    }
  }

  // ----- One text for each way to fail

  /** "0xg" in base 16: C11 reads the zero and stops at the x. */
  lemma BarePrefixFails()
    ensures !Conforms("0xg", 16) && Standard("0xg", 16).1 == 1
  {
    assert BodyStart("0xg") == 0;
    BarePrefixEnds("0xg", 16);
  }

  /** " -z" in base 10: no digit, and C11 gives back the start of the string. */
  lemma SkippedWithoutDigitFails()
    ensures !Conforms(" -z", 10) && Standard(" -z", 10) == (0, 0) && BodyStart(" -z") == 2
  {
    assert SkipSpace(" -z", 0) == SkipSpace(" -z", 1) == 1;
  }

  /** "1:" in base 16: C11 stops at the colon, the parser takes it for the digit 10. */
  lemma GapAfterFails()
    ensures !Conforms("1:", 16) && Standard("1:", 16).1 == 1 && DigitOf(':', 16) == 10
  {
    assert BodyStart("1:") == 0;
    assert StandardEnd("1:", 0, 16) == StandardEnd("1:", 1, 16) == 1;
  }

  /** "A" in base 36: 10 in C11, 17 for the parser. */
  lemma GapAmongFails()
    ensures !Conforms("A", 36) && StandardDigit('A', 36) == 10 && DigitOf('A', 36) == 17
  {
    var s := "A";
    assert BodyStart(s) == 0;
    assert StandardEnd(s, 0, 36) == StandardEnd(s, 1, 36) == 1;
    assert s[0..1] == s && Gap(s[0], 36);
    assert HasGap(s, 36);
    assert s[..0] == [];
    assert StandardValue(s, 36) == 10;
  }

  /** A minus and the numeral of 2^64: C11 gives 2^64 - 1, the parser 1. */
  lemma MinusOverflowFails()
    ensures var s := "-" + Digits(MAX + 1, 10, false);
            !Conforms(s, 10) && Standard(s, 10).0 == MAX && Saturated(MAX + 1, true) == 1
  {
    hide DigitOf, StandardDigit, DigitChar;
    var d := Digits(MAX + 1, 10, false);
    var s := "-" + d;
    ValueOfDigits(MAX + 1, 10, false);
    assert SkipSpace(s, 0) == 0 && BodyStart(s) == 1;
    AllRead(s, d, 10);
  }

  /** In base 10 a text that is all digits after its first character is read to its end. */
  lemma AllRead(s: seq<char>, d: seq<char>, base: nat)
    requires 2 <= base <= 10 && |s| == |d| + 1 && s[1..] == d && AllDigits(d, base)
    ensures StandardEnd(s, 1, base) == |s| && s[1..StandardEnd(s, 1, base)] == d
    ensures StandardValue(d, base) == Value(d, base)
  {
    var e := StandardEnd(s, 1, base);
    if e < |s| {
      assert s[e] == d[e - 1];
      DigitIsStandardIff(d[e - 1], base);
    }
    assert s[1..|s|] == d;
    forall k: nat | k < |d| ensures StandardDigit(d[k], base) >= 0 && !Gap(d[k], base) {
      DigitIsStandardIff(d[k], base);
    }
    ValueCompare(d, base);
  }

  // ----- Printing, then parsing

  /** A numeral begins with no blank, sign or hexadecimal prefix. */
  lemma {:induction false} PlainStart(v: nat, base: nat, lower: bool)
    requires 2 <= base <= 16
    ensures var d := Digits(v, base, lower);
            && !IsSpace(d[0]) && d[0] != '-' && d[0] != '+' && (d[0] == '0' ==> v == 0)
            && (forall k: nat :: k < |d| ==> d[k] != 'x' && d[k] != 'X')
  {
    if v >= base {
      Divides(v, base);
      PlainStart(v / base, base, lower);
    }
  }

  /** Which bases a parser may be given for text printed in base `b`: the same, or 0 for decimal. */
  predicate Reads(base: nat, b: nat) {
    base == b || (base == 0 && b == 10)
  }

  lemma DigitsFromHere(v: nat, b: nat, lower: bool, base: nat, text: seq<char>)
    requires 2 <= b <= 16 && Reads(base, b) && text == Digits(v, b, lower) + ['\0']
    ensures DigitsFrom(text, base) == (0, if base == 0 && v == 0 then 8 else b) && SkipSpace(text, 0) == 0
            && text[0] != '-'
  {
    hide DigitChar;
    var d := Digits(v, b, lower);
    PlainStart(v, b, lower);
    assert text[0] == d[0];
    assert !HexPrefix(text, 0) by {
      assert text[1] == '\0' || text[1] == d[1];
    }
    FirstDigit(v, b, lower);
  }

  lemma FirstDigit(v: nat, b: nat, lower: bool)
    requires 2 <= b <= 16
    ensures v == 0 ==> Digits(v, b, lower) == ['0']
  {
  }

  /** The one place where a run of digits can end. */
  lemma RunEnds(text: seq<char>, d: seq<char>, b: nat, end: nat)
    requires 2 <= b <= 36 && text == d + ['\0'] && end <= |text| && AllDigits(d, b)
    requires AllDigits(text[0..end], b) && DigitOf(At(text, end), b) < 0
    ensures end == |d| && text[0..end] == d
  {
    hide DigitOf, AllDigits, At;
    StillDigits(text, d, b, end);
    TerminatorEnds(text, d, b, end);
    assert text[0..|d|] == d;
  }

  lemma StillDigits(text: seq<char>, d: seq<char>, b: nat, end: nat)
    requires text == d + ['\0'] && AllDigits(d, b)
    ensures end < |d| ==> DigitOf(At(text, end), b) >= 0
  {
  }

  lemma TerminatorEnds(text: seq<char>, d: seq<char>, b: nat, end: nat)
    requires 2 <= b <= 36 && text == d + ['\0'] && end <= |text|
    ensures end > |d| ==> !AllDigits(text[0..end], b)
  {
    if end > |d| {
      assert text[0..end][|d|] == '\0';
      DigitBelow('0', b);
    }
  }

  /** Print into a buffer of the printer's size, then parse: the number comes back, and the parser stops at
      the terminator. Base -16 prints in lower case; decimal text may also be parsed with base 0. */
  method PrintParse(val: nat, base: int, parseBase: nat) returns (x: nat, text: seq<char>, end: nat)
    requires val <= MAX && (base == 10 || base == 16 || base == -16)
    requires Reads(parseBase, if base < 0 then -base else base)
    ensures x == val && end == |text| - 1 && text[end] == '\0' && |text| <= NUMBUFSIZ
    ensures AllDigits(text[..end], if base < 0 then -base else base) && (text[0] == '0' ==> end == 1)
  {
    hide Digits, DigitChar, Value, AllDigits, DigitOf, DigitsFrom, SkipSpace, AllStandard, StandardValue, Conforms;
    ghost var b: nat := if base < 0 then -base else base;
    ghost var d := Digits(val, b, base < 0);
    DigitsFit(val, b, base < 0);
    var numbuf := new char[NUMBUFSIZ];
    var at := FillNumbuf(numbuf, NUMBUFSIZ, val, base);
    text := numbuf[at..NUMBUFSIZ];
    DigitsFromHere(val, b, base < 0, parseBase, text);
    PlainStart(val, b, base < 0);
    ValueOfDigits(val, b, base < 0);
    x, end := Strtoul(text, parseBase);
    FirstDigit(val, b, base < 0);
    if parseBase == 0 && val == 0 {
      ValueOfDigits(0, 8, false);
      FirstDigit(0, 8, false);
      RunEnds(text, d, 8, end);
    } else {
      RunEnds(text, d, b, end);
    }
    assert text[..end] == text[0..end];
  }

  // ----- Parsing what a person may write

  /** Blanks, a sign, a prefix and a numeral in base `b`, as the parser is to read it when given `base`. */
  predicate Written(blanks: seq<char>, sign: seq<char>, prefix: seq<char>, v: nat, b: nat, base: nat) {
    && (forall k: nat :: k < |blanks| ==> blanks[k] == ' ' || 9 <= blanks[k] as int <= 13)
    && (sign == "" || sign == "+" || sign == "-")
    && (|| (prefix == "" && base == b)
        || ((prefix == "0x" || prefix == "0X") && b == 16 && (base == 16 || base == 0))
        || (prefix == "0" && b == 8 && base == 0)
        || (prefix == "" && b == 10 && base == 0 && v > 0))
  }

  lemma {:induction false} SkipBlanks(s: seq<char>, n: nat, i: nat)
    requires i <= n <= |s| && (forall k: nat :: i <= k < n ==> IsSpace(s[k])) && !IsSpace(At(s, n))
    ensures SkipSpace(s, i) == n
    decreases n - i
  {
    if i < n { SkipBlanks(s, n, i + 1); }
  }

  /** Where the parser begins in such a text. */
  lemma WrittenStart(blanks: seq<char>, sign: seq<char>, prefix: seq<char>, v: nat, b: nat, lower: bool, base: nat)
    requires 2 <= b <= 16 && Written(blanks, sign, prefix, v, b, base)
    ensures var text := blanks + sign + prefix + Digits(v, b, lower);
            var i := |blanks| + |sign|;
            && DigitsFrom(text, base) == (if prefix == "0" then i else i + |prefix|, b)
            && (Negative(text) <==> sign == "-")
  {
    hide Digits, SkipSpace, At, IsSpace;
    var d := Digits(v, b, lower);
    var tail := prefix + d;
    var text := blanks + sign + tail;
    assert text == blanks + sign + prefix + d;
    TailStart(prefix, v, b, lower);
    PlainStart(v, b, lower);
    BlanksAndSign(blanks, sign, tail);
    AtTail(blanks + sign, tail, 0);
    AtTail(blanks + sign, tail, 1);
    assert |blanks + sign| == |blanks| + |sign|;
  }

  lemma AtTail(a: seq<char>, b: seq<char>, k: nat)
    ensures At(a + b, |a| + k) == At(b, k)
  {
  }

  /** The first two characters after blanks and sign. */
  lemma TailStart(prefix: seq<char>, v: nat, b: nat, lower: bool)
    requires 2 <= b <= 16 && prefix in ["", "0", "0x", "0X"]
    ensures var tail, d := prefix + Digits(v, b, lower), Digits(v, b, lower);
            && At(tail, 0) == (if prefix == "" then d[0] else '0')
            && At(tail, 1) == (if |prefix| == 2 then prefix[1] else if prefix == "0" then d[0] else At(d, 1))
            && (At(d, 1) != 'x' && At(d, 1) != 'X') && !IsSpace(At(tail, 0)) && At(tail, 0) != '-' && At(tail, 0) != '+'
  {
    hide Digits;
    PlainStart(v, b, lower);
  }

  lemma BlanksAndSign(blanks: seq<char>, sign: seq<char>, tail: seq<char>)
    requires forall k: nat :: k < |blanks| ==> blanks[k] == ' ' || 9 <= blanks[k] as int <= 13
    requires sign == "" || sign == "+" || sign == "-"
    requires !IsSpace(At(tail, 0)) && At(tail, 0) != '-' && At(tail, 0) != '+'
    ensures var text := blanks + sign + tail;
            && SkipSpace(text, 0) == |blanks| && AfterSign(text, |blanks|) == |blanks| + |sign|
            && (At(text, |blanks|) == '-' <==> sign == "-")
  {
    var text := blanks + sign + tail;
    assert text == blanks + (sign + tail);
    AtTail(blanks, sign + tail, 0);
    assert sign == "" ==> sign + tail == tail;
    forall k: nat | k < |blanks| ensures IsSpace(text[k]) { assert text[k] == blanks[k]; }
    SkipBlanks(text, |blanks|, 0);
  }

  lemma ReadToEnd(text: seq<char>, from: nat, d: seq<char>, b: nat, end: nat)
    requires from <= end <= |text| && text[from..] == d && AllDigits(d, b) && DigitOf(At(text, end), b) < 0
    ensures end == |text| && text[from..end] == d
  {
    StillInside(text, from, d, b, end);
    assert text[from..|text|] == d;
  }

  lemma StillInside(text: seq<char>, from: nat, d: seq<char>, b: nat, end: nat)
    requires from <= end <= |text| && text[from..] == d && AllDigits(d, b)
    ensures end < |text| ==> DigitOf(At(text, end), b) >= 0
  {
    if end < |text| {
      assert text[end] == d[end - from];
    }
  }

  lemma {:induction false} LeadingZero(d: seq<char>, b: nat)
    requires b >= 2 && AllDigits(d, b)
    ensures Value("0" + d, b) == Value(d, b) && AllDigits("0" + d, b)
  {
    if d == [] {
      assert "0" + d == [] + ['0'];
      ValueSnoc([], '0', b);
      NoDigits(b);
      assert Value("0", b) == 0 * b + 0;
    } else {
      var n := |d| - 1;
      assert d == d[..n] + [d[n]];
      assert "0" + d == ("0" + d[..n]) + [d[n]];
      LeadingZero(d[..n], b);
      hide Value, AllDigits, DigitOf;
      ValueSnoc(d[..n], d[n], b);
      ValueSnoc("0" + d[..n], d[n], b);
    }
  }

  /** Such a text is read to its end, and the result is the number, or its negative modulo 2^64 after a minus. */
  method ReadWritten(blanks: seq<char>, sign: seq<char>, prefix: seq<char>, v: nat, b: nat, lower: bool, base: nat)
    returns (x: nat, end: nat)
    requires 2 <= b <= 16 && v <= MAX && Written(blanks, sign, prefix, v, b, base)
    ensures end == |blanks + sign + prefix + Digits(v, b, lower)|
    ensures x == if sign == "-" && v > 0 then 0x1_0000_0000_0000_0000 - v else v
  {
    hide Digits, DigitChar, Value, AllDigits, DigitOf, DigitsFrom, Negative, Conforms, Standard;
    var d := Digits(v, b, lower);
    var text := blanks + sign + prefix + d;
    WrittenStart(blanks, sign, prefix, v, b, lower, base);
    ValueOfDigits(v, b, lower);
    x, end := Strtoul(text, base);
    if prefix == "0" {
      LeadingZero(d, b);
      ReadToEnd(text, |blanks| + |sign|, prefix + d, b, end);
    } else {
      ReadToEnd(text, |blanks| + |sign| + |prefix|, d, b, end);
    }
  }
}
