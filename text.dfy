/**
 * The few Python `str` operations the dashboard relies on: `strip()`,
 * `lower()`, the substring test `needle in hay`, and decimal formatting of
 * counts (`f"{n}"`), together with the ASCII digit reading used by the date
 * parser.
 */
module PyText {

  /** Python's `str.isspace()` for a single character: the 29 code points it accepts. */
  predicate IsSpace(c: char) {
    ('\t' <= c <= '\r') || ('\U{1C}' <= c <= '\U{1F}') || c == ' ' || c == '\U{85}' || c == '\U{A0}' ||
    c == '\U{1680}' || ('\U{2000}' <= c <= '\U{200A}') || c == '\U{2028}' || c == '\U{2029}' ||
    c == '\U{202F}' || c == '\U{205F}' || c == '\U{3000}'
  }

  /** Drops the maximal run of leading whitespace. */
  function StripLeading(s: string): (r: string)
    ensures |r| <= |s| && r == s[|s| - |r|..]
    ensures forall k :: 0 <= k < |s| - |r| ==> IsSpace(s[k])
    ensures r != [] ==> !IsSpace(r[0])
  {
    if |s| > 0 && IsSpace(s[0]) then StripLeading(s[1..]) else s
  }

  /** Drops the maximal run of trailing whitespace. */
  function StripTrailing(s: string): (r: string)
    ensures |r| <= |s| && r == s[..|r|]
    ensures forall k :: |r| <= k < |s| ==> IsSpace(s[k])
    ensures r != [] ==> !IsSpace(r[|r| - 1])
  {
    if |s| > 0 && IsSpace(s[|s| - 1]) then StripTrailing(s[..|s| - 1]) else s
  }

  /** `r` is `s[i..j]`, everything cut off is whitespace, and `r` neither starts nor ends with whitespace. */
  ghost predicate StrippedAt(r: string, s: string, i: int, j: int) {
    0 <= i <= j <= |s| && r == s[i..j] &&
    (forall k :: 0 <= k < i ==> IsSpace(s[k])) &&
    (forall k :: j <= k < |s| ==> IsSpace(s[k])) &&
    (r != [] ==> !IsSpace(r[0]) && !IsSpace(r[|r| - 1]))
  }

  /** True when `r` is `s` with whitespace cut from both ends and none left at either end. */
  ghost predicate IsStripOf(r: string, s: string) {
    exists i, j :: StrippedAt(r, s, i, j)
  }

  /** Python's `str.strip()` with no argument. */
  function Strip(s: string): (r: string)
    ensures IsStripOf(r, s)
  {
    var a := StripLeading(s);
    var r := StripTrailing(a);
    StripBothEnds(s, a, r);
    r
  }

  /** Cutting leading whitespace and then trailing whitespace leaves a strip. */
  lemma StripBothEnds(s: string, a: string, r: string)
    requires |a| <= |s| && a == s[|s| - |a|..] && forall k :: 0 <= k < |s| - |a| ==> IsSpace(s[k])
    requires a != [] ==> !IsSpace(a[0])
    requires |r| <= |a| && r == a[..|r|] && forall k :: |r| <= k < |a| ==> IsSpace(a[k])
    requires r != [] ==> !IsSpace(r[|r| - 1])
    ensures StrippedAt(r, s, |s| - |a|, |s| - |a| + |r|)
  {
    var i := |s| - |a|;
    assert r == s[i..i + |r|];
    forall k | i + |r| <= k < |s| ensures IsSpace(s[k]) {
      assert s[k] == a[k - i];
    }
    if r != [] {
      assert r[0] == a[0];
    }
  }

  /** Only one text is a strip of `s`, so `IsStripOf` pins `Strip` down completely. */
  lemma StripUnique(r1: string, r2: string, s: string)
    requires IsStripOf(r1, s) && IsStripOf(r2, s)
    ensures r1 == r2
  {
    var i1, j1 :| StrippedAt(r1, s, i1, j1);
    var i2, j2 :| StrippedAt(r2, s, i2, j2);
    if r1 != [] && r2 != [] {
      assert !IsSpace(s[i1]) && !IsSpace(s[i2]);
      assert i1 == i2;
      assert !IsSpace(s[j1 - 1]) && !IsSpace(s[j2 - 1]);
      assert j1 == j2;
    }
  }

  /** A name is rejected as empty exactly when it is whitespace only. */
  lemma StripEmptyIff(s: string)
    ensures Strip(s) == [] <==> forall k :: 0 <= k < |s| ==> IsSpace(s[k])
  {
    var r := Strip(s);
    var i, j :| StrippedAt(r, s, i, j);
    if r == [] {
      forall k | 0 <= k < |s| ensures IsSpace(s[k]) {
        assert k < i || j <= k;
      }
    } else {
      assert !IsSpace(s[i]);
    }
  }

  /** Stripping twice is stripping once. */
  lemma StripIdempotent(s: string)
    ensures Strip(Strip(s)) == Strip(s)
  {
    var r := Strip(s);
    var i, j :| StrippedAt(r, s, i, j);
    assert StrippedAt(r, r, 0, |r|);
    StripUnique(Strip(r), r, r);
  }

  /** `str.lower()` on one character: only the ASCII capitals are mapped. */
  function LowerChar(c: char): char {
    if 'A' <= c <= 'Z' then (c as int + 32) as char else c
  }

  /** `str.lower()`, restricted to ASCII case mapping. */
  function Lower(s: string): (r: string)
    ensures |r| == |s|
    ensures forall k :: 0 <= k < |s| ==> r[k] == LowerChar(s[k])
  {
    if s == [] then [] else [LowerChar(s[0])] + Lower(s[1..])
  }

  /** Lower-casing a lower-cased text changes nothing. */
  lemma LowerIdempotent(s: string)
    ensures Lower(Lower(s)) == Lower(s)
  {
    assert forall k :: 0 <= k < |s| ==> Lower(Lower(s))[k] == Lower(s)[k];
  }

  predicate StartsWith(prefix: string, s: string) {
    |prefix| <= |s| && s[..|prefix|] == prefix
  }

  /** Python's `needle in hay` for two strings. */
  function Contains(needle: string, hay: string): bool
    decreases |hay|
  {
    StartsWith(needle, hay) || (|hay| > 0 && Contains(needle, hay[1..]))
  }

  ghost predicate OccursAt(needle: string, hay: string, i: int) {
    0 <= i <= |hay| - |needle| && hay[i..i + |needle|] == needle
  }

  /** `needle in hay` holds exactly when `needle` occurs at some position of `hay`. */
  lemma {:induction false} ContainsIff(needle: string, hay: string)
    ensures Contains(needle, hay) <==> exists i :: OccursAt(needle, hay, i)
    decreases |hay|
  {
    if StartsWith(needle, hay) {
      assert OccursAt(needle, hay, 0);
    } else if |hay| > 0 {
      ContainsIff(needle, hay[1..]);
      if Contains(needle, hay[1..]) {
        var i :| OccursAt(needle, hay[1..], i);
        assert hay[i + 1..i + 1 + |needle|] == hay[1..][i..i + |needle|];
        assert OccursAt(needle, hay, i + 1);
      }
      if exists i :: OccursAt(needle, hay, i) {
        var i :| OccursAt(needle, hay, i);
        assert i != 0;
        assert hay[1..][i - 1..i - 1 + |needle|] == hay[i..i + |needle|];
        assert OccursAt(needle, hay[1..], i - 1);
      }
    }
  }

  /** The empty text occurs in every text. */
  lemma EmptyContained(hay: string)
    ensures Contains("", hay)
  {
    assert StartsWith("", hay);
  }

  // Decimal digits

  predicate IsDigit(c: char) {
    '0' <= c <= '9'
  }

  predicate AllDigits(s: string) {
    forall k :: 0 <= k < |s| ==> IsDigit(s[k])
  }

  function DigitValue(c: char): nat
    requires IsDigit(c)
  {
    c as int - '0' as int
  }

  function DigitChar(n: nat): (c: char)
    requires n < 10
    ensures IsDigit(c) && DigitValue(c) == n
  {
    ('0' as int + n) as char
  }

  /** The number an ASCII digit string denotes (Python's `int(s)`). */
  function DigitsValue(s: string): nat
    requires AllDigits(s)
  {
    if s == [] then 0 else DigitsValue(s[..|s| - 1]) * 10 + DigitValue(s[|s| - 1])
  }

  // Unicode decimal digits

  /**
   * The code point of the zero of the run of ten decimal digits (general
   * category Nd) holding code point `n`, or -1, for every run other than
   * ASCII `0`-`9` in the Unicode 15.0 tables of Python 3.12. Each run holds
   * the digits zero to nine in order, and each line tests the code points
   * from one run's zero up to the next run's.
   */
  function RunZero(n: int): (z: int)
    ensures z == -1 || z <= n < z + 10
  {
    if n < 0x660 then -1
    else if n < 0x6F0 then (if n < 0x66A then 0x660 else -1)  // Arabic-Indic
    else if n < 0x7C0 then (if n < 0x6FA then 0x6F0 else -1)  // Extended Arabic-Indic
    else if n < 0x966 then (if n < 0x7CA then 0x7C0 else -1)  // NKo
    else if n < 0x9E6 then (if n < 0x970 then 0x966 else -1)  // Devanagari
    else if n < 0xA66 then (if n < 0x9F0 then 0x9E6 else -1)  // Bengali
    else if n < 0xAE6 then (if n < 0xA70 then 0xA66 else -1)  // Gurmukhi
    else if n < 0xB66 then (if n < 0xAF0 then 0xAE6 else -1)  // Gujarati
    else if n < 0xBE6 then (if n < 0xB70 then 0xB66 else -1)  // Oriya
    else if n < 0xC66 then (if n < 0xBF0 then 0xBE6 else -1)  // Tamil
    else if n < 0xCE6 then (if n < 0xC70 then 0xC66 else -1)  // Telugu
    else if n < 0xD66 then (if n < 0xCF0 then 0xCE6 else -1)  // Kannada
    else if n < 0xDE6 then (if n < 0xD70 then 0xD66 else -1)  // Malayalam
    else if n < 0xE50 then (if n < 0xDF0 then 0xDE6 else -1)  // Sinhala Lith
    else if n < 0xED0 then (if n < 0xE5A then 0xE50 else -1)  // Thai
    else if n < 0xF20 then (if n < 0xEDA then 0xED0 else -1)  // Lao
    else if n < 0x1040 then (if n < 0xF2A then 0xF20 else -1)  // Tibetan
    else if n < 0x1090 then (if n < 0x104A then 0x1040 else -1)  // Myanmar
    else if n < 0x17E0 then (if n < 0x109A then 0x1090 else -1)  // Myanmar Shan
    else if n < 0x1810 then (if n < 0x17EA then 0x17E0 else -1)  // Khmer
    else if n < 0x1946 then (if n < 0x181A then 0x1810 else -1)  // Mongolian
    else if n < 0x19D0 then (if n < 0x1950 then 0x1946 else -1)  // Limbu
    else if n < 0x1A80 then (if n < 0x19DA then 0x19D0 else -1)  // New Tai Lue
    else if n < 0x1A90 then (if n < 0x1A8A then 0x1A80 else -1)  // Tai Tham Hora
    else if n < 0x1B50 then (if n < 0x1A9A then 0x1A90 else -1)  // Tai Tham Tham
    else if n < 0x1BB0 then (if n < 0x1B5A then 0x1B50 else -1)  // Balinese
    else if n < 0x1C40 then (if n < 0x1BBA then 0x1BB0 else -1)  // Sundanese
    else if n < 0x1C50 then (if n < 0x1C4A then 0x1C40 else -1)  // Lepcha
    else if n < 0xA620 then (if n < 0x1C5A then 0x1C50 else -1)  // Ol Chiki
    else if n < 0xA8D0 then (if n < 0xA62A then 0xA620 else -1)  // Vai
    else if n < 0xA900 then (if n < 0xA8DA then 0xA8D0 else -1)  // Saurashtra
    else if n < 0xA9D0 then (if n < 0xA90A then 0xA900 else -1)  // Kayah Li
    else if n < 0xA9F0 then (if n < 0xA9DA then 0xA9D0 else -1)  // Javanese
    else if n < 0xAA50 then (if n < 0xA9FA then 0xA9F0 else -1)  // Myanmar Tai Laing
    else if n < 0xABF0 then (if n < 0xAA5A then 0xAA50 else -1)  // Cham
    else if n < 0xFF10 then (if n < 0xABFA then 0xABF0 else -1)  // Meetei Mayek
    else if n < 0x104A0 then (if n < 0xFF1A then 0xFF10 else -1)  // Fullwidth
    else if n < 0x10D30 then (if n < 0x104AA then 0x104A0 else -1)  // Osmanya
    else if n < 0x11066 then (if n < 0x10D3A then 0x10D30 else -1)  // Hanifi Rohingya
    else if n < 0x110F0 then (if n < 0x11070 then 0x11066 else -1)  // Brahmi
    else if n < 0x11136 then (if n < 0x110FA then 0x110F0 else -1)  // Sora Sompeng
    else if n < 0x111D0 then (if n < 0x11140 then 0x11136 else -1)  // Chakma
    else if n < 0x112F0 then (if n < 0x111DA then 0x111D0 else -1)  // Sharada
    else if n < 0x11450 then (if n < 0x112FA then 0x112F0 else -1)  // Khudawadi
    else if n < 0x114D0 then (if n < 0x1145A then 0x11450 else -1)  // Newa
    else if n < 0x11650 then (if n < 0x114DA then 0x114D0 else -1)  // Tirhuta
    else if n < 0x116C0 then (if n < 0x1165A then 0x11650 else -1)  // Modi
    else if n < 0x11730 then (if n < 0x116CA then 0x116C0 else -1)  // Takri
    else if n < 0x118E0 then (if n < 0x1173A then 0x11730 else -1)  // Ahom
    else if n < 0x11950 then (if n < 0x118EA then 0x118E0 else -1)  // Warang Citi
    else if n < 0x11C50 then (if n < 0x1195A then 0x11950 else -1)  // Dives Akuru
    else if n < 0x11D50 then (if n < 0x11C5A then 0x11C50 else -1)  // Bhaiksuki
    else if n < 0x11DA0 then (if n < 0x11D5A then 0x11D50 else -1)  // Masaram Gondi
    else if n < 0x11F50 then (if n < 0x11DAA then 0x11DA0 else -1)  // Gunjala Gondi
    else if n < 0x16A60 then (if n < 0x11F5A then 0x11F50 else -1)  // Kawi
    else if n < 0x16AC0 then (if n < 0x16A6A then 0x16A60 else -1)  // Mro
    else if n < 0x16B50 then (if n < 0x16ACA then 0x16AC0 else -1)  // Tangsa
    else if n < 0x1D7CE then (if n < 0x16B5A then 0x16B50 else -1)  // Pahawh Hmong
    else if n < 0x1D7D8 then (if n < 0x1D7D8 then 0x1D7CE else -1)  // Mathematical Bold
    else if n < 0x1D7E2 then (if n < 0x1D7E2 then 0x1D7D8 else -1)  // Mathematical Double-Struck
    else if n < 0x1D7EC then (if n < 0x1D7EC then 0x1D7E2 else -1)  // Mathematical Sans-Serif
    else if n < 0x1D7F6 then (if n < 0x1D7F6 then 0x1D7EC else -1)  // Mathematical Sans-Serif Bold
    else if n < 0x1E140 then (if n < 0x1D800 then 0x1D7F6 else -1)  // Mathematical Monospace
    else if n < 0x1E2F0 then (if n < 0x1E14A then 0x1E140 else -1)  // Nyiakeng Puachue Hmong
    else if n < 0x1E4F0 then (if n < 0x1E2FA then 0x1E2F0 else -1)  // Wancho
    else if n < 0x1E950 then (if n < 0x1E4FA then 0x1E4F0 else -1)  // Nag Mundari
    else if n < 0x1FBF0 then (if n < 0x1E95A then 0x1E950 else -1)  // Adlam
    else if n < 0x1FBFA then 0x1FBF0  // Segmented
    else -1
  }

  /** The code point of the zero of the digit run holding `c`, or -1 when `c` is no decimal digit. */
  function DecimalZero(c: char): int {
    if IsDigit(c) then '0' as int else RunZero(c as int)
  }

  /** `\d` in a `str` pattern of Python's `re`: any decimal digit of any script. */
  predicate IsDecimal(c: char) {
    DecimalZero(c) != -1
  }

  predicate AllDecimal(s: string) {
    forall k :: 0 <= k < |s| ==> IsDecimal(s[k])
  }

  /** The value `int()` gives a decimal digit of any script. */
  function DecimalValue(c: char): (n: nat)
    requires IsDecimal(c)
    ensures n < 10
    ensures IsDigit(c) ==> n == DigitValue(c)
  {
    c as int - DecimalZero(c)
  }

  /** `int(s)` for a string of decimal digits, which may mix scripts. */
  function DecimalsValue(s: string): nat
    requires AllDecimal(s)
  {
    if s == [] then 0 else DecimalsValue(s[..|s| - 1]) * 10 + DecimalValue(s[|s| - 1])
  }

  /** ASCII digits are decimal digits with their usual values. */
  lemma {:induction false} AsciiDecimals(s: string)
    requires AllDigits(s)
    ensures AllDecimal(s) && DecimalsValue(s) == DigitsValue(s)
  {
    if s != [] {
      AsciiDecimals(s[..|s| - 1]);
    }
  }

  /** The Arabic-Indic digits U+0660 to U+0669, the first run after ASCII. */
  lemma ArabicIndicDigit(c: char)
    requires '\U{660}' <= c <= '\U{669}'
    ensures IsDecimal(c) && DecimalValue(c) == c as int - 0x660
  {
  }

  /** A decimal digit written as the ASCII digit of the same value; other characters kept. */
  function AsciiDigit(c: char): (a: char)
    ensures IsDecimal(c) ==> IsDigit(a) && DigitValue(a) == DecimalValue(c)
    ensures IsDigit(c) || !IsDecimal(c) ==> a == c
  {
    if IsDecimal(c) then DigitChar(DecimalValue(c)) else c
  }

  /** Every decimal digit of `s` written in ASCII. */
  function AsciiDigits(s: string): (r: string)
    ensures |r| == |s|
  {
    if s == [] then [] else [AsciiDigit(s[0])] + AsciiDigits(s[1..])
  }

  lemma {:induction false} AsciiDigitsAt(s: string, k: int)
    requires 0 <= k < |s|
    ensures AsciiDigits(s)[k] == AsciiDigit(s[k])
  {
    if k > 0 {
      AsciiDigitsAt(s[1..], k - 1);
    }
  }

  lemma {:induction false} AsciiDigitsAppend(x: string, y: string)
    ensures AsciiDigits(x + y) == AsciiDigits(x) + AsciiDigits(y)
  {
    if x != [] {
      assert (x + y)[1..] == x[1..] + y;
      AsciiDigitsAppend(x[1..], y);
    } else {
      assert x + y == y;
    }
  }

  /** Every decimal digit of `s` is an ASCII one. */
  predicate AsciiOnlyDigits(s: string) {
    forall k :: 0 <= k < |s| && IsDecimal(s[k]) ==> IsDigit(s[k])
  }

  /** Rewriting in ASCII digits keeps the value of a string of decimal digits. */
  lemma {:induction false} AsciiDigitsValue(s: string)
    requires AllDecimal(s)
    ensures AllDigits(AsciiDigits(s)) && DigitsValue(AsciiDigits(s)) == DecimalsValue(s)
  {
    if s != [] {
      var front, last := s[..|s| - 1], s[|s| - 1];
      AsciiDigitsValue(front);
      assert s == front + [last];
      AsciiDigitsAppend(front, [last]);
      var r := AsciiDigits(s);
      assert r[..|s| - 1] == AsciiDigits(front) && r[|s| - 1] == AsciiDigit(last);
    }
  }

  /** Rewriting in ASCII digits changes nothing in a text whose digits are ASCII already. */
  lemma {:induction false} AsciiDigitsOfAscii(s: string)
    requires AsciiOnlyDigits(s)
    ensures AsciiDigits(s) == s
  {
    if s != [] {
      assert forall k :: 0 <= k < |s| - 1 ==> s[1..][k] == s[k + 1];
      AsciiDigitsOfAscii(s[1..]);
      assert IsDecimal(s[0]) ==> IsDigit(s[0]);
    }
  }

  /** `f"{n}"`: the decimal representation of a natural number. */
  function NatToString(n: nat): (r: string)
    ensures |r| > 0 && AllDigits(r)
    ensures DigitsValue(r) == n
    ensures r[0] == '0' ==> n == 0
    decreases n
  {
    if n < 10 then [DigitChar(n)]
    else
      var front := NatToString(n / 10);
      var r := front + [DigitChar(n % 10)];
      assert r[..|r| - 1] == front;
      r
  }

  function Pow10(w: nat): (p: nat)
    ensures p >= 1
  {
    if w == 0 then 1 else 10 * Pow10(w - 1)
  }

  /** `n` written with exactly `w` digits, zero-padded on the left (`f"{n:0{w}d}"`). */
  function PaddedDigits(n: nat, w: nat): (r: string)
    requires n < Pow10(w)
    ensures |r| == w && AllDigits(r)
    ensures DigitsValue(r) == n
  {
    if w == 0 then []
    else
      var front := PaddedDigits(n / 10, w - 1);
      var r := front + [DigitChar(n % 10)];
      assert r[..|r| - 1] == front;
      r
  }

  /** Reading a digit string and writing it back at the same width gives the string back. */
  lemma {:induction false} PaddedDigitsOfValue(x: string)
    requires AllDigits(x)
    ensures DigitsValue(x) < Pow10(|x|)
    ensures PaddedDigits(DigitsValue(x), |x|) == x
  {
    if x != [] {
      var front := x[..|x| - 1];
      PaddedDigitsOfValue(front);
      var n := DigitsValue(x);
      assert n / 10 == DigitsValue(front) && n % 10 == DigitValue(x[|x| - 1]);
      assert PaddedDigits(n, |x|) == PaddedDigits(DigitsValue(front), |front|) + [DigitChar(n % 10)];
    }
  }

  /** The two characters of a zero-padded two-digit number. */
  lemma PaddedTwoDigits(n: nat)
    requires n < 100
    ensures PaddedDigits(n, 2) == [DigitChar(n / 10), DigitChar(n % 10)]
  {
    assert Pow10(2) == 100;
  }

  // Comparison

  /** Python's `a <= b` on strings: lexicographic by code point, a proper prefix first. */
  predicate StrLe(a: string, b: string) {
    a == [] || (b != [] && (a[0] < b[0] || (a[0] == b[0] && StrLe(a[1..], b[1..]))))
  }

  lemma {:induction false} StrLeReflexive(a: string)
    ensures StrLe(a, a)
  {
    if a != [] {
      StrLeReflexive(a[1..]);
    }
  }

  lemma {:induction false} StrLeTotal(a: string, b: string)
    ensures StrLe(a, b) || StrLe(b, a)
  {
    if a != [] && b != [] && a[0] == b[0] {
      StrLeTotal(a[1..], b[1..]);
    }
  }

  lemma {:induction false} StrLeTransitive(a: string, b: string, c: string)
    requires StrLe(a, b) && StrLe(b, c)
    ensures StrLe(a, c)
  {
    if a != [] && a[0] == b[0] && b[0] == c[0] {
      StrLeTransitive(a[1..], b[1..], c[1..]);
    }
  }

  lemma {:induction false} StrLeAntisymmetric(a: string, b: string)
    requires StrLe(a, b) && StrLe(b, a)
    ensures a == b
  {
    if a != [] {
      StrLeAntisymmetric(a[1..], b[1..]);
      assert a == [a[0]] + a[1..] && b == [b[0]] + b[1..];
    }
  }

  /** Comparing two concatenations whose first parts have equal length. */
  lemma {:induction false} StrLeConcat(a1: string, a2: string, b1: string, b2: string)
    requires |a1| == |b1|
    ensures StrLe(a1 + a2, b1 + b2) <==> if a1 == b1 then StrLe(a2, b2) else StrLe(a1, b1)
  {
    if a1 == [] {
      assert a1 + a2 == a2 && b1 + b2 == b2;
    } else {
      StrLeConcat(a1[1..], a2, b1[1..], b2);
      assert (a1 + a2)[1..] == a1[1..] + a2 && (b1 + b2)[1..] == b1[1..] + b2;
      if a1[0] == b1[0] && a1[1..] == b1[1..] {
        assert a1 == [a1[0]] + a1[1..] && b1 == [b1[0]] + b1[1..];
      }
    }
  }

  /** Equal-length digit strings compare as their values do. */
  lemma {:induction false} DigitsOrder(x: string, y: string)
    requires AllDigits(x) && AllDigits(y) && |x| == |y|
    ensures StrLe(x, y) <==> DigitsValue(x) <= DigitsValue(y)
  {
    if x != [] {
      var n := |x| - 1;
      var x', y' := x[..n], y[..n];
      DigitsOrder(x', y');
      StrLeConcat(x', [x[n]], y', [y[n]]);
      assert x == x' + [x[n]] && y == y' + [y[n]];
      if x' != y' {
        PaddedDigitsOfValue(x');
        PaddedDigitsOfValue(y');
        assert DigitsValue(x') != DigitsValue(y');
      }
    }
  }
}
