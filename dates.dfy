/**
 * Calendar dates as Python's `datetime.date` sees them (proleptic Gregorian,
 * years 1 to 9999), the day number behind `(due - today).days`, and the two
 * checks the dashboard applies to due-date text: `datetime.strptime(s,
 * "%Y-%m-%d")` as CPython's `_strptime` implements it, and the
 * `re.match(r"\d{4}-\d{2}-\d{2}", s)` prefix test that precedes it when a
 * date is entered.
 */
module Dates {
  import opened Wrappers
  import opened PyText

  datatype Date = Date(year: int, month: int, day: int)

  predicate IsLeapYear(y: int) {
    y % 4 == 0 && (y % 100 != 0 || y % 400 == 0)
  }

  function DaysInMonth(y: int, m: int): int
    requires 1 <= m <= 12
  {
    if m == 2 then (if IsLeapYear(y) then 29 else 28)
    else if m == 4 || m == 6 || m == 9 || m == 11 then 30
    else 31
  }

  function DaysInYear(y: int): int {
    if IsLeapYear(y) then 366 else 365
  }

  /** A date `datetime.date` accepts: MINYEAR 1 to MAXYEAR 9999 and a day that exists in its month. */
  predicate ValidDate(d: Date) {
    1 <= d.year <= 9999 && 1 <= d.month <= 12 && 1 <= d.day <= DaysInMonth(d.year, d.month)
  }

  function DaysBeforeYear(y: int): int
    requires y >= 1
  {
    var p := y - 1;
    p * 365 + p / 4 - p / 100 + p / 400
  }

  function DaysBeforeMonth(y: int, m: int): (n: int)
    requires 1 <= m <= 13
    ensures n >= 0
  {
    if m == 1 then 0 else DaysBeforeMonth(y, m - 1) + DaysInMonth(y, m - 1)
  }

  /** `date.toordinal()`: 0001-01-01 is day 1. */
  function DayNumber(d: Date): int
    requires ValidDate(d)
  {
    DaysBeforeYear(d.year) + DaysBeforeMonth(d.year, d.month) + d.day
  }

  /** `(due - today).days`. */
  function DaysUntil(today: Date, due: Date): int
    requires ValidDate(today) && ValidDate(due)
  {
    DayNumber(due) - DayNumber(today)
  }

  /** Calendar order, field by field. */
  predicate Before(a: Date, b: Date) {
    a.year < b.year || (a.year == b.year && (a.month < b.month || (a.month == b.month && a.day < b.day)))
  }

  lemma DaysBeforeYearStep(y: int)
    requires y >= 1
    ensures DaysBeforeYear(y + 1) == DaysBeforeYear(y) + DaysInYear(y)
  {
    DivStep(y);
    DivisorsOfLeap(y);
    var p := y - 1;
    assert DaysBeforeYear(y + 1) == y * 365 + y / 4 - y / 100 + y / 400;
    assert DaysBeforeYear(y) == p * 365 + p / 4 - p / 100 + p / 400;
  }

  lemma DivisorsOfLeap(y: int)
    ensures y % 400 == 0 ==> y % 100 == 0
    ensures y % 100 == 0 ==> y % 4 == 0
  {
    if y % 400 == 0 {
      MultipleMod(y, 4 * (y / 400), 100);
    }
    if y % 100 == 0 {
      MultipleMod(y, 25 * (y / 100), 4);
    }
  }

  lemma MultipleMod(y: int, m: int, k: int)
    requires k == 4 || k == 100
    requires y == k * m
    ensures y % k == 0
  {
    if k == 4 {
      assert y == 4 * m;
    } else {
      assert y == 100 * m;
    }
  }

  /** Counting the multiples of 4, 100 and 400 up to `y` against those up to `y - 1`. */
  lemma DivStep(y: int)
    requires y >= 1
    ensures y / 4 == (y - 1) / 4 + (if y % 4 == 0 then 1 else 0)
    ensures y / 100 == (y - 1) / 100 + (if y % 100 == 0 then 1 else 0)
    ensures y / 400 == (y - 1) / 400 + (if y % 400 == 0 then 1 else 0)
  {
  }

  lemma {:induction false} DaysBeforeYearGrows(y1: int, y2: int)
    requires 1 <= y1 < y2
    ensures DaysBeforeYear(y1) + DaysInYear(y1) <= DaysBeforeYear(y2)
    decreases y2 - y1
  {
    DaysBeforeYearStep(y1);
    if y1 + 1 < y2 {
      DaysBeforeYearGrows(y1 + 1, y2);
    }
  }

  lemma {:induction false} DaysBeforeMonthGrows(y: int, m1: int, m2: int)
    requires 1 <= m1 < m2 <= 13
    ensures DaysBeforeMonth(y, m1) + DaysInMonth(y, m1) <= DaysBeforeMonth(y, m2)
    decreases m2 - m1
  {
    if m1 + 1 < m2 {
      DaysBeforeMonthGrows(y, m1 + 1, m2);
    }
  }

  lemma DaysBeforeMonthOfYear(y: int)
    ensures DaysBeforeMonth(y, 13) == DaysInYear(y)
  {
    var feb := DaysInMonth(y, 2);
    assert DaysBeforeMonth(y, 2) == 31;
    assert DaysBeforeMonth(y, 3) == 31 + feb;
    assert DaysBeforeMonth(y, 4) == 62 + feb;
    assert DaysBeforeMonth(y, 5) == 92 + feb;
    assert DaysBeforeMonth(y, 6) == 123 + feb;
    assert DaysBeforeMonth(y, 7) == 153 + feb;
    assert DaysBeforeMonth(y, 8) == 184 + feb;
    assert DaysBeforeMonth(y, 9) == 215 + feb;
    assert DaysBeforeMonth(y, 10) == 245 + feb;
    assert DaysBeforeMonth(y, 11) == 276 + feb;
    assert DaysBeforeMonth(y, 12) == 306 + feb;
  }

  lemma BeforeGivesSmallerDayNumber(a: Date, b: Date)
    requires ValidDate(a) && ValidDate(b) && Before(a, b)
    ensures DayNumber(a) < DayNumber(b)
  {
    if a.year < b.year {
      DaysBeforeMonthOfYear(a.year);
      DaysBeforeMonthGrows(a.year, a.month, 13);
      DaysBeforeYearGrows(a.year, b.year);
      assert DayNumber(a) <= DaysBeforeYear(a.year) + DaysInYear(a.year);
    } else if a.month < b.month {
      DaysBeforeMonthGrows(a.year, a.month, b.month);
    }
  }

  /** Day numbers follow the calendar: `days_left` is positive exactly for later dates. */
  lemma DayNumberOrder(a: Date, b: Date)
    requires ValidDate(a) && ValidDate(b)
    ensures DayNumber(a) < DayNumber(b) <==> Before(a, b)
    ensures DayNumber(a) == DayNumber(b) <==> a == b
  {
    if Before(a, b) {
      BeforeGivesSmallerDayNumber(a, b);
    } else if Before(b, a) {
      BeforeGivesSmallerDayNumber(b, a);
    }
  }

  // strptime(s, "%Y-%m-%d"), as CPython's _strptime compiles it:
  //   (?P<Y>\d\d\d\d)-(?P<m>1[0-2]|0[1-9]|[1-9])-(?P<d>3[01]|[12]\d|0[1-9]|[1-9]| [1-9])
  // matched from the start without an end anchor, then rejected with
  // "unconverted data remains" when the match stops short of the end.
  // `\d` is any decimal digit of any script and `int()` reads those too;
  // the bracketed ranges are ASCII only.

  /** Length of the first alternative of the `%d` group that matches at the start of `t`; 0 when none does. */
  function DayTokenLength(t: string): (n: nat)
    ensures n <= |t| && n <= 2
  {
    if |t| >= 2 && t[0] == '3' && (t[1] == '0' || t[1] == '1') then 2
    else if |t| >= 2 && (t[0] == '1' || t[0] == '2') && IsDecimal(t[1]) then 2
    else if |t| >= 2 && t[0] == '0' && '1' <= t[1] <= '9' then 2
    else if |t| >= 1 && '1' <= t[0] <= '9' then 1
    else if |t| >= 2 && t[0] == ' ' && '1' <= t[1] <= '9' then 2
    else 0
  }

  /** `int(token)` for a matched `%d` token; `int(" 5")` is 5. */
  function DayTokenValue(t: string): nat
    requires 1 <= |t| <= 2 && DayTokenLength(t) == |t|
  {
    if t[0] == ' ' then DigitValue(t[1]) else DecimalsValue(t)
  }

  /**
   * Length of the `%m` alternative the regex engine settles on for `t` (the
   * text after the year's dash), trying `1[0-2]`, `0[1-9]`, `[1-9]` in turn
   * and keeping the first that lets the literal `-` and the `%d` group match
   * after it; 0 when none does.
   */
  function MonthTokenLength(t: string): (n: nat)
    ensures n <= 2 && (n > 0 ==> n + 1 <= |t| && t[n] == '-' && DayTokenLength(t[n + 1..]) > 0)
  {
    if |t| >= 3 && t[0] == '1' && '0' <= t[1] <= '2' && t[2] == '-' && DayTokenLength(t[3..]) > 0 then 2
    else if |t| >= 3 && t[0] == '0' && '1' <= t[1] <= '9' && t[2] == '-' && DayTokenLength(t[3..]) > 0 then 2
    else if |t| >= 2 && '1' <= t[0] <= '9' && t[1] == '-' && DayTokenLength(t[2..]) > 0 then 1
    else 0
  }

  /**
   * `datetime.strptime(s, "%Y-%m-%d").date()`, with `None` for every
   * `ValueError`: no match, unconverted data, year 0, or a day the month
   * does not have.
   */
  function Strptime(s: string): (r: Option<Date>)
    ensures r.Some? ==> ValidDate(r.value)
  {
    if |s| < 5 || !AllDecimal(s[..4]) || s[4] != '-' then None
    else
      var t := s[5..];
      var ml := MonthTokenLength(t);
      if ml == 0 then None
      else
        var u := t[ml + 1..];
        if DayTokenLength(u) != |u| then None
        else
          var month := t[..ml];
          assert AllDigits(month);
          var d := Date(DecimalsValue(s[..4]), DigitsValue(month), DayTokenValue(u));
          if ValidDate(d) then Some(d) else None
  }

  /** `re.match(r"\d{4}-\d{2}-\d{2}", s)`: the shape of a date at the start of `s`, whatever follows. */
  predicate HasDatePrefix(s: string) {
    |s| >= 10 && AllDecimal(s[..4]) && s[4] == '-' && AllDecimal(s[5..7]) && s[7] == '-' && AllDecimal(s[8..10])
  }

  /** The test a due date entered on the project screen must pass to be kept. */
  predicate IsValidDueDate(s: string) {
    HasDatePrefix(s) && Strptime(s).Some?
  }

  /** The stored due date: the entered text when it passes, otherwise `""`. */
  function CoerceDueDate(s: string): (r: string)
    ensures r == "" || IsValidDueDate(r)
    ensures IsValidDueDate(s) <==> r == s && s != ""
    ensures !IsValidDueDate(s) ==> r == ""
  {
    if IsValidDueDate(s) then s else ""
  }

  /** The canonical `YYYY-MM-DD` text of a date. */
  function FormatDate(d: Date): (s: string)
    requires ValidDate(d)
    ensures |s| == 10
  {
    PaddedDigits(d.year, 4) + "-" + PaddedDigits(d.month, 2) + "-" + PaddedDigits(d.day, 2)
  }

  /**
   * A year of four decimal digits, a two-digit month from 01 to 12 and a day
   * token of two characters, joined by dashes: `strptime` reads the three
   * groups and accepts exactly when they form a date.
   */
  lemma StrptimeOfFields(y: string, m: string, dd: string)
    requires |y| == 4 && AllDecimal(y)
    requires |m| == 2 && AllDigits(m) && 1 <= DigitsValue(m) <= 12
    requires |dd| == 2 && DayTokenLength(dd) == 2
    ensures var d := Date(DecimalsValue(y), DigitsValue(m), DayTokenValue(dd));
      Strptime(y + "-" + m + "-" + dd) == if ValidDate(d) then Some(d) else None
    ensures AllDecimal(dd) ==> HasDatePrefix(y + "-" + m + "-" + dd)
  {
    var s := y + "-" + m + "-" + dd;
    assert s[..4] == y && s[5..7] == m && s[8..10] == dd && s[4] == '-' && s[7] == '-';
    assert DigitsValue(m) == DigitValue(m[0]) * 10 + DigitValue(m[1]) by {
      assert m[..1][..0] == [];
    }
    var t := s[5..];
    assert t[3..] == dd && t[..2] == m && t[2] == '-';
    assert MonthTokenLength(t) == 2;
  }

  /** Every valid date written canonically passes the due-date test and parses back to itself. */
  lemma FormatThenParse(d: Date)
    requires ValidDate(d)
    ensures Strptime(FormatDate(d)) == Some(d)
    ensures IsValidDueDate(FormatDate(d))
  {
    assert Pow10(4) == 10000;
    PaddedTwoDigits(d.month);
    PaddedTwoDigits(d.day);
    var y, mm, dd := PaddedDigits(d.year, 4), PaddedDigits(d.month, 2), PaddedDigits(d.day, 2);
    AsciiDecimals(y);
    AsciiDecimals(dd);
    assert DayTokenLength(dd) == 2;
    assert DayTokenValue(dd) == d.day;
    StrptimeOfFields(y, mm, dd);
  }

  /**
   * A due date that passes the test is ten characters long: a year of four
   * decimal digits of any script, a month of two ASCII digits, and a day
   * whose first digit is ASCII.
   */
  lemma ValidDueDateFields(s: string)
    requires IsValidDueDate(s)
    ensures |s| == 10 && s[4] == '-' && s[7] == '-'
    ensures AllDecimal(s[..4]) && AllDigits(s[5..7]) && IsDigit(s[8]) && AllDecimal(s[8..10])
    ensures Strptime(s) == Some(Date(DecimalsValue(s[..4]), DigitsValue(s[5..7]), DecimalsValue(s[8..10])))
  {
    var t := s[5..];
    assert t[0] == s[5] && t[1] == s[6] && t[2] == s[7];
    assert s[5..7][1] == s[6];
    assert IsDecimal(s[6]) && !IsDecimal('-');
    assert MonthTokenLength(t) == 2;
    var u := t[3..];
    assert u == s[8..];
    assert IsDecimal(u[0]) && IsDecimal(u[1]) && !IsDecimal(' ');
    assert DayTokenLength(u) == 2;
    assert t[..2] == s[5..7];
    assert u == s[8..10];
    assert DayTokenValue(u) == DecimalsValue(s[8..10]);
  }

  /**
   * A due date that passes the test, with its digits written in ASCII, is the
   * canonical text of the date it parses to; one written in ASCII digits is
   * that text itself.
   */
  lemma ValidDueDateIsCanonical(s: string)
    requires IsValidDueDate(s)
    ensures FormatDate(Strptime(s).value) == AsciiDigits(s)
    ensures AsciiOnlyDigits(s) ==> FormatDate(Strptime(s).value) == s
  {
    ValidDueDateFields(s);
    var y, m, dd := s[..4], s[5..7], s[8..10];
    AsciiDigitsValue(y);
    AsciiDigitsValue(dd);
    AsciiDigitsOfAscii(m);
    PaddedDigitsOfValue(AsciiDigits(y));
    PaddedDigitsOfValue(m);
    PaddedDigitsOfValue(AsciiDigits(dd));
    AsciiDigitsOfDate(s);
    if AsciiOnlyDigits(s) {
      AsciiDigitsOfAscii(s);
    }
  }

  /** The ASCII rewriting of an accepted date, group by group. */
  lemma AsciiDigitsOfDate(s: string)
    requires |s| == 10 && s[4] == '-' && s[7] == '-'
    ensures AsciiDigits(s) == AsciiDigits(s[..4]) + "-" + AsciiDigits(s[5..7]) + "-" + AsciiDigits(s[8..10])
  {
    var y, m, dd := s[..4], s[5..7], s[8..10];
    assert AsciiDigits("-") == "-" by {
      assert !IsDecimal('-');
    }
    calc {
      AsciiDigits(s);
      { assert s == y + "-" + m + "-" + dd; }
      AsciiDigits(y + "-" + m + "-" + dd);
      { AsciiDigitsAppend(y + "-" + m + "-", dd); }
      AsciiDigits(y + "-" + m + "-") + AsciiDigits(dd);
      { AsciiDigitsAppend(y + "-" + m, "-"); }
      AsciiDigits(y + "-" + m) + "-" + AsciiDigits(dd);
      { AsciiDigitsAppend(y + "-", m); }
      AsciiDigits(y + "-") + AsciiDigits(m) + "-" + AsciiDigits(dd);
      { AsciiDigitsAppend(y, "-"); }
      AsciiDigits(y) + "-" + AsciiDigits(m) + "-" + AsciiDigits(dd);
    }
  }

  /**
   * The full-date of RFC 3339 section 5.6 (`date-fullyear "-" date-month "-"
   * date-mday`, four, two and two digits) with the month and day limits of
   * section 5.7 and the Gregorian leap-year rule of its appendix C.
   */
  predicate IsRfc3339FullDate(s: string) {
    |s| == 10 && AllDigits(s[..4]) && s[4] == '-' && AllDigits(s[5..7]) && s[7] == '-' && AllDigits(s[8..10]) &&
    var m := DigitsValue(s[5..7]);
    1 <= m <= 12 && 1 <= DigitsValue(s[8..10]) <= DaysInMonth(DigitsValue(s[..4]), m)
  }

  /** The canonical text of a date is an RFC 3339 full-date of a non-zero year. */
  lemma FormatDateIsRfc3339(d: Date)
    requires ValidDate(d)
    ensures IsRfc3339FullDate(FormatDate(d)) && FormatDate(d)[..4] != "0000"
  {
    var s := FormatDate(d);
    assert Pow10(4) == 10000;
    PaddedTwoDigits(d.month);
    PaddedTwoDigits(d.day);
    assert s[..4] == PaddedDigits(d.year, 4) && s[5..7] == PaddedDigits(d.month, 2) && s[8..10] == PaddedDigits(d.day, 2);
    assert "0000"[..3] == "000" && "000"[..2] == "00" && "00"[..1] == "0" && "0"[..0] == "";
    assert DigitsValue("0000") == 0;
  }

  /**
   * A due date that passes the test is, with its digits written in ASCII, an
   * RFC 3339 full-date of a non-zero year; so is one written in ASCII digits.
   */
  lemma ValidDueDateIsRfc3339(s: string)
    requires IsValidDueDate(s)
    ensures IsRfc3339FullDate(AsciiDigits(s)) && AsciiDigits(s)[..4] != "0000"
    ensures AsciiOnlyDigits(s) ==> IsRfc3339FullDate(s) && s[..4] != "0000"
  {
    ValidDueDateIsCanonical(s);
    FormatDateIsRfc3339(Strptime(s).value);
  }

  lemma Rfc3339IsValidDueDate(s: string)
    requires IsRfc3339FullDate(s) && s[..4] != "0000"
    ensures IsValidDueDate(s) && AsciiOnlyDigits(s)
  {
    var y, m, dd := s[..4], s[5..7], s[8..10];
    PaddedDigitsOfValue(y);
    PaddedDigitsOfValue(m);
    PaddedDigitsOfValue(dd);
    assert Pow10(4) == 10000;
    var d := Date(DigitsValue(y), DigitsValue(m), DigitsValue(dd));
    assert d.year != 0;
    assert ValidDate(d);
    assert s == y + "-" + m + "-" + dd;
    assert FormatDate(d) == s;
    FormatThenParse(d);
    forall k | 0 <= k < |s| && IsDecimal(s[k]) ensures IsDigit(s[k]) {
      if k < 4 {
        assert s[k] == y[k];
      } else if 5 <= k < 7 {
        assert s[k] == m[k - 5];
      } else if 8 <= k {
        assert s[k] == dd[k - 8];
      }
    }
  }

  /**
   * Among texts written with ASCII digits, the due-date test accepts exactly
   * the RFC 3339 full-dates except those of year 0000, which `datetime`
   * cannot represent.
   */
  lemma ValidDueDateIffRfc3339(s: string)
    ensures IsValidDueDate(s) && AsciiOnlyDigits(s) <==> IsRfc3339FullDate(s) && s[..4] != "0000"
  {
    if IsValidDueDate(s) && AsciiOnlyDigits(s) {
      ValidDueDateIsRfc3339(s);
    }
    if IsRfc3339FullDate(s) && s[..4] != "0000" {
      Rfc3339IsValidDueDate(s);
    }
  }

  /** The year 2024 written in Arabic-Indic digits. */
  const ArabicIndic2024: string := "\U{662}\U{660}\U{662}\U{664}"

  lemma ArabicIndicYearValue()
    ensures |ArabicIndic2024| == 4 && AllDecimal(ArabicIndic2024) && DecimalsValue(ArabicIndic2024) == 2024
  {
    ArabicIndicDigit('\U{660}');
    ArabicIndicDigit('\U{662}');
    ArabicIndicDigit('\U{664}');
    assert DecimalsValue("\U{662}") == 2 by {
      assert "\U{662}"[..0] == [];
    }
    assert DecimalsValue("\U{662}\U{660}") == 20 by {
      assert "\U{662}\U{660}"[..1] == "\U{662}";
    }
    assert DecimalsValue("\U{662}\U{660}\U{662}") == 202 by {
      assert "\U{662}\U{660}\U{662}"[..2] == "\U{662}\U{660}";
    }
    assert ArabicIndic2024[..3] == "\U{662}\U{660}\U{662}";
  }

  /** The month token 01 and the day token 15 read as January and the 15th. */
  lemma JanuaryFifteenthTokens()
    ensures AllDigits("01") && DigitsValue("01") == 1
    ensures AllDecimal("15") && DayTokenLength("15") == 2 && DayTokenValue("15") == 15
  {
    AsciiDecimals("15");
    assert "15"[..1] == "1" && "01"[..1] == "0";
  }

  /** January 15th of a year written `y`, month and day in ASCII digits. */
  lemma JanuaryFifteenth(y: string)
    requires |y| == 4 && AllDecimal(y) && 1 <= DecimalsValue(y) <= 9999
    ensures Strptime(y + "-01-15") == Some(Date(DecimalsValue(y), 1, 15)) && IsValidDueDate(y + "-01-15")
  {
    JanuaryFifteenthTokens();
    StrptimeOfFields(y, "01", "15");
    assert y + "-" + "01" + "-" + "15" == y + "-01-15";
  }

  /** January 15th of a year written in four ASCII digits. */
  lemma AsciiJanuaryFifteenth(y: string)
    requires |y| == 4 && AllDigits(y) && 1 <= DigitsValue(y)
    ensures Strptime(y + "-01-15") == Some(Date(DigitsValue(y), 1, 15)) && IsValidDueDate(y + "-01-15")
  {
    AsciiDecimals(y);
    PaddedDigitsOfValue(y);
    assert Pow10(4) == 10000;
    JanuaryFifteenth(y);
  }

  /**
   * Digits of other scripts pass as well: 2024-01-15 with an Arabic-Indic
   * year is kept and parses to 15 January 2024, though it is no RFC 3339
   * full-date.
   */
  lemma ArabicIndicYearAccepted()
    ensures IsValidDueDate(ArabicIndic2024 + "-01-15")
    ensures Strptime(ArabicIndic2024 + "-01-15") == Some(Date(2024, 1, 15))
    ensures !IsRfc3339FullDate(ArabicIndic2024 + "-01-15")
  {
    ArabicIndicYearValue();
    JanuaryFifteenth(ArabicIndic2024);
    assert (ArabicIndic2024 + "-01-15")[0] == '\U{662}';
  }

  /** The day 15 written with an ASCII one and an Arabic-Indic five. */
  const ArabicIndicFifteen: string := "1\U{665}"

  lemma ArabicIndicFifteenToken()
    ensures |ArabicIndicFifteen| == 2 && AllDecimal(ArabicIndicFifteen)
    ensures DayTokenLength(ArabicIndicFifteen) == 2 && DayTokenValue(ArabicIndicFifteen) == 15
  {
    ArabicIndicDigit('\U{665}');
    var one := ArabicIndicFifteen[..1];
    assert one == "1" && one[..0] == [];
    assert DecimalValue('1') == 1;
    assert DecimalsValue(one) == 1;
    assert DecimalsValue(ArabicIndicFifteen) == DecimalsValue(one) * 10 + DecimalValue('\U{665}');
  }

  /**
   * The `[12]\d` alternative of the day group takes any decimal digit too:
   * January 15th with the day's second digit Arabic-Indic passes the test
   * and parses to the 15th, in every year that passes at all.
   */
  lemma ArabicIndicDayAccepted(y: string)
    requires |y| == 4 && AllDecimal(y) && 1 <= DecimalsValue(y) <= 9999
    ensures Strptime(y + "-01-" + ArabicIndicFifteen) == Some(Date(DecimalsValue(y), 1, 15))
    ensures IsValidDueDate(y + "-01-" + ArabicIndicFifteen)
  {
    JanuaryFifteenthTokens();
    ArabicIndicFifteenToken();
    StrptimeOfFields(y, "01", ArabicIndicFifteen);
    JanuaryJoined(y, ArabicIndicFifteen);
  }

  lemma JanuaryJoined(y: string, dd: string)
    ensures y + "-" + "01" + "-" + dd == y + "-01-" + dd
  {
    assert "-" + "01" + "-" == "-01-";
  }

  /**
   * The text order of two due dates written in ASCII digits that both pass
   * the test is the chronological order of the dates they parse to.
   */
  lemma ValidDueDateOrder(a: string, b: string)
    requires IsValidDueDate(a) && IsValidDueDate(b) && AsciiOnlyDigits(a) && AsciiOnlyDigits(b)
    ensures StrLe(a, b) <==> !Before(Strptime(b).value, Strptime(a).value)
  {
    ValidDueDateIsCanonical(a);
    ValidDueDateIsCanonical(b);
    FormatDateOrder(Strptime(a).value, Strptime(b).value);
  }

  /**
   * With digits of other scripts text order is no longer chronological:
   * January 15th of any year written in ASCII digits, 2025 say, comes
   * before 2024-01-15 written with an Arabic-Indic year, since every ASCII
   * digit is below every Arabic-Indic one. An example, used by
   * `ProjectList.DateSortOutOfOrder`.
   */
  lemma ArabicIndicYearSortsLate(y: string)
    requires |y| == 4 && AllDigits(y)
    ensures StrLe(y + "-01-15", ArabicIndic2024 + "-01-15")
    ensures !StrLe(ArabicIndic2024 + "-01-15", y + "-01-15")
  {
    assert (ArabicIndic2024 + "-01-15")[0] == '\U{662}';
    assert (y + "-01-15")[0] == y[0];
  }

  /** String order on canonical dates is chronological order. */
  lemma FormatDateOrder(a: Date, b: Date)
    requires ValidDate(a) && ValidDate(b)
    ensures StrLe(FormatDate(a), FormatDate(b)) <==> !Before(b, a)
  {
    var ya, ma, da := PaddedDigits(a.year, 4), PaddedDigits(a.month, 2), PaddedDigits(a.day, 2);
    var yb, mb, db := PaddedDigits(b.year, 4), PaddedDigits(b.month, 2), PaddedDigits(b.day, 2);
    assert FormatDate(a) == ya + ("-" + (ma + ("-" + da)));
    assert FormatDate(b) == yb + ("-" + (mb + ("-" + db)));
    StrLeConcat(ya, "-" + (ma + ("-" + da)), yb, "-" + (mb + ("-" + db)));
    StrLeConcat("-", ma + ("-" + da), "-", mb + ("-" + db));
    StrLeConcat(ma, "-" + da, mb, "-" + db);
    StrLeConcat("-", da, "-", db);
    DigitsOrder(ya, yb);
    DigitsOrder(ma, mb);
    DigitsOrder(da, db);
  }
}
