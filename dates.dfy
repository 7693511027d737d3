/** Local calendar days as JavaScript's `Date` counts them: the proleptic
    Gregorian calendar, day numbers from 1 January 1970, and the ISO text
    "YYYY-MM-DD" in which the application files a day. */
module Dates {
  import opened Text

  /** A local calendar day: full year, month 0..11 (`getMonth`), day of the
      month (`getDate`). */
  datatype CalendarDate = CalendarDate(year: int, month: int, day: int)

  /** The Gregorian leap-year rule, which `Date` applies to every year. */
  predicate IsLeapYear(year: int)
  {
    (year % 4 == 0 && year % 100 != 0) || year % 400 == 0
  }

  /** `new Date(year, month + 1, 0).getDate()`: the month's last day. */
  function DaysInMonth(year: int, month: int): (n: int)
    requires 0 <= month < 12
    ensures 28 <= n <= 31
    ensures n == 29 <==> month == 1 && IsLeapYear(year)
  {
    if month == 1 then (if IsLeapYear(year) then 29 else 28)
    else if month == 3 || month == 5 || month == 8 || month == 10 then 30
    else 31
  }

  /** What a `Date` can hold: a month 0..11 and a day within that month. */
  predicate ValidDate(c: CalendarDate)
  {
    0 <= c.month < 12 && 1 <= c.day <= DaysInMonth(c.year, c.month)
  }

  // ---------------------------------------------------------------- day numbers

  /** Days from 1 January of year 1 to 1 January of `year`. */
  function DaysBeforeYear(year: int): int
  {
    var y := year - 1;
    365 * y + y / 4 - y / 100 + y / 400
  }

  /** Days from 1 January to the first of `month`. */
  function DaysBeforeMonth(year: int, month: int): int
    requires 0 <= month < 12
  {
    [0, 31, 59, 90, 120, 151, 181, 212, 243, 273, 304, 334][month]
    + (if month >= 2 && IsLeapYear(year) then 1 else 0)
  }

  /** Days since 1 January 1970, the `Date` epoch. */
  function DayNumber(c: CalendarDate): int
    requires 0 <= c.month < 12
  {
    DaysBeforeYear(c.year) - DaysBeforeYear(1970) + DaysBeforeMonth(c.year, c.month) + c.day - 1
  }

  /** Stepping the year back by one crosses a multiple of n exactly when the
      year is one. */
  lemma DivStep(y: int, n: int)
    requires n == 4 || n == 100 || n == 400
    ensures y / n - (y - 1) / n == if y % n == 0 then 1 else 0
  {
    var q := y / n;
    var r := y % n;
    assert y == n * q + r;
    if r == 0 {
      assert y - 1 == n * (q - 1) + (n - 1);
    } else {
      assert y - 1 == n * q + (r - 1);
    }
  }

  /** A multiple of 400 is a multiple of 100, which is a multiple of 4. */
  lemma MultipleChain(y: int)
    ensures y % 400 == 0 ==> y % 100 == 0
    ensures y % 100 == 0 ==> y % 4 == 0
  {
    if y % 400 == 0 {
      var q := y / 400;
      assert y == 100 * (4 * q);
    }
    if y % 100 == 0 {
      var q := y / 100;
      assert y == 4 * (25 * q);
    }
  }

  /** A year has 366 days when it is a leap year and 365 otherwise. */
  lemma YearLength(year: int)
    ensures DaysBeforeYear(year + 1) - DaysBeforeYear(year) == if IsLeapYear(year) then 366 else 365
  {
    DivStep(year, 4);
    DivStep(year, 100);
    DivStep(year, 400);
    MultipleChain(year);
    var a := year / 4 - (year - 1) / 4;
    var b := year / 100 - (year - 1) / 100;
    var c := year / 400 - (year - 1) / 400;
    assert DaysBeforeYear(year + 1) - DaysBeforeYear(year) == 365 + a - b + c;
  }

  /** Later years start later. */
  lemma {:induction false} DaysBeforeYearMonotone(a: int, b: int)
    requires a < b
    ensures DaysBeforeYear(a + 1) <= DaysBeforeYear(b)
    decreases b - a
  {
    if a + 1 < b {
      YearLength(a + 1);
      DaysBeforeYearMonotone(a + 1, b);
    }
  }

  /** A month ends where the next one starts, and the year's last month ends
      with the year. */
  lemma MonthEnds(year: int, month: int)
    requires 0 <= month < 12
    ensures month < 11 ==> DaysBeforeMonth(year, month + 1) == DaysBeforeMonth(year, month) + DaysInMonth(year, month)
    ensures month == 11 ==>
              DaysBeforeMonth(year, month) + DaysInMonth(year, month) == if IsLeapYear(year) then 366 else 365
  {
  }

  /** Every day of a month comes before every day of a later month. */
  lemma {:induction false} MonthsOrdered(year: int, m1: int, m2: int)
    requires 0 <= m1 < m2 < 12
    ensures DaysBeforeMonth(year, m1) + DaysInMonth(year, m1) <= DaysBeforeMonth(year, m2)
    decreases m2 - m1
  {
    MonthEnds(year, m1);
    if m1 + 1 < m2 {
      MonthEnds(year, m1 + 1);
      MonthsOrdered(year, m1 + 1, m2);
    }
  }

  /** A day's number lies within its year's range of day numbers. */
  lemma DayInYear(c: CalendarDate)
    requires ValidDate(c)
    ensures DaysBeforeYear(c.year) - DaysBeforeYear(1970) <= DayNumber(c)
            < DaysBeforeYear(c.year + 1) - DaysBeforeYear(1970)
  {
    YearLength(c.year);
    if c.month < 11 {
      MonthsOrdered(c.year, c.month, 11);
    }
    MonthEnds(c.year, 11);
  }

  /** Different days have different numbers, so comparing day numbers is
      comparing `getFullYear`, `getMonth` and `getDate` together. */
  lemma DayNumberInjective(c1: CalendarDate, c2: CalendarDate)
    requires ValidDate(c1) && ValidDate(c2)
    ensures DayNumber(c1) == DayNumber(c2) <==> c1 == c2
  {
    if DayNumber(c1) == DayNumber(c2) {
      DayInYear(c1);
      DayInYear(c2);
      if c1.year < c2.year {
        DaysBeforeYearMonotone(c1.year, c2.year);
      } else if c2.year < c1.year {
        DaysBeforeYearMonotone(c2.year, c1.year);
      }
      assert c1.year == c2.year;
      if c1.month < c2.month {
        MonthsOrdered(c1.year, c1.month, c2.month);
      } else if c2.month < c1.month {
        MonthsOrdered(c1.year, c2.month, c1.month);
      }
    }
  }

  // ---------------------------------------------------------------- ISO day texts

  /** n as exactly `width` decimal digits (the low ones). */
  function Digits(n: nat, width: nat): (r: string)
    ensures |r| == width && AllDigits(r)
  {
    if width == 0 then [] else Digits(n / 10, width - 1) + [DigitChar(n % 10)]
  }

  function Pow10(width: nat): (p: nat)
    ensures p >= 1
  {
    if width == 0 then 1 else 10 * Pow10(width - 1)
  }

  /** Written with enough digits, a number reads back as itself. */
  lemma {:induction false} DigitsValueOfDigits(n: nat, width: nat)
    requires n < Pow10(width)
    ensures DigitsValue(Digits(n, width)) == n
  {
    if width > 0 {
      var s := Digits(n, width);
      var q, d := n / 10, n % 10;
      assert n == q * 10 + d;
      assert q < Pow10(width - 1);
      assert s[..|s| - 1] == Digits(q, width - 1);
      assert s[|s| - 1] == DigitChar(d);
      assert DigitValue(DigitChar(d)) == d;
      DigitsValueOfDigits(q, width - 1);
    }
  }

  /** A digit text is the fixed-width writing of its own value. */
  lemma {:induction false} DigitsOfValue(x: string)
    requires AllDigits(x)
    ensures DigitsValue(x) < Pow10(|x|) && Digits(DigitsValue(x), |x|) == x
  {
    if x != [] {
      var init := x[..|x| - 1];
      DigitsOfValue(init);
      assert init + [x[|x| - 1]] == x;
    }
  }

  lemma {:induction false} DigitsInjective(a: nat, b: nat, width: nat)
    requires a < Pow10(width) && b < Pow10(width)
    requires Digits(a, width) == Digits(b, width)
    ensures a == b
  {
    if width > 0 {
      var da := Digits(a, width);
      assert da[..width - 1] == Digits(a / 10, width - 1);
      assert Digits(b, width)[..width - 1] == Digits(b / 10, width - 1);
      assert DigitValue(DigitChar(a % 10)) == a % 10;
      assert DigitValue(DigitChar(b % 10)) == b % 10;
      DigitsInjective(a / 10, b / 10, width - 1);
    }
  }

  /** The year as `toISOString` writes it: four digits, or a sign and six
      digits outside 0..9999. */
  function YearText(year: int): (r: string)
    ensures |r| == if 0 <= year <= 9999 then 4 else 7
  {
    if 0 <= year <= 9999 then Digits(year, 4)
    else if year < 0 then "-" + Digits(-year, 6)
    else "+" + Digits(year, 6)
  }

  /** The ISO date "YYYY-MM-DD" that names the day, the form in which
      `getCurrentDate` returns a day and a dose is filed. */
  function DayKey(c: CalendarDate): string
    requires ValidDate(c)
  {
    YearText(c.year) + "-" + Digits(c.month + 1, 2) + "-" + Digits(c.day, 2)
  }

  lemma YearTextInjective(a: int, b: int)
    requires -1000000 < a < 1000000 && -1000000 < b < 1000000
    requires YearText(a) == YearText(b)
    ensures a == b
  {
    var s := YearText(a);
    if 0 <= a <= 9999 {
      DigitsInjective(a, b, 4);
    } else {
      assert s[1..] == Digits(if a < 0 then -a else a, 6);
      assert YearText(b)[1..] == Digits(if b < 0 then -b else b, 6);
      DigitsInjective(if a < 0 then -a else a, if b < 0 then -b else b, 6);
    }
  }

  /** Two days share a key only when they are the same day. */
  lemma DayKeyInjective(c1: CalendarDate, c2: CalendarDate)
    requires ValidDate(c1) && ValidDate(c2)
    requires -1000000 < c1.year < 1000000 && -1000000 < c2.year < 1000000
    ensures DayKey(c1) == DayKey(c2) <==> c1 == c2
  {
    if DayKey(c1) == DayKey(c2) {
      KeyFields(c1);
      KeyFields(c2);
      var n := |YearText(c1.year)|;
      assert |YearText(c2.year)| == n by {
        assert |DayKey(c1)| == n + 6 && |DayKey(c2)| == |YearText(c2.year)| + 6;
      }
      YearTextInjective(c1.year, c2.year);
      DigitsInjective(c1.month + 1, c2.month + 1, 2);
      DigitsInjective(c1.day, c2.day, 2);
    }
  }

  /** Where the year, the month and the day stand in a key. */
  lemma KeyFields(c: CalendarDate)
    requires ValidDate(c)
    ensures var k, n := DayKey(c), |YearText(c.year)|;
            && |k| == n + 6
            && k[..n] == YearText(c.year)
            && k[n + 1..n + 3] == Digits(c.month + 1, 2)
            && k[n + 4..] == Digits(c.day, 2)
  {
    var y, mm, dd := YearText(c.year), Digits(c.month + 1, 2), Digits(c.day, 2);
    var k := DayKey(c);
    assert k == y + "-" + mm + "-" + dd;
    var n := |y|;
    assert k[..n] == y;
    assert k[n + 1..n + 3] == mm;
    assert k[n + 4..] == dd;
  }
}
