/** The proleptic Gregorian calendar of Python's datetime: dates of the years 1 to 9999 and their ordinals. */
module Calendar {

  datatype Date = Date(year: int, month: int, day: int)

  predicate Leap(year: int) { year % 4 == 0 && (year % 100 != 0 || year % 400 == 0) }

  function DaysIn(year: int, month: int): int {
    if month == 2 then (if Leap(year) then 29 else 28)
    else if month == 4 || month == 6 || month == 9 || month == 11 then 30 else 31
  }

  function YearDays(year: int): int { if Leap(year) then 366 else 365 }

  predicate InMonth(d: Date) { 1 <= d.month <= 12 && 1 <= d.day <= DaysIn(d.year, d.month) }

  predicate IsDate(d: Date) { 1 <= d.year <= 9999 && InMonth(d) }

  predicate Earlier(a: Date, b: Date) {
    a.year < b.year || (a.year == b.year && (a.month < b.month || (a.month == b.month && a.day < b.day)))
  }

  /** Days before a year; year 1 starts the count. */
  function YearStart(year: int): int {
    365 * (year - 1) + (year - 1) / 4 - (year - 1) / 100 + (year - 1) / 400
  }

  function MonthStart(year: int, month: int): int
    requires 1 <= month <= 13
    decreases month
  {
    if month == 1 then 0 else MonthStart(year, month - 1) + DaysIn(year, month - 1)
  }

  /** date.toordinal: 1 for the first of January of year 1. */
  function Ordinal(d: Date): int
    requires 1 <= d.month <= 12
  {
    YearStart(d.year) + MonthStart(d.year, d.month) + d.day
  }

  lemma {:induction false} YearStep(year: int)
    ensures YearStart(year + 1) == YearStart(year) + YearDays(year)
  {
    Fourths(year);
    Hundredths(year);
    FourHundredths(year);
    Multiples(year);
  }

  lemma {:induction false} Fourths(n: int)
    ensures n / 4 == (n - 1) / 4 + if n % 4 == 0 then 1 else 0
  {
  }

  lemma {:induction false} Hundredths(n: int)
    ensures n / 100 == (n - 1) / 100 + if n % 100 == 0 then 1 else 0
  {
  }

  lemma {:induction false} FourHundredths(n: int)
    ensures n / 400 == (n - 1) / 400 + if n % 400 == 0 then 1 else 0
  {
  }

  lemma {:induction false} Multiples(n: int)
    ensures n % 400 == 0 ==> n % 100 == 0
    ensures n % 100 == 0 ==> n % 4 == 0
  {
  }

  lemma {:induction false} YearsGrow(a: int, b: int)
    requires a < b
    ensures YearStart(a) + YearDays(a) <= YearStart(b)
    decreases b - a
  {
    YearStep(b - 1);
    hide YearStart, Leap;
    if a + 1 < b { YearsGrow(a, b - 1); }
  }

  lemma {:induction false} YearSum(year: int)
    ensures MonthStart(year, 13) == YearDays(year)
  {
    hide Leap;
    assert MonthStart(year, 4) == 31 + DaysIn(year, 2) + 31;
    assert MonthStart(year, 7) == MonthStart(year, 4) + 91;
    assert MonthStart(year, 10) == MonthStart(year, 7) + 92;
    assert MonthStart(year, 13) == MonthStart(year, 10) + 92;
  }

  lemma {:induction false} MonthsGrow(year: int, a: int, b: int)
    requires 1 <= a < b <= 13
    ensures MonthStart(year, a) + DaysIn(year, a) <= MonthStart(year, b)
    decreases b
  {
    hide Leap;
    if a + 1 < b { MonthsGrow(year, a, b - 1); }
  }

  /** April, June, September and November have thirty days, February twenty-eight or, in a leap year, one more, and
      every other month thirty-one. */
  lemma {:induction false} MonthsAreGregorian(year: int, month: int)
    requires 1 <= month <= 12
    ensures month in {4, 6, 9, 11} ==> DaysIn(year, month) == 30
    ensures month in {1, 3, 5, 7, 8, 10, 12} ==> DaysIn(year, month) == 31
    ensures DaysIn(year, 2) == if LeapYear(year) then 29 else 28
  {
    LeapIs(year);
    hide Leap, LeapYear;
  }

  predicate LeapYear(year: int) { year % 400 == 0 || (year % 4 == 0 && year % 100 != 0) }

  lemma {:induction false} LeapIs(year: int)
    ensures Leap(year) == LeapYear(year)
  {
    Multiples(year);
  }

  /** Ordinals keep the order of dates. */
  lemma {:induction false} OrdinalGrows(a: Date, b: Date)
    requires InMonth(a) && InMonth(b) && Earlier(a, b)
    ensures Ordinal(a) < Ordinal(b)
  {
    MonthsGrow(a.year, a.month, 13);
    YearSum(a.year);
    hide YearStart, Leap, YearDays;
    if a.year < b.year {
      YearsGrow(a.year, b.year);
      FirstMonth(b.year, b.month);
    } else if a.month < b.month {
      MonthsGrow(a.year, a.month, b.month);
    }
  }

  lemma {:induction false} FirstMonth(year: int, month: int)
    requires 1 <= month <= 12
    ensures MonthStart(year, month) >= 0
  {
    if month > 1 { MonthsGrow(year, 1, month); }
  }

  /** Two dates of one ordinal are one date. */
  lemma {:induction false} OrdinalIsOne(a: Date, b: Date)
    requires InMonth(a) && InMonth(b) && Ordinal(a) == Ordinal(b)
    ensures a == b
  {
    if Earlier(a, b) { OrdinalGrows(a, b); }
    if Earlier(b, a) { OrdinalGrows(b, a); }
  }

  // ---- the way back ------------------------------------------------------------------------------------------------

  function NextDay(d: Date): Date {
    if d.day < DaysIn(d.year, d.month) then d.(day := d.day + 1)
    else if d.month < 12 then Date(d.year, d.month + 1, 1)
    else Date(d.year + 1, 1, 1)
  }

  /** date.fromordinal, counted day by day. */
  function FromOrdinal(n: int): Date
    requires n >= 1
    decreases n
  {
    if n == 1 then Date(1, 1, 1) else NextDay(FromOrdinal(n - 1))
  }

  lemma {:induction false} NextOrdinal(d: Date)
    requires InMonth(d)
    ensures InMonth(NextDay(d)) && Ordinal(NextDay(d)) == Ordinal(d) + 1
  {
    YearSum(d.year);
    YearStep(d.year);
    hide YearStart, Leap, YearDays;
  }

  lemma {:induction false} OrdinalBack(n: int)
    requires n >= 1
    ensures InMonth(FromOrdinal(n)) && Ordinal(FromOrdinal(n)) == n && FromOrdinal(n).year >= 1
    decreases n
  {
    hide YearStart;
    if n == 1 {
      assert YearStart(1) == 0 by { FirstYear(); }
    } else {
      OrdinalBack(n - 1);
      NextOrdinal(FromOrdinal(n - 1));
    }
  }

  lemma {:induction false} FirstYear()
    ensures YearStart(1) == 0
  {
  }

  lemma {:induction false} DateBack(d: Date)
    requires IsDate(d)
    ensures Ordinal(d) >= 1 && FromOrdinal(Ordinal(d)) == d
  {
    FirstMonth(d.year, d.month);
    FirstYear();
    if d.year > 1 { YearsGrow(1, d.year); }
    hide YearStart;
    OrdinalBack(Ordinal(d));
    OrdinalIsOne(FromOrdinal(Ordinal(d)), d);
  }
}
