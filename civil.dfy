/**
  Civil (proleptic Gregorian) calendar arithmetic, as Go's time package does it:
  leap years, month lengths from the cumulative `daysBefore` table, a day number
  that counts days from 0000-01-01, and shifting a date by a number of days with
  month and year carries.
 */
module Civil {

  /** A month number, January = 1 (Go's time.Month). */
  type Month = m: int | 1 <= m <= 12 witness 1

  /** Days before the start of each month in a non-leap year; entry 12 is the year length. */
  const DaysBefore: seq<int> := [0, 31, 59, 90, 120, 151, 181, 212, 243, 273, 304, 334, 365]

  predicate IsLeap(year: int) {
    year % 4 == 0 && (year % 100 != 0 || year % 400 == 0)
  }

  /** Number of days in `month` of `year`. */
  function DaysIn(month: Month, year: int): (n: int)
    ensures 28 <= n <= 31
    ensures n == 29 <==> month == 2 && IsLeap(year)
    ensures n == 28 <==> month == 2 && !IsLeap(year)
  {
    if month == 2 && IsLeap(year) then 29 else DaysBefore[month] - DaysBefore[month - 1]
  }

  function YearLength(year: int): int {
    if IsLeap(year) then 366 else 365
  }

  /** Days from 0000-01-01 to the first day of `year`; negative for years before 0. */
  function DaysBeforeYear(year: int): int {
    365 * year + (year + 3) / 4 - (year + 99) / 100 + (year + 399) / 400
  }

  /** Days from the first of January to the first day of `month`. */
  function DaysBeforeMonth(year: int, month: Month): int {
    DaysBefore[month - 1] + (if month > 2 && IsLeap(year) then 1 else 0)
  }

  datatype Date = Date(year: int, month: Month, day: int)

  predicate ValidDate(d: Date) {
    1 <= d.day <= DaysIn(d.month, d.year)
  }

  /** Days from 0000-01-01 to `d`. */
  function DayNumber(d: Date): int {
    DaysBeforeYear(d.year) + DaysBeforeMonth(d.year, d.month) + d.day - 1
  }

  /** Lexicographic order on (year, month, day). */
  predicate DateLess(a: Date, b: Date) {
    a.year < b.year
    || (a.year == b.year && (a.month < b.month || (a.month == b.month && a.day < b.day)))
  }

  /** Moving from `x + n - 1` to `x + n` adds one multiple of `n` exactly when `n` divides `x`. */
  lemma LeapCount(x: int, n: int)
    requires n == 4 || n == 100 || n == 400
    ensures (x + n) / n - (x + n - 1) / n == if x % n == 0 then 1 else 0
  {
    if n == 4 {
      assert (x + 4) / 4 - (x + 3) / 4 == if x % 4 == 0 then 1 else 0;
    } else if n == 100 {
      assert (x + 100) / 100 - (x + 99) / 100 == if x % 100 == 0 then 1 else 0;
    } else {
      assert (x + 400) / 400 - (x + 399) / 400 == if x % 400 == 0 then 1 else 0;
    }
  }

  /** Every multiple of 400 is a multiple of 100, and every multiple of 100 a multiple of 4. */
  lemma DivisorChain(year: int)
    ensures year % 400 == 0 ==> year % 100 == 0
    ensures year % 100 == 0 ==> year % 4 == 0
  {
    if year % 400 == 0 {
      MultipleOf(year / 400 * 4, 100);
    }
    if year % 100 == 0 {
      MultipleOf(year / 100 * 25, 4);
    }
  }

  lemma MultipleOf(k: int, n: int)
    requires n == 4 || n == 100
    ensures (k * n) % n == 0
  {
    if n == 4 {
      assert (k * 4) % 4 == 0;
    } else {
      assert (k * 100) % 100 == 0;
    }
  }

  /** Consecutive years are YearLength apart. */
  lemma YearStep(year: int)
    ensures DaysBeforeYear(year + 1) == DaysBeforeYear(year) + YearLength(year)
  {
    LeapCount(year, 4);
    LeapCount(year, 100);
    LeapCount(year, 400);
    DivisorChain(year);
    var fours := (year + 4) / 4 - (year + 3) / 4;
    var hundreds := (year + 100) / 100 - (year + 99) / 100;
    var fourHundreds := (year + 400) / 400 - (year + 399) / 400;
    assert DaysBeforeYear(year + 1) - DaysBeforeYear(year) == 365 + fours - hundreds + fourHundreds;
  }

  lemma {:induction false} DaysBeforeYearMonotone(y: int, z: int)
    requires y < z
    ensures DaysBeforeYear(y) + YearLength(y) <= DaysBeforeYear(z)
    decreases z - y
  {
    YearStep(y);
    if y + 1 < z {
      DaysBeforeYearMonotone(y + 1, z);
    }
  }

  /** A valid date lies within its year. */
  lemma DayOfYearBounds(d: Date)
    requires ValidDate(d)
    ensures DaysBeforeYear(d.year) <= DayNumber(d) < DaysBeforeYear(d.year) + YearLength(d.year)
  {
  }

  /** Within one year, the day number orders (month, day) lexicographically. */
  lemma SameYearOrder(a: Date, b: Date)
    requires ValidDate(a) && ValidDate(b) && a.year == b.year
    requires a.month < b.month || (a.month == b.month && a.day < b.day)
    ensures DayNumber(a) < DayNumber(b)
  {
    if a.month < b.month {
      assert DaysBeforeMonth(a.year, a.month) + DaysIn(a.month, a.year)
          <= DaysBeforeMonth(b.year, b.month);
    }
  }

  /** DayNumber is strictly monotone in the lexicographic date order, hence injective. */
  lemma DayNumberOrder(a: Date, b: Date)
    requires ValidDate(a) && ValidDate(b)
    ensures DayNumber(a) < DayNumber(b) <==> DateLess(a, b)
    ensures DayNumber(a) == DayNumber(b) <==> a == b
  {
    if DateLess(a, b) {
      LessImpliesSmaller(a, b);
    } else if DateLess(b, a) {
      LessImpliesSmaller(b, a);
    }
  }

  lemma LessImpliesSmaller(a: Date, b: Date)
    requires ValidDate(a) && ValidDate(b) && DateLess(a, b)
    ensures DayNumber(a) < DayNumber(b)
  {
    if a.year < b.year {
      DayOfYearBounds(a);
      DayOfYearBounds(b);
      DaysBeforeYearMonotone(a.year, b.year);
    } else {
      SameYearOrder(a, b);
    }
  }

  function FirstOfNextMonth(d: Date): Date {
    if d.month == 12 then Date(d.year + 1, 1, 1) else Date(d.year, d.month + 1, 1)
  }

  function LastOfPreviousMonth(d: Date): Date {
    if d.month == 1 then Date(d.year - 1, 12, 31)
    else Date(d.year, d.month - 1, DaysIn(d.month - 1, d.year))
  }

  lemma NextMonthStep(d: Date)
    ensures ValidDate(FirstOfNextMonth(d))
    ensures DayNumber(FirstOfNextMonth(d)) == DayNumber(Date(d.year, d.month, DaysIn(d.month, d.year))) + 1
  {
    if d.month == 12 {
      YearStep(d.year);
    }
  }

  lemma PreviousMonthStep(d: Date)
    ensures ValidDate(LastOfPreviousMonth(d))
    ensures DayNumber(LastOfPreviousMonth(d)) == DayNumber(Date(d.year, d.month, 1)) - 1
  {
    if d.month == 1 {
      YearStep(d.year - 1);
    }
  }

  /**
    The date `k` days after `d` (before it when `k` is negative), carrying across
    month and year boundaries one month at a time.
   */
  function ShiftDays(d: Date, k: int): (r: Date)
    requires ValidDate(d)
    ensures ValidDate(r)
    ensures DayNumber(r) == DayNumber(d) + k
    decreases if k >= 0 then k else -k
  {
    if k == 0 then d
    else if k > 0 then
      var left := DaysIn(d.month, d.year) - d.day;
      if k <= left then Date(d.year, d.month, d.day + k)
      else
        NextMonthStep(d);
        ShiftDays(FirstOfNextMonth(d), k - left - 1)
    else
      if d.day + k >= 1 then Date(d.year, d.month, d.day + k)
      else
        PreviousMonthStep(d);
        ShiftDays(LastOfPreviousMonth(d), k + d.day)
  }
}
