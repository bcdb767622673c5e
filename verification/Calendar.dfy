/** Civil days: leap years, month lengths and the month a day falls in. Day 0 is 1 January of year 1. */
module Calendar {
  import opened Prelude

  predicate IsLeap(year: int) {
    year % 4 == 0 && (year % 100 != 0 || year % 400 == 0)
  }

  /** Leap days in the years before `year`, counted from year 1 on. */
  function LeapDays(year: int): int {
    (year - 1) / 4 - (year - 1) / 100 + (year - 1) / 400
  }

  function YearStart(year: int): int {
    365 * (year - 1) + LeapDays(year)
  }

  function DaysInYear(year: int): int {
    if IsLeap(year) then 366 else 365
  }

  lemma StepDivides(x: int, d: int)
    requires d > 0
    ensures (x + 1) / d == x / d + if (x + 1) % d == 0 then 1 else 0
  {
    var q, r := x / d, x % d;
    assert x == d * q + r;
    if r == d - 1 {
      assert x + 1 == d * (q + 1);
      DivisionIsUnique(x + 1, d, q + 1, 0);
    } else {
      DivisionIsUnique(x + 1, d, q, r + 1);
    }
  }

  lemma DivisionIsUnique(x: int, d: int, q: int, r: int)
    requires d > 0 && x == d * q + r && 0 <= r < d
    ensures x / d == q && x % d == r
  {
    var q', r' := x / d, x % d;
    assert d * (q - q') == r' - r;
    if q > q' {
      MulMonotone(1, q - q', d);
    } else if q < q' {
      MulMonotone(1, q' - q, d);
    }
  }

  /** The closed form for the start of a year agrees with the years' lengths. */
  lemma YearsMeet(year: int)
    ensures YearStart(year + 1) == YearStart(year) + DaysInYear(year)
  {
    StepDivides(year - 1, 4);
    StepDivides(year - 1, 100);
    StepDivides(year - 1, 400);
    HundredIsFour(year);
  }

  lemma HundredIsFour(year: int)
    ensures year % 100 == 0 ==> year % 4 == 0
    ensures year % 400 == 0 ==> year % 100 == 0
  {
  }

  // ------------------------------------------------------------------- months

  /** Months are numbered through: twelve for each year, January first. */
  function MonthIndex(year: int, month: int): int {
    12 * year + month - 1
  }

  function YearAndMonth(m: int): (r: (int, int))
    ensures 1 <= r.1 <= 12 && MonthIndex(r.0, r.1) == m
  {
    (m / 12, m % 12 + 1)
  }

  /** The days of the year before each month of a common year. */
  function CommonDaysBefore(month: int): int
    requires 0 <= month < 12
  {
    [0, 31, 59, 90, 120, 151, 181, 212, 243, 273, 304, 334][month]
  }

  /** February is short, and a day longer in leap years; April, June, September and November have thirty. */
  function DaysIn(m: int): (n: int)
    ensures 28 <= n <= 31
  {
    if m % 12 == 1 then (if IsLeap(m / 12) then 29 else 28)
    else if m % 12 in {3, 5, 8, 10} then 30 else 31
  }

  /** The months laid end to end from January of year 1, both ways. */
  function MonthStart(m: int): int
    decreases if m >= 12 then m - 12 else 12 - m
  {
    if m == 12 then 0
    else if m > 12 then MonthStart(m - 1) + DaysIn(m - 1)
    else MonthStart(m + 1) - DaysIn(m)
  }

  /** The start of a month by the year's start and a table. */
  function TableStart(m: int): int {
    YearStart(m / 12) + CommonDaysBefore(m % 12) + if IsLeap(m / 12) && m % 12 >= 2 then 1 else 0
  }

  lemma TableMeets(m: int)
    ensures TableStart(m + 1) == TableStart(m) + DaysIn(m)
  {
    YearsMeet(m / 12);
    if m % 12 == 11 {
      DivisionIsUnique(m + 1, 12, m / 12 + 1, 0);
    } else {
      DivisionIsUnique(m + 1, 12, m / 12, m % 12 + 1);
    }
  }

  /** The table and the closed form for the start of a year agree with laying the months end to end. */
  lemma {:induction false} TableIsExact(m: int)
    ensures TableStart(m) == MonthStart(m)
    decreases if m >= 12 then m - 12 else 12 - m
  {
    if m > 12 {
      TableIsExact(m - 1);
      TableMeets(m - 1);
    } else if m < 12 {
      TableIsExact(m + 1);
      TableMeets(m);
    }
  }

  lemma MonthsMeet(m: int)
    ensures MonthStart(m + 1) == MonthStart(m) + DaysIn(m)
  {
  }

  lemma {:induction false} MonthStartGrows(m: int, n: int)
    requires m < n
    ensures MonthStart(m) + 28 * (n - m) <= MonthStart(n)
    decreases n - m
  {
    MonthsMeet(n - 1);
    if m < n - 1 {
      MonthStartGrows(m, n - 1);
    }
  }

  /** The month from `m` on whose days include `day`. */
  function MonthFrom(day: int, m: int): (r: int)
    requires MonthStart(m) <= day
    ensures MonthStart(r) <= day < MonthStart(r + 1)
    decreases day - MonthStart(m)
  {
    MonthsMeet(m);
    if day < MonthStart(m + 1) then m else MonthFrom(day, m + 1)
  }

  /** A month certainly not after the day: no month has more than 31 days. */
  function EarlyMonth(day: int): int {
    if day >= 0 then 12 else 12 + day
  }

  lemma EarlyMonthIsEarly(day: int)
    ensures MonthStart(EarlyMonth(day)) <= day
  {
    if day < 0 {
      MonthStartGrows(12 + day, 12);
    }
  }

  /** The month a day falls in. */
  function MonthOf(day: int): (m: int)
    ensures MonthStart(m) <= day < MonthStart(m + 1)
  {
    EarlyMonthIsEarly(day);
    MonthFrom(day, EarlyMonth(day))
  }

  lemma MonthIsUnique(day: int, m: int)
    requires MonthStart(m) <= day < MonthStart(m + 1)
    ensures MonthOf(day) == m
  {
    var r := MonthOf(day);
    if r < m {
      if r + 1 < m { MonthStartGrows(r + 1, m); }
    } else if m < r {
      if m + 1 < r { MonthStartGrows(m + 1, r); }
    }
  }

  lemma MonthOfGrows(a: int, b: int)
    requires a <= b
    ensures MonthOf(a) <= MonthOf(b)
  {
    if MonthOf(b) < MonthOf(a) && MonthOf(b) + 1 < MonthOf(a) {
      MonthStartGrows(MonthOf(b) + 1, MonthOf(a));
    }
  }

  function DayOfMonth(day: int): int {
    day - MonthStart(MonthOf(day)) + 1
  }

  /** A date with its month or day out of range counts on from the start of the year or month. */
  function DateDay(year: int, month: int, day: int): int {
    MonthStart(MonthIndex(year, month)) + day - 1
  }

  /** Asking for the zeroth day of the next month finds where a month ends. */
  lemma DayZeroIsLast(year: int, month: int)
    ensures DayOfMonth(DateDay(year, month + 1, 0)) == DaysIn(MonthIndex(year, month))
  {
    var m := MonthIndex(year, month);
    MonthsMeet(m);
    MonthIsUnique(DateDay(year, month + 1, 0), m);
  }

  /** Days of the week, Sunday first: day 0 was a Monday. */
  function Weekday(day: int): (w: int)
    ensures 0 <= w < 7
  {
    (day + 1) % 7
  }

  /** Where every month begins, by the rule of the Gregorian calendar. */
  lemma FirstOfMonthIsExact(year: int, month: int)
    requires 1 <= month <= 12
    ensures var leap := year % 4 == 0 && (year % 100 != 0 || year % 400 == 0);
            DateDay(year, month, 1) ==
            365 * (year - 1) + (year - 1) / 4 - (year - 1) / 100 + (year - 1) / 400
            + [0, 31, 59, 90, 120, 151, 181, 212, 243, 273, 304, 334][month - 1] + if leap && month > 2 then 1 else 0
  {
    var m := MonthIndex(year, month);
    DivisionIsUnique(m, 12, year, month - 1);
    TableIsExact(m);
  }

  /** The weekday moves on by one each day and comes round after seven; 1 January 1970 was a Thursday. */
  lemma WeekdaysTurn(day: int)
    ensures Weekday(0) == 1 && Weekday(719162) == 4
    ensures Weekday(day + 1) == (if Weekday(day) == 6 then 0 else Weekday(day) + 1)
  {
  }
}
