/** The proleptic Gregorian calendar as Python's `datetime` counts it: day
    ordinal 1 is 0001-01-01, years run from 1 to 9999.  `Ordinal` follows
    `date.toordinal` (the closed form over leap rules); `DateOf` is its
    inverse, written as a walk over years and months and proved inverse both
    ways.  Long dates are `strftime('%A, %B %d, %Y')` in the C locale. */
module Civil {
  import opened Text

  datatype Date = Date(year: int, month: int, day: int)

  const MaxYear := 9999
  /** The ordinal of 9999-12-31, the last day `datetime` can hold. */
  const MaxOrdinal := 3652059

  predicate IsLeap(y: int) {
    y % 4 == 0 && (y % 100 != 0 || y % 400 == 0)
  }

  function DaysInYear(y: int): int {
    if IsLeap(y) then 366 else 365
  }

  function DaysInMonth(y: int, m: int): int
    requires 1 <= m <= 12
  {
    if m == 2 then (if IsLeap(y) then 29 else 28)
    else if m == 4 || m == 6 || m == 9 || m == 11 then 30
    else 31
  }

  predicate ValidDate(d: Date) {
    1 <= d.year <= MaxYear && 1 <= d.month <= 12 && 1 <= d.day <= DaysInMonth(d.year, d.month)
  }

  /** Days in the years before `y` (Python's `_days_before_year`). */
  function DaysBeforeYear(y: int): int
    requires y >= 1
  {
    var p := y - 1;
    p * 365 + p / 4 - p / 100 + p / 400
  }

  /** Days in the months of year `y` before month `m` (`_days_before_month`). */
  function DaysBeforeMonth(y: int, m: int): int
    requires 1 <= m <= 12
  {
    var common :=
      if m == 1 then 0 else if m == 2 then 31 else if m == 3 then 59
      else if m == 4 then 90 else if m == 5 then 120 else if m == 6 then 151
      else if m == 7 then 181 else if m == 8 then 212 else if m == 9 then 243
      else if m == 10 then 273 else if m == 11 then 304 else 334;
    common + (if m > 2 && IsLeap(y) then 1 else 0)
  }

  /** `date.toordinal()`. */
  function Ordinal(d: Date): int
    requires ValidDate(d)
  {
    DaysBeforeYear(d.year) + DaysBeforeMonth(d.year, d.month) + d.day
  }

  lemma Quotient4(q: int)
    requires q >= 1
    ensures q / 4 - (q - 1) / 4 == if q % 4 == 0 then 1 else 0
  {
  }

  lemma Quotient100(q: int)
    requires q >= 1
    ensures q / 100 - (q - 1) / 100 == if q % 100 == 0 then 1 else 0
  {
  }

  lemma Quotient400(q: int)
    requires q >= 1
    ensures q / 400 - (q - 1) / 400 == if q % 400 == 0 then 1 else 0
  {
  }

  /** Centuries and quadricentennials are leap-rule multiples of four. */
  lemma MultiplesOfFour(y: int)
    ensures y % 100 == 0 ==> y % 4 == 0
    ensures y % 400 == 0 ==> y % 100 == 0
  {
    if y % 100 == 0 {
      var q := y / 100;
      assert y == 4 * (25 * q);
    }
    if y % 400 == 0 {
      var q := y / 400;
      assert y == 100 * (4 * q);
    }
  }

  /** The closed form adds one year's length per year. */
  lemma YearStep(y: int)
    requires y >= 1
    ensures DaysBeforeYear(y + 1) == DaysBeforeYear(y) + DaysInYear(y)
  {
    var a, b, c := y / 4 - (y - 1) / 4, y / 100 - (y - 1) / 100, y / 400 - (y - 1) / 400;
    assert DaysBeforeYear(y + 1) - DaysBeforeYear(y) == 365 + a - b + c;
    assert a == if y % 4 == 0 then 1 else 0 by { Quotient4(y); }
    assert b == if y % 100 == 0 then 1 else 0 by { Quotient100(y); }
    assert c == if y % 400 == 0 then 1 else 0 by { Quotient400(y); }
    MultiplesOfFour(y);
  }

  lemma {:induction false} YearsMonotonic(y1: int, y2: int)
    requires 1 <= y1 <= y2
    ensures DaysBeforeYear(y1) + 365 * (y2 - y1) <= DaysBeforeYear(y2)
    decreases y2 - y1
  {
    if y1 < y2 {
      YearStep(y1);
      YearsMonotonic(y1 + 1, y2);
    }
  }

  lemma MonthStep(y: int, m: int)
    requires 1 <= m < 12
    ensures DaysBeforeMonth(y, m + 1) == DaysBeforeMonth(y, m) + DaysInMonth(y, m)
  {
  }

  lemma MonthsEndYear(y: int)
    ensures DaysBeforeMonth(y, 12) + DaysInMonth(y, 12) == DaysInYear(y)
  {
  }

  /** The month and day of the `n`-th day of year `y`, counting from month `m`. */
  function MonthWalk(y: int, m: int, n: int): Date
    requires 1 <= m <= 12 && n >= 1
    decreases 12 - m
  {
    if n <= DaysInMonth(y, m) || m == 12 then Date(y, m, n)
    else MonthWalk(y, m + 1, n - DaysInMonth(y, m))
  }

  /** The date that lies `n - 1` days after January 1 of year `y`. */
  function YearWalk(y: int, n: int): Date
    requires y >= 1 && n >= 1
    decreases n
  {
    if n <= DaysInYear(y) then MonthWalk(y, 1, n)
    else YearWalk(y + 1, n - DaysInYear(y))
  }

  /** `date.fromordinal(n)`. */
  function DateOf(n: int): Date
    requires 1 <= n
  {
    YearWalk(1, n)
  }

  lemma {:induction false} MonthWalkOrdinal(y: int, m: int, n: int)
    requires 1 <= m <= 12 && n >= 1
    requires DaysBeforeMonth(y, m) + n <= DaysInYear(y)
    ensures var d := MonthWalk(y, m, n);
      d.year == y && m <= d.month <= 12 && 1 <= d.day <= DaysInMonth(y, d.month) &&
      DaysBeforeMonth(y, d.month) + d.day == DaysBeforeMonth(y, m) + n
    decreases 12 - m
  {
    if !(n <= DaysInMonth(y, m) || m == 12) {
      MonthStep(y, m);
      MonthWalkOrdinal(y, m + 1, n - DaysInMonth(y, m));
    } else if m == 12 {
      MonthsEndYear(y);
    }
  }

  lemma {:induction false} YearWalkOrdinal(y: int, n: int)
    requires y >= 1 && n >= 1
    ensures var d := YearWalk(y, n);
      d.year >= y && 1 <= d.month <= 12 && 1 <= d.day <= DaysInMonth(d.year, d.month) &&
      DaysBeforeYear(d.year) + DaysBeforeMonth(d.year, d.month) + d.day == DaysBeforeYear(y) + n
    decreases n
  {
    if n <= DaysInYear(y) {
      MonthWalkOrdinal(y, 1, n);
    } else {
      YearStep(y);
      YearWalkOrdinal(y + 1, n - DaysInYear(y));
    }
  }

  /** Every ordinal `datetime` can hold names a valid date with that ordinal. */
  lemma OrdinalOfDateOf(n: int)
    requires 1 <= n <= MaxOrdinal
    ensures ValidDate(DateOf(n)) && Ordinal(DateOf(n)) == n
  {
    YearWalkOrdinal(1, n);
    var d := DateOf(n);
    if d.year > MaxYear {
      YearsMonotonic(MaxYear + 1, d.year);
      assert false;
    }
  }

  lemma {:induction false} MonthWalkOfDate(y: int, m0: int, d: Date, n: int)
    requires ValidDate(d) && d.year == y && 1 <= m0 <= d.month
    requires n == DaysBeforeMonth(y, d.month) - DaysBeforeMonth(y, m0) + d.day
    ensures MonthWalk(y, m0, n) == d
    decreases d.month - m0
  {
    if m0 < d.month {
      MonthStep(y, m0);
      MonthStepsMonotonic(y, m0 + 1, d.month);
      MonthWalkOfDate(y, m0 + 1, d, n - DaysInMonth(y, m0));
    }
  }

  lemma {:induction false} MonthStepsMonotonic(y: int, m1: int, m2: int)
    requires 1 <= m1 <= m2 <= 12
    ensures DaysBeforeMonth(y, m1) <= DaysBeforeMonth(y, m2)
    decreases m2 - m1
  {
    if m1 < m2 {
      MonthStep(y, m1);
      MonthStepsMonotonic(y, m1 + 1, m2);
    }
  }

  lemma {:induction false} YearWalkOfDate(y: int, d: Date, n: int)
    requires ValidDate(d) && 1 <= y <= d.year
    requires n == DaysBeforeYear(d.year) - DaysBeforeYear(y) + DaysBeforeMonth(d.year, d.month) + d.day
    ensures YearWalk(y, n) == d
    decreases d.year - y
  {
    MonthStep12(d.year, d.month);
    if y < d.year {
      YearStep(y);
      YearsMonotonic(y + 1, d.year);
      YearWalkOfDate(y + 1, d, n - DaysInYear(y));
    } else {
      MonthWalkOfDate(y, 1, d, n);
    }
  }

  lemma MonthStep12(y: int, m: int)
    requires 1 <= m <= 12
    ensures DaysBeforeMonth(y, m) + DaysInMonth(y, m) <= DaysInYear(y)
  {
  }

  /** Every valid date is the date of its own ordinal. */
  lemma DateOfOrdinal(d: Date)
    requires ValidDate(d)
    ensures 1 <= Ordinal(d) <= MaxOrdinal && DateOf(Ordinal(d)) == d
  {
    YearWalkOfDate(1, d, Ordinal(d));
    assert DaysBeforeYear(1) == 0;
    YearsMonotonic(1, d.year);
    YearsMonotonic(d.year + 1, MaxYear + 1);
    YearStep(d.year);
    MonthStep12(d.year, d.month);
    assert DaysBeforeYear(MaxYear + 1) == MaxOrdinal;
    assert Ordinal(d) <= DaysBeforeYear(d.year + 1);
  }

  /** 9999-12-31 is the only date with the largest ordinal: the one date
      whose next day `datetime` cannot hold. */
  lemma LastDay(d: Date)
    requires ValidDate(d)
    ensures Ordinal(d) == MaxOrdinal <==> d == Date(MaxYear, 12, 31)
  {
    var last := Date(MaxYear, 12, 31);
    assert Ordinal(last) == MaxOrdinal;
    DateOfOrdinal(d);
    DateOfOrdinal(last);
  }

  /** `date.weekday()`: 0 is Monday (0001-01-01 was a Monday). */
  function Weekday(d: Date): (w: int)
    requires ValidDate(d)
    ensures 0 <= w < 7
  {
    (Ordinal(d) + 6) % 7
  }

  function WeekdayName(w: int): string
    requires 0 <= w < 7
  {
    ["Monday", "Tuesday", "Wednesday", "Thursday", "Friday", "Saturday", "Sunday"][w]
  }

  function MonthName(m: int): string
    requires 1 <= m <= 12
  {
    ["January", "February", "March", "April", "May", "June", "July",
     "August", "September", "October", "November", "December"][m - 1]
  }

  /** `strftime('%A, %B %d, %Y')`: day zero-padded to two digits, year as
      `%Y` prints it on glibc (decimal, no padding). */
  function LongDate(d: Date): string
    requires ValidDate(d)
  {
    WeekdayName(Weekday(d)) + ", " + MonthName(d.month) + " " + Padded(d.day, 2) + ", " + Decimal(d.year)
  }

  /** `'%04d-%02d-%02d'`, the form of an ISO 8601 calendar date. */
  function IsoDate(d: Date): (s: string)
    requires ValidDate(d)
    ensures |s| == 10 && s[4] == '-' && s[7] == '-'
  {
    Padded(d.year, 4) + "-" + Padded(d.month, 2) + "-" + Padded(d.day, 2)
  }
}
