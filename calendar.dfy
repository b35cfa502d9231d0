/**
 * Time as the code sees it. An instant is a count of milliseconds since the
 * epoch; the local time zone is taken to be UTC, so a day is a run of
 * 86 400 000 milliseconds starting at a multiple of that. Where the code reads
 * calendar fields (`getFullYear`, `getMonth`, `new Date(y, m, d)`) a civil
 * date is used instead.
 */
module Calendar {

  const DayMs: int := 86400000

  /** `startOf('day')`: midnight of the day holding `t`. */
  function StartOfDay(t: int): (r: int)
    ensures r <= t < r + DayMs && r % DayMs == 0
  {
    t - t % DayMs
  }

  /** `endOf('day')`, `setHours(23, 59, 59, 999)`: the last millisecond of the day holding `t`. */
  function EndOfDay(t: int): (r: int)
    ensures t <= r < t + DayMs && (r + 1) % DayMs == 0
  {
    StartOfDay(t) + DayMs - 1
  }

  /** The number of the day holding `t` (days since the epoch, rounded down). */
  function DayOf(t: int): int {
    t / DayMs
  }

  lemma StartOfDayIsDay(t: int)
    ensures StartOfDay(t) == DayOf(t) * DayMs
  {
  }

  /** Two instants fall in the same day exactly when they have the same day number. */
  lemma SameDay(a: int, b: int)
    ensures StartOfDay(a) == StartOfDay(b) <==> DayOf(a) == DayOf(b)
    ensures EndOfDay(a) == EndOfDay(b) <==> DayOf(a) == DayOf(b)
  {
    StartOfDayIsDay(a);
    StartOfDayIsDay(b);
  }

  /** An instant is at or before the end of a day exactly when its day is not later. */
  lemma BeforeEndOfDay(t: int, day: int)
    ensures t <= EndOfDay(day) <==> DayOf(t) <= DayOf(day)
  {
    StartOfDayIsDay(day);
    StartOfDayIsDay(t);
  }

  predicate IsLeap(y: int) {
    y % 4 == 0 && (y % 100 != 0 || y % 400 == 0)
  }

  /** Days in month `m` (1 = January) of year `y`: `new Date(y, m, 0).getDate()`. */
  function DaysInMonth(y: int, m: int): (n: int)
    requires 1 <= m <= 12
    ensures 28 <= n <= 31
  {
    if m == 2 then (if IsLeap(y) then 29 else 28)
    else if m == 4 || m == 6 || m == 9 || m == 11 then 30
    else 31
  }

  /** The long months are January, March, May, July, August, October and December; February has 29 days exactly in a leap year. */
  lemma MonthLengths(y: int, m: int)
    requires 1 <= m <= 12
    ensures DaysInMonth(y, m) == 31 <==> m in {1, 3, 5, 7, 8, 10, 12}
    ensures m == 2 ==> (DaysInMonth(y, m) == 29 <==> IsLeap(y))
    ensures m != 2 ==> DaysInMonth(y, m) >= 30
  {
  }

  /** A calendar date and time of day in local time. */
  datatype Civil = Civil(year: int, month: int, day: int, msOfDay: int)

  predicate ValidCivil(c: Civil) {
    1 <= c.month <= 12 && 1 <= c.day <= DaysInMonth(c.year, c.month) && 0 <= c.msOfDay < DayMs
  }

  /** Chronological order of two valid civil instants. */
  predicate CivilLe(a: Civil, b: Civil) {
    a.year < b.year
    || (a.year == b.year && a.month < b.month)
    || (a.year == b.year && a.month == b.month && a.day < b.day)
    || (a.year == b.year && a.month == b.month && a.day == b.day && a.msOfDay <= b.msOfDay)
  }

  /**
   * The (year, month) that `new Date(year, monthIndex, ...)` lands in: a month
   * index outside 0..11 carries into the year, as JavaScript's Date does.
   */
  function NormalizeMonth(year: int, monthIndex: int): (ym: (int, int))
    ensures 1 <= ym.1 <= 12
    ensures (ym.0 * 12 + ym.1 - 1) == year * 12 + monthIndex
  {
    (year + monthIndex / 12, monthIndex % 12 + 1)
  }

  /** The length of year `y` in days. */
  function YearDays(y: int): (n: int)
    ensures n == 365 || n == 366
  {
    if IsLeap(y) then 366 else 365
  }

  /**
   * Days from 1 January of year 0 to 1 January of year `y` (negative before
   * year 0), counted year by year.
   */
  function DaysBeforeYear(y: int): int
    decreases if y < 0 then -y else y
  {
    if y == 0 then 0
    else if y > 0 then DaysBeforeYear(y - 1) + YearDays(y - 1)
    else DaysBeforeYear(y + 1) - YearDays(y)
  }

  /** Each year starts one year's length after the one before. */
  lemma YearStep(y: int)
    ensures DaysBeforeYear(y + 1) == DaysBeforeYear(y) + YearDays(y)
  {
  }

  /** The proleptic Gregorian closed form of the day count: leap days are years divisible by 4, less centuries, plus every fourth century. */
  function LeapFormula(y: int): int {
    365 * y + (y + 3) / 4 - (y + 99) / 100 + (y + 399) / 400
  }

  /** Days from 1 January to the first of month `m` in year `y`. */
  function DaysBeforeMonth(y: int, m: int): (n: int)
    requires 1 <= m <= 13
    ensures 28 * (m - 1) <= n <= 31 * (m - 1)
    decreases m
  {
    if m == 1 then 0 else DaysBeforeMonth(y, m - 1) + DaysInMonth(y, m - 1)
  }

  /** The day number of a civil date (days since 1 January of year 0). */
  function DayNumber(c: Civil): int
    requires 1 <= c.month <= 12
  {
    DaysBeforeYear(c.year) + DaysBeforeMonth(c.year, c.month) + c.day - 1
  }

  /** Euclidean division by `k` is determined by quotient and remainder. */
  lemma DivUnique(x: int, k: int, q: int, r: int)
    requires k > 0 && 0 <= r < k && x == k * q + r
    ensures x / k == q && x % k == r
  {
    var q', r' := x / k, x % k;
    assert k * (q - q') == r' - r;
    if q - q' >= 1 {
      MulAtLeast(k, q - q');
    } else if q' - q >= 1 {
      MulAtLeast(k, q' - q);
    }
  }

  lemma MulAtLeast(k: int, d: int)
    requires k > 0 && d >= 1
    ensures k * d >= k
  {
    assert k * d == k * (d - 1) + k;
    assert k * (d - 1) >= 0;
  }

  /** Going from `y - 1` to `y`, the quotient of `y + k - 1` by `k` steps up exactly when `k` divides `y`. */
  lemma CeilStep(y: int, k: int)
    requires k > 0
    ensures (y + k) / k - (y + k - 1) / k == if y % k == 0 then 1 else 0
  {
    var q, r := y / k, y % k;
    assert y == k * q + r;
    if r == 0 {
      DivUnique(y + k, k, q + 1, 0);
      DivUnique(y + k - 1, k, q, k - 1);
    } else {
      DivUnique(y + k, k, q + 1, r);
      DivUnique(y + k - 1, k, q + 1, r - 1);
    }
  }

  /** The year has 366 days in a leap year and 365 otherwise. */
  lemma YearLength(y: int)
    ensures DaysBeforeMonth(y, 13) == YearDays(y)
    ensures DaysBeforeYear(y + 1) - DaysBeforeYear(y) == YearDays(y)
  {
    MonthsAddUp(y);
    YearStep(y);
  }

  lemma MonthsAddUp(y: int)
    ensures DaysBeforeMonth(y, 13) == YearDays(y)
  {
    assert DaysBeforeMonth(y, 3) == if IsLeap(y) then 60 else 59;
    assert DaysBeforeMonth(y, 7) == DaysBeforeMonth(y, 3) + 122;
  }

  /** The closed form grows by the year's length, like the day count. */
  lemma LeapFormulaStep(y: int)
    ensures LeapFormula(y + 1) - LeapFormula(y) == YearDays(y)
  {
    CeilStep(y, 4);
    CeilStep(y, 100);
    CeilStep(y, 400);
    if y % 400 == 0 {
      DivUnique(y, 100, 4 * (y / 400), 0);
    }
    if y % 100 == 0 {
      DivUnique(y, 4, 25 * (y / 100), 0);
    }
  }

  /** The year-by-year day count agrees with the closed form, in both directions from year 0. */
  lemma {:induction false} DaysBeforeYearFormula(y: int)
    ensures DaysBeforeYear(y) == LeapFormula(y)
    decreases if y < 0 then -y else y
  {
    if y > 0 {
      DaysBeforeYearFormula(y - 1);
      LeapFormulaStep(y - 1);
    } else if y < 0 {
      DaysBeforeYearFormula(y + 1);
      LeapFormulaStep(y);
    }
  }

  /** The next calendar day has the next day number, across month and year ends. */
  lemma DayNumberNext(c: Civil)
    requires ValidCivil(c)
    ensures var n := NextDay(c); ValidCivil(n) && DayNumber(n) == DayNumber(c) + 1
  {
    if c.day == DaysInMonth(c.year, c.month) && c.month == 12 {
      YearLength(c.year);
    }
  }

  function NextDay(c: Civil): (n: Civil)
    requires ValidCivil(c)
  {
    if c.day < DaysInMonth(c.year, c.month) then c.(day := c.day + 1)
    else if c.month < 12 then Civil(c.year, c.month + 1, 1, c.msOfDay)
    else Civil(c.year + 1, 1, 1, c.msOfDay)
  }

  /** The day number of 1 January 1970, the epoch. */
  const EpochDay: int := 719528

  lemma EpochDayIsJan1970()
    ensures DayNumber(Civil(1970, 1, 1, 0)) == EpochDay
  {
    DaysBeforeYearFormula(1970);
    assert LeapFormula(1970) == EpochDay;
    assert DaysBeforeMonth(1970, 1) == 0;
  }

  /** The millisecond instant of a civil date and time: `new Date(y, m - 1, d, ...)`. */
  function CivilMs(c: Civil): int
    requires 1 <= c.month <= 12
  {
    (DayNumber(c) - EpochDay) * DayMs + c.msOfDay
  }

  /** Years start later and later: a later year begins no earlier than the day after an earlier year ends. */
  lemma {:induction false} DaysBeforeYearGrows(a: int, b: int)
    requires a < b
    ensures DaysBeforeYear(a + 1) <= DaysBeforeYear(b)
    decreases b - a
  {
    if a + 1 < b {
      DaysBeforeYearGrows(a + 1, b);
      YearStep(a + 1);
    }
  }

  /** Months start later and later within a year. */
  lemma {:induction false} DaysBeforeMonthGrows(y: int, a: int, b: int)
    requires 1 <= a < b <= 13
    ensures DaysBeforeMonth(y, a + 1) <= DaysBeforeMonth(y, b)
    decreases b - a
  {
    if a + 1 < b {
      DaysBeforeMonthGrows(y, a, b - 1);
      assert DaysBeforeMonth(y, b) == DaysBeforeMonth(y, b - 1) + DaysInMonth(y, b - 1);
    }
  }

  /** Searches from year `y`, down or up, for the year holding day number `d`. */
  function YearSearch(d: int, y: int): (r: int)
    ensures DaysBeforeYear(r) <= d < DaysBeforeYear(r + 1)
    decreases if d < DaysBeforeYear(y) then DaysBeforeYear(y) - d + 366 else d - DaysBeforeYear(y)
  {
    YearStep(y);
    YearStep(y - 1);
    if d < DaysBeforeYear(y) then YearSearch(d, y - 1)
    else if DaysBeforeYear(y + 1) <= d then YearSearch(d, y + 1)
    else y
  }

  /** The year holding day number `d`. */
  function YearOfDay(d: int): (y: int)
    ensures DaysBeforeYear(y) <= d < DaysBeforeYear(y + 1)
  {
    YearSearch(d, 0)
  }

  /** The month of year `y` holding day `doy` of the year (0 = 1 January), searching from month `m`. */
  function MonthOfDay(y: int, doy: int, m: int): (r: int)
    requires 1 <= m <= 12 && DaysBeforeMonth(y, m) <= doy < DaysBeforeMonth(y, 13)
    ensures m <= r <= 12 && DaysBeforeMonth(y, r) <= doy < DaysBeforeMonth(y, r + 1)
    decreases 12 - m
  {
    if doy < DaysBeforeMonth(y, m + 1) then m else MonthOfDay(y, doy, m + 1)
  }

  /** The civil date of day number `day`, at `ms` milliseconds into the day. */
  function DateOfDay(day: int, ms: int): (c: Civil)
    requires 0 <= ms < DayMs
    ensures ValidCivil(c) && DayNumber(c) == day && c.msOfDay == ms
    ensures DaysBeforeYear(c.year) <= day < DaysBeforeYear(c.year + 1)
    ensures DaysBeforeMonth(c.year, c.month) <= day - DaysBeforeYear(c.year) < DaysBeforeMonth(c.year, c.month + 1)
  {
    var y := YearOfDay(day);
    YearLength(y);
    var m := MonthOfDay(y, day - DaysBeforeYear(y), 1);
    DateParts(day, y, m, ms);
    Civil(y, m, day - DaysBeforeYear(y) - DaysBeforeMonth(y, m) + 1, ms)
  }

  lemma DateParts(day: int, y: int, m: int, ms: int)
    requires DaysBeforeYear(y) <= day && 1 <= m <= 12 && 0 <= ms < DayMs
    requires DaysBeforeMonth(y, m) <= day - DaysBeforeYear(y) < DaysBeforeMonth(y, m + 1)
    ensures var c := Civil(y, m, day - DaysBeforeYear(y) - DaysBeforeMonth(y, m) + 1, ms);
      ValidCivil(c) && DayNumber(c) == day
  {
    MonthStep(y, m);
  }

  lemma MonthStep(y: int, m: int)
    requires 1 <= m <= 12
    ensures DaysBeforeMonth(y, m + 1) == DaysBeforeMonth(y, m) + DaysInMonth(y, m)
  {
  }

  /** The calendar fields of an instant (`getFullYear`, `getMonth() + 1`, `getDate`, time of day). */
  function CivilOf(t: int): (c: Civil)
    ensures ValidCivil(c) && CivilMs(c) == t
  {
    DateOfDay(t / DayMs + EpochDay, t % DayMs)
  }

  /** A valid date's day number lies in its own year and, within it, in its own month. */
  lemma DayInItsMonth(c: Civil)
    requires ValidCivil(c)
    ensures var day := DayNumber(c);
      && DaysBeforeYear(c.year) <= day < DaysBeforeYear(c.year + 1)
      && DaysBeforeMonth(c.year, c.month) <= day - DaysBeforeYear(c.year) < DaysBeforeMonth(c.year, c.month + 1)
  {
    YearLength(c.year);
    MonthStep(c.year, c.month);
    DaysBeforeMonthGrows(c.year, c.month, 13);
  }

  /** Two valid civil instants on the same day number and at the same time of day are the same. */
  lemma CivilUnique(c: Civil, r: Civil)
    requires ValidCivil(c) && ValidCivil(r)
    requires DayNumber(c) == DayNumber(r) && c.msOfDay == r.msOfDay
    ensures c == r
  {
    DayInItsMonth(c);
    DayInItsMonth(r);
    InMonthIff(r, DayNumber(r), c.year, c.month);
  }

  /** A valid date is the date of its own day number. */
  lemma DateOfDayNumber(c: Civil)
    requires ValidCivil(c)
    ensures DateOfDay(DayNumber(c), c.msOfDay) == c
  {
    CivilUnique(c, DateOfDay(DayNumber(c), c.msOfDay));
  }

  /** Splitting `d` whole days plus `ms` milliseconds back into days and milliseconds. */
  lemma SplitMs(d: int, ms: int)
    requires 0 <= ms < DayMs
    ensures (d * DayMs + ms) / DayMs == d && (d * DayMs + ms) % DayMs == ms
  {
    DivUnique(d * DayMs + ms, DayMs, d, ms);
  }

  /** Distinct (day, time of day) pairs give distinct instants. */
  lemma InstantUnique(d1: int, ms1: int, d2: int, ms2: int)
    requires 0 <= ms1 < DayMs && 0 <= ms2 < DayMs
    requires d1 * DayMs + ms1 == d2 * DayMs + ms2
    ensures d1 == d2 && ms1 == ms2
  {
    SplitMs(d1, ms1);
    SplitMs(d2, ms2);
  }

  /** The other round trip: the fields of a valid civil instant's milliseconds are that instant. */
  lemma CivilOfMs(c: Civil)
    requires ValidCivil(c)
    ensures CivilOf(CivilMs(c)) == c
  {
    var r := CivilOf(CivilMs(c));
    InstantUnique(DayNumber(c) - EpochDay, c.msOfDay, DayNumber(r) - EpochDay, r.msOfDay);
    CivilUnique(c, r);
  }

  /** A day lies in only one year. */
  lemma OneYear(d: int, y1: int, y2: int)
    requires DaysBeforeYear(y1) <= d < DaysBeforeYear(y1 + 1)
    requires DaysBeforeYear(y2) <= d < DaysBeforeYear(y2 + 1)
    ensures y1 == y2
  {
    if y1 < y2 {
      DaysBeforeYearGrows(y1, y2);
    } else if y2 < y1 {
      DaysBeforeYearGrows(y2, y1);
    }
  }

  /** A day of a year lies in only one month. */
  lemma OneMonth(y: int, doy: int, m1: int, m2: int)
    requires 1 <= m1 <= 12 && 1 <= m2 <= 12
    requires DaysBeforeMonth(y, m1) <= doy < DaysBeforeMonth(y, m1 + 1)
    requires DaysBeforeMonth(y, m2) <= doy < DaysBeforeMonth(y, m2 + 1)
    ensures m1 == m2
  {
    if m1 < m2 {
      DaysBeforeMonthGrows(y, m1, m2);
    } else if m2 < m1 {
      DaysBeforeMonthGrows(y, m2, m1);
    }
  }

  /** A month's days lie inside its year. */
  lemma MonthInsideYear(y: int, m: int)
    requires 1 <= m <= 12
    ensures DaysBeforeYear(y) + DaysBeforeMonth(y, m + 1) <= DaysBeforeYear(y + 1)
  {
    YearLength(y);
    if m < 12 {
      DaysBeforeMonthGrows(y, m, 13);
    }
  }

  /** A day number known to lie in its date's month lies in month `m` of year `y` exactly when it is between their first days. */
  lemma InMonthIff(c: Civil, d: int, y: int, m: int)
    requires 1 <= c.month <= 12 && 1 <= m <= 12
    requires DaysBeforeYear(c.year) <= d < DaysBeforeYear(c.year + 1)
    requires DaysBeforeMonth(c.year, c.month) <= d - DaysBeforeYear(c.year) < DaysBeforeMonth(c.year, c.month + 1)
    ensures (c.year == y && c.month == m) <==>
      DaysBeforeYear(y) + DaysBeforeMonth(y, m) <= d < DaysBeforeYear(y) + DaysBeforeMonth(y, m + 1)
  {
    if DaysBeforeYear(y) + DaysBeforeMonth(y, m) <= d < DaysBeforeYear(y) + DaysBeforeMonth(y, m + 1) {
      InMonthOnly(c, d, y, m);
    }
  }

  /** The converse half: a day number between the first days of month `m` of year `y` and of the next month is in that month. */
  lemma InMonthOnly(c: Civil, d: int, y: int, m: int)
    requires 1 <= c.month <= 12 && 1 <= m <= 12
    requires DaysBeforeYear(c.year) <= d < DaysBeforeYear(c.year + 1)
    requires DaysBeforeMonth(c.year, c.month) <= d - DaysBeforeYear(c.year) < DaysBeforeMonth(c.year, c.month + 1)
    requires DaysBeforeYear(y) + DaysBeforeMonth(y, m) <= d < DaysBeforeYear(y) + DaysBeforeMonth(y, m + 1)
    ensures c.year == y && c.month == m
  {
    MonthInsideYear(y, m);
    assert DaysBeforeYear(y) <= d < DaysBeforeYear(y + 1);
    assert DaysBeforeYear(c.year) <= d < DaysBeforeYear(c.year + 1);
    OneYear(d, c.year, y);
    OneMonth(y, d - DaysBeforeYear(y), c.month, m);
  }

  /** The first instant of month `m` of year `y`: `new Date(y, m - 1, 1)`. */
  function MonthStartMs(y: int, m: int): int
    requires 1 <= m <= 12
  {
    CivilMs(Civil(y, m, 1, 0))
  }

  /** Whole days and the instants in them: `t` is at or past day `k` exactly when its day number is. */
  lemma DayBounds(t: int, k: int)
    ensures k * DayMs <= t <==> k <= t / DayMs
    ensures t < k * DayMs <==> t / DayMs < k
  {
    var q := t / DayMs;
    assert q * DayMs <= t < q * DayMs + DayMs;
    if k <= q {
      MulNotBelow(k, q);
    } else {
      MulNotBelow(q + 1, k);
    }
  }

  lemma MulNotBelow(a: int, b: int)
    requires a <= b
    ensures a * DayMs <= b * DayMs
  {
  }

  /** The instants of month `m` of year `y` are those whose day number lies from its first day up to the next month's. */
  lemma MonthSpanMs(t: int, y: int, m: int)
    requires 1 <= m <= 12
    ensures MonthStartMs(y, m) <= t < MonthStartMs(y, m) + DaysInMonth(y, m) * DayMs <==>
      DaysBeforeYear(y) + DaysBeforeMonth(y, m) <= t / DayMs + EpochDay < DaysBeforeYear(y) + DaysBeforeMonth(y, m + 1)
  {
    var first := DaysBeforeYear(y) + DaysBeforeMonth(y, m);
    var next := DaysBeforeYear(y) + DaysBeforeMonth(y, m + 1);
    MonthStep(y, m);
    assert MonthStartMs(y, m) == (first - EpochDay) * DayMs;
    assert MonthStartMs(y, m) + DaysInMonth(y, m) * DayMs == (next - EpochDay) * DayMs;
    DayBounds(t, first - EpochDay);
    DayBounds(t, next - EpochDay);
  }

  /** `CivilOf` picks the year and month holding the instant's day number. */
  lemma CivilOfBounds(t: int, d: int)
    requires d == t / DayMs + EpochDay
    ensures var c := CivilOf(t);
      && DaysBeforeYear(c.year) <= d < DaysBeforeYear(c.year + 1)
      && DaysBeforeMonth(c.year, c.month) <= d - DaysBeforeYear(c.year) < DaysBeforeMonth(c.year, c.month + 1)
  {
    var c := DateOfDay(d, t % DayMs);
    assert CivilOf(t) == c;
  }

  /** An instant falls in month `m` of year `y` exactly when it lies from that month's first instant up to the next month's. */
  lemma InstantInMonth(t: int, y: int, m: int)
    requires 1 <= m <= 12
    ensures (CivilOf(t).year == y && CivilOf(t).month == m) <==>
      MonthStartMs(y, m) <= t < MonthStartMs(y, m) + DaysInMonth(y, m) * DayMs
  {
    var d, c := t / DayMs + EpochDay, CivilOf(t);
    MonthSpanMs(t, y, m);
    CivilOfBounds(t, d);
    InMonthIff(c, d, y, m);
  }
}
