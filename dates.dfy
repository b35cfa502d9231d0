/**
 * The day arithmetic of utils/dates.js: inclusive day counts between two
 * instants, a monthly amount prorated over a 30-day month, and expiry at the
 * end of the expiry day.
 */
module Dates {
  import opened Wrappers
  import opened Calendar

  /** JavaScript's truncation of a quotient toward zero (dayjs rounds a difference with `absFloor`). */
  function TruncDiv(a: int, b: int): (q: int)
    requires b > 0
    ensures a >= 0 ==> q == a / b
    ensures a < 0 ==> q == -((-a) / b)
  {
    if a >= 0 then a / b else -((-a) / b)
  }

  /** `daysBetween`: the whole days from the start's day to the end's day, plus one. */
  function DaysBetween(start: int, end: int): int {
    TruncDiv(StartOfDay(end) - StartOfDay(start), DayMs) + 1
  }

  /** The count is the difference of the day numbers plus one: both end days are counted. */
  lemma DaysBetweenDays(start: int, end: int)
    ensures DaysBetween(start, end) == DayOf(end) - DayOf(start) + 1
  {
    StartOfDayIsDay(start);
    StartOfDayIsDay(end);
    var k := DayOf(end) - DayOf(start);
    assert StartOfDay(end) - StartOfDay(start) == k * DayMs;
    if k >= 0 {
      DivUnique(k * DayMs, DayMs, k, 0);
    } else {
      DivUnique(-k * DayMs, DayMs, -k, 0);
    }
  }

  /** Any two instants of the same day are one day apart, inclusively. */
  lemma SameDayIsOne(start: int, end: int)
    requires DayOf(start) == DayOf(end)
    ensures DaysBetween(start, end) == 1
  {
    DaysBetweenDays(start, end);
  }

  /** An end on the day before the start's day gives 0. */
  lemma DayBeforeIsZero(start: int)
    ensures DaysBetween(start, start - DayMs) == 0
  {
    DaysBetweenDays(start, start - DayMs);
    DivUnique(start - DayMs, DayMs, DayOf(start) - 1, start % DayMs);
  }

  /** A later end never gives fewer days. */
  lemma DaysBetweenMonotone(start: int, end1: int, end2: int)
    requires end1 <= end2
    ensures DaysBetween(start, end1) <= DaysBetween(start, end2)
  {
    DaysBetweenDays(start, end1);
    DaysBetweenDays(start, end2);
    DayOfMonotone(end1, end2);
  }

  lemma DayOfMonotone(a: int, b: int)
    requires a <= b
    ensures DayOf(a) <= DayOf(b)
  {
    StartOfDayIsDay(a);
    StartOfDayIsDay(b);
  }

  /** Counting the days of two adjacent periods, the first ending the day before the second starts, is counting the whole. */
  lemma DaysBetweenSplit(start: int, mid: int, end: int)
    ensures DaysBetween(start, mid) + DaysBetween(mid + DayMs, end) == DaysBetween(start, end)
  {
    DaysBetweenDays(start, mid);
    DaysBetweenDays(mid + DayMs, end);
    DaysBetweenDays(start, end);
    DivUnique(mid + DayMs, DayMs, DayOf(mid) + 1, mid % DayMs);
  }

  datatype Prorated = Prorated(days: int, prorated: real)

  /** `proratedAmountMonthly`: a per-day rate of a 30-day month times the inclusive day count. */
  function ProratedAmountMonthly(amountMonthly: real, periodStart: int, periodEnd: int): (r: Prorated)
    ensures r.days == DaysBetween(periodStart, periodEnd)
  {
    var days := DaysBetween(periodStart, periodEnd);
    Prorated(days, amountMonthly / 30.0 * days as real)
  }

  /** Thirty inclusive days cost exactly the monthly amount, whatever the calendar month's length. */
  lemma ThirtyDaysIsOneMonth(amountMonthly: real, periodStart: int, periodEnd: int)
    requires DayOf(periodEnd) == DayOf(periodStart) + 29
    ensures ProratedAmountMonthly(amountMonthly, periodStart, periodEnd).prorated == amountMonthly
  {
    DaysBetweenDays(periodStart, periodEnd);
  }

  /** Prorating two adjacent periods separately adds up to prorating their union. */
  lemma ProratedSplit(amountMonthly: real, start: int, mid: int, end: int)
    ensures ProratedAmountMonthly(amountMonthly, start, mid).prorated
      + ProratedAmountMonthly(amountMonthly, mid + DayMs, end).prorated
      == ProratedAmountMonthly(amountMonthly, start, end).prorated
  {
    DaysBetweenSplit(start, mid, end);
    var a, b := DaysBetween(start, mid), DaysBetween(mid + DayMs, end);
    var rate := amountMonthly / 30.0;
    assert rate * a as real + rate * b as real == rate * (a + b) as real;
  }

  /** `isExpired`: false without an expiry date, else whether the end of the expiry day is before `now`. */
  function IsExpired(expiryDate: Option<int>, now: int): bool {
    expiryDate.Some? && EndOfDay(expiryDate.value) < now
  }

  /** A service expires on the day after its expiry day: the whole expiry day still counts. */
  lemma ExpiredIff(expiryDate: Option<int>, now: int)
    ensures IsExpired(expiryDate, now) <==> expiryDate.Some? && DayOf(expiryDate.value) < DayOf(now)
  {
    if expiryDate.Some? {
      BeforeEndOfDay(now, expiryDate.value);
      var e := expiryDate.value;
      if EndOfDay(e) < now {
        assert now > EndOfDay(e);
        assert !(now <= EndOfDay(e));
      }
    }
  }
}
