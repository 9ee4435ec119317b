/** Calendar arithmetic behind the "time together" counter: dates as plain
    integer records in local time (month 0-11, as JavaScript's Date reports
    it) and the field-wise calendar difference between a fixed start date
    and the current date. */
module Calendar {

  type Month = m: int | 0 <= m < 12
  type Hour = h: int | 0 <= h < 24
  type Minute = m: int | 0 <= m < 60
  type Second = s: int | 0 <= s < 60

  /** A local date and clock time, field by field. */
  datatype DateTime = DateTime(year: int, month: Month, day: int, hour: Hour, minute: Minute, second: Second)

  /** The value shown by the counter. */
  datatype Duration = Duration(years: int, months: int, days: int, hours: int, minutes: int, seconds: int)

  /** The fixed start of the counter: 9 May 2021, 00:00:00. */
  const StartDate := DateTime(2021, 4, 9, 0, 0, 0)

  /** The Gregorian leap-year rule. */
  predicate IsLeapYear(year: int)
  {
    year % 4 == 0 && (year % 100 != 0 || year % 400 == 0)
  }

  function DaysInMonth(year: int, month: Month): (n: int)
    ensures 28 <= n <= 31
    ensures month == 1 ==> (n == 29 <==> IsLeapYear(year))
  {
    if month == 1 then (if IsLeapYear(year) then 29 else 28)
    else if month == 3 || month == 5 || month == 8 || month == 10 then 30
    else 31
  }

  /** A date whose day exists in its month. */
  predicate ValidDate(d: DateTime)
  {
    1 <= d.day <= DaysInMonth(d.year, d.month)
  }

  /** The year the Date constructor actually uses: two-digit years 0-99 are
      taken as 1900-1999. */
  function ConstructorYear(year: int): int
  {
    if 0 <= year <= 99 then 1900 + year else year
  }

  /** The day of month of `new Date(year, month, 0)`: day 0 of a month is the
      last day of the month before it (December of the previous year when
      month is January). */
  function LastDayOfPreviousMonth(year: int, month: Month): (n: int)
    ensures 28 <= n <= 31
  {
    var y := ConstructorYear(year);
    if month == 0 then DaysInMonth(y - 1, 11) else DaysInMonth(y, month - 1)
  }

  /** Months since year 0, a linear index of the calendar month of d. */
  function MonthIndex(d: DateTime): int
  {
    d.year * 12 + d.month
  }

  /** True when now's calendar date is the same as start's or later. */
  predicate OnOrAfter(now: DateTime, start: DateTime)
  {
    now.year > start.year
    || (now.year == start.year && now.month > start.month)
    || (now.year == start.year && now.month == start.month && now.day >= start.day)
  }

  /** Whole calendar months from start to now: the month count, less one
      when now's day of month has not yet reached start's. */
  function CompletedMonths(start: DateTime, now: DateTime): int
  {
    MonthIndex(now) - MonthIndex(start) - (if now.day < start.day then 1 else 0)
  }

  /** The date `months` calendar months after d, on d's day of month. */
  function AddMonths(d: DateTime, months: int): (r: DateTime)
    ensures MonthIndex(r) == MonthIndex(d) + months
    ensures r.day == d.day
  {
    var k := MonthIndex(d) + months;
    DateTime(k / 12, k % 12, d.day, 0, 0, 0)
  }

  /** The counter's computation: years, months and days by field-wise
      subtraction, a negative day count borrowing the length of the month
      before now's month, then a negative month count borrowing a year. The
      clock fields are now's own clock time, not an elapsed remainder.
      Years and months together always amount to the completed calendar
      months, with months in 0..11. */
  function CalendarDifference(start: DateTime, now: DateTime): (r: Duration)
    ensures 0 <= r.months < 12
    ensures r.years * 12 + r.months == CompletedMonths(start, now)
  {
    var years := now.year - start.year;
    var months := now.month - start.month;
    var days := now.day - start.day;
    var (months', days') :=
      if days < 0 then (months - 1, days + LastDayOfPreviousMonth(now.year, now.month))
      else (months, days);
    var (years', months'') :=
      if months' < 0 then (years - 1, months' + 12) else (years, months');
    Duration(years', months'', days', now.hour, now.minute, now.second)
  }

  /** The counter as the page computes it, from the fixed start date. */
  function TimeSinceStart(now: DateTime): Duration
  {
    CalendarDifference(StartDate, now)
  }

  /** Years and months are the quotient and remainder of the completed
      months by 12: the months borrow is exactly a carry into years. */
  lemma DifferenceIsMonthsDivided(start: DateTime, now: DateTime)
    ensures CalendarDifference(start, now).years == CompletedMonths(start, now) / 12
    ensures CalendarDifference(start, now).months == CompletedMonths(start, now) % 12
  {
  }

  /** The year count is non-negative exactly when now is on or after start. */
  lemma YearsNonNegativeIff(start: DateTime, now: DateTime)
    ensures CalendarDifference(start, now).years >= 0 <==> OnOrAfter(now, start)
  {
  }

  /** The day count is non-negative and below the length of the month it
      counts in: now's month when now's day has reached start's, otherwise
      the month before now's month (the borrowed one). This needs the start
      day to be at most 28, so that every month has an anniversary of it. */
  lemma DifferenceDaysInRange(start: DateTime, now: DateTime)
    requires ValidDate(now) && 1 <= start.day <= 28
    ensures 0 <= CalendarDifference(start, now).days
    ensures CalendarDifference(start, now).days
            < if now.day < start.day then LastDayOfPreviousMonth(now.year, now.month)
              else DaysInMonth(now.year, now.month)
  {
  }

  /** Reading the result back: `years` and `months` after start lands on the
      last monthly anniversary of start (a real date, in now's month or the
      month before it), and counting `days` days forward from that
      anniversary reaches now's date. */
  lemma DifferenceReconstructs(start: DateTime, now: DateTime)
    requires ValidDate(now) && 1 <= start.day <= 28
    ensures var r := CalendarDifference(start, now);
            var a := AddMonths(start, r.years * 12 + r.months);
            && ValidDate(a)
            && (now.day >= start.day ==> MonthIndex(a) == MonthIndex(now) && a.day + r.days == now.day)
            && (now.day < start.day ==>
                  MonthIndex(a) == MonthIndex(now) - 1
                  && a.day + r.days == now.day + LastDayOfPreviousMonth(now.year, now.month))
  {
  }

  /** For the page's own start date: every date on or after it gives a
      non-negative year count, months in 0..11 and a day count below the
      length of the month before now's month; the clock fields are now's. */
  lemma TimeSinceStartRanges(now: DateTime)
    requires ValidDate(now) && OnOrAfter(now, StartDate)
    ensures var r := TimeSinceStart(now);
            && r.years >= 0
            && 0 <= r.months <= 11
            && 0 <= r.days <= LastDayOfPreviousMonth(now.year, now.month) - 1
            && r.hours == now.hour && r.minutes == now.minute && r.seconds == now.second
  {
  }

  /** The year, month and day counts depend only on now's date, not on its
      clock time. */
  lemma DifferenceIgnoresClock(start: DateTime, now: DateTime, now': DateTime)
    requires now.year == now'.year && now.month == now'.month && now.day == now'.day
    ensures CalendarDifference(start, now).years == CalendarDifference(start, now').years
    ensures CalendarDifference(start, now).months == CalendarDifference(start, now').months
    ensures CalendarDifference(start, now).days == CalendarDifference(start, now').days
  {
  }

  /** One calendar month after the start date reads as 0 years, 1 month,
      0 days. */
  lemma OneMonthExample(hour: Hour, minute: Minute, second: Second)
    ensures TimeSinceStart(DateTime(2021, 5, 9, hour, minute, second))
            == Duration(0, 1, 0, hour, minute, second)
  {
  }
}
