/**
 * Proleptic Gregorian dates as Python's datetime.date has them (years 1 to
 * 9999), the one-day step `date + timedelta(days=1)`, and datetimes at
 * whole-minute resolution ordered as Python compares them.
 */
module Calendar {
  import opened Wrappers

  datatype Date = Date(year: int, month: int, day: int)

  /** datetime.MINYEAR and datetime.MAXYEAR */
  const MinYear := 1
  const MaxYear := 9999

  predicate IsLeapYear(y: int) {
    y % 4 == 0 && (y % 100 != 0 || y % 400 == 0)
  }

  function DaysInMonth(y: int, m: int): (n: int)
    requires 1 <= m <= 12
    ensures 28 <= n <= 31
  {
    if m == 2 then (if IsLeapYear(y) then 29 else 28)
    else if m == 4 || m == 6 || m == 9 || m == 11 then 30
    else 31
  }

  predicate IsCalendarDate(d: Date) {
    MinYear <= d.year <= MaxYear && 1 <= d.month <= 12 && 1 <= d.day <= DaysInMonth(d.year, d.month)
  }

  /** The values a datetime.date object can hold. */
  type CalendarDate = d: Date | IsCalendarDate(d) witness Date(1, 1, 1)

  /** Chronological order of dates. */
  predicate Before(a: Date, b: Date) {
    a.year < b.year
    || (a.year == b.year && a.month < b.month)
    || (a.year == b.year && a.month == b.month && a.day < b.day)
  }

  predicate AtOrBefore(a: Date, b: Date) {
    a == b || Before(a, b)
  }

  /**
   * `d + timedelta(days=1)`: the calendar successor of d, or None where
   * Python raises OverflowError (after 9999-12-31).
   */
  function NextDay(d: CalendarDate): (r: Option<CalendarDate>)
    ensures r.None? <==> d == Date(MaxYear, 12, 31)
    ensures r.Some? ==> Before(d, r.value)
    ensures r.Some? ==> forall x: CalendarDate :: Before(d, x) ==> AtOrBefore(r.value, x)
  {
    if d.day < DaysInMonth(d.year, d.month) then Some(Date(d.year, d.month, d.day + 1))
    else if d.month < 12 then Some(Date(d.year, d.month + 1, 1))
    else if d.year < MaxYear then Some(Date(d.year + 1, 1, 1))
    else None
  }

  /** Minutes since midnight: the hour and minute of a datetime whose seconds are zero. */
  type Minute = m: int | 0 <= m < 24 * 60

  datatype DateTime = DateTime(date: CalendarDate, minute: Minute)

  /** `a <= b` on datetime objects. */
  predicate NotAfter(a: DateTime, b: DateTime) {
    Before(a.date, b.date) || (a.date == b.date && a.minute <= b.minute)
  }

  /** `a < b` on datetime objects. */
  predicate Earlier(a: DateTime, b: DateTime) {
    Before(a.date, b.date) || (a.date == b.date && a.minute < b.minute)
  }
}
