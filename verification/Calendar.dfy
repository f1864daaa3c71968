/** Instants and dates, to the precision the timeline queries look at: the year, the day in the
    year and the second in the day (UTC, the time zone the application runs in). */
module Calendar {
  predicate IsLeap(year: int) {
    year % 4 == 0 && (year % 100 != 0 || year % 400 == 0)
  }

  function DaysIn(year: int): int {
    if IsLeap(year) then 366 else 365
  }

  datatype RawDate = Date(year: int, day: int) {
    predicate Valid() {
      1 <= day <= DaysIn(year)
    }
  }

  type CalendarDate = d: RawDate | d.Valid() witness Date(2024, 1)

  datatype RawInstant = At(date: CalendarDate, second: int)

  type Instant = i: RawInstant | 0 <= i.second < 86400 witness At(Date(2024, 1), 0)

  function YearOf(i: Instant): int {
    i.date.year
  }

  /** December 31, the last day of a compliance period. */
  function EndOfYear(year: int): CalendarDate {
    Date(year, DaysIn(year))
  }

  predicate DateAtOrBefore(a: CalendarDate, b: CalendarDate) {
    a.year < b.year || (a.year == b.year && a.day <= b.day)
  }

  predicate DateBefore(a: CalendarDate, b: CalendarDate) {
    !DateAtOrBefore(b, a)
  }

  predicate AtOrBefore(a: Instant, b: Instant) {
    DateBefore(a.date, b.date) || (a.date == b.date && a.second <= b.second)
  }

  /** How closely two instants are compared: exactly, or by the calendar year alone. */
  datatype Grain = ByInstant | ByYear

  predicate NotAfter(g: Grain, a: Instant, b: Instant) {
    match g
    case ByInstant => AtOrBefore(a, b)
    case ByYear => YearOf(a) <= YearOf(b)
  }

  /** Instants are in one order, which never goes back to an earlier date, day or second. */
  lemma InstantOrder(a: Instant, b: Instant, c: Instant)
    ensures AtOrBefore(a, b) || AtOrBefore(b, a)
    ensures AtOrBefore(a, b) && AtOrBefore(b, a) ==> a == b
    ensures AtOrBefore(a, b) && AtOrBefore(b, c) ==> AtOrBefore(a, c)
    ensures AtOrBefore(a, b) ==> DateAtOrBefore(a.date, b.date) && YearOf(a) <= YearOf(b)
    ensures AtOrBefore(a, b) && a.date == b.date ==> a.second <= b.second
  {
  }
}
