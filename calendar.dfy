/** Gregorian dates as Python's `datetime.date` holds them, and the step of one
    calendar day that `now - datetime.timedelta(days=1)` takes. */
module Calendar {

  datatype Date = Date(year: int, month: int, day: int)

  /** `datetime.MINYEAR` and `datetime.MAXYEAR`. */
  const MinYear := 1
  const MaxYear := 9999

  predicate IsLeapYear(y: int) {
    y % 4 == 0 && (y % 100 != 0 || y % 400 == 0)
  }

  function DaysInMonth(y: int, m: int): (n: int)
    requires 1 <= m <= 12
    ensures 28 <= n <= 31
    ensures n == 29 <==> m == 2 && IsLeapYear(y)
  {
    if m == 2 then (if IsLeapYear(y) then 29 else 28)
    else if m == 4 || m == 6 || m == 9 || m == 11 then 30
    else 31
  }

  /** The dates `datetime.date(year, month, day)` accepts without raising. */
  predicate ValidDate(d: Date) {
    MinYear <= d.year <= MaxYear && 1 <= d.month <= 12 && 1 <= d.day <= DaysInMonth(d.year, d.month)
  }

  /** Chronological order of dates. */
  predicate Before(a: Date, b: Date) {
    a.year < b.year
    || (a.year == b.year && a.month < b.month)
    || (a.year == b.year && a.month == b.month && a.day < b.day)
  }

  const FirstDate := Date(MinYear, 1, 1)
  const LastDate := Date(MaxYear, 12, 31)

  /** The date one calendar day earlier, rolling over months and years. */
  function Yesterday(d: Date): (r: Date)
    requires ValidDate(d) && d != FirstDate
    ensures ValidDate(r) && Before(r, d)
  {
    if d.day > 1 then Date(d.year, d.month, d.day - 1)
    else if d.month > 1 then Date(d.year, d.month - 1, DaysInMonth(d.year, d.month - 1))
    else Date(d.year - 1, 12, 31)
  }

  /** The date one calendar day later: the independent reference for `Yesterday`. */
  function Tomorrow(d: Date): (r: Date)
    requires ValidDate(d) && d != LastDate
    ensures ValidDate(r) && Before(d, r)
  {
    if d.day < DaysInMonth(d.year, d.month) then Date(d.year, d.month, d.day + 1)
    else if d.month < 12 then Date(d.year, d.month + 1, 1)
    else Date(d.year + 1, 1, 1)
  }

  lemma TomorrowOfYesterday(d: Date)
    requires ValidDate(d) && d != FirstDate
    ensures Yesterday(d) != LastDate && Tomorrow(Yesterday(d)) == d
  {
  }

  lemma YesterdayOfTomorrow(d: Date)
    requires ValidDate(d) && d != LastDate
    ensures Tomorrow(d) != FirstDate && Yesterday(Tomorrow(d)) == d
  {
  }

  /** No valid date lies strictly between `Yesterday(d)` and `d`: it is exactly
      one calendar day earlier. */
  lemma YesterdayIsAdjacent(d: Date, e: Date)
    requires ValidDate(d) && d != FirstDate && ValidDate(e)
    ensures !(Before(Yesterday(d), e) && Before(e, d))
  {
  }
}
