/** Calendar arithmetic behind the routes' date windows: the Gregorian month
    lengths, date order, and the local-time `new Date(year, monthIndex, day)`
    constructor with its month and day normalisation. */
module Calendar {
  import opened Records
  import opened Sorting

  /** Gregorian leap-year rule. */
  predicate IsLeapYear(year: int) {
    (year % 4 == 0 && year % 100 != 0) || year % 400 == 0
  }

  function DaysInMonth(year: int, month: int): (n: int)
    requires 1 <= month <= 12
    ensures 28 <= n <= 31
    ensures n == 29 <==> month == 2 && IsLeapYear(year)
    ensures n == 28 <==> month == 2 && !IsLeapYear(year)
  {
    if month == 2 then (if IsLeapYear(year) then 29 else 28)
    else if month == 4 || month == 6 || month == 9 || month == 11 then 30
    else 31
  }

  predicate ValidDate(d: Date) {
    1 <= d.month <= 12 && 1 <= d.day <= DaysInMonth(d.year, d.month)
  }

  /** Chronological order of dates (MongoDB's `$gte`/`$lte` on date-only values). */
  predicate DateLe(a: Date, b: Date) {
    a.year < b.year
    || (a.year == b.year && (a.month < b.month || (a.month == b.month && a.day <= b.day)))
  }

  /** Newest first: the order of `.sort({ date: -1 })` and of the summary's
      `b.date - a.date` comparator. */
  predicate ByDateDesc(a: Transaction, b: Transaction) {
    DateLe(b.date, a.date)
  }

  lemma DateOrderTotal()
    ensures TotalPreorder(ByDateDesc)
  {
  }

  predicate InWindow(d: Date, start: Date, end: Date) {
    DateLe(start, d) && DateLe(d, end)
  }

  /** Months counted from month 1 of year 0. */
  function MonthIndex(year: int, month: int): int {
    year * 12 + (month - 1)
  }

  /** The (year, month 1..12) that a JavaScript Date lands in when built from
      `year` and a zero-based `monthIndex` that may fall outside 0..11. */
  function NormalizeMonth(year: int, monthIndex: int): (ym: (int, int))
    ensures 1 <= ym.1 <= 12
    ensures MonthIndex(ym.0, ym.1) == year * 12 + monthIndex
  {
    var k := year * 12 + monthIndex;
    (k / 12, k % 12 + 1)
  }

  /** The calendar date reached from day `day` of the month `monthIndex`
      (zero-based, possibly out of 0..11) of `year`, for a day in 0..31: the
      month is normalised first, day 0 is the last day of the previous month,
      and a day past the month's end spills into the next. This is what both
      the Date constructor and `setMonth` compute. */
  function DateFrom(year: int, monthIndex: int, day: int): (d: Date)
    requires 0 <= day <= 31
    ensures ValidDate(d)
    ensures day == 0 ==> d.day == DaysInMonth(d.year, d.month)
    ensures 1 <= day <= 28 ==> d.day == day
  {
    var ym := NormalizeMonth(year, monthIndex);
    if day == 0 then
      var prev := NormalizeMonth(year, monthIndex - 1);
      Date(prev.0, prev.1, DaysInMonth(prev.0, prev.1))
    else if day <= DaysInMonth(ym.0, ym.1) then
      Date(ym.0, ym.1, day)
    else
      var next := NormalizeMonth(year, monthIndex + 1);
      Date(next.0, next.1, day - DaysInMonth(ym.0, ym.1))
  }

  /** The year the Date constructor uses: a year argument 0..99 means 1900..1999. */
  function FullYear(year: int): (r: int)
    ensures r % 100 == year % 100
    ensures r < 0 || r >= 100
    ensures 0 <= year <= 99 ==> 1900 <= r <= 1999
    ensures year < 0 || year > 99 ==> r == year
  {
    if 0 <= year <= 99 then 1900 + year else year
  }

  /** `new Date(year, monthIndex, day)` in local time. */
  function LocalDate(year: int, monthIndex: int, day: int): (d: Date)
    requires 0 <= day <= 31
    ensures ValidDate(d)
  {
    DateFrom(FullYear(year), monthIndex, day)
  }

  /** NormalizeMonth is determined by its contract: a valid (year, month) pair
      with the right month count is the only answer. */
  lemma {:induction false} NormalizeMonthUnique(year: int, monthIndex: int, y: int, m: int)
    requires 1 <= m <= 12
    requires MonthIndex(y, m) == year * 12 + monthIndex
    ensures NormalizeMonth(year, monthIndex) == (y, m)
  {
    var ym := NormalizeMonth(year, monthIndex);
    assert (y - ym.0) * 12 == ym.1 - m;
  }

  /** For an in-range month, `new Date(y, m - 1, 1)` is the first day of month
      m and `new Date(y, m, 0)` is its last day (of year y, or 1900 + y for a
      two-digit y). */
  lemma {:induction false} MonthBounds(year: int, month: int)
    requires 1 <= month <= 12
    ensures LocalDate(year, month - 1, 1) == Date(FullYear(year), month, 1)
    ensures LocalDate(year, month, 0) == Date(FullYear(year), month, DaysInMonth(FullYear(year), month))
  {
    NormalizeMonthUnique(FullYear(year), month - 1, FullYear(year), month);
  }

  /** The window [new Date(y, m - 1, 1), new Date(y, m, 0)] holds exactly the
      valid dates of one calendar month, the one that month index m - 1 of
      the constructor's year normalises to. */
  lemma {:induction false} MonthWindowExact(year: int, month: int, d: Date)
    requires ValidDate(d)
    ensures InWindow(d, LocalDate(year, month - 1, 1), LocalDate(year, month, 0))
            <==> (d.year, d.month) == NormalizeMonth(FullYear(year), month - 1)
  {
    var ym := NormalizeMonth(FullYear(year), month - 1);
    NormalizeMonthUnique(FullYear(year), month, if ym.1 == 12 then ym.0 + 1 else ym.0, if ym.1 == 12 then 1 else ym.1 + 1);
    assert LocalDate(year, month - 1, 1) == Date(ym.0, ym.1, 1);
    assert LocalDate(year, month, 0) == Date(ym.0, ym.1, DaysInMonth(ym.0, ym.1));
  }

  /** The month before (year, month), rolling January back to December of
      the previous year. */
  function PreviousMonth(year: int, month: int): (ym: (int, int))
    requires 1 <= month <= 12
    ensures 1 <= ym.1 <= 12
    ensures MonthIndex(ym.0, ym.1) == MonthIndex(year, month) - 1
  {
    if month == 1 then (year - 1, 12) else (year, month - 1)
  }

  /** `new Date(new Date().setMonth(now.getMonth() - 12))`: the same day one
      year earlier, except that 29 February becomes 1 March. */
  function TwelveMonthsBefore(now: Date): (d: Date)
    requires ValidDate(now)
    ensures ValidDate(d)
  {
    DateFrom(now.year, now.month - 1 - 12, now.day)
  }

  lemma {:induction false} TwelveMonthsBeforeDate(now: Date)
    requires ValidDate(now)
    ensures now.day <= DaysInMonth(now.year - 1, now.month) ==>
              TwelveMonthsBefore(now) == Date(now.year - 1, now.month, now.day)
    ensures now.day > DaysInMonth(now.year - 1, now.month) ==>
              now.month == 2 && now.day == 29 && TwelveMonthsBefore(now) == Date(now.year - 1, 3, 1)
  {
    NormalizeMonthUnique(now.year, now.month - 1 - 12, now.year - 1, now.month);
    if now.day > DaysInMonth(now.year - 1, now.month) {
      NormalizeMonthUnique(now.year, now.month - 12, now.year - 1, now.month + 1);
    }
  }
}
