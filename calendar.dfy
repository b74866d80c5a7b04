/**
  Calendar dates as the upload code sees them through JavaScript `Date`:
  the local full year, the month index 0..11 and the day of the month. The
  constructor `new Date(y, m, d)` and `setFullYear` normalise out-of-range
  components by carrying them into the neighbouring months and years
  (ECMAScript MakeDay over the proleptic Gregorian calendar); this module
  writes that carrying out.
*/
module Calendar {

  datatype Date = Date(year: int, month: int, day: int)

  predicate IsLeapYear(y: int) {
    y % 4 == 0 && (y % 100 != 0 || y % 400 == 0)
  }

  function DaysInMonth(y: int, m: int): (n: int)
    requires 0 <= m < 12
    ensures 28 <= n <= 31
    ensures n == 31 <==> m in {0, 2, 4, 6, 7, 9, 11}
  {
    if m == 1 then (if IsLeapYear(y) then 29 else 28)
    else if m == 3 || m == 5 || m == 8 || m == 10 then 30
    else 31
  }

  /** A date whose month index and day of month exist in the Gregorian calendar. */
  predicate Valid(d: Date) {
    0 <= d.month < 12 && 1 <= d.day <= DaysInMonth(d.year, d.month)
  }

  /** The dates a valid (non-NaN) JavaScript `Date` can denote. */
  type CalendarDate = d: Date | Valid(d) witness Date(1970, 0, 1)

  /**
    The date that `year`, `month` and `day` denote once out-of-range parts are
    carried: months below 0 or above 11 move the year, days past the end of a
    month move into the following months, and day 0 or below counts back from
    the first of the month.
  */
  function MakeDate(year: int, month: int, day: int): (d: CalendarDate)
    ensures 0 <= month < 12 && 1 <= day <= DaysInMonth(year, month) ==> d == Date(year, month, day)
  {
    // Dafny's `/` and `%` with a positive divisor round towards negative infinity, as MakeDay does.
    var y := year + month / 12;
    var m := month % 12;
    if day >= 1 then CarryForward(y, m, day) else CarryBackward(y, m, day)
  }

  /** Day `day` (>= 1) counted from the first of month `m` of year `y`. */
  function CarryForward(y: int, m: int, day: int): (d: CalendarDate)
    requires 0 <= m < 12 && day >= 1
    ensures day <= DaysInMonth(y, m) ==> d == Date(y, m, day)
    decreases day
  {
    if day <= DaysInMonth(y, m) then Date(y, m, day)
    else if m == 11 then CarryForward(y + 1, 0, day - 31)
    else CarryForward(y, m + 1, day - DaysInMonth(y, m))
  }

  /** Day `day` (<= 0) of month `m`: `-k` is `k + 1` days before the first. */
  function CarryBackward(y: int, m: int, day: int): (d: CalendarDate)
    requires 0 <= m < 12 && day < 1
    decreases -day
  {
    var py := if m == 0 then y - 1 else y;
    var pm := if m == 0 then 11 else m - 1;
    var d := day + DaysInMonth(py, pm);
    if d >= 1 then Date(py, pm, d) else CarryBackward(py, pm, d)
  }

  /** `new Date(year, month, day)`: a year from 0 to 99 means 1900 + year. */
  function NewDate(year: int, month: int, day: int): CalendarDate {
    MakeDate(if 0 <= year <= 99 then 1900 + year else year, month, day)
  }

  /** The copy of `d` after `setFullYear(year)`: month and day are kept and carried if needed. */
  function SetFullYear(d: CalendarDate, year: int): CalendarDate {
    MakeDate(year, d.month, d.day)
  }

  /** Moving a date to another year keeps month and day unless it is 29 February. */
  lemma SetFullYearKeepsMonthAndDay(d: CalendarDate, year: int)
    requires d.month != 1 || d.day <= 28
    ensures SetFullYear(d, year) == Date(year, d.month, d.day)
  {
  }

  /** 29 February moved to a common year becomes 1 March. */
  lemma SetFullYearLeapDay(d: CalendarDate, year: int)
    requires d.month == 1 && d.day == 29 && !IsLeapYear(year)
    ensures SetFullYear(d, year) == Date(year, 2, 1)
  {
    assert CarryForward(year, 1, 29) == CarryForward(year, 2, 1);
  }

  /** Day 0 is the last day of the previous month, across a year boundary too. */
  lemma DayZeroIsPreviousMonthEnd(year: int, month: int)
    requires 0 <= month < 12
    ensures month > 0 ==> MakeDate(year, month, 0) == Date(year, month - 1, DaysInMonth(year, month - 1))
    ensures month == 0 ==> MakeDate(year, month, 0) == Date(year - 1, 11, 31)
  {
  }

  /** The constructor carries too: 31 February 2024 is 2 March 2024. */
  lemma NewDateCarriesDays()
    ensures NewDate(2024, 1, 31) == Date(2024, 2, 2)
  {
    assert CarryForward(2024, 1, 31) == CarryForward(2024, 2, 2);
  }

  /** The constructor reads a year from 0 to 99 in the twentieth century. */
  lemma NewDateTwoDigitYear(year: int, month: int, day: int)
    requires 0 <= year <= 99 && 0 <= month < 12 && 1 <= day <= DaysInMonth(1900 + year, month)
    ensures NewDate(year, month, day) == Date(1900 + year, month, day)
  {
  }
}
