/**
 * The proleptic Gregorian calendar that Go's time package uses, with days counted
 * from 0001-01-01 (day 0). Year 0 is allowed because RFC 3339 text may name it.
 */
module Calendar {

  predicate IsLeap(y: int) {
    y % 4 == 0 && (y % 100 != 0 || y % 400 == 0)
  }

  function YearLength(y: int): nat {
    if IsLeap(y) then 366 else 365
  }

  /** Go's daysIn: the number of days of month m (1..12) in year y. */
  function DaysIn(m: int, y: int): nat
    requires 1 <= m <= 12
  {
    if m == 2 then (if IsLeap(y) then 29 else 28)
    else if m == 4 || m == 6 || m == 9 || m == 11 then 30
    else 31
  }

  /** Days of year y before the first of month m; m == 13 gives the whole year. */
  function DaysBeforeMonth(y: int, m: int): nat
    requires 1 <= m <= 13
    decreases m
  {
    if m == 1 then 0 else DaysBeforeMonth(y, m - 1) + DaysIn(m - 1, y)
  }

  lemma TwelveMonthsMakeAYear(y: int)
    ensures DaysBeforeMonth(y, 13) == YearLength(y)
  {
  }

  /** The day number of January 1st of year y. */
  function DaysBeforeYear(y: nat): int
    decreases y
  {
    if y == 0 then -366
    else if y == 1 then 0
    else DaysBeforeYear(y - 1) + YearLength(y - 1)
  }

  datatype Date = Date(year: nat, month: int, day: int)

  predicate ValidDate(d: Date) {
    1 <= d.month <= 12 && 1 <= d.day <= DaysIn(d.month, d.year)
  }

  /** The day number of a calendar date. */
  function DayNumber(d: Date): int
    requires 1 <= d.month <= 12
  {
    DaysBeforeYear(d.year) + DaysBeforeMonth(d.year, d.month) + d.day - 1
  }

  /** Walks forward from January 1st of year y over n days; yields the year and the day within it. */
  function YearOf(n: nat, y: nat): (r: (nat, nat))
    requires y >= 1
    ensures r.0 >= y && r.1 < YearLength(r.0)
    ensures DaysBeforeYear(r.0) + r.1 == DaysBeforeYear(y) + n
    decreases n
  {
    if n < YearLength(y) then (y, n) else YearOf(n - YearLength(y), y + 1)
  }

  /** Walks forward from the first of month m of year y over r days; yields month and day. */
  function MonthOf(y: nat, r: nat, m: int): (md: (int, int))
    requires 1 <= m <= 12
    requires DaysBeforeMonth(y, m) + r < YearLength(y)
    ensures 1 <= md.0 <= 12 && 1 <= md.1 <= DaysIn(md.0, y)
    ensures DaysBeforeMonth(y, md.0) + md.1 - 1 == DaysBeforeMonth(y, m) + r
    decreases 12 - m
  {
    if r < DaysIn(m, y) then (m, r + 1)
    else if m == 12 then
      TwelveMonthsMakeAYear(y);
      assert false;
      (m, 1)
    else MonthOf(y, r - DaysIn(m, y), m + 1)
  }

  /** The calendar date of day number n (n >= 0, so the year is at least 1). */
  function DateOf(n: nat): (d: Date)
    ensures ValidDate(d) && d.year >= 1
    ensures DayNumber(d) == n
  {
    var (y, r) := YearOf(n, 1);
    var (m, day) := MonthOf(y, r, 1);
    Date(y, m, day)
  }
}
