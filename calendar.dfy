/**
 * Calendar dates as year/month/day, with the Rails duration arithmetic the
 * reports use: `date + n.months` moves by whole calendar months and clamps
 * the day to the length of the target month (`Date#>>`).
 */
module Calendar {

  datatype Date = Date(year: int, month: int, day: int)

  predicate IsLeapYear(y: int) {
    y % 4 == 0 && (y % 100 != 0 || y % 400 == 0)
  }

  function DaysInMonth(y: int, m: int): (n: int)
    requires 1 <= m <= 12
    ensures 28 <= n <= 31
  {
    if m == 2 then (if IsLeapYear(y) then 29 else 28)
    else if m == 4 || m == 6 || m == 9 || m == 11 then 30
    else 31
  }

  predicate Valid(d: Date) {
    1 <= d.month <= 12 && 1 <= d.day <= DaysInMonth(d.year, d.month)
  }

  /** Months since year 0, the coordinate `n.months` moves along. */
  function MonthIndex(d: Date): int {
    d.year * 12 + (d.month - 1)
  }

  /**
   * `d + n.months` (and `d - n.months` for negative n): same day in the month
   * n months away, or that month's last day when it is shorter.
   */
  function AddMonths(d: Date, n: int): (r: Date)
    requires Valid(d)
    ensures Valid(r)
    ensures MonthIndex(r) == MonthIndex(d) + n
    ensures r.day <= d.day
    ensures r.day == d.day || r.day == DaysInMonth(r.year, r.month)
  {
    var target := MonthIndex(d) + n;
    var y := target / 12;
    var m := target % 12 + 1;
    var last := DaysInMonth(y, m);
    Date(y, m, if d.day <= last then d.day else last)
  }

  /** Strict chronological order (Ruby `Date#<`). */
  predicate Before(a: Date, b: Date) {
    a.year < b.year || (a.year == b.year && (a.month < b.month || (a.month == b.month && a.day < b.day)))
  }

  predicate AtOrBefore(a: Date, b: Date) {
    Before(a, b) || a == b
  }

  /** Inclusive range test `lo <= d && d <= hi`. */
  predicate Within(d: Date, lo: Date, hi: Date) {
    AtOrBefore(lo, d) && AtOrBefore(d, hi)
  }

  lemma BeforeIsTotal(a: Date, b: Date)
    ensures Before(a, b) || a == b || Before(b, a)
    ensures !(Before(a, b) && Before(b, a))
  {
  }

  lemma {:induction false} AddMonthsMonotone(a: Date, b: Date, n: int)
    requires Valid(a) && Valid(b) && AtOrBefore(a, b)
    ensures AtOrBefore(AddMonths(a, n), AddMonths(b, n))
  {
    var ra, rb := AddMonths(a, n), AddMonths(b, n);
    if MonthIndex(a) < MonthIndex(b) {
      assert MonthIndex(ra) < MonthIndex(rb);
      assert ra.year < rb.year || (ra.year == rb.year && ra.month < rb.month);
    } else {
      assert a.year == b.year && a.month == b.month && a.day <= b.day;
      assert ra.year == rb.year && ra.month == rb.month;
    }
  }

  /**
   * Days since a fixed epoch (proleptic Gregorian); `(a - b).to_i` on two
   * Ruby dates is DayNumber(a) - DayNumber(b).
   */
  function DayNumber(d: Date): int {
    var y := if d.month <= 2 then d.year - 1 else d.year;
    var mp := if d.month > 2 then d.month - 3 else d.month + 9;
    365 * y + y / 4 - y / 100 + y / 400 + (153 * mp + 2) / 5 + d.day - 1
  }

  /** The number of days between two dates (`(a - b).to_i`). */
  function DaysBetween(a: Date, b: Date): int {
    DayNumber(a) - DayNumber(b)
  }
}
