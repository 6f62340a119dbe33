/**
 * Calendar dates as integer (year, month, day) triples, the Gregorian month
 * lengths `new Date(y, m + 1, 0).getDate()` yields, month arithmetic as
 * `setMonth` normalises it, and the two printed forms of a date.
 */
module Calendar {
  import opened Text

  /** A date; `month` is 1-based, unlike JavaScript's `getMonth()`. */
  datatype Date = Date(year: int, month: int, day: int)

  predicate IsLeapYear(y: int) {
    (y % 4 == 0 && y % 100 != 0) || y % 400 == 0
  }

  /** The last day of month `m` of year `y` in the proleptic Gregorian calendar. */
  function DaysInMonth(y: int, m: int): (n: int)
    requires 1 <= m <= 12
    ensures 28 <= n <= 31
    ensures m != 2 ==> n >= 30
  {
    if m == 2 then (if IsLeapYear(y) then 29 else 28)
    else if m == 4 || m == 6 || m == 9 || m == 11 then 30
    else 31
  }

  predicate ValidDate(d: Date) {
    d.year >= 0 && 1 <= d.month <= 12 && 1 <= d.day <= DaysInMonth(d.year, d.month)
  }

  /** `a` falls strictly earlier than `b`. */
  predicate Before(a: Date, b: Date) {
    a.year < b.year || (a.year == b.year && (a.month < b.month || (a.month == b.month && a.day < b.day)))
  }

  predicate AtOrBefore(a: Date, b: Date) {
    !Before(b, a)
  }

  /** Months counted from January of year 0. */
  function MonthIndex(d: Date): int {
    12 * d.year + d.month - 1
  }

  /** The first day of the month with index `k`: `new Date(y, m, 1)` with `m` outside 0..11 normalised. */
  function MonthStart(k: int): (d: Date)
    ensures 1 <= d.month <= 12 && d.day == 1
    ensures MonthIndex(d) == k
  {
    Date(k / 12, k % 12 + 1, 1)
  }

  /** Dates in months with a larger index are later, whatever their days. */
  lemma LaterMonthIsLater(a: Date, b: Date)
    requires 1 <= a.month <= 12 && 1 <= b.month <= 12
    requires MonthIndex(a) < MonthIndex(b)
    ensures Before(a, b)
  {
  }

  /** The `YYYY-MM-DD` text of a date, as the rows store it. */
  function DateString(d: Date): string {
    IntToString(d.year) + "-" + Pad2(d.month) + "-" + Pad2(d.day)
  }

  /** The `YYYYMMDD` text an iCalendar `DATE` value uses. */
  function Compact(d: Date): string {
    IntToString(d.year) + Pad2(d.month) + Pad2(d.day)
  }

  /** The compact form is the dashed form with its two dashes taken out. */
  lemma CompactIsDateWithoutDashes(d: Date)
    requires d.year >= 0 && d.month >= 0 && d.day >= 0
    ensures Compact(d) == RemoveDashes(DateString(d))
  {
    var y, m, dd := IntToString(d.year), Pad2(d.month), Pad2(d.day);
    Pad2Digits(d.month);
    Pad2Digits(d.day);
    RemoveDashesDigits(y);
    RemoveDashesDigits(m);
    RemoveDashesDigits(dd);
    DropDash(y + "-" + m, dd);
    DropDash(y, m);
  }
}
