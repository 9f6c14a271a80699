/** Dates as Python's proleptic Gregorian day ordinals (`date.toordinal()`:
    day 1 is 0001-01-01, the last representable day is 9999-12-31), with the
    few conversions the scripts use: `weekday()`, `isoformat()` and
    `strftime('%m.%d')`. The conversion from an ordinal to year, month and
    day follows the arithmetic of CPython's `datetime` module. */
module Calendar {
  import opened Text

  const MinOrdinal: int := 1
  const MaxOrdinal: int := 3652059

  /** A day that Python's `date` can represent; stepping outside this range
      with `timedelta` raises `OverflowError`. */
  predicate IsOrdinal(d: int) {
    MinOrdinal <= d <= MaxOrdinal
  }

  /** Python's `date.weekday()`: Monday is 0, Sunday is 6. */
  function Weekday(d: int): (w: nat)
    ensures w < 7
  {
    (d + 6) % 7
  }

  /** Day 1 is a Monday and the weekdays follow each other in a cycle of
      seven days. */
  lemma WeekdayCycle(d: int)
    ensures Weekday(MinOrdinal) == 0
    ensures Weekday(d + 1) == (Weekday(d) + 1) % 7
    ensures Weekday(d + 7) == Weekday(d)
  {
  }

  datatype Ymd = Ymd(year: int, month: int, day: int)

  function DaysInMonth(month: int, leap: bool): nat {
    if month == 2 then (if leap then 29 else 28)
    else if month == 4 || month == 6 || month == 9 || month == 11 then 30
    else 31
  }

  /** Month and day of the `n`-th (0-based) day of a year, scanning the
      months from `month` on. */
  function MonthAndDay(n: int, month: int, leap: bool): Ymd
    requires 1 <= month <= 12
    decreases 12 - month
  {
    if month == 12 || n < DaysInMonth(month, leap) then Ymd(0, month, n + 1)
    else MonthAndDay(n - DaysInMonth(month, leap), month + 1, leap)
  }

  /** CPython's `_ord2ymd`: 400-, 100-, 4- and 1-year cycles. */
  function FromOrdinal(d: int): Ymd
  {
    var n := d - 1;
    var n400 := n / 146097;
    var r400 := n % 146097;
    var n100 := r400 / 36524;
    var r100 := r400 % 36524;
    var n4 := r100 / 1461;
    var r4 := r100 % 1461;
    var n1 := r4 / 365;
    var dayOfYear := r4 % 365;
    var year := n400 * 400 + 1 + n100 * 100 + n4 * 4 + n1;
    if n1 == 4 || n100 == 4 then Ymd(year - 1, 12, 31)
    else
      var leap := n1 == 3 && (n4 != 24 || n100 == 3);
      var md := MonthAndDay(dayOfYear, 1, leap);
      Ymd(year, md.month, md.day)
  }

  function Nat(x: int): nat {
    if x < 0 then 0 else x
  }

  /** `date.isoformat()`: `YYYY-MM-DD`. */
  function Iso(d: int): (s: string)
    requires IsOrdinal(d)
    ensures '\n' !in s && ' ' !in s
  {
    var ymd := FromOrdinal(d);
    var y, m, dd := ZeroPad(Nat(ymd.year), 4), ZeroPad(Nat(ymd.month), 2), ZeroPad(Nat(ymd.day), 2);
    DigitsHaveNoBreak(y);
    DigitsHaveNoBreak(m);
    DigitsHaveNoBreak(dd);
    y + "-" + m + "-" + dd
  }

  /** `date.strftime('%m.%d')`. */
  function MonthDot(d: int): (s: string)
    requires IsOrdinal(d)
    ensures '\n' !in s
  {
    var ymd := FromOrdinal(d);
    var m, dd := ZeroPad(Nat(ymd.month), 2), ZeroPad(Nat(ymd.day), 2);
    DigitsHaveNoBreak(m);
    DigitsHaveNoBreak(dd);
    m + "." + dd
  }

  lemma DigitsHaveNoBreak(s: string)
    requires IsDigits(s)
    ensures '\n' !in s && ' ' !in s
  {
  }
}
