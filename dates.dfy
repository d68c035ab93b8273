/** Calendar dates as `datetime` and SQLite's `date()` handle them: the
    date datatype, the order of dates, the calendar `datetime(y, m, d)`
    accepts, and the fixed-width decimal fields of `YYYY-MM-DD`. */
module Dates {
  import opened Text

  /** A publishing time as `datetime.strptime` reads it; only the date part
      is used. */
  datatype Date = Date(year: int, month: int, day: int)

  /** `ORDER BY masssend_time ASC`: the dates never go back. */
  predicate DateLe(a: Date, b: Date) {
    a.year < b.year || (a.year == b.year && (a.month < b.month || (a.month == b.month && a.day <= b.day)))
  }

  /** The Gregorian leap-year rule `datetime` follows. */
  predicate IsLeap(year: int) {
    year % 4 == 0 && (year % 100 != 0 || year % 400 == 0)
  }

  function DaysInMonth(year: int, month: int): (n: int)
    requires 1 <= month <= 12
    ensures 28 <= n <= 31
    ensures n == 29 <==> month == 2 && IsLeap(year)
  {
    if month == 2 then (if IsLeap(year) then 29 else 28)
    else if month == 4 || month == 6 || month == 9 || month == 11 then 30
    else 31
  }

  /** What `datetime(year, month, day)` accepts without raising: a year
      between `MINYEAR` (1) and `MAXYEAR` (9999), a month of the year and a
      day of that month. */
  predicate IsCalendarDate(t: Date) {
    1 <= t.year <= 9999 && 1 <= t.month <= 12 && 1 <= t.day <= DaysInMonth(t.year, t.month)
  }

  /** `n` written with exactly `width` decimal digits (leading zeros kept,
      higher digits dropped). */
  function Digits(n: nat, width: nat): (r: string)
    ensures |r| == width && forall k :: 0 <= k < width ==> IsDigit(r[k])
  {
    if width == 0 then [] else Digits(n / 10, width - 1) + [DigitChar(n % 10)]
  }

  function Pow10(width: nat): nat {
    if width == 0 then 1 else 10 * Pow10(width - 1)
  }

  /** How SQLite's `date()` prints a date: `YYYY-MM-DD`. */
  function SqlDate(t: Date): string
    requires 0 <= t.year && 0 <= t.month && 0 <= t.day
  {
    Digits(t.year, 4) + "-" + Digits(t.month, 2) + "-" + Digits(t.day, 2)
  }
  lemma {:induction false} DigitsInjective(a: nat, b: nat, width: nat)
    requires a < Pow10(width) && b < Pow10(width) && Digits(a, width) == Digits(b, width)
    ensures a == b
    decreases width
  {
    if width > 0 {
      var da, db := Digits(a, width), Digits(b, width);
      assert da[width - 1] == DigitChar(a % 10) && db[width - 1] == DigitChar(b % 10);
      assert da[..width - 1] == Digits(a / 10, width - 1);
      assert db[..width - 1] == Digits(b / 10, width - 1);
      DigitsInjective(a / 10, b / 10, width - 1);
    }
  }
}
