/** Days and dates: what `Date.UTC(y, m - 1, d)` and `toISOString().slice(0, 10)` compute
    (ECMA-262, section 21.4.1), on the years 0 to 9999. */
module Calendar {
  import opened Prelude
  import opened Decimal

  datatype Date = Date(year: nat, month: nat, day: nat)

  predicate IsLeap(y: int) {
    y % 4 == 0 && (y % 100 != 0 || y % 400 == 0)
  }

  function DaysInMonth(y: int, m: nat): nat
    requires 1 <= m <= 12
  {
    if m == 2 then (if IsLeap(y) then 29 else 28)
    else if m == 4 || m == 6 || m == 9 || m == 11 then 30 else 31
  }

  predicate Valid(d: Date) {
    1 <= d.month <= 12 && 1 <= d.day <= DaysInMonth(d.year, d.month)
  }

  /** The day number of 1 January, day 0 being 1 January 1970. */
  function DayFromYear(y: int): int {
    365 * (y - 1970) + (y - 1969) / 4 - (y - 1901) / 100 + (y - 1601) / 400
  }

  /** Days of the year before month `m`. */
  function DaysBefore(y: int, m: nat): nat
    requires 1 <= m <= 12
  {
    if m == 1 then 0 else DaysBefore(y, m - 1) + DaysInMonth(y, m - 1)
  }

  /** `Date.UTC` in days. */
  function DayNumber(d: Date): int
    requires 1 <= d.month <= 12
  {
    DayFromYear(d.year) + DaysBefore(d.year, d.month) + d.day - 1
  }

  /** The largest year, from `y` on, that has begun by day `n`. */
  function YearFrom(y: nat, n: int): (year: nat)
    requires DayFromYear(y) <= n
    ensures y <= year && DayFromYear(year) <= n < DayFromYear(year + 1)
    decreases n - DayFromYear(y)
  {
    YearLength(y);
    if n < DayFromYear(y + 1) then y else YearFrom(y + 1, n)
  }

  function MonthFrom(y: int, m: nat, k: nat): (month: nat)
    requires 1 <= m <= 12 && DaysBefore(y, m) <= k < DaysBefore(y, 12) + 31
    ensures m <= month <= 12 && DaysBefore(y, month) <= k < DaysBefore(y, month) + DaysInMonth(y, month)
    decreases 12 - m
  {
    if k < DaysBefore(y, m) + DaysInMonth(y, m) then m else MonthFrom(y, m + 1, k)
  }

  const FIRST_DAY := DayFromYear(0)

  /** The date of day `n`, as `toISOString` reads it. */
  function DateOf(n: int): (d: Date)
    requires n >= FIRST_DAY
    ensures Valid(d)
  {
    var y := YearFrom(0, n);
    YearLength(y);
    MonthsFillTheYear(y);
    var k := n - DayFromYear(y);
    var m := MonthFrom(y, 1, k);
    Date(y, m, k - DaysBefore(y, m) + 1)
  }

  lemma YearLength(y: int)
    ensures DayFromYear(y + 1) == DayFromYear(y) + (if IsLeap(y) then 366 else 365)
  {
    FourthYears(y);
    HundredthYears(y);
    FourHundredthYears(y);
    LeapDivisors(y);
    hide IsLeap;
  }

  lemma LeapDivisors(y: int)
    ensures (if IsLeap(y) then 1 else 0)
         == (if y % 4 == 0 then 1 else 0) - (if y % 100 == 0 then 1 else 0) + (if y % 400 == 0 then 1 else 0)
  {
    if y % 400 == 0 {
      Centuries(y);
    }
    if y % 100 == 0 {
      Quarters(y);
    }
  }

  lemma Centuries(y: int)
    requires y % 400 == 0
    ensures y % 100 == 0
  {
    assert y == 100 * (4 * (y / 400));
  }

  lemma Quarters(y: int)
    requires y % 100 == 0
    ensures y % 4 == 0
  {
    assert y == 4 * (25 * (y / 100));
  }

  lemma FourthYears(y: int)
    ensures (y - 1968) / 4 == (y - 1969) / 4 + (if y % 4 == 0 then 1 else 0)
  {
  }

  lemma HundredthYears(y: int)
    ensures (y - 1900) / 100 == (y - 1901) / 100 + (if y % 100 == 0 then 1 else 0)
  {
  }

  lemma FourHundredthYears(y: int)
    ensures (y - 1600) / 400 == (y - 1601) / 400 + (if y % 400 == 0 then 1 else 0)
  {
  }

  lemma MonthsFillTheYear(y: int)
    ensures DaysBefore(y, 12) + 31 == if IsLeap(y) then 366 else 365
  {
    assert DaysBefore(y, 4) == DaysBefore(y, 3) + 31 == DaysBefore(y, 2) + DaysInMonth(y, 2) + 31;
    assert DaysBefore(y, 8) == DaysBefore(y, 7) + 31 == DaysBefore(y, 6) + 61 == DaysBefore(y, 5) + 92 == DaysBefore(y, 4) + 122;
    assert DaysBefore(y, 12) == DaysBefore(y, 11) + 30 == DaysBefore(y, 10) + 61 == DaysBefore(y, 9) + 91 == DaysBefore(y, 8) + 122;
  }

  lemma {:induction false} YearsIncrease(y1: nat, y2: nat)
    requires y1 < y2
    ensures DayFromYear(y1 + 1) <= DayFromYear(y2)
    decreases y2 - y1
  {
    if y1 + 1 < y2 {
      YearLength(y1 + 1);
      YearsIncrease(y1 + 1, y2);
    }
  }

  lemma {:induction false} MonthsIncrease(y: int, m1: nat, m2: nat)
    requires 1 <= m1 < m2 <= 12
    ensures DaysBefore(y, m1) + DaysInMonth(y, m1) <= DaysBefore(y, m2)
    decreases m2
  {
    if m1 + 1 < m2 {
      MonthsIncrease(y, m1, m2 - 1);
    }
  }

  /** A date lies within its year. */
  lemma WithinYear(d: Date)
    requires Valid(d)
    ensures DayFromYear(d.year) <= DayNumber(d) < DayFromYear(d.year + 1)
  {
    YearLength(d.year);
    MonthsFillTheYear(d.year);
    if d.month < 12 {
      MonthsIncrease(d.year, d.month, 12);
    }
  }

  /** Dates and day numbers are in bijection. */
  lemma DateOfDayNumber(d: Date)
    requires Valid(d)
    ensures DayNumber(d) >= FIRST_DAY
    ensures DateOf(DayNumber(d)) == d
  {
    WithinYear(d);
    if d.year > 0 {
      YearsIncrease(0, d.year);
      YearLength(0);
    }
    hide DayFromYear, DaysBefore, DaysInMonth;
    var n := DayNumber(d);
    var y := YearFrom(0, n);
    YearsApart(y, d.year);
    YearsApart(d.year, y);
    assert y == d.year;
    var m := DateOf(n).month;
    MonthsApart(y, m, d.month);
    MonthsApart(y, d.month, m);
    assert m == d.month;
  }

  lemma YearsApart(y1: nat, y2: nat)
    ensures y1 < y2 ==> DayFromYear(y1 + 1) <= DayFromYear(y2)
  {
    if y1 < y2 {
      YearsIncrease(y1, y2);
    }
  }

  lemma MonthsApart(y: int, m1: nat, m2: nat)
    requires 1 <= m1 <= 12 && 1 <= m2 <= 12
    ensures m1 < m2 ==> DaysBefore(y, m1) + DaysInMonth(y, m1) <= DaysBefore(y, m2)
  {
    if m1 < m2 {
      MonthsIncrease(y, m1, m2);
    }
  }

  lemma DayNumberOfDate(n: int)
    requires n >= FIRST_DAY
    ensures DayNumber(DateOf(n)) == n
  {
  }

  /** The calendar every clerk knows. */
  function Tomorrow(d: Date): Date
    requires Valid(d)
  {
    if d.day < DaysInMonth(d.year, d.month) then d.(day := d.day + 1)
    else if d.month < 12 then Date(d.year, d.month + 1, 1)
    else Date(d.year + 1, 1, 1)
  }

  /** Day numbers count the days of that calendar, from 1 January 1970, a Thursday. */
  lemma DayNumberCounts(d: Date)
    requires Valid(d)
    ensures DayNumber(Date(1970, 1, 1)) == 0
    ensures Valid(Tomorrow(d)) && DayNumber(Tomorrow(d)) == DayNumber(d) + 1
  {
    YearLength(d.year);
    MonthsFillTheYear(d.year);
  }

  // ------------------------------------------------------------------ YYYY-MM-DD

  function FormatDate(d: Date): string {
    Pad(d.year, 4) + "-" + Pad(d.month, 2) + "-" + Pad(d.day, 2)
  }

  /** `split('-').map(Number)` on three runs of digits. */
  function ParseDate(s: string): Option<Date> {
    var parts := Split(s);
    if |parts| == 3 && (forall i :: 0 <= i < 3 ==> parts[i] != "" && AllDigits(parts[i]))
    then Some(Date(FromDecimal(parts[0]), FromDecimal(parts[1]), FromDecimal(parts[2])))
    else None
  }

  lemma ParseFormatDate(d: Date)
    ensures ParseDate(FormatDate(d)) == Some(d)
  {
    hide Pad, FromDecimal, Split;
    PadRoundTrip(d.year, 4);
    PadRoundTrip(d.month, 2);
    PadRoundTrip(d.day, 2);
    var a, b, c := Pad(d.year, 4), Pad(d.month, 2), Pad(d.day, 2);
    NoHyphen(a);
    NoHyphen(b);
    NoHyphen(c);
    hide AllDigits;
    SplitWhole(c);
    SplitAt(b, c);
    SplitAt(a, b + "-" + c);
    assert FormatDate(d) == a + "-" + (b + "-" + c);
    assert Split(FormatDate(d)) == [a, b, c];
  }
}
