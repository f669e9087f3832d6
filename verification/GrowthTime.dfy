/** Arithmetic on Cairo's local dates and months (src/growth/growth-time.ts,
    src/growth/month-range.ts). Dates are `YYYY-MM-DD` strings with years 100 to 9999:
    `Date.UTC` reads a year below 100 as 1900 + year, and `toISOString` writes a year above
    9999 with a sign and six digits. */
module GrowthTime {
  import opened Prelude
  import opened Decimal
  import opened Calendar

  const MIN_DAY := DayFromYear(100)
  const MAX_DAY := DayFromYear(10000) - 1

  predicate IsDate(s: string) {
    var d := ParseDate(s);
    d.Some? && Valid(d.value) && 100 <= d.value.year <= 9999 && s == FormatDate(d.value)
  }

  function DayOf(date: string): int
    requires IsDate(date)
  {
    DayNumber(ParseDate(date).value)
  }

  function OnDay(n: int): string
    requires n >= FIRST_DAY
  {
    FormatDate(DateOf(n))
  }

  /** The strings are the days, one for one. */
  lemma DateStringsAreDays(date: string, n: int)
    ensures MIN_DAY <= n <= MAX_DAY ==> n >= FIRST_DAY && IsDate(OnDay(n)) && DayOf(OnDay(n)) == n
    ensures IsDate(date) ==> MIN_DAY <= DayOf(date) <= MAX_DAY && DayOf(date) >= FIRST_DAY && OnDay(DayOf(date)) == date
  {
    hide DayFromYear, FormatDate, ParseDate;
    Decades();
    if MIN_DAY <= n <= MAX_DAY {
      DayNumberOfDate(n);
      var d := DateOf(n);
      ParseFormatDate(d);
      WithinYear(d);
      LaterYears(d.year + 1, 100);
      LaterYears(10000, d.year);
    }
    if IsDate(date) {
      var d := ParseDate(date).value;
      DateOfDayNumber(d);
      WithinYear(d);
      LaterYears(100, d.year);
      LaterYears(d.year + 1, 10000);
    }
  }

  lemma Decades()
    ensures FIRST_DAY == DayFromYear(0) < MIN_DAY == DayFromYear(100) && MAX_DAY == DayFromYear(10000) - 1
  {
  }

  lemma LaterYears(y1: nat, y2: nat)
    ensures y1 <= y2 ==> DayFromYear(y1) <= DayFromYear(y2)
  {
    if y1 < y2 {
      YearLength(y1);
      YearsIncrease(y1, y2);
    }
  }

  // ------------------------------------------------------------------ days

  function AddDays(date: string, days: int): string
    requires IsDate(date) && MIN_DAY <= DayOf(date) + days <= MAX_DAY
  {
    OnDay(DayOf(date) + days)
  }

  function DaysBetween(from: string, to: string): int
    requires IsDate(from) && IsDate(to)
  {
    DayOf(to) - DayOf(from)
  }

  /** 0 is Sunday, 6 is Saturday. */
  function Weekday(date: string): int
    requires IsDate(date)
  {
    (DayOf(date) + 4) % 7
  }

  function WeekStartSaturday(date: string): string
    requires IsDate(date) && MIN_DAY <= DayOf(date) - 6
  {
    DateStringsAreDays(date, 0);
    AddDays(date, -((Weekday(date) + 1) % 7))
  }

  lemma ShortNumbers()
    ensures Pad(1970, 4) == "1970" && Pad(1, 2) == "01" && Pad(3, 2) == "03"
  {
    assert ToDecimal(197) == "197" && ToDecimal(1970) == "1970" && ToDecimal(1) == "1" && ToDecimal(3) == "3";
    assert Zeros(1) == "0";
  }

  /** The anchor: dates are written year, month, day, and 3 January 1970 was a Saturday. */
  lemma Anchor(date: string)
    requires IsDate(date)
    ensures FormatDate(Date(1970, 1, 3)) == "1970-01-03" && DayNumber(Date(1970, 1, 3)) == 2
    ensures Weekday(date) == 6 <==> (DayOf(date) - 2) % 7 == 0
    ensures 0 <= Weekday(date) <= 6
  {
    hide IsDate, DayOf, Pad, ToDecimal;
    ShortNumbers();
  }

  /** The dates are a line the integers act on: adding composes, and different numbers of
      days lead to different dates. */
  lemma DaysAct(date: string, a: int, b: int)
    requires IsDate(date)
    requires MIN_DAY <= DayOf(date) + a <= MAX_DAY && MIN_DAY <= DayOf(date) + b <= MAX_DAY
    ensures IsDate(AddDays(date, a)) && DayOf(AddDays(date, a)) == DayOf(date) + a
    ensures AddDays(AddDays(date, a), b - a) == AddDays(date, b)
    ensures DaysBetween(date, AddDays(date, a)) == a
    ensures AddDays(date, a) == AddDays(date, b) <==> a == b
  {
    hide IsDate, DayOf, OnDay, DayFromYear;
    DateStringsAreDays(date, DayOf(date) + a);
    DateStringsAreDays(date, DayOf(date) + b);
  }

  /** The distance between two dates leads from the one to the other. */
  lemma DistanceLeads(date: string, other: string)
    requires IsDate(date) && IsDate(other)
    ensures MIN_DAY <= DayOf(date) + DaysBetween(date, other) <= MAX_DAY
    ensures AddDays(date, DaysBetween(date, other)) == other
  {
    hide IsDate, DayOf, OnDay, DayFromYear;
    DateStringsAreDays(other, 0);
  }

  /** The week starts on a Saturday, at most six days back, and on no other date. Day 2 was one:
      3 January 1970. */
  lemma WeekStartIsTheSaturday(date: string, saturday: string)
    requires IsDate(date) && MIN_DAY <= DayOf(date) - 6 && IsDate(saturday)
    ensures IsDate(WeekStartSaturday(date))
    ensures saturday == WeekStartSaturday(date)
            <==> (DayOf(saturday) - 2) % 7 == 0 && 0 <= DayOf(date) - DayOf(saturday) <= 6
  {
    hide IsDate, DayOf, OnDay, DayFromYear;
    DateStringsAreDays(date, DayOf(date) - (Weekday(date) + 1) % 7);
    DateStringsAreDays(saturday, 0);
  }

  // ------------------------------------------------------------------ months

  /** `YYYY-MM`. */
  function FormatMonth(y: nat, m: nat): string { Pad(y, 4) + "-" + Pad(m, 2) }

  function ParseMonth(s: string): Option<(nat, nat)> {
    var parts := Split(s);
    if |parts| == 2 && (forall i :: 0 <= i < 2 ==> parts[i] != "" && AllDigits(parts[i]))
    then Some((FromDecimal(parts[0]), FromDecimal(parts[1])))
    else None
  }

  predicate IsMonth(s: string) {
    var p := ParseMonth(s);
    p.Some? && 1 <= p.value.1 <= 12 && s == FormatMonth(p.value.0, p.value.1)
  }

  lemma ParseFormatMonth(y: nat, m: nat)
    ensures ParseMonth(FormatMonth(y, m)) == Some((y, m))
  {
    hide Pad, FromDecimal, Split;
    PadRoundTrip(y, 4);
    PadRoundTrip(m, 2);
    NoHyphen(Pad(y, 4));
    NoHyphen(Pad(m, 2));
    SplitWhole(Pad(m, 2));
    SplitAt(Pad(y, 4), Pad(m, 2));
    assert Split(FormatMonth(y, m)) == [Pad(y, 4), Pad(m, 2)];
  }

  /** Months since the start of year 0. */
  function Index(month: string): nat
    requires IsMonth(month)
  {
    var (y, m) := ParseMonth(month).value;
    y * 12 + m - 1
  }

  function MonthAt(index: nat): string { FormatMonth(index / 12, index % 12 + 1) }

  lemma MonthStringsAreIndexes(month: string, index: nat)
    ensures IsMonth(MonthAt(index)) && Index(MonthAt(index)) == index
    ensures IsMonth(month) ==> MonthAt(Index(month)) == month
  {
    hide ParseMonth, FormatMonth;
    ParseFormatMonth(index / 12, index % 12 + 1);
    if IsMonth(month) {
      var (y, m) := ParseMonth(month).value;
      assert (y * 12 + m - 1) / 12 == y && (y * 12 + m - 1) % 12 == m - 1;
    }
  }

  /** Months are written year, month. */
  lemma MonthAnchor()
    ensures IsMonth("1970-03") && Index("1970-03") == 12 * 1970 + 2
  {
    hide Pad, ToDecimal, ParseMonth;
    ShortNumbers();
    ParseFormatMonth(1970, 3);
    assert FormatMonth(1970, 3) == "1970-03";
  }

  /** JavaScript's `%` takes the sign of its left operand. */
  function Remainder(a: int, b: int): int
    requires b > 0
  {
    if a >= 0 then a % b else -((-a) % b)
  }

  /** `String(value).padStart(length, '0')` for any integer. */
  function PadInt(value: int, length: nat): string {
    if value >= 0 then Pad(value, length)
    else
      var s := "-" + ToDecimal(-value);
      if |s| >= length then s else Zeros(length - |s|) + s
  }

  function AddMonths(month: string, months: int): string
    requires IsMonth(month)
  {
    var index := Index(month) + months;
    PadInt(index / 12, 4) + "-" + PadInt(Remainder(index, 12) + 1, 2)
  }

  function MonthCount(from: string, to: string): int
    requires IsMonth(from) && IsMonth(to)
  {
    var (fy, fm) := ParseMonth(from).value;
    var (ty, tm) := ParseMonth(to).value;
    ty * 12 + tm - (fy * 12 + fm) + 1
  }

  function MonthRange(from: string, to: string): seq<string>
    requires IsMonth(from) && IsMonth(to)
  {
    seq(Max(0, MonthCount(from, to)), (i: nat) => AddMonths(from, i))
  }

  lemma HyphenOnce(s: string)
    requires IsMonth(s)
    ensures forall i, j :: 0 <= i < |s| && 0 <= j < |s| && s[i] == '-' && s[j] == '-' ==> i == j
  {
    var (y, m) := ParseMonth(s).value;
    PadRoundTrip(y, 4);
    PadRoundTrip(m, 2);
    NoHyphen(Pad(y, 4));
    NoHyphen(Pad(m, 2));
    var a, b := Pad(y, 4), Pad(m, 2);
    forall i | 0 <= i < |s| && i != |a| ensures s[i] != '-' {
      if i < |a| {
        assert a[i] in a;
      } else {
        assert b[i - |a| - 1] in b;
      }
    }
  }

  /** A year before year 0 prints with a sign, which no month has. */
  lemma NegativeYear(year: int, m: string)
    requires year < 0
    ensures !IsMonth(PadInt(year, 4) + "-" + m)
  {
    var s := PadInt(year, 4) + "-" + m;
    var text := "-" + ToDecimal(-year);
    var i := |PadInt(year, 4)| - |text|;
    assert s[i] == PadInt(year, 4)[i] == '-' by {
      ZerosAreNothing(if |text| < 4 then 4 - |text| else 0, "");
    }
    assert s[|PadInt(year, 4)|] == '-';
    if IsMonth(s) {
      HyphenOnce(s);
    }
  }

  /** `addMonths` gives a month exactly when it does not go back past month 1 of year 0, and
      then it is the month so many months on. */
  lemma AddMonthsExact(month: string, months: int)
    requires IsMonth(month)
    ensures IsMonth(AddMonths(month, months)) <==> Index(month) + months >= 0
    ensures Index(month) + months >= 0 ==> AddMonths(month, months) == MonthAt(Index(month) + months)
  {
    hide IsMonth, Index, Pad, ToDecimal;
    var index := Index(month) + months;
    if index >= 0 {
      MonthStringsAreIndexes(month, index);
    } else {
      NegativeYear(index / 12, PadInt(Remainder(index, 12) + 1, 2));
    }
  }

  /** What comes out just before year 0, one month back, two, and twelve: the remainder takes the
      sign of the index, and the year is padded around its own. */
  lemma BeforeYearZero(month: string, months: int)
    requires IsMonth(month)
    ensures Index(month) + months == -1 ==> AddMonths(month, months) == "00-1-00"
    ensures Index(month) + months == -2 ==> AddMonths(month, months) == "00-1--1"
    ensures Index(month) + months == -12 ==> AddMonths(month, months) == "00-1-01"
  {
    hide IsMonth, Index;
    assert ToDecimal(0) == "0" && ToDecimal(1) == "1" && "-" + ToDecimal(1) == "-1";
    assert Zeros(1) == "0" && Zeros(2) == "0" + Zeros(1) == "00";
    assert PadInt(-1, 4) == "00-1" && PadInt(0, 2) == "00" && PadInt(1, 2) == "01" && PadInt(-1, 2) == "-1";
  }

  lemma MonthCountIsDistance(from: string, to: string)
    requires IsMonth(from) && IsMonth(to)
    ensures MonthCount(from, to) == Index(to) - Index(from) + 1
  {
    hide ParseMonth, FormatMonth;
  }

  /** The months are a line too, as far back as year 0. */
  lemma MonthsAct(month: string, other: string, a: int, b: int)
    requires IsMonth(month) && IsMonth(other)
    requires Index(month) + a >= 0 && Index(month) + a + b >= 0
    ensures IsMonth(AddMonths(month, a))
    ensures AddMonths(AddMonths(month, a), b) == AddMonths(month, a + b)
    ensures MonthCount(month, AddMonths(month, a)) == a + 1
    ensures AddMonths(month, MonthCount(month, other) - 1) == other
  {
    hide IsMonth, Index, AddMonths, MonthCount, MonthAt;
    MonthCountIsDistance(month, other);
    MonthStringsAreIndexes(month, Index(month) + a);
    AddMonthsExact(month, a);
    MonthCountIsDistance(month, AddMonths(month, a));
    AddMonthsExact(AddMonths(month, a), b);
    AddMonthsExact(month, a + b);
    AddMonthsExact(month, MonthCount(month, other) - 1);
    MonthStringsAreIndexes(other, Index(other));
  }

  /** `monthRange` holds exactly the months from `from` to `to`, each once, each one month
      after the one before. */
  lemma MonthRangeExact(from: string, to: string, month: string)
    requires IsMonth(from) && IsMonth(to) && IsMonth(month)
    ensures |MonthRange(from, to)| == Max(0, MonthCount(from, to))
    ensures forall i :: 0 <= i < |MonthRange(from, to)| ==>
              IsMonth(MonthRange(from, to)[i]) && Index(MonthRange(from, to)[i]) == Index(from) + i
    ensures month in MonthRange(from, to) <==> MonthCount(from, month) >= 1 && MonthCount(month, to) >= 1
  {
    hide IsMonth, Index, AddMonths, MonthCount, MonthAt;
    var range := MonthRange(from, to);
    forall i | 0 <= i < |range| ensures IsMonth(range[i]) && Index(range[i]) == Index(from) + i {
      AddMonthsExact(from, i);
      MonthStringsAreIndexes(from, Index(from) + i);
    }
    MonthCountIsDistance(from, to);
    MonthCountIsDistance(from, month);
    MonthCountIsDistance(month, to);
    if MonthCount(from, month) >= 1 && MonthCount(month, to) >= 1 {
      MonthsAct(from, month, 0, 0);
      assert range[MonthCount(from, month) - 1] == month;
    }
  }

  // ------------------------------------------------------------------ the report window

  datatype WindowError = MonthRangeInvalid | MonthRangeTooLong

  const RANGE_MONTHS_MAX := 36

  /** `/^(20[2-9]\d|2100)-(0[1-9]|1[0-2])$/` */
  predicate MonthPattern(s: string) {
    IsMonth(s) && 2020 <= ParseMonth(s).value.0 <= 2100
  }

  function MaxMonth(a: string, b: string): string
    requires IsMonth(a) && IsMonth(b)
  {
    if MonthCount(a, b) >= 1 then b else a
  }

  /** `resolveMonthRange`; `current` is the Cairo month of now. */
  function ResolveMonthRange(from: Option<string>, to: Option<string>, current: string, defaultMonths: int)
    : Result<(string, string), WindowError>
    requires IsMonth(current) && 1 <= defaultMonths && defaultMonths - 1 <= Index(current) && defaultMonths <= 12 * 2020
  {
    if (from.Some? && !MonthPattern(from.value)) || (to.Some? && !MonthPattern(to.value)) then Err(MonthRangeInvalid)
    else
      var last := match to
        case Some(month) => month
        case None => if from.Some? then MaxMonth(from.value, current) else current;
      AddMonthsExact(last, -(defaultMonths - 1));
      assert to.Some? ==> Index(last) >= 2020 * 12;
      var first := match from
        case Some(month) => month
        case None => AddMonths(last, -(defaultMonths - 1));
      var count := MonthCount(first, last);
      if count < 1 then Err(MonthRangeInvalid)
      else if count > RANGE_MONTHS_MAX then Err(MonthRangeTooLong)
      else Ok((first, last))
  }

  /** The months a report can be asked about: January 2020 to December 2100. */
  predicate Reportable(s: string) {
    IsMonth(s) && 12 * 2020 <= Index(s) < 12 * 2101
  }

  lemma PatternIsReportable(s: string)
    ensures MonthPattern(s) <==> Reportable(s)
  {
    hide ParseMonth, FormatMonth;
  }

  predicate Wellformed(from: Option<string>, to: Option<string>) {
    (from.Some? ==> Reportable(from.value)) && (to.Some? ==> Reportable(to.value))
  }

  /** How many months are asked for: what was given, else up to the current month or the first
      one, else the default. */
  function Width(from: Option<string>, to: Option<string>, current: string, defaultMonths: int): int
    requires IsMonth(current) && Wellformed(from, to)
  {
    if from.None? then defaultMonths
    else if to.Some? then Index(to.value) - Index(from.value) + 1
    else Max(1, Index(current) - Index(from.value) + 1)
  }

  /** The window holds exactly the months asked for, keeps every bound that was given, and
      reaches the current month or beyond when its end was left open; it is refused as invalid
      if and only if a bound is malformed or no month is asked for, and as too long if and only
      if more than 36 are. */
  lemma WindowIsSound(from: Option<string>, to: Option<string>, current: string, defaultMonths: int)
    requires IsMonth(current) && 1 <= defaultMonths && defaultMonths - 1 <= Index(current) && defaultMonths <= 12 * 2020
    ensures var r := ResolveMonthRange(from, to, current, defaultMonths);
            && (r == Err(MonthRangeInvalid) <==> !Wellformed(from, to) || Width(from, to, current, defaultMonths) < 1)
            && (r == Err(MonthRangeTooLong) <==> Wellformed(from, to) && Width(from, to, current, defaultMonths) > 36)
            && (r.Ok? ==>
                  var (first, last) := r.value;
                  && IsMonth(first) && IsMonth(last)
                  && |MonthRange(first, last)| == MonthCount(first, last) == Width(from, to, current, defaultMonths)
                  && (from.Some? ==> first == from.value) && (to.Some? ==> last == to.value)
                  && (to.None? ==> MonthCount(current, last) >= 1))
  {
    hide AddMonths, MonthAt, FormatMonth, Split, MonthRange, ParseMonth;
    if from.Some? {
      PatternIsReportable(from.value);
    }
    if to.Some? {
      PatternIsReportable(to.value);
    }
    if Wellformed(from, to) {
      var last := match to
        case Some(month) => month
        case None => if from.Some? then MaxMonth(from.value, current) else current;
      assert Index(last) >= defaultMonths - 1;
      AddMonthsExact(last, -(defaultMonths - 1));
      MonthsAct(last, last, -(defaultMonths - 1), 0);
      MonthCountIsDistance(current, last);
      MonthCountIsDistance(last, current);
      if from.Some? {
        MonthCountIsDistance(from.value, last);
        MonthCountIsDistance(from.value, current);
        MonthRangeExact(from.value, last, last);
      } else {
        MonthRangeExact(AddMonths(last, -(defaultMonths - 1)), last, last);
      }
    }
  }
}
