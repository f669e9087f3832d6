/** Instants and Cairo's local dates (src/growth/growth-time.ts:42-93). Instants are
    milliseconds since 1 January 1970 UTC. The time-zone database is a function giving the
    offset from UTC, in milliseconds, at every instant. */
module CairoDay {
  import opened Prelude
  import opened Decimal
  import opened Calendar
  import opened GrowthTime

  const HOUR := 3_600_000
  const DAY_MS := 86_400_000

  type Zone = int -> int

  /** The fields `Intl.DateTimeFormat` prints, which stop at whole seconds. */
  datatype LocalParts = LocalParts(date: Date, hour: int, minute: int, second: int)

  function LocalDay(zone: Zone, t: int): int { (t + zone(t)) / DAY_MS }

  function PartsAt(zone: Zone, t: int): LocalParts
    requires LocalDay(zone, t) >= FIRST_DAY
  {
    var ms := (t + zone(t)) % DAY_MS;
    LocalParts(DateOf(LocalDay(zone, t)), ms / HOUR, ms % HOUR / 60_000, ms % 60_000 / 1000)
  }

  /** `Date.UTC` of those fields. */
  function Utc(p: LocalParts): int
    requires Valid(p.date)
  {
    DayNumber(p.date) * DAY_MS + p.hour * HOUR + p.minute * 60_000 + p.second * 1000
  }

  function CairoOffsetMs(zone: Zone, t: int): int
    requires LocalDay(zone, t) >= FIRST_DAY
  {
    Utc(PartsAt(zone, t)) - t / 1000 * 1000
  }

  function CairoDate(zone: Zone, t: int): string
    requires LocalDay(zone, t) >= FIRST_DAY
  {
    FormatDate(PartsAt(zone, t).date)
  }

  /** Day, hour, minute and second add up to the time of the wall clock, less the
      fraction of a second. */
  lemma ClockReads(local: int)
    ensures var ms := local % DAY_MS;
            local / DAY_MS * DAY_MS + ms / HOUR * HOUR + ms % HOUR / 60_000 * 60_000 + ms % 60_000 / 1000 * 1000
            == local / 1000 * 1000
  {
    var day, ms := local / DAY_MS, local % DAY_MS;
    var hour, inHour := ms / HOUR, ms % HOUR;
    var minute, inMinute := inHour / 60_000, inHour % 60_000;
    assert ms % 60_000 == inMinute by {
      assert ms == 60_000 * (60 * hour + minute) + inMinute;
    }
    assert local == 1000 * (86_400 * day + 3_600 * hour + 60 * minute) + inMinute;
  }

  /** Reading the clock on the wall back as UTC recovers the zone's offset, to the
      millisecond, whenever that is a whole number of seconds. */
  lemma OffsetRecovered(zone: Zone, t: int)
    requires LocalDay(zone, t) >= FIRST_DAY && zone(t) % 1000 == 0
    ensures CairoOffsetMs(zone, t) == zone(t)
  {
    hide DateOf, DayNumber, DayFromYear;
    DayNumberOfDate(LocalDay(zone, t));
    ClockReads(t + zone(t));
    var seconds := zone(t) / 1000;
    assert (t + 1000 * seconds) / 1000 == t / 1000 + seconds;
  }

  lemma {:induction false} SameDate(zone: Zone, t: int, date: string)
    requires IsDate(date) && LocalDay(zone, t) >= FIRST_DAY
    ensures CairoDate(zone, t) == date <==> LocalDay(zone, t) == DayOf(date)
  {
    var d := ParseDate(date).value;
    ParseFormatDate(PartsAt(zone, t).date);
    DateOfDayNumber(d);
    DayNumberOfDate(LocalDay(zone, t));
  }

  // ------------------------------------------------------------------ the start of a day

  function Midnight(date: string): int
    requires IsDate(date)
  {
    DayOf(date) * DAY_MS
  }

  /** The zone never leaves +2 h / +3 h, and changes at most once, at `change`, within the
      24 hours around the date's midnight in UTC: from `before` to `after`. */
  ghost predicate OneChangeNear(zone: Zone, midnight: int, before: int, after: int, change: int) {
    && (before == 2 * HOUR || before == 3 * HOUR) && (after == 2 * HOUR || after == 3 * HOUR)
    && (forall t :: zone(t) == 2 * HOUR || zone(t) == 3 * HOUR)
    && (forall t :: midnight - 12 * HOUR <= t <= midnight + 12 * HOUR ==> zone(t) == if t < change then before else after)
  }

  /** One candidate of `cairoStartOfDay`, if it falls on the date. */
  function Candidate(zone: Zone, date: string, midnight: int, probe: int): Option<int>
    requires LocalDay(zone, probe) >= FIRST_DAY
  {
    var t := midnight - CairoOffsetMs(zone, probe);
    if LocalDay(zone, t) >= FIRST_DAY && CairoDate(zone, t) == date then Some(t) else None
  }

  /** The clock can be read at both probes. */
  predicate Probed(zone: Zone, midnight: int) {
    LocalDay(zone, midnight - 12 * HOUR) >= FIRST_DAY && LocalDay(zone, midnight + 12 * HOUR) >= FIRST_DAY
  }

  function Earliest(zone: Zone, date: string, midnight: int): Option<int>
    requires Probed(zone, midnight)
  {
    var a := Candidate(zone, date, midnight, midnight - 12 * HOUR);
    var b := Candidate(zone, date, midnight, midnight + 12 * HOUR);
    if a.None? then b else if b.None? then a else Some(Min(a.value, b.value))
  }

  /** `None` is the invalid `Date` of an empty `Math.min`. */
  function CairoStartOfDay(zone: Zone, date: string): Option<int>
    requires IsDate(date) && Probed(zone, Midnight(date))
  {
    Earliest(zone, date, Midnight(date))
  }

  ghost predicate IsFirstInstant(zone: Zone, date: string, start: int)
    requires IsDate(date)
  {
    && LocalDay(zone, start) == DayOf(date)
    && forall t :: t < start ==> LocalDay(zone, t) != DayOf(date)
  }

  /** The clocks go forward over the date's midnight: from before it straight past it. */
  predicate GapStraddles(midnight: int, before: int, after: int, change: int) {
    change + before < midnight < change + after
  }

  lemma CenturyZero()
    ensures FIRST_DAY + 10 <= MIN_DAY
  {
  }

  lemma ProbesInRange(zone: Zone, date: string, before: int, after: int, change: int)
    requires IsDate(date) && OneChangeNear(zone, Midnight(date), before, after, change)
    ensures forall t :: Midnight(date) - 12 * HOUR <= t ==> LocalDay(zone, t) >= FIRST_DAY
  {
    hide IsDate, DayOf, DayFromYear;
    DateStringsAreDays(date, 0);
    CenturyZero();
    forall t | Midnight(date) - 12 * HOUR <= t ensures LocalDay(zone, t) >= FIRST_DAY {
      var local := t + zone(t);
      assert local >= (FIRST_DAY + 9) * DAY_MS;
    }
  }

  lemma CandidateIs(zone: Zone, date: string, before: int, after: int, change: int, probe: int)
    requires IsDate(date) && OneChangeNear(zone, Midnight(date), before, after, change)
    requires probe == Midnight(date) - 12 * HOUR || probe == Midnight(date) + 12 * HOUR
    ensures LocalDay(zone, probe) >= FIRST_DAY
    ensures var t := Midnight(date) - zone(probe);
            Candidate(zone, date, Midnight(date), probe) == if LocalDay(zone, t) == DayOf(date) then Some(t) else None
  {
    hide IsDate, DayOf, DayFromYear, CairoOffsetMs, CairoDate, LocalDay;
    ProbesInRange(zone, date, before, after, change);
    assert zone(probe) % 1000 == 0;
    OffsetRecovered(zone, probe);
    SameDate(zone, Midnight(date) - zone(probe), date);
  }

  /** The instants of the date, near its midnight. */
  lemma OnTheDate(zone: Zone, date: string, before: int, after: int, change: int, t: int)
    requires IsDate(date) && OneChangeNear(zone, Midnight(date), before, after, change)
    ensures t + zone(t) < Midnight(date) ==> LocalDay(zone, t) != DayOf(date)
    ensures Midnight(date) <= t + zone(t) < Midnight(date) + DAY_MS ==> LocalDay(zone, t) == DayOf(date)
    ensures t < Midnight(date) - 3 * HOUR ==> t + zone(t) < Midnight(date)
  {
    hide IsDate, DayOf;
  }

  /** `cairoStartOfDay` is the first instant of the day exactly when the clocks do not go
      forward across its midnight: so on days without a change, on days whose 00:00 is
      skipped to 01:00, and on days on which 23:00 to 24:00 comes twice. */
  lemma StartOfDayExact(zone: Zone, date: string, before: int, after: int, change: int)
    requires IsDate(date) && OneChangeNear(zone, Midnight(date), before, after, change)
    ensures Probed(zone, Midnight(date))
    ensures CairoStartOfDay(zone, date).Some?
    ensures IsFirstInstant(zone, date, CairoStartOfDay(zone, date).value)
            <==> !GapStraddles(Midnight(date), before, after, change)
  {
    hide IsDate, DayOf, Candidate, LocalDay, DayFromYear;
    var m := Midnight(date);
    ProbesInRange(zone, date, before, after, change);
    CandidateIs(zone, date, before, after, change, m - 12 * HOUR);
    CandidateIs(zone, date, before, after, change, m + 12 * HOUR);
    OnTheDate(zone, date, before, after, change, m - 2 * HOUR);
    OnTheDate(zone, date, before, after, change, m - 3 * HOUR);
    OnTheDate(zone, date, before, after, change, change);
    var start := CairoStartOfDay(zone, date).value;
    if GapStraddles(m, before, after, change) {
      assert start == m - 2 * HOUR && change < start;
      assert LocalDay(zone, change) == DayOf(date);
    } else {
      forall t | t < start ensures LocalDay(zone, t) != DayOf(date) {
        OnTheDate(zone, date, before, after, change, t);
      }
    }
  }

  /** Egypt's own two nights: when 00:00 is skipped the day starts at 01:00, the instant of
      the change; when the clocks go back at 24:00, the day starts once, an hour after. */
  lemma EgyptianNights(zone: Zone, date: string, before: int, after: int, change: int)
    requires IsDate(date) && OneChangeNear(zone, Midnight(date), before, after, change)
    requires before != after && change + before == Midnight(date)
    ensures CairoStartOfDay.requires(zone, date)
    ensures CairoStartOfDay(zone, date)
         == Some(if before < after then change else change + HOUR)
    ensures IsFirstInstant(zone, date, CairoStartOfDay(zone, date).value)
    ensures before < after ==> (change + zone(change)) % DAY_MS == HOUR
  {
    hide IsDate, DayOf, LocalDay, DayFromYear, IsFirstInstant, CairoStartOfDay;
    StartOfDayExact(zone, date, before, after, change);
    EgyptianStart(zone, date, before, after, change);
    if before < after {
      assert change + zone(change) == Midnight(date) + HOUR;
      HourOfDay(DayOf(date));
    }
  }

  lemma EgyptianStart(zone: Zone, date: string, before: int, after: int, change: int)
    requires IsDate(date) && OneChangeNear(zone, Midnight(date), before, after, change)
    requires before != after && change + before == Midnight(date)
    ensures CairoStartOfDay.requires(zone, date)
    ensures CairoStartOfDay(zone, date) == Some(if before < after then change else change + HOUR)
  {
    hide IsDate, DayOf, Candidate, LocalDay, DayFromYear, Midnight, OneChangeNear, Probed;
    var m := Midnight(date);
    NearOffsets(zone, m, before, after, change);
    ProbedBoth(zone, date, before, after, change);
    CandidateIs(zone, date, before, after, change, m - 12 * HOUR);
    CandidateIs(zone, date, before, after, change, m + 12 * HOUR);
    OnTheDate(zone, date, before, after, change, m - before);
    OnTheDate(zone, date, before, after, change, m - after);
  }

  lemma NearOffsets(zone: Zone, m: int, before: int, after: int, change: int)
    requires OneChangeNear(zone, m, before, after, change) && before != after && change + before == m
    ensures zone(m - 12 * HOUR) == before && zone(m + 12 * HOUR) == after
    ensures zone(m - before) == after && zone(m - after) == if before < after then before else after
    ensures (before == 2 * HOUR && after == 3 * HOUR) || (before == 3 * HOUR && after == 2 * HOUR)
  {
  }

  lemma ProbedBoth(zone: Zone, date: string, before: int, after: int, change: int)
    requires IsDate(date) && OneChangeNear(zone, Midnight(date), before, after, change)
    ensures Probed(zone, Midnight(date))
  {
    hide IsDate, DayOf, LocalDay, DayFromYear, OneChangeNear;
    ProbesInRange(zone, date, before, after, change);
  }

  lemma HourOfDay(day: int)
    ensures (day * DAY_MS + HOUR) % DAY_MS == HOUR
  {
  }
}
