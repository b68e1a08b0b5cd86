/**
 How far the 1464-day search horizon reaches. Parsed specs fall into three classes: those that
 fire in every window, those that select no date but 29 February (which a window can miss
 only around a century year that is not a leap year), and those that select no date at all.
 */
module CronHorizon {
  import opened Prelude
  import opened Calendar
  import opened Cron

  const NS_PER_DAY: int := MINUTES_PER_DAY * NS_PER_MINUTE

  /** Some date that every year has is selected: a day-of-week term is in force, or a day of the month fits. */
  ghost predicate FiresEveryYear(spec: CronSpec) {
    || spec.domUnrestricted
    || !spec.dowUnrestricted
    || exists month, dom :: month in spec.months && dom in spec.doms && FitsEveryYear(month, dom)
  }

  predicate FitsEveryYear(month: int, dom: int) {
    1 <= month <= 12 && dom <= MonthLength(2001, month)
  }

  /** The only selected date is 29 February. */
  ghost predicate LeapDayOnly(spec: CronSpec) {
    !FiresEveryYear(spec) && 2 in spec.months && 29 in spec.doms
  }

  // ----- specs that fire every year -----

  /** The day and time-of-day fields of a minute, both ways. */
  lemma {:induction false} MinuteFields(day: int, hour: int, minute: int)
    requires 0 <= hour < 24 && 0 <= minute < 60
    ensures var t := day * MINUTES_PER_DAY + hour * 60 + minute;
      t % 60 == minute && t / 60 % 24 == hour && DayOf(t) == day
  {
    var t := day * MINUTES_PER_DAY + hour * 60 + minute;
    assert t / 60 == day * 24 + hour;
  }

  lemma {:induction false} MinuteFromFields(t: int)
    ensures t == DayOf(t) * MINUTES_PER_DAY + t / 60 % 24 * 60 + t % 60
    ensures 0 <= t / 60 % 24 < 24 && 0 <= t % 60 < 60
  {
    var day, hour, minute := t / 60 / 24, t / 60 % 24, t % 60;
    assert t == day * MINUTES_PER_DAY + hour * 60 + minute;
    MinuteFields(day, hour, minute);
  }

  lemma {:induction false} TimesOfDay(spec: CronSpec)
    requires WellFormed(spec)
    ensures 0 <= spec.hours[0] < 24 && 0 <= spec.minutes[0] < 60
    ensures 0 <= spec.hours[|spec.hours| - 1] < 24 && 0 <= spec.minutes[|spec.minutes| - 1] < 60
  {
    assert spec.hours[0] in spec.hours && spec.minutes[0] in spec.minutes;
    assert spec.hours[|spec.hours| - 1] in spec.hours && spec.minutes[|spec.minutes| - 1] in spec.minutes;
  }

  lemma {:induction false} EarliestTimeMatches(spec: CronSpec, day: int)
    requires WellFormed(spec)
    ensures DayMatches(spec, day) ==> Matches(spec, day * MINUTES_PER_DAY + spec.hours[0] * 60 + spec.minutes[0])
  {
    var h, m := spec.hours[0], spec.minutes[0];
    assert h in spec.hours && m in spec.minutes;
    MinuteFields(day, h, m);
  }

  lemma {:induction false} LatestTimeMatches(spec: CronSpec, day: int)
    requires WellFormed(spec)
    ensures DayMatches(spec, day) ==>
      Matches(spec, day * MINUTES_PER_DAY + spec.hours[|spec.hours| - 1] * 60 + spec.minutes[|spec.minutes| - 1])
  {
    var h, m := spec.hours[|spec.hours| - 1], spec.minutes[|spec.minutes| - 1];
    assert h in spec.hours && m in spec.minutes;
    MinuteFields(day, h, m);
  }

  function DayOfStart(start: int): int { DayOf(start / NS_PER_MINUTE) }

  lemma {:induction false} StartWithinDay(start: int)
    ensures DayOfStart(start) * NS_PER_DAY <= start < (DayOfStart(start) + 1) * NS_PER_DAY
  {
    var s := start / NS_PER_MINUTE;
    assert s * NS_PER_MINUTE <= start < (s + 1) * NS_PER_MINUTE;
    assert DayOf(s) * MINUTES_PER_DAY <= s <= DayOf(s) * MINUTES_PER_DAY + 1439;
  }

  lemma {:induction false} DayInWindow(spec: CronSpec, start: int, day: int)
    requires WellFormed(spec) && DayMatches(spec, day)
    requires DayOfStart(start) < day <= DayOfStart(start) + 1463
    ensures NextAfterSpec(spec, start).Ok?
  {
    TimesOfDay(spec);
    EarliestTimeMatches(spec, day);
    var t := day * MINUTES_PER_DAY + spec.hours[0] * 60 + spec.minutes[0];
    StartWithinDay(start);
    assert InWindow(start, t);
  }

  /** Every month of every year has a day with the wanted weekday among its first seven. */
  lemma {:induction false} WeekdayInMonth(year: int, month: int, weekday: int) returns (d: Date)
    requires 1 <= month <= 12 && 0 <= weekday <= 6
    ensures ValidDate(d) && d.year == year && d.month == month
    ensures Weekday(DayNumber(d)) == weekday
  {
    var first := DayNumber(Date(year, month, 1));
    var k := (weekday - Weekday(first)) % 7;
    d := Date(year, month, 1 + k);
    assert DayNumber(d) == first + k;
    WeekdayOffset(first, weekday);
  }

  lemma {:induction false} WeekdayOffset(day: int, weekday: int)
    requires 0 <= weekday <= 6
    ensures Weekday(day + (weekday - Weekday(day)) % 7) == weekday
  {
  }

  lemma {:induction false} DateThisYear(spec: CronSpec, year: int) returns (d: Date)
    requires WellFormed(spec) && FiresEveryYear(spec)
    ensures ValidDate(d) && d.year == year && DayMatches(spec, DayNumber(d))
  {
    if spec.domUnrestricted || !spec.dowUnrestricted {
      var month, weekday := spec.months[0], spec.dows[0];
      assert month in spec.months && weekday in spec.dows;
      d := WeekdayInMonth(year, month, weekday);
    } else {
      var month, dom :| month in spec.months && dom in spec.doms && FitsEveryYear(month, dom);
      d := Date(year, month, dom);
    }
    DateRoundTrip(d);
  }

  /** A date that every year has falls inside every window of four years and more. */
  lemma {:induction false} FiresInEveryWindow(spec: CronSpec, start: int)
    requires WellFormed(spec) && FiresEveryYear(spec)
    ensures NextAfterSpec(spec, start).Ok?
  {
    hide *;
    var year := YearOf(DayOfStart(start));
    var d := DateThisYear(spec, year + 1);
    DayNumberWithinYear(d);
    YearStartMonotone(year, year + 2);
    DayInWindow(spec, start, DayNumber(d));
  }

  // ----- specs that select 29 February only -----

  /** Day number of 1 March. */
  function MarchFirst(year: int): int {
    YearStart(year) + MonthStart(year, 3)
  }

  lemma {:induction false} MarchFirstMonotone(y: int, z: int)
    requires y <= z
    ensures MarchFirst(y) <= MarchFirst(z)
  {
    YearStartMonotone(y, z);
    MonthStarts(y);
    MonthStarts(z);
  }

  lemma {:induction false} LeapCycle(year: int)
    requires year % 4 == 0
    ensures MarchFirst(year + 4) == MarchFirst(year) + 1460 + if IsLeap(year + 4) then 1 else 0
  {
    MonthStarts(year);
    MonthStarts(year + 4);
    YearLength(year);
    YearLength(year + 1);
    YearLength(year + 2);
    YearLength(year + 3);
    NotLeap(year);
    hide YearStart, MonthStart;
  }

  lemma {:induction false} NotLeap(year: int)
    requires year % 4 == 0
    ensures !IsLeap(year + 1) && !IsLeap(year + 2) && !IsLeap(year + 3)
  {
    var q := year / 4;
    QuotientIs(year + 1, q, 1, 4);
    QuotientIs(year + 2, q, 2, 4);
    QuotientIs(year + 3, q, 3, 4);
  }

  lemma {:induction false} LeapDayOnlyDates(spec: CronSpec, day: int)
    requires WellFormed(spec) && LeapDayOnly(spec)
    ensures DayMatches(spec, day) <==> exists year :: IsLeap(year) && day == MarchFirst(year) - 1
  {
    var d := DateOf(day);
    if DayMatches(spec, day) {
      assert !FitsEveryYear(d.month, d.day);
      assert d.month == 2 && d.day == 29 && IsLeap(d.year);
      MonthStarts(d.year);
      assert day == MarchFirst(d.year) - 1;
    }
    if year :| IsLeap(year) && day == MarchFirst(year) - 1 {
      var leapDay := Date(year, 2, 29);
      MonthStarts(year);
      assert DayNumber(leapDay) == day;
      DateRoundTrip(leapDay);
    }
  }

  /** The last minute before 1 March of `year` at which the spec's hour and minute fields allow a firing. */
  function LastOnEve(spec: CronSpec, year: int): int
    requires spec.hours != [] && spec.minutes != []
  {
    (MarchFirst(year) - 1) * MINUTES_PER_DAY + spec.hours[|spec.hours| - 1] * 60 + spec.minutes[|spec.minutes| - 1]
  }

  /** The first such minute on the day before 1 March of `year`. */
  function FirstOnEve(spec: CronSpec, year: int): int
    requires spec.hours != [] && spec.minutes != []
  {
    (MarchFirst(year) - 1) * MINUTES_PER_DAY + spec.hours[0] * 60 + spec.minutes[0]
  }

  /** The window that opens at `start` fits between the leap days on either side of the skipped one in `century`. */
  ghost predicate WindowSkipsLeapDay(spec: CronSpec, start: int, century: int)
    requires WellFormed(spec)
  {
    && century % 100 == 0 && !IsLeap(century)
    && LastOnEve(spec, century - 4) * NS_PER_MINUTE <= start
    && start + HORIZON <= FirstOnEve(spec, century + 4) * NS_PER_MINUTE
  }

  lemma {:induction false} EveBounds(spec: CronSpec, year: int, minute: int)
    requires WellFormed(spec)
    requires Matches(spec, minute) && DayOf(minute) == MarchFirst(year) - 1
    ensures FirstOnEve(spec, year) <= minute <= LastOnEve(spec, year)
  {
    hide MarchFirst, DayOf;
    MinuteFromFields(minute);
    AscendingBounds(spec.hours, minute / 60 % 24);
    AscendingBounds(spec.minutes, minute % 60);
  }

  lemma {:induction false} AscendingBounds(s: seq<nat>, v: nat)
    requires Ascending(s) && v in s
    ensures s[0] <= v <= s[|s| - 1]
  {
  }

  lemma {:induction false} EveMatches(spec: CronSpec, year: int)
    requires WellFormed(spec) && LeapDayOnly(spec) && IsLeap(year)
    ensures Matches(spec, FirstOnEve(spec, year)) && Matches(spec, LastOnEve(spec, year))
  {
    hide DayMatches, Matches, MarchFirst;
    var day := MarchFirst(year) - 1;
    LeapDayOnlyDates(spec, day);
    EarliestTimeMatches(spec, day);
    LatestTimeMatches(spec, day);
  }

  lemma {:induction false} MatchIsOnEve(spec: CronSpec, t: int) returns (year: int)
    requires WellFormed(spec) && LeapDayOnly(spec) && Matches(spec, t)
    ensures IsLeap(year) && FirstOnEve(spec, year) <= t <= LastOnEve(spec, year)
  {
    assert DayMatches(spec, DayOf(t));
    hide DayMatches, Matches, MarchFirst, DayOf, FirstOnEve, LastOnEve, LeapDayOnly, IsLeap;
    LeapDayOnlyDates(spec, DayOf(t));
    year :| IsLeap(year) && DayOf(t) == MarchFirst(year) - 1;
    EveBounds(spec, year, t);
  }

  lemma {:induction false} LeapMinuteOutside(spec: CronSpec, start: int, century: int, t: int)
    requires WellFormed(spec) && LeapDayOnly(spec) && WindowSkipsLeapDay(spec, start, century)
    requires Matches(spec, t)
    ensures !InWindow(start, t)
  {
    hide DayMatches, Matches, WellFormed, FirstOnEve, LastOnEve, LeapDayOnly, FiresEveryYear, IsLeap;
    var year := MatchIsOnEve(spec, t);
    LeapYearsAround(century, year);
    if year <= century - 4 {
      EveMonotone(spec, year, century - 4);
    } else {
      EveMonotone(spec, century + 4, year);
    }
  }

  lemma {:induction false} SkippedLeapDayFails(spec: CronSpec, start: int, century: int)
    requires WellFormed(spec) && LeapDayOnly(spec) && WindowSkipsLeapDay(spec, start, century)
    ensures NextAfterSpec(spec, start).Err?
  {
    hide *;
    forall t | InWindow(start, t) ensures !Matches(spec, t) {
      if Matches(spec, t) { LeapMinuteOutside(spec, start, century, t); }
    }
  }

  lemma {:induction false} LeapYearsAround(century: int, year: int)
    ensures century % 100 == 0 && !IsLeap(century) && IsLeap(year) ==> year <= century - 4 || year >= century + 4
  {
    var c, y := century / 100, year / 4;
    if century % 100 == 0 && !IsLeap(century) && IsLeap(year) {
      assert century == 4 * (25 * c) && year == 4 * y && year != century;
      hide IsLeap;
      assert year - century == 4 * (y - 25 * c);
    }
  }

  lemma {:induction false} LeapYearsBeside(year: int)
    requires year % 4 == 0 && !IsLeap(year)
    ensures year % 100 == 0 && IsLeap(year - 4) && IsLeap(year + 4)
  {
  }

  lemma {:induction false} EveMonotone(spec: CronSpec, y: int, z: int)
    requires WellFormed(spec) && y <= z
    ensures FirstOnEve(spec, y) <= FirstOnEve(spec, z) && LastOnEve(spec, y) <= LastOnEve(spec, z)
  {
    MarchFirstMonotone(y, z);
  }

  /** The leap-day slots on either side of the end of year `y`. */
  lemma {:induction false} SlotsAround(y: int) returns (year: int)
    ensures year % 4 == 0
    ensures MarchFirst(year) - 1 <= YearStart(y) + 59
    ensures YearStart(y + 1) + 58 <= MarchFirst(year + 4) - 1
    ensures MarchFirst(year + 4) <= MarchFirst(year) + 1461
  {
    year := y / 4 * 4;
    assert year <= y < year + 4 && year % 4 == 0;
    LeapCycle(year);
    MarchInYear(year);
    MarchInYear(year + 4);
    hide *;
    YearStartMonotone(year, y);
    YearStartMonotone(y + 1, year + 4);
  }

  /** 1 March is the day after the first 59 or 60 days of its year. */
  lemma {:induction false} MarchInYear(year: int)
    ensures YearStart(year) + 59 <= MarchFirst(year) <= YearStart(year) + 60
  {
    MonthStarts(year);
    hide YearStart;
  }

  /** The slot is still ahead of `start`, by at most 1462 days. */
  predicate Ahead(start: int, slot: int) {
    start < slot * NS_PER_MINUTE <= start + 1462 * NS_PER_DAY
  }

  /**
   Of two slots at one time of day, on the eves of 1 March `m0` and `m1` around the day of `start`, one
   is ahead.
   */
  lemma {:induction false} SlotArithmetic(start: int, slot0: int, slot1: int, y0: int, y1: int, m0: int, m1: int)
    requires y0 <= DayOfStart(start) < y1 && m0 - 1 <= y0 + 59 && y1 + 58 <= m1 - 1 && m1 <= m0 + 1461
    requires (m0 - 1) * MINUTES_PER_DAY <= slot0 < m0 * MINUTES_PER_DAY
    requires slot1 - slot0 == (m1 - m0) * MINUTES_PER_DAY
    ensures Ahead(start, slot0) || Ahead(start, slot1)
  {
    StartWithinDay(start);
    hide DayOfStart;
  }

  lemma {:induction false} EveDistance(spec: CronSpec, y: int, z: int)
    requires WellFormed(spec)
    ensures FirstOnEve(spec, z) - FirstOnEve(spec, y) == (MarchFirst(z) - MarchFirst(y)) * MINUTES_PER_DAY
  {
    hide MarchFirst;
  }

  lemma {:induction false} OneSlotAhead(spec: CronSpec, start: int, year: int, y: int)
    requires WellFormed(spec) && YearStart(y) <= DayOfStart(start) < YearStart(y + 1)
    requires MarchFirst(year) - 1 <= YearStart(y) + 59 && YearStart(y + 1) + 58 <= MarchFirst(year + 4) - 1
    requires MarchFirst(year + 4) <= MarchFirst(year) + 1461
    ensures Ahead(start, FirstOnEve(spec, year)) || Ahead(start, FirstOnEve(spec, year + 4))
  {
    assert spec.hours != [] && spec.minutes != [];
    hide *;
    EveTimes(spec, year);
    EveDistance(spec, year, year + 4);
    SlotArithmetic(start, FirstOnEve(spec, year), FirstOnEve(spec, year + 4),
                   YearStart(y), YearStart(y + 1), MarchFirst(year), MarchFirst(year + 4));
  }

  /** A year divisible by four whose leap-day slot is the next one after `start`. */
  lemma {:induction false} NextLeapSlot(spec: CronSpec, start: int) returns (year: int)
    requires WellFormed(spec)
    ensures year % 4 == 0 && Ahead(start, FirstOnEve(spec, year))
  {
    assert spec.hours != [] && spec.minutes != [];
    hide *;
    var y := YearOf(DayOfStart(start));
    year := SlotsAround(y);
    OneSlotAhead(spec, start, year, y);
    if !Ahead(start, FirstOnEve(spec, year)) {
      year := year + 4;
    }
  }

  lemma {:induction false} EveTimes(spec: CronSpec, year: int)
    requires WellFormed(spec)
    ensures (MarchFirst(year) - 1) * MINUTES_PER_DAY <= FirstOnEve(spec, year)
    ensures FirstOnEve(spec, year) < MarchFirst(year) * MINUTES_PER_DAY
    ensures (MarchFirst(year) - 1) * MINUTES_PER_DAY <= LastOnEve(spec, year)
    ensures LastOnEve(spec, year) < MarchFirst(year) * MINUTES_PER_DAY
  {
    TimesOfDay(spec);
    hide MarchFirst, WellFormed;
  }

  ghost predicate Misses(spec: CronSpec, start: int) {
    NextAfterSpec(spec, start).Err?
  }

  lemma {:induction false} MissedMinute(spec: CronSpec, start: int, t: int)
    requires Misses(spec, start) && Matches(spec, t)
    ensures !InWindow(start, t)
  {
    hide Matches;
  }

  /** A failed search has just skipped 29 February of a year divisible by four, so that year is not leap. */
  lemma {:induction false} MissedSlot(spec: CronSpec, start: int) returns (century: int)
    requires WellFormed(spec) && LeapDayOnly(spec) && Misses(spec, start)
    ensures century % 4 == 0 && !IsLeap(century) && Ahead(start, FirstOnEve(spec, century))
  {
    assert spec.hours != [] && spec.minutes != [];
    hide MarchFirst, FirstOnEve, LastOnEve, LeapDayOnly, FiresEveryYear, Matches, WellFormed, Misses, IsLeap;
    century := NextLeapSlot(spec, start);
    if IsLeap(century) {
      EveMatches(spec, century);
      MissedMinute(spec, start, FirstOnEve(spec, century));
    }
  }

  lemma {:induction false} EveOrder(spec: CronSpec, year: int)
    requires WellFormed(spec) && year % 4 == 0
    ensures LastOnEve(spec, year - 4) <= FirstOnEve(spec, year) <= FirstOnEve(spec, year + 4)
  {
    hide MarchFirst, FirstOnEve, LastOnEve, IsLeap;
    LeapCycle(year - 4);
    LeapCycle(year);
    EveTimes(spec, year - 4);
    EveTimes(spec, year);
    EveTimes(spec, year + 4);
  }

  /** Slots on either side of a near one, both outside the window, lie before it and after it. */
  lemma {:induction false} GapAround(start: int, before: int, slot: int, after: int)
    requires Ahead(start, slot) && before <= slot <= after
    requires !InWindow(start, before) && !InWindow(start, after)
    ensures before * NS_PER_MINUTE <= start && start + HORIZON <= after * NS_PER_MINUTE
  {
  }

  /** The leap days on either side of a skipped one are outside the window too. */
  lemma {:induction false} BesideSkipped(spec: CronSpec, start: int, century: int)
    requires WellFormed(spec) && LeapDayOnly(spec) && Misses(spec, start)
    requires century % 4 == 0 && !IsLeap(century)
    ensures century % 100 == 0
    ensures !InWindow(start, LastOnEve(spec, century - 4)) && !InWindow(start, FirstOnEve(spec, century + 4))
  {
    assert spec.hours != [] && spec.minutes != [];
    LeapYearsBeside(century);
    hide *;
    EveMatches(spec, century - 4);
    EveMatches(spec, century + 4);
    MissedMinute(spec, start, LastOnEve(spec, century - 4));
    MissedMinute(spec, start, FirstOnEve(spec, century + 4));
  }

  lemma {:induction false} MissedWindowSkipsLeapDay(spec: CronSpec, start: int) returns (century: int)
    requires WellFormed(spec) && LeapDayOnly(spec) && Misses(spec, start)
    ensures WindowSkipsLeapDay(spec, start, century)
  {
    assert spec.hours != [] && spec.minutes != [];
    hide MarchFirst, FirstOnEve, LastOnEve, LeapDayOnly, FiresEveryYear, WellFormed, Misses, IsLeap, InWindow, Ahead;
    century := MissedSlot(spec, start);
    BesideSkipped(spec, start, century);
    EveOrder(spec, century);
    GapAround(start, LastOnEve(spec, century - 4), FirstOnEve(spec, century), FirstOnEve(spec, century + 4));
  }

  /** A spec that selects only 29 February fails exactly when the window fits inside the eight-year gap. */
  lemma {:induction false} LeapDayOnlyFailure(spec: CronSpec, start: int)
    requires WellFormed(spec) && LeapDayOnly(spec)
    ensures NextAfterSpec(spec, start).Err? <==> exists century :: WindowSkipsLeapDay(spec, start, century)
  {
    if NextAfterSpec(spec, start).Err? {
      var century := MissedWindowSkipsLeapDay(spec, start);
    }
    if century :| WindowSkipsLeapDay(spec, start, century) {
      SkippedLeapDayFails(spec, start, century);
    }
  }

  // ----- the three classes -----

  lemma {:induction false} NoDateMatches(spec: CronSpec, day: int)
    requires WellFormed(spec) && !FiresEveryYear(spec) && !LeapDayOnly(spec)
    ensures !DayMatches(spec, day)
  {
    hide DateOf, YearStart, MonthStart, DayNumber;
    var d := DateOf(day);
    assert MonthLength(d.year, d.month) <= MonthLength(2001, d.month) + if d.month == 2 then 1 else 0;
    assert d.month in spec.months && d.day in spec.doms ==> !FitsEveryYear(d.month, d.day);
  }

  lemma {:induction false} NoDateFails(spec: CronSpec, start: int)
    requires WellFormed(spec) && !FiresEveryYear(spec) && !LeapDayOnly(spec)
    ensures NextAfterSpec(spec, start).Err?
  {
    hide WellFormed, FiresEveryYear, LeapDayOnly, DayMatches, NextAfterSpec, DayOf;
    forall t | InWindow(start, t) ensures !Matches(spec, t) { NoDateMatches(spec, DayOf(t)); }
  }

  /** A start from which even a leap-day spec finds nothing: 2096-03-01, with no leap day until 2104. */
  lemma {:induction false} MarchFirst2096Fails(spec: CronSpec)
    requires WellFormed(spec) && !FiresEveryYear(spec)
    ensures NextAfterSpec(spec, MarchFirst(2096) * NS_PER_DAY).Err?
  {
    if LeapDayOnly(spec) {
      var start := MarchFirst(2096) * NS_PER_DAY;
      LeapCycle(2096);
      LeapCycle(2100);
      assert spec.hours[0] in spec.hours && spec.minutes[0] in spec.minutes;
      assert spec.hours[|spec.hours| - 1] in spec.hours && spec.minutes[|spec.minutes| - 1] in spec.minutes;
      assert WindowSkipsLeapDay(spec, start, 2100);
      SkippedLeapDayFails(spec, start, 2100);
    } else {
      NoDateFails(spec, MarchFirst(2096) * NS_PER_DAY);
    }
  }

  /**
   The search succeeds from every start exactly when the expression parses and selects a date that
   every year has.
   */
  lemma {:induction false} HorizonIsComplete(expr: string)
    ensures (forall start :: NextAfter(expr, start).Ok?) <==>
      Cron.Parse(expr).Ok? && FiresEveryYear(Cron.Parse(expr).value)
  {
    ParsedIsWellFormed(expr);
    var parsed := Cron.Parse(expr);
    hide Cron.Parse, WellFormed, FiresEveryYear, NextAfterSpec;
    if parsed.Err? {
      NextAfterOfSpec(expr, 0);
      assert NextAfter(expr, 0).Err?;
    } else if FiresEveryYear(parsed.value) {
      forall start ensures NextAfter(expr, start).Ok? {
        FiresInEveryWindow(parsed.value, start);
        NextAfterOfSpec(expr, start);
      }
    } else {
      var start := MarchFirst(2096) * NS_PER_DAY;
      MarchFirst2096Fails(parsed.value);
      NextAfterOfSpec(expr, start);
      assert NextAfter(expr, start).Err?;
    }
  }
}
