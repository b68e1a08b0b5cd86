/**
 The documentation of `is_unrestricted` against its code. The documentation counts a day field
 as unrestricted when every chunk is `*` or a step that yields the full range; the code accepts
 only `*`. Proved here: on which fields the two differ, and for which expressions that changes
 a firing. Before that, what five written fields mean in days, hours and minutes.
 */
module CronReading {
  import opened Prelude
  import opened Text
  import opened Calendar
  import opened Cron
  import opened CronHorizon

  predicate Star(raw: string) {
    forall chunk <- Split(raw, ',') :: chunk == "*"
  }

  predicate Picks(raw: string, lo: nat, hi: nat, v: int) {
    v >= 0 && Selected(Split(raw, ','), lo, hi, v)
  }

  lemma {:induction false} FieldPicks(raw: string, lo: nat, hi: nat, vs: seq<nat>, v: int)
    requires FieldSpec(raw, lo, hi) == Ok(vs)
    ensures v in vs <==> Picks(raw, lo, hi, v)
  {
    hide Selected, Split;
  }

  /** The minute since the epoch of a time of day. */
  function MinuteOf(date: Date, hour: int, minute: int): int
    requires 1 <= date.month <= 12
  {
    (DayNumber(date) * 24 + hour) * 60 + minute
  }

  lemma {:induction false} TimeOf(date: Date, hour: int, minute: int)
    requires ValidDate(date) && 0 <= hour < 24 && 0 <= minute < 60
    ensures var t := MinuteOf(date, hour, minute);
      t % 60 == minute && t / 60 % 24 == hour && DayOf(t) == DayNumber(date) && DateOf(DayOf(t)) == date
  {
    DateRoundTrip(date);
    var day := DayNumber(date);
    assert MinuteOf(date, hour, minute) == (day * 24 + hour) * 60 + minute;
    hide DayNumber, DateOf, ValidDate, MinuteOf;
    SameMinute(day, hour, minute);
    MinuteFields(day, hour, minute);
  }

  lemma {:induction false} SameMinute(day: int, hour: int, minute: int)
    ensures (day * 24 + hour) * 60 + minute == day * MINUTES_PER_DAY + hour * 60 + minute
  {
  }

  ghost predicate LinePicks(words: seq<string>, date: Date, weekday: int, hour: int, minute: int)
    requires |words| == 5
  {
    var domOk := Picks(words[2], 1, 31, date.day);
    var dowOk := Picks(words[4], 0, 6, weekday);
    && Picks(words[0], 0, 59, minute) && Picks(words[1], 0, 23, hour) && Picks(words[3], 1, 12, date.month)
    && if !Star(words[2]) && !Star(words[4]) then domOk || dowOk else domOk && dowOk
  }

  lemma {:induction false} ParsedLineFires(expr: string, words: seq<string>, t: int)
    requires |words| == 5 && Parse(expr).Ok? && ReadsInOrder(words, Parse(expr))
    ensures Matches(Parse(expr).value, t) <==>
      LinePicks(words, DateOf(DayOf(t)), Weekday(DayOf(t)), t / 60 % 24, t % 60)
  {
    var spec, day, minute, hour := Parse(expr).value, DayOf(t), t % 60, t / 60 % 24;
    hide Parse, ReadsInOrder, Matches, DateOf, Weekday, DayOf, Picks, Star, DayNumber, ValidDate;
    MatchesIsVixieRule(expr, t);
    FieldsPick(words, spec, minute, hour, DateOf(day).day, DateOf(day).month, Weekday(day));
  }

  lemma {:induction false} FieldsPick(words: seq<string>, spec: CronSpec, minute: int, hour: int, day: int, month: int,
                                      weekday: int)
    requires |words| == 5 && ReadsInOrder(words, Ok(spec))
    ensures minute in spec.minutes <==> Picks(words[0], 0, 59, minute)
    ensures hour in spec.hours <==> Picks(words[1], 0, 23, hour)
    ensures day in spec.doms <==> Picks(words[2], 1, 31, day)
    ensures month in spec.months <==> Picks(words[3], 1, 12, month)
    ensures weekday in spec.dows <==> Picks(words[4], 0, 6, weekday)
    ensures spec.domUnrestricted == Star(words[2]) && spec.dowUnrestricted == Star(words[4])
  {
    FieldsRead(words, spec);
    hide *;
    FieldPicks(words[0], 0, 59, spec.minutes, minute);
    FieldPicks(words[1], 0, 23, spec.hours, hour);
    FieldPicks(words[2], 1, 31, spec.doms, day);
    FieldPicks(words[3], 1, 12, spec.months, month);
    FieldPicks(words[4], 0, 6, spec.dows, weekday);
  }

  /**
   A line of five fields, however spaced, that parses fires at an hour and minute of a date exactly when
   the first two fields pick the minute and the hour, the fourth the month, and of the third and fifth
   either picks the day when neither is `*` and both do otherwise.
   */
  lemma {:induction false} LineFires(words: seq<string>, gaps: seq<string>, date: Date, hour: int, minute: int)
    requires IsSpacing(words, gaps) && |words| == 5
    requires ValidDate(date) && 0 <= hour < 24 && 0 <= minute < 60
    ensures var r := Parse(Spaced(words, gaps));
      r.Ok? ==>
        (Matches(r.value, MinuteOf(date, hour, minute)) <==>
           LinePicks(words, date, Weekday(DayNumber(date)), hour, minute))
  {
    ParseReadsWords(words, gaps);
    TimeOf(date, hour, minute);
    hide Parse, Spaced, IsSpacing, Matches, ReadsInOrder, DateOf, Weekday, DayOf, LinePicks, MinuteOf;
    if Parse(Spaced(words, gaps)).Ok? {
      ParsedLineFires(Spaced(words, gaps), words, MinuteOf(date, hour, minute));
    }
  }

  lemma {:induction false} FieldsRead(words: seq<string>, spec: CronSpec)
    requires |words| == 5 && ReadsInOrder(words, Ok(spec))
    ensures FieldSpec(words[0], 0, 59) == Ok(spec.minutes) && FieldSpec(words[1], 0, 23) == Ok(spec.hours)
    ensures FieldSpec(words[2], 1, 31) == Ok(spec.doms) && FieldSpec(words[3], 1, 12) == Ok(spec.months)
    ensures FieldSpec(words[4], 0, 6) == Ok(spec.dows)
    ensures spec.domUnrestricted == Star(words[2]) && spec.dowUnrestricted == Star(words[4])
  {
    hide FieldSpec, Split;
  }

  /** In nanoseconds: the next time is a whole minute after the start, less than 1464 days away. */
  lemma {:induction false} NextIsSoonAfter(expr: string, start: int)
    ensures NextAfter(expr, start).Ok? ==>
      start < NextAfter(expr, start).value * 60_000_000_000 < start + 4 * 366 * 86_400_000_000_000
  {
    hide Parse, Matches, NextAfter;
  }

  /** The chunk is a step and selects every value of the range. */
  ghost predicate IsFullStep(chunk: string, lo: nat, hi: nat) {
    && Classify(chunk).Ok? && Classify(chunk).value.Every?
    && forall v: nat | lo <= v <= hi :: Denotes(chunk, lo, hi, v)
  }

  /** The documented reading of a raw field. */
  ghost predicate DocumentedUnrestricted(raw: string, lo: nat, hi: nat) {
    forall chunk <- Split(raw, ',') :: chunk == "*" || IsFullStep(chunk, lo, hi)
  }

  predicate IsStepOfOne(chunk: string) {
    Classify(chunk) == Ok(Every(1))
  }

  lemma {:induction false} StepOfOneDivides(v: int)
    ensures v % 1 == 0
  {
  }

  lemma {:induction false} SmallRemainder(step: nat)
    requires step > 1
    ensures 1 % step == 1
  {
    QuotientIs(1, 0, 1, step);
  }

  /** In a range of at least two values a step yields the full range exactly when it is one. */
  lemma {:induction false} FullStepIsOne(chunk: string, lo: nat, hi: nat)
    requires lo < hi
    ensures IsFullStep(chunk, lo, hi) <==> IsStepOfOne(chunk)
  {
    if IsStepOfOne(chunk) {
      forall v: nat | lo <= v <= hi ensures Denotes(chunk, lo, hi, v) {
        StepOfOneDivides(v - lo);
      }
    } else if Classify(chunk).Ok? && Classify(chunk).value.Every? {
      SmallRemainder(Classify(chunk).value.step);
      assert lo + 1 - lo == 1;
      assert !Denotes(chunk, lo, hi, lo + 1);
    }
  }

  lemma {:induction false} StarIsNoStep(chunk: string)
    ensures chunk == "*" ==> !IsStepOfOne(chunk)
  {
  }

  /**
   The documentation and the code differ on a field exactly when every chunk is `*` or a step of one,
   and one is a step.
   */
  lemma {:induction false} ReadingsDiffer(raw: string, lo: nat, hi: nat)
    requires lo < hi
    ensures IsUnrestricted(raw) ==> DocumentedUnrestricted(raw, lo, hi)
    ensures DocumentedUnrestricted(raw, lo, hi) && !IsUnrestricted(raw) <==>
      && (forall chunk <- Split(raw, ',') :: chunk == "*" || IsStepOfOne(chunk))
      && exists chunk <- Split(raw, ',') :: IsStepOfOne(chunk)
  {
    forall chunk <- Split(raw, ',')
      ensures IsFullStep(chunk, lo, hi) <==> IsStepOfOne(chunk)
      ensures chunk == "*" ==> !IsStepOfOne(chunk)
    {
      FullStepIsOne(chunk, lo, hi);
      StarIsNoStep(chunk);
    }
    hide IsFullStep, IsStepOfOne;
  }

  /** Such fields exist: a step of one selects every value, yet the field counts as restricted. */
  lemma {:induction false} StepOneIsRestricted(lo: nat, hi: nat)
    requires lo < hi
    ensures !IsUnrestricted("*/1") && DocumentedUnrestricted("*/1", lo, hi)
  {
    var chunk := "*/1";
    SplitFirst(chunk, "", ',');
    assert Split(chunk, ',') == [chunk] && chunk in [chunk];
    OneDigit();
    assert Classify(chunk) == Ok(Every(1));
    FullStepIsOne(chunk, lo, hi);
  }

  lemma {:induction false} OneDigit()
    ensures "*/1"[2..] == "1" && DigitsValue("1") == 1
  {
    assert "1"[..0] == "";
    assert DigitsValue("1"[..0]) == 0;
  }

  /** A field that is unrestricted in either reading selects its whole range. */
  lemma {:induction false} DocumentedSelectsAll(raw: string, lo: nat, hi: nat)
    requires lo < hi && DocumentedUnrestricted(raw, lo, hi) && FieldSpec(raw, lo, hi).Ok?
    ensures forall v: nat | lo <= v <= hi :: v in FieldSpec(raw, lo, hi).value
  {
    var chunks := Split(raw, ',');
    var first := chunks[0];
    assert first in chunks;
    forall v: nat | lo <= v <= hi ensures v in FieldSpec(raw, lo, hi).value {
      assert first == "*" ==> Classify(first) == Ok(Any);
      assert Denotes(first, lo, hi, v);
      assert Selected(chunks, lo, hi, v);
    }
  }

  // ----- when the difference shows -----

  /** Every value of the day-of-week field. */
  ghost predicate EveryWeekday(spec: CronSpec) {
    forall v: nat | v <= 6 :: v in spec.dows
  }

  /** Every day of every selected month, 29 February included. */
  ghost predicate EveryDayOfMonth(spec: CronSpec) {
    forall month <- spec.months :: 1 <= month <= 12 ==>
      forall d: nat | 1 <= d <= MonthLength(2000, month) :: d in spec.doms
  }

  lemma {:induction false} LongestMonth(year: int, month: int)
    requires 1 <= month <= 12
    ensures MonthLength(year, month) <= MonthLength(2000, month)
  {
  }

  /** Some day in a selected month has the weekday. */
  lemma {:induction false} DayWithWeekday(spec: CronSpec, weekday: nat) returns (day: int)
    requires WellFormed(spec) && weekday <= 6
    ensures DateOf(day).month in spec.months && Weekday(day) == weekday
  {
    var month := spec.months[0];
    assert month in spec.months;
    var d := WeekdayInMonth(2000, month, weekday);
    day := DayNumber(d);
    DateRoundTrip(d);
  }

  /**
   Reading a full day-of-month field as restricted drops the day-of-week test: no day changes exactly
   when that test always holds.
   */
  lemma {:induction false} MisreadDayOfMonth(spec: CronSpec)
    requires WellFormed(spec) && !spec.domUnrestricted && !spec.dowUnrestricted
    requires forall v: nat | 1 <= v <= 31 :: v in spec.doms
    ensures (forall day :: DayMatches(spec, day) == DayRule(spec, true, false, day)) <==> EveryWeekday(spec)
  {
    if EveryWeekday(spec) {
      forall day ensures DayMatches(spec, day) == DayRule(spec, true, false, day) {
        assert Weekday(day) in spec.dows;
      }
    } else {
      var v: nat :| v <= 6 && v !in spec.dows;
      var day := DayWithWeekday(spec, v);
      assert 1 <= DateOf(day).day <= 31;
      assert DayMatches(spec, day) && !DayRule(spec, true, false, day);
    }
  }

  /** And the other way round for the day-of-week field, where only the days of selected months matter. */
  lemma {:induction false} MisreadDayOfWeek(spec: CronSpec)
    requires WellFormed(spec) && !spec.domUnrestricted && !spec.dowUnrestricted
    requires EveryWeekday(spec)
    ensures (forall day :: DayMatches(spec, day) == DayRule(spec, false, true, day)) <==> EveryDayOfMonth(spec)
  {
    if EveryDayOfMonth(spec) {
      forall day ensures DayMatches(spec, day) == DayRule(spec, false, true, day) {
        var date := DateOf(day);
        LongestMonth(date.year, date.month);
        assert date.month in spec.months ==> date.day in spec.doms;
      }
    } else {
      var month, d: nat :|
        month in spec.months && 1 <= month <= 12 && 1 <= d <= MonthLength(2000, month) && d !in spec.doms;
      var date := Date(2000, month, d);
      DateRoundTrip(date);
      var day := DayNumber(date);
      assert Weekday(day) in spec.dows;
      assert DayMatches(spec, day) && !DayRule(spec, false, true, day);
    }
  }

  /** Both readings of both day fields of an expression. */
  ghost predicate DocumentedDom(expr: string) {
    var parts := SplitWhitespace(expr);
    |parts| == 5 && DocumentedUnrestricted(parts[2], 1, 31)
  }

  ghost predicate DocumentedDow(expr: string) {
    var parts := SplitWhitespace(expr);
    |parts| == 5 && DocumentedUnrestricted(parts[4], 0, 6)
  }

  ghost predicate DocumentedMatches(expr: string, spec: CronSpec, minute: int) {
    && minute % 60 in spec.minutes && minute / 60 % 24 in spec.hours
    && DayRule(spec, DocumentedDom(expr), DocumentedDow(expr), DayOf(minute))
  }

  /** What a parsed spec and the documented reading of its text have to do with each other. */
  ghost predicate Readings(spec: CronSpec, domDoc: bool, dowDoc: bool) {
    && WellFormed(spec)
    && (spec.domUnrestricted ==> domDoc) && (spec.dowUnrestricted ==> dowDoc)
    && (domDoc ==> forall v: nat | 1 <= v <= 31 :: v in spec.doms)
    && (dowDoc ==> EveryWeekday(spec))
  }

  lemma {:induction false} ReadingsOfParsed(expr: string)
    ensures Parse(expr).Ok? ==> Readings(Parse(expr).value, DocumentedDom(expr), DocumentedDow(expr))
  {
    hide Parse, SplitWhitespace, FieldSpec, WellFormed, IsUnrestricted, DocumentedUnrestricted;
    ParsedIsWellFormed(expr);
    ParseReadsFields(expr);
    if Parse(expr).Ok? {
      var parts := SplitWhitespace(expr);
      ReadingsDiffer(parts[2], 1, 31);
      ReadingsDiffer(parts[4], 0, 6);
      if DocumentedDom(expr) { DocumentedSelectsAll(parts[2], 1, 31); }
      if DocumentedDow(expr) { DocumentedSelectsAll(parts[4], 0, 6); }
    }
  }

  /** The two fields, each misread or not: what has to hold for no day to change. */
  ghost predicate MisreadingIsHarmless(spec: CronSpec, domDoc: bool, dowDoc: bool) {
    && (domDoc != spec.domUnrestricted ==> EveryWeekday(spec))
    && (dowDoc != spec.dowUnrestricted ==> EveryDayOfMonth(spec))
  }

  lemma {:induction false} FullDaysCoverMonths(spec: CronSpec)
    requires forall v: nat | 1 <= v <= 31 :: v in spec.doms
    ensures EveryDayOfMonth(spec)
  {
  }

  lemma {:induction false} DaysUnchangedIff(spec: CronSpec, domDoc: bool, dowDoc: bool)
    requires Readings(spec, domDoc, dowDoc)
    ensures (forall day :: DayMatches(spec, day) == DayRule(spec, domDoc, dowDoc, day)) <==>
      MisreadingIsHarmless(spec, domDoc, dowDoc)
  {
    if domDoc { FullDaysCoverMonths(spec); }
    if domDoc && !spec.domUnrestricted && !dowDoc {
      MisreadDayOfMonth(spec);
    } else if dowDoc && !spec.dowUnrestricted && !domDoc {
      MisreadDayOfWeek(spec);
    } else {
      forall day ensures DayMatches(spec, day) == DayRule(spec, domDoc, dowDoc, day) {
        assert 1 <= DateOf(day).day <= 31 && 0 <= Weekday(day) <= 6;
      }
    }
  }

  /** A day that changes changes a firing on it, since some minute of every day is selected. */
  lemma {:induction false} FiringsFollowDays(expr: string, spec: CronSpec)
    requires WellFormed(spec)
    ensures (forall minute :: Matches(spec, minute) == DocumentedMatches(expr, spec, minute)) <==>
      forall day :: DayMatches(spec, day) == DayRule(spec, DocumentedDom(expr), DocumentedDow(expr), day)
  {
    hide DayMatches, DayRule, DocumentedDom, DocumentedDow, DayOf;
    var h, m := spec.hours[0], spec.minutes[0];
    assert h in spec.hours && m in spec.minutes;
    forall day ensures
      var t := day * MINUTES_PER_DAY + h * 60 + m;
      && Matches(spec, t) == DayMatches(spec, day)
      && DocumentedMatches(expr, spec, t) == DayRule(spec, DocumentedDom(expr), DocumentedDow(expr), day)
    {
      MinuteFields(day, h, m);
    }
    if forall minute :: Matches(spec, minute) == DocumentedMatches(expr, spec, minute) {
      forall day ensures DayMatches(spec, day) == DayRule(spec, DocumentedDom(expr), DocumentedDow(expr), day) {
        assert Matches(spec, day * MINUTES_PER_DAY + h * 60 + m)
            == DocumentedMatches(expr, spec, day * MINUTES_PER_DAY + h * 60 + m);
      }
    }
  }

  /**
   An expression fires as documented at every minute if and only if no field that the code
   misreads hides a restriction of the other: a misread day of month needs every weekday
   selected, a misread day of week every day of the selected months.
   */
  lemma {:induction false} FiresAsDocumentedIff(expr: string)
    ensures Parse(expr).Ok? ==>
      var spec := Parse(expr).value;
      (forall minute :: Matches(spec, minute) == DocumentedMatches(expr, spec, minute)) <==>
        MisreadingIsHarmless(spec, DocumentedDom(expr), DocumentedDow(expr))
  {
    if Parse(expr).Ok? {
      ReadingsOfParsed(expr);
      var spec := Parse(expr).value;
      assert WellFormed(spec);
      hide *;
      FiringsFollowDays(expr, spec);
      DaysUnchangedIff(spec, DocumentedDom(expr), DocumentedDow(expr));
    }
  }
}
