/**
 * The date helpers of the application: today's date in São Paulo, the bounds
 * of a day, weekend tests, the ISO week identifier `YYYY-Www` and the Brazilian
 * time and date formats. The clock is the parameter `now`, the value
 * `datetime.now(SAO_PAULO_TZ)` would return; an absent target date means today.
 */
module DateTimeUtils {
  import opened Wrappers
  import opened Text
  import opened Calendar
  import opened Constants

  predicate InSaoPaulo(t: DateTime) { t.offsetMinutes == SaoPauloOffsetMinutes }

  /** `get_current_date()` for the clock reading `now`. */
  function CurrentDate(now: DateTime): Date { now.date }

  /** The target date, or today when none is given. */
  function DateOrToday(target: Option<Date>, now: DateTime): Date
  {
    if target.Some? then target.value else CurrentDate(now)
  }

  /** `get_start_of_day(target)`: 00:00:00.000000 of the date, São Paulo time. */
  function StartOfDay(target: Option<Date>, now: DateTime): (r: DateTime)
    ensures InSaoPaulo(r) && r.date == DateOrToday(target, now)
  {
    DateTimeFields(DateOrToday(target, now), 0, 0, 0, 0, SaoPauloOffsetMinutes)
  }

  /** `get_end_of_day(target)`: 23:59:59.999999 of the date, São Paulo time. */
  function EndOfDay(target: Option<Date>, now: DateTime): (r: DateTime)
    ensures InSaoPaulo(r) && r.date == DateOrToday(target, now)
  {
    DateTimeFields(DateOrToday(target, now), 23, 59, 59, 999999, SaoPauloOffsetMinutes)
  }

  /** `is_weekend(target)`. */
  predicate IsWeekend(target: Option<Date>, now: DateTime)
  {
    Weekday(DateOrToday(target, now)) in Weekend
  }

  /** `is_workday(target)`. */
  predicate IsWorkday(target: Option<Date>, now: DateTime)
  {
    !IsWeekend(target, now)
  }

  /** `get_week_id(target)`: `f"{year}-W{week:02d}"` of the ISO calendar of the date. */
  function WeekId(target: Option<Date>, now: DateTime): string
  {
    var iso := IsoCalendar(DateOrToday(target, now));
    IsoCalendarCharacterised(DateOrToday(target, now));
    NatToString(iso.year) + "-W" + ZeroPad(iso.week, 2)
  }

  /**
   * Reads a week identifier back: a non-empty run of digits, "-W" and exactly two
   * digits.
   */
  function ParseWeekId(s: string): (r: Option<(nat, nat)>)
  {
    if |s| < 5 then None
    else
      var year, tag, week := s[..|s| - 4], s[|s| - 4..|s| - 2], s[|s| - 2..];
      if AllDigits(year) && tag == "-W" && AllDigits(week) then Some((DigitsValue(year), DigitsValue(week)))
      else None
  }

  /** `format_time_brazilian(t)`: `t.strftime("%H:%M:%S")`. */
  function FormatTimeBrazilian(t: DateTime): string
  {
    ZeroPad(t.hour, 2) + ":" + ZeroPad(t.minute, 2) + ":" + ZeroPad(t.second, 2)
  }

  /** `format_date_brazilian(d)`: `d.strftime("%d/%m/%Y")`. */
  function FormatDateBrazilian(d: Date): string
  {
    ZeroPad(d.day, 2) + "/" + ZeroPad(d.month, 2) + "/" + ZeroPad(d.year, 4)
  }

  // ---------------------------------------------------------------------------
  // Lemmas

  /** The day bounds are 00:00:00 and 23:59:59.999999 of the date, one microsecond short of a day apart. */
  lemma DayBounds(target: Option<Date>, now: DateTime)
    ensures var start, end := StartOfDay(target, now), EndOfDay(target, now);
      && start.hour == 0 && start.minute == 0 && start.second == 0 && start.microsecond == 0
      && end.hour == 23 && end.minute == 59 && end.second == 59 && end.microsecond == 999999
      && UtcMicros(end) - UtcMicros(start) == DayMicros - 1
  {
  }

  /**
   * A São Paulo datetime lies between the start and the end of a date exactly when
   * it falls on that date.
   */
  lemma WithinDayIffSameDate(t: DateTime, d: Date, now: DateTime)
    requires InSaoPaulo(t)
    ensures (AtOrAfter(t, StartOfDay(Some(d), now)) && AtOrAfter(EndOfDay(Some(d), now), t)) <==> t.date == d
  {
    var clock := (t.hour * 3600 + t.minute * 60 + t.second) * 1000000 + t.microsecond;
    assert 0 <= clock < DayMicros;
    if Ordinal(t.date) == Ordinal(d) {
      OrdinalInjective(t.date, d);
    }
  }

  /** The weekend test is membership of weekday 5 or 6, and a workday is any other. */
  lemma WeekendIff(target: Option<Date>, now: DateTime)
    ensures IsWeekend(target, now) <==> Weekday(DateOrToday(target, now)) == 5 || Weekday(DateOrToday(target, now)) == 6
    ensures IsWorkday(target, now) <==> Weekday(DateOrToday(target, now)) in Workdays
  {
    WeekdaysPartition(Weekday(DateOrToday(target, now)));
  }

  /** The week identifier reads back as the ISO year and week of the date. */
  lemma WeekIdRoundTrip(target: Option<Date>, now: DateTime)
    ensures var iso := IsoCalendar(DateOrToday(target, now));
      ParseWeekId(WeekId(target, now)) == Some((iso.year, iso.week))
  {
    var d := DateOrToday(target, now);
    var iso := IsoCalendar(d);
    IsoCalendarCharacterised(d);
    var y, w := NatToString(iso.year), ZeroPad(iso.week, 2);
    ZeroPadDigits(iso.week, 2);
    NatToStringValue(iso.year);
    var s := WeekId(target, now);
    assert s == y + "-W" + w;
    assert s[..|s| - 4] == y;
    assert s[|s| - 4..|s| - 2] == "-W";
    assert s[|s| - 2..] == w;
  }

  /**
   * Two dates get the same week identifier exactly when they lie in the same
   * Monday-to-Sunday week.
   */
  lemma WeekIdSameIffSameWeek(a: Date, b: Date, now: DateTime)
    ensures WeekId(Some(a), now) == WeekId(Some(b), now) <==> MondayOf(a) == MondayOf(b)
  {
    WeekIdRoundTrip(Some(a), now);
    WeekIdRoundTrip(Some(b), now);
    SameIsoWeekIffSameMonday(a, b);
  }

  /** "HH:MM:SS": eight characters, colons at 2 and 5, two digits per field. */
  lemma FormatTimeFields(t: DateTime)
    ensures var s := FormatTimeBrazilian(t);
      && |s| == 8 && s[2] == ':' && s[5] == ':'
      && AllDigits(s[0..2]) && AllDigits(s[3..5]) && AllDigits(s[6..8])
      && DigitsValue(s[0..2]) == t.hour && DigitsValue(s[3..5]) == t.minute && DigitsValue(s[6..8]) == t.second
  {
    ZeroPadDigits(t.hour, 2);
    ZeroPadDigits(t.minute, 2);
    ZeroPadDigits(t.second, 2);
    var s := FormatTimeBrazilian(t);
    assert s[0..2] == ZeroPad(t.hour, 2);
    assert s[3..5] == ZeroPad(t.minute, 2);
    assert s[6..8] == ZeroPad(t.second, 2);
  }

  /** "DD/MM/YYYY": ten characters, slashes at 2 and 5, every field zero-padded. */
  lemma FormatDateFields(d: Date)
    ensures var s := FormatDateBrazilian(d);
      && |s| == 10 && s[2] == '/' && s[5] == '/'
      && AllDigits(s[0..2]) && AllDigits(s[3..5]) && AllDigits(s[6..10])
      && DigitsValue(s[0..2]) == d.day && DigitsValue(s[3..5]) == d.month && DigitsValue(s[6..10]) == d.year
  {
    ZeroPadDigits(d.day, 2);
    ZeroPadDigits(d.month, 2);
    ZeroPadDigits(d.year, 4);
    var s := FormatDateBrazilian(d);
    assert s[0..2] == ZeroPad(d.day, 2);
    assert s[3..5] == ZeroPad(d.month, 2);
    assert s[6..10] == ZeroPad(d.year, 4);
  }
}
