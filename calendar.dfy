/**
 * The part of Python's `datetime` library the application relies on:
 * proleptic Gregorian dates in years 1..9999, their ordinal day numbers
 * (`date.toordinal()`), `weekday()`, `date - timedelta(days=k)`,
 * `isocalendar()` (ISO 8601 week dates, section 4.1.4 of ISO 8601:2004),
 * aware datetimes with a fixed UTC offset, and the calendar date format
 * `YYYY-MM-DD` (section 4.1.2.2 of ISO 8601:2004) written by `isoformat()` /
 * `strftime("%Y-%m-%d")` and read by `strptime(s, "%Y-%m-%d")`.
 */
module Calendar {
  import opened Wrappers
  import opened Text

  const MinYear := 1
  const MaxYear := 9999

  predicate IsLeap(y: int) { y % 4 == 0 && (y % 100 != 0 || y % 400 == 0) }

  function DaysInYear(y: int): int { if IsLeap(y) then 366 else 365 }

  function DaysInMonth(y: int, m: int): (n: int)
    requires 1 <= m <= 12
    ensures 28 <= n <= 31
  {
    if m == 2 then (if IsLeap(y) then 29 else 28)
    else if m == 4 || m == 6 || m == 9 || m == 11 then 30
    else 31
  }

  /** Days of year `y` before the first of month `m` (Python's `_days_before_month`). */
  function DaysBeforeMonth(y: int, m: int): (n: int)
    requires 1 <= m <= 12
    ensures n >= 0
  {
    (if m == 1 then 0 else if m == 2 then 31 else if m == 3 then 59 else if m == 4 then 90
     else if m == 5 then 120 else if m == 6 then 151 else if m == 7 then 181 else if m == 8 then 212
     else if m == 9 then 243 else if m == 10 then 273 else if m == 11 then 304 else 334)
    + (if m > 2 && IsLeap(y) then 1 else 0)
  }

  /**
   * Days before January 1st of year `y`, counted from 0001-01-01 (Python's
   * `_days_before_year`), by the year-to-year recurrence; `DaysBeforeYearClosedForm`
   * proves it equal to the closed form `365*p + p//4 - p//100 + p//400` that Python
   * evaluates, with `p = y - 1`.
   */
  function DaysBeforeYear(y: int): int
    decreases if y >= 1 then y - 1 else 1 - y
  {
    if y == 1 then 0
    else if y > 1 then DaysBeforeYear(y - 1) + DaysInYear(y - 1)
    else DaysBeforeYear(y + 1) - DaysInYear(y)
  }

  /** Python's `_MAXORDINAL`: the ordinal of 9999-12-31. */
  const MaxOrdinal := 3652059

  datatype DateFields = DateFields(year: int, month: int, day: int)

  predicate ValidDate(d: DateFields)
  {
    MinYear <= d.year <= MaxYear && 1 <= d.month <= 12 && 1 <= d.day <= DaysInMonth(d.year, d.month)
  }

  /** A Python `date`: it cannot hold an impossible day. */
  type Date = d: DateFields | ValidDate(d) witness DateFields(1, 1, 1)

  datatype DateTimeFields = DateTimeFields(
    date: Date, hour: int, minute: int, second: int, microsecond: int, offsetMinutes: int)

  predicate ValidDateTime(t: DateTimeFields)
  {
    && 0 <= t.hour < 24 && 0 <= t.minute < 60 && 0 <= t.second < 60
    && 0 <= t.microsecond < 1000000
    && -1440 < t.offsetMinutes < 1440
  }

  /** An aware Python `datetime` whose `tzinfo` is a fixed offset, in minutes east of UTC. */
  type DateTime = t: DateTimeFields | ValidDateTime(t)
    witness DateTimeFields(DateFields(1, 1, 1), 0, 0, 0, 0, 0)

  /** `date.toordinal()`: 0001-01-01 is day 1. */
  function Ordinal(d: Date): int
  {
    DaysBeforeYear(d.year) + DaysBeforeMonth(d.year, d.month) + d.day
  }

  /** `date.weekday()`: Monday is 0 and Sunday is 6. */
  function Weekday(d: Date): (w: int)
    ensures 0 <= w <= 6
  {
    (Ordinal(d) + 6) % 7
  }

  /** Ordinal of the Monday that starts the week of `d`. */
  function MondayOf(d: Date): int
  {
    Ordinal(d) - Weekday(d)
  }

  /** The instant a datetime denotes, in microseconds; aware datetimes compare by it. */
  function UtcMicros(t: DateTime): int
  {
    ((Ordinal(t.date) * 86400 + t.hour * 3600 + t.minute * 60 + t.second) * 1000000 + t.microsecond)
    - t.offsetMinutes * 60000000
  }

  /** `a >= b` on aware datetimes. */
  predicate AtOrAfter(a: DateTime, b: DateTime)
  {
    UtcMicros(a) >= UtcMicros(b)
  }

  /** `d - timedelta(days=1)`; `None` where Python raises OverflowError. */
  function PrevDay(d: Date): (r: Option<Date>)
    ensures r.Some? <==> Ordinal(d) > 1
    ensures r.Some? ==> Ordinal(r.value) == Ordinal(d) - 1
  {
    DaysBeforeYearNonNegative(d.year);
    if d.day > 1 then Some(DateFields(d.year, d.month, d.day - 1))
    else if d.month > 1 then
      PrevMonthEnd(d.year, d.month);
      Some(DateFields(d.year, d.month - 1, DaysInMonth(d.year, d.month - 1)))
    else if d.year > MinYear then
      PrevYearEnd(d.year);
      Some(DateFields(d.year - 1, 12, 31))
    else None
  }

  /** The last day of the previous month is the day before the first of month `m`. */
  lemma PrevMonthEnd(y: int, m: int)
    requires 2 <= m <= 12
    ensures DaysBeforeMonth(y, m - 1) + DaysInMonth(y, m - 1) == DaysBeforeMonth(y, m)
  {
  }

  /** December 31st of the previous year is the day before January 1st of `y`. */
  lemma PrevYearEnd(y: int)
    requires y > MinYear
    ensures DaysBeforeYear(y - 1) + DaysBeforeMonth(y - 1, 12) + 31 == DaysBeforeYear(y)
  {
    DaysBeforeYearStep(y - 1);
    MonthsFillYear(y - 1);
  }

  /** `d - timedelta(days=k)`; `None` where the result would precede 0001-01-01. */
  function SubDays(d: Date, k: nat): (r: Option<Date>)
    ensures r.Some? <==> Ordinal(d) - k >= 1
    ensures r.Some? ==> Ordinal(r.value) == Ordinal(d) - k
    decreases k
  {
    if k == 0 then (OrdinalPositive(d); Some(d))
    else match PrevDay(d)
      case None => None
      case Some(p) => SubDays(p, k - 1)
  }

  /** Microseconds in a day. */
  const DayMicros := 86400 * 1000000

  /**
   * `date.fromordinal(n)`; `None` where Python raises (before 0001-01-01 or after
   * 9999-12-31).
   */
  function FromOrdinal(n: int): (r: Option<Date>)
    ensures r.Some? <==> 1 <= n <= MaxOrdinal
    ensures r.Some? ==> Ordinal(r.value) == n
  {
    if n < 1 then None
    else
      var y := YearOfOrdinal(n, 1);
      if y > MaxYear then
        DaysBeforeYearMonotone(MaxYear + 1, y);
        MaxOrdinalEndsYear9999();
        None
      else
        DaysBeforeYearMonotoneStrict(y, MaxYear + 1);
        MaxOrdinalEndsYear9999();
        var dayOfYear := n - DaysBeforeYear(y);
        var m := MonthOfDay(y, dayOfYear, 1);
        var d := DateFields(y, m, dayOfYear - DaysBeforeMonth(y, m));
        Some(d)
  }

  /** The year holding ordinal `n`, searched upwards from `y`. */
  function YearOfOrdinal(n: int, y: int): (r: int)
    requires 1 <= y && DaysBeforeYear(y) < n
    ensures y <= r && DaysBeforeYear(r) < n <= DaysBeforeYear(r + 1)
    decreases n - DaysBeforeYear(y)
  {
    DaysBeforeYearStep(y);
    if n <= DaysBeforeYear(y + 1) then y else YearOfOrdinal(n, y + 1)
  }

  /** The month of year `y` holding its `dayOfYear`-th day, searched upwards from `m`. */
  function MonthOfDay(y: int, dayOfYear: int, m: int): (r: int)
    requires 1 <= m <= 12 && DaysBeforeMonth(y, m) < dayOfYear <= DaysInYear(y)
    ensures m <= r <= 12
    ensures DaysBeforeMonth(y, r) < dayOfYear <= DaysBeforeMonth(y, r) + DaysInMonth(y, r)
    decreases 12 - m
  {
    MonthsFillYear(y);
    if m == 12 || dayOfYear <= DaysBeforeMonth(y, m) + DaysInMonth(y, m) then m
    else
      MonthsBeforeMonotone(y, m, m + 1);
      MonthOfDay(y, dayOfYear, m + 1)
  }

  /**
   * The same instant as a naive UTC datetime (offset 0), as a BSON datetime is read
   * back by the driver; `None` where the UTC date falls outside years 1..9999.
   */
  function ToUtc(t: DateTime): (r: Option<DateTime>)
    ensures r.Some? <==> 1 <= UtcMicros(t) / DayMicros <= MaxOrdinal
    ensures r.Some? ==> r.value.offsetMinutes == 0 && UtcMicros(r.value) == UtcMicros(t)
  {
    var total := UtcMicros(t);
    var day, rest := total / DayMicros, total % DayMicros;
    match FromOrdinal(day)
    case None => None
    case Some(date) =>
      var u := AtMicrosOfDay(date, rest);
      assert UtcMicros(u) == total by {
        DivMod(total, DayMicros);
      }
      Some(u)
  }

  lemma DivMod(a: int, b: int)
    requires b > 0
    ensures a == a / b * b + a % b
  {
  }

  /** The naive datetime `rest` microseconds after midnight starting `date`. */
  function AtMicrosOfDay(date: Date, rest: int): (t: DateTime)
    requires 0 <= rest < DayMicros
    ensures t.date == date && t.offsetMinutes == 0
    ensures UtcMicros(t) == Ordinal(date) * DayMicros + rest
  {
    MicrosOfDay(rest);
    DateTimeFields(date, rest / 3600000000, rest % 3600000000 / 60000000,
                   rest % 60000000 / 1000000, rest % 1000000, 0)
  }

  /** Python's `_isoweek1monday(year)`: the ordinal of the Monday of ISO week 1. */
  function IsoWeekOneMonday(year: int): int
  {
    WeekOneMondayFrom(DaysBeforeYear(year) + 1)
  }

  /**
   * The body of `_isoweek1monday` for a year starting on ordinal `firstDay`: the
   * Monday of the week holding the year's first Thursday, which is a Monday no
   * more than three days from January 1st.
   */
  function WeekOneMondayFrom(firstDay: int): (w: int)
    ensures (w + 6) % 7 == 0
    ensures firstDay - 3 <= w <= firstDay + 3
  {
    var firstWeekday := (firstDay + 6) % 7;
    var week1Monday := firstDay - firstWeekday;
    MondayBefore(firstDay);
    if firstWeekday > 3 then week1Monday + 7 else week1Monday
  }

  datatype IsoWeekDate = IsoWeekDate(year: int, week: int, weekday: int)

  /** `date.isocalendar()` as CPython computes it. */
  function IsoCalendar(d: Date): IsoWeekDate
  {
    IsoWeekOf(d.year, Ordinal(d),
      IsoWeekOneMonday(d.year - 1), IsoWeekOneMonday(d.year), IsoWeekOneMonday(d.year + 1))
  }

  /**
   * The body of CPython's `isocalendar()` for the day `today` of `year`, given
   * week 1's Monday of the previous, the same and the next year.
   */
  function IsoWeekOf(year: int, today: int, previous: int, current: int, next: int): IsoWeekDate
  {
    var week := (today - current) / 7;
    var day := (today - current) % 7;
    if week < 0 then
      IsoWeekDate(year - 1, (today - previous) / 7 + 1, (today - previous) % 7 + 1)
    else if week >= 52 && today >= next then
      IsoWeekDate(year + 1, 1, day + 1)
    else
      IsoWeekDate(year, week + 1, day + 1)
  }

  /** `date.isoformat()`: YYYY-MM-DD; `strftime("%Y-%m-%d")` is taken to write the same, with a four-digit year. */
  function IsoFormat(d: Date): string
  {
    ZeroPad(d.year, 4) + "-" + ZeroPad(d.month, 2) + "-" + ZeroPad(d.day, 2)
  }

  /** Index of the first '-' in `s`. */
  function FirstDash(s: string): (r: Option<nat>)
    ensures r.Some? ==> r.value < |s| && s[r.value] == '-' && forall i :: 0 <= i < r.value ==> s[i] != '-'
    ensures r.None? ==> forall i :: 0 <= i < |s| ==> s[i] != '-'
  {
    if |s| == 0 then None
    else if s[0] == '-' then Some(0)
    else match FirstDash(s[1..])
      case None => None
      case Some(j) => Some(j + 1)
  }

  predicate IsNonZeroDigit(c: char) { '1' <= c <= '9' }

  /** The `%m` directive: `1[0-2]|0[1-9]|[1-9]`. */
  predicate IsMonthToken(t: string)
  {
    || (|t| == 2 && t[0] == '1' && '0' <= t[1] <= '2')
    || (|t| == 2 && t[0] == '0' && IsNonZeroDigit(t[1]))
    || (|t| == 1 && IsNonZeroDigit(t[0]))
  }

  /** The `%d` directive: `3[01]|[12]\d|0[1-9]|[1-9]| [1-9]`. */
  predicate IsDayToken(t: string)
  {
    || (|t| == 2 && t[0] == '3' && '0' <= t[1] <= '1')
    || (|t| == 2 && '1' <= t[0] <= '2' && IsDigit(t[1]))
    || (|t| == 2 && t[0] == '0' && IsNonZeroDigit(t[1]))
    || (|t| == 1 && IsNonZeroDigit(t[0]))
    || (|t| == 2 && t[0] == ' ' && IsNonZeroDigit(t[1]))
  }

  /** `int(t)` of a `%d` token; a leading blank is stripped. */
  function DayTokenValue(t: string): nat
    requires IsDayToken(t)
  {
    if t[0] == ' ' then DigitValue(t[1]) else DigitsValue(t)
  }

  /**
   * `datetime.strptime(s, "%Y-%m-%d").date()`, `None` where it raises ValueError:
   * the whole string must match, and the fields must name a real date.
   */
  function ParseIsoDate(s: string): (r: Option<Date>)
    ensures r.Some? ==> IsoFormatLoose(s, r.value)
  {
    if |s| < 5 || !AllDigits(s[..4]) || s[4] != '-' then None
    else
      var rest := s[5..];
      match FirstDash(rest)
      case None => None
      case Some(j) =>
        var monthToken := rest[..j];
        var dayToken := rest[j + 1..];
        if !IsMonthToken(monthToken) || !IsDayToken(dayToken) then None
        else
          var fields := DateFields(DigitsValue(s[..4]), DigitsValue(monthToken), DayTokenValue(dayToken));
          if ValidDate(fields) then
            assert s == s[..4] + "-" + monthToken + "-" + dayToken;
            Some(fields)
          else None
  }

  /**
   * `s` spells `d` as four year digits, a dash, a `%m` token, a dash and a `%d`
   * token, each token denoting the corresponding field of `d`.
   */
  ghost predicate IsoFormatLoose(s: string, d: Date)
  {
    exists monthToken: string, dayToken: string ::
      && |s| >= 5 && AllDigits(s[..4]) && DigitsValue(s[..4]) == d.year
      && IsMonthToken(monthToken) && DigitsValue(monthToken) == d.month
      && IsDayToken(dayToken) && DayTokenValue(dayToken) == d.day
      && s == s[..4] + "-" + monthToken + "-" + dayToken
  }

  // ---------------------------------------------------------------------------
  // Lemmas about day counts

  lemma DaysBeforeYearStep(y: int)
    ensures DaysBeforeYear(y + 1) == DaysBeforeYear(y) + DaysInYear(y)
  {
  }

  /** Year 9999 ends on day `MaxOrdinal`. */
  lemma MaxOrdinalEndsYear9999()
    ensures DaysBeforeYear(MaxYear + 1) == MaxOrdinal
  {
    var y := MaxYear + 1;
    DaysBeforeYearClosedForm(y);
  }

  /** A year is 365 or 366 days long. */
  lemma YearLength(y: int)
    ensures 365 <= DaysBeforeYear(y + 1) - DaysBeforeYear(y) <= 366
  {
    DaysBeforeYearStep(y);
  }

  /** Python's closed form of `_days_before_year`. */
  lemma {:induction false} DaysBeforeYearClosedForm(y: int)
    ensures var p := y - 1; DaysBeforeYear(y) == p * 365 + p / 4 - p / 100 + p / 400
    decreases if y >= 1 then y - 1 else 1 - y
  {
    if y > 1 {
      DaysBeforeYearClosedForm(y - 1);
      ClosedFormStep(y - 1);
    } else if y < 1 {
      DaysBeforeYearClosedForm(y + 1);
      ClosedFormStep(y);
    }
  }

  /** One year's step of the closed form adds that year's length. */
  lemma ClosedFormStep(y: int)
    ensures var p := y - 1;
      y * 365 + y / 4 - y / 100 + y / 400 == p * 365 + p / 4 - p / 100 + p / 400 + DaysInYear(y)
  {
    MultiplesStep(y, 4);
    MultiplesStep(y, 100);
    MultiplesStep(y, 400);
    DivisorsOfCenturies(y);
  }

  /** Stepping from `y - 1` to `y` passes one more multiple of `k` exactly when `k` divides `y`. */
  lemma MultiplesStep(y: int, k: int)
    requires k == 4 || k == 100 || k == 400
    ensures y / k - (y - 1) / k == (if y % k == 0 then 1 else 0)
  {
    if k == 4 {
      assert y / 4 - (y - 1) / 4 == (if y % 4 == 0 then 1 else 0);
    } else if k == 100 {
      assert y / 100 - (y - 1) / 100 == (if y % 100 == 0 then 1 else 0);
    } else {
      assert y / 400 - (y - 1) / 400 == (if y % 400 == 0 then 1 else 0);
    }
  }

  /** A multiple of 400 is a multiple of 100, and a multiple of 100 one of 4. */
  lemma DivisorsOfCenturies(y: int)
    ensures y % 400 == 0 ==> y % 100 == 0
    ensures y % 100 == 0 ==> y % 4 == 0
  {
    if y % 400 == 0 {
      var k := 4 * (y / 400);
      assert y == 100 * k;
      assert y / 100 == k;
    }
    if y % 100 == 0 {
      var k := 25 * (y / 100);
      assert y == 4 * k;
      assert y / 4 == k;
    }
  }

  lemma {:induction false} DaysBeforeYearNonNegative(y: int)
    requires y >= 1
    ensures DaysBeforeYear(y) >= 0
    ensures y >= 2 ==> DaysBeforeYear(y) >= 365
    decreases y
  {
    if y > 1 {
      DaysBeforeYearNonNegative(y - 1);
    }
  }

  lemma {:induction false} DaysBeforeYearMonotone(a: int, b: int)
    requires a <= b
    ensures DaysBeforeYear(a) + 365 * (b - a) <= DaysBeforeYear(b)
    decreases b - a
  {
    if a < b {
      DaysBeforeYearMonotone(a, b - 1);
      DaysBeforeYearStep(b - 1);
    }
  }

  lemma {:induction false} DaysBeforeYearMonotoneStrict(a: int, b: int)
    requires a < b
    ensures DaysBeforeYear(a) + DaysInYear(a) <= DaysBeforeYear(b)
  {
    DaysBeforeYearStep(a);
    DaysBeforeYearMonotone(a + 1, b);
  }

  /** Splitting microseconds of a day into hours, minutes, seconds and microseconds. */
  lemma MicrosOfDay(rest: int)
    requires 0 <= rest < DayMicros
    ensures 0 <= rest / 3600000000 < 24
    ensures 0 <= rest % 3600000000 / 60000000 < 60
    ensures 0 <= rest % 60000000 / 1000000 < 60
    ensures (rest / 3600000000 * 3600 + rest % 3600000000 / 60000000 * 60
             + rest % 60000000 / 1000000) * 1000000 + rest % 1000000 == rest
  {
    var h, hr := rest / 3600000000, rest % 3600000000;
    var m, mr := hr / 60000000, hr % 60000000;
    assert rest == h * 3600000000 + hr;
    assert hr == m * 60000000 + mr;
    assert rest % 60000000 == mr by {
      assert rest == (h * 60 + m) * 60000000 + mr;
    }
    var sec, us := mr / 1000000, mr % 1000000;
    assert mr == sec * 1000000 + us;
    assert rest % 1000000 == us by {
      assert rest == ((h * 60 + m) * 60 + sec) * 1000000 + us;
    }
  }

  lemma MonthsBeforeMonotone(y: int, a: int, b: int)
    requires 1 <= a < b <= 12
    ensures DaysBeforeMonth(y, a) + DaysInMonth(y, a) <= DaysBeforeMonth(y, b)
  {
  }

  lemma MonthsFillYear(y: int)
    ensures DaysBeforeMonth(y, 12) + DaysInMonth(y, 12) == DaysInYear(y)
  {
  }

  lemma OrdinalWithinYear(d: Date)
    ensures DaysBeforeYear(d.year) + 1 <= Ordinal(d) <= DaysBeforeYear(d.year) + DaysInYear(d.year)
  {
    if d.month < 12 {
      MonthsBeforeMonotone(d.year, d.month, 12);
    }
  }

  lemma OrdinalPositive(d: Date)
    ensures Ordinal(d) >= 1
  {
    DaysBeforeYearNonNegative(d.year);
  }

  /** Distinct dates have distinct ordinals. */
  lemma OrdinalInjective(a: Date, b: Date)
    requires Ordinal(a) == Ordinal(b)
    ensures a == b
  {
    OrdinalWithinYear(a);
    OrdinalWithinYear(b);
    if a.year < b.year {
      DaysBeforeYearStep(a.year);
      DaysBeforeYearMonotone(a.year + 1, b.year);
      assert false;
    } else if b.year < a.year {
      DaysBeforeYearStep(b.year);
      DaysBeforeYearMonotone(b.year + 1, a.year);
      assert false;
    } else if a.month < b.month {
      MonthsBeforeMonotone(a.year, a.month, b.month);
      assert false;
    } else if b.month < a.month {
      MonthsBeforeMonotone(a.year, b.month, a.month);
      assert false;
    }
  }

  // ---------------------------------------------------------------------------
  // Lemmas about ISO weeks

  /** Stepping back to the Monday of a day's week lands on a Monday. */
  lemma MondayBefore(f: int)
    ensures (f - (f + 6) % 7 + 6) % 7 == 0
    ensures (f - (f + 6) % 7 + 7 + 6) % 7 == 0
  {
    var k := (f + 6) % 7;
    var q := (f + 6) / 7;
    assert f + 6 == 7 * q + k;
    assert f - k + 6 == 7 * q;
  }

  /** Week 1 starts on a Monday at most three days away from January 1st. */
  lemma WeekOneMondayNearNewYear(y: int)
    ensures (IsoWeekOneMonday(y) + 6) % 7 == 0
    ensures DaysBeforeYear(y) + 1 - 3 <= IsoWeekOneMonday(y) <= DaysBeforeYear(y) + 1 + 3
  {
    var f := DaysBeforeYear(y) + 1;
    var w := WeekOneMondayFrom(f);
    assert (w + 6) % 7 == 0 && f - 3 <= w <= f + 3;
  }

  /** Consecutive ISO years are 52 or 53 weeks long. */
  lemma WeekOneMondayStep(y: int)
    ensures IsoWeekOneMonday(y + 1) - IsoWeekOneMonday(y) == 364
         || IsoWeekOneMonday(y + 1) - IsoWeekOneMonday(y) == 371
  {
    WeekOneMondayNearNewYear(y);
    WeekOneMondayNearNewYear(y + 1);
    YearLength(y);
    MondaysOneYearApart(IsoWeekOneMonday(y), IsoWeekOneMonday(y + 1),
      DaysBeforeYear(y) + 1, DaysBeforeYear(y + 1) + 1);
  }

  /** Mondays within three days of two January 1sts a year apart are 52 or 53 weeks apart. */
  lemma MondaysOneYearApart(a: int, b: int, fa: int, fb: int)
    requires (a + 6) % 7 == 0 && (b + 6) % 7 == 0
    requires fa - 3 <= a <= fa + 3 && fb - 3 <= b <= fb + 3
    requires 365 <= fb - fa <= 366
    ensures b - a == 364 || b - a == 371
  {
    MondaysApart(a, b);
    var q := (b - a) / 7;
    assert b - a == 7 * q;
  }

  lemma {:induction false} WeekOneMondayMonotone(a: int, b: int)
    requires a <= b
    ensures IsoWeekOneMonday(a) <= IsoWeekOneMonday(b)
    decreases b - a
  {
    if a < b {
      WeekOneMondayMonotone(a, b - 1);
      WeekOneMondayStep(b - 1);
    }
  }

  /** With `w` a Monday, the offset of `o` from `w` modulo 7 is the weekday of `o`. */
  lemma OffsetFromMonday(o: int, w: int)
    requires (w + 6) % 7 == 0
    ensures (o - w) % 7 == (o + 6) % 7
  {
    var q := (w + 6) / 7;
    assert w == 7 * q - 6;
    assert o + 6 == (o - w) + 7 * q;
  }

  /**
   * The arithmetic behind `isocalendar()`: with four consecutive January 1sts
   * `f0..f3`, week-1 Mondays `w0..w3` within three days of them, and `today` in
   * the year starting at `f1`, the result lies in the ISO year whose week 1
   * starts on or before `today` and whose successor's week 1 starts after it.
   */
  lemma IsoWeekArithmetic(year: int, today: int, f0: int, f1: int, f2: int, f3: int,
                          w0: int, w1: int, w2: int, w3: int)
    requires f1 <= today < f2
    requires 365 <= f1 - f0 <= 366 && 365 <= f2 - f1 <= 366 && 365 <= f3 - f2 <= 366
    requires f0 - 3 <= w0 <= f0 + 3 && f1 - 3 <= w1 <= f1 + 3
    requires f2 - 3 <= w2 <= f2 + 3 && f3 - 3 <= w3 <= f3 + 3
    requires (w0 + 6) % 7 == 0 && (w1 + 6) % 7 == 0 && (w2 + 6) % 7 == 0 && (w3 + 6) % 7 == 0
    ensures var r := IsoWeekOf(year, today, w0, w1, w2);
      var low := if r.year == year - 1 then w0 else if r.year == year then w1 else w2;
      var high := if r.year == year - 1 then w1 else if r.year == year then w2 else w3;
      && year - 1 <= r.year <= year + 1
      && low <= today < high
      && r.week == (today - low) / 7 + 1
      && 1 <= r.week <= 53
      && r.weekday == (today + 6) % 7 + 1
  {
    var r := IsoWeekOf(year, today, w0, w1, w2);
    var low := if r.year == year - 1 then w0 else if r.year == year then w1 else w2;
    var high := if r.year == year - 1 then w1 else if r.year == year then w2 else w3;
    OffsetFromMonday(today, low);
    OffsetFromMonday(today, w1);
    MondaysApart(w0, w1);
    MondaysApart(w1, w2);
    MondaysApart(w2, w3);
    assert high - low <= 371;
  }

  /** Two Mondays are a whole number of weeks apart. */
  lemma MondaysApart(a: int, b: int)
    requires (a + 6) % 7 == 0 && (b + 6) % 7 == 0
    ensures (b - a) % 7 == 0
  {
    var qa := (a + 6) / 7;
    var qb := (b + 6) / 7;
    assert a == 7 * qa - 6 && b == 7 * qb - 6;
    assert b - a == 7 * (qb - qa);
  }

  /**
   * The result of `isocalendar()` places `d` in the ISO year whose week 1 starts on
   * or before `d` and whose successor's week 1 starts after it; the week counts
   * from that year's week 1 and the weekday is `weekday() + 1`.
   */
  lemma IsoCalendarCharacterised(d: Date)
    ensures var r := IsoCalendar(d);
      && IsoWeekOneMonday(r.year) <= Ordinal(d) < IsoWeekOneMonday(r.year + 1)
      && r.week == (Ordinal(d) - IsoWeekOneMonday(r.year)) / 7 + 1
      && 1 <= r.week <= 53
      && r.weekday == Weekday(d) + 1
      && MinYear <= r.year
  {
    OrdinalWithinYear(d);
    var r := IsoWeekOfOrdinal(d.year, Ordinal(d));
  }

  /** `IsoCalendarCharacterised` for the day numbered `today` of year `y`. */
  lemma IsoWeekOfOrdinal(y: int, today: int) returns (r: IsoWeekDate)
    requires MinYear <= y
    requires DaysBeforeYear(y) + 1 <= today <= DaysBeforeYear(y) + DaysInYear(y)
    ensures r == IsoWeekOf(y, today, IsoWeekOneMonday(y - 1), IsoWeekOneMonday(y), IsoWeekOneMonday(y + 1))
    ensures
      && IsoWeekOneMonday(r.year) <= today < IsoWeekOneMonday(r.year + 1)
      && r.week == (today - IsoWeekOneMonday(r.year)) / 7 + 1
      && 1 <= r.week <= 53
      && r.weekday == (today + 6) % 7 + 1
      && MinYear <= r.year
  {
    var f0, f1, f2, f3 := JanuaryFirsts(y);
    var w0, w1, w2, w3 := WeekOneMondays(y, f0, f1, f2, f3);
    IsoWeekArithmetic(y, today, f0, f1, f2, f3, w0, w1, w2, w3);
    r := IsoWeekOf(y, today, w0, w1, w2);
    if r.year == y - 1 {
      assert y - 1 + 1 == y;
    } else if r.year == y {
    } else {
      assert r.year == y + 1 && y + 1 + 1 == y + 2;
    }
  }

  /** The ordinals of January 1st of years `y - 1` to `y + 2`, consecutive years apart. */
  lemma JanuaryFirsts(y: int) returns (f0: int, f1: int, f2: int, f3: int)
    ensures f0 == DaysBeforeYear(y - 1) + 1 && f1 == DaysBeforeYear(y) + 1
    ensures f2 == DaysBeforeYear(y + 1) + 1 && f3 == DaysBeforeYear(y + 2) + 1
    ensures 365 <= f1 - f0 <= 366 && 365 <= f2 - f1 <= 366 && 365 <= f3 - f2 <= 366
  {
    DaysBeforeYearStep(y - 1);
    DaysBeforeYearStep(y);
    DaysBeforeYearStep(y + 1);
    f0, f1, f2, f3 := DaysBeforeYear(y - 1) + 1, DaysBeforeYear(y) + 1, DaysBeforeYear(y + 1) + 1, DaysBeforeYear(y + 2) + 1;
  }

  /** The week-1 Mondays of years `y - 1` to `y + 2`, each near its January 1st. */
  lemma WeekOneMondays(y: int, f0: int, f1: int, f2: int, f3: int) returns (w0: int, w1: int, w2: int, w3: int)
    requires f0 == DaysBeforeYear(y - 1) + 1 && f1 == DaysBeforeYear(y) + 1
    requires f2 == DaysBeforeYear(y + 1) + 1 && f3 == DaysBeforeYear(y + 2) + 1
    ensures w0 == IsoWeekOneMonday(y - 1) && w1 == IsoWeekOneMonday(y)
    ensures w2 == IsoWeekOneMonday(y + 1) && w3 == IsoWeekOneMonday(y + 2)
    ensures f0 - 3 <= w0 <= f0 + 3 && f1 - 3 <= w1 <= f1 + 3
    ensures f2 - 3 <= w2 <= f2 + 3 && f3 - 3 <= w3 <= f3 + 3
    ensures (w0 + 6) % 7 == 0 && (w1 + 6) % 7 == 0 && (w2 + 6) % 7 == 0 && (w3 + 6) % 7 == 0
  {
    WeekOneMondayNearNewYear(y - 1);
    WeekOneMondayNearNewYear(y);
    WeekOneMondayNearNewYear(y + 1);
    WeekOneMondayNearNewYear(y + 2);
    w0, w1, w2, w3 := IsoWeekOneMonday(y - 1), IsoWeekOneMonday(y), IsoWeekOneMonday(y + 1), IsoWeekOneMonday(y + 2);
  }

  /** The ISO year and week of `d` name the Monday that starts its week. */
  lemma IsoWeekStartsOnMonday(d: Date)
    ensures IsoWeekOneMonday(IsoCalendar(d).year) + 7 * (IsoCalendar(d).week - 1) == MondayOf(d)
  {
    var r := IsoCalendar(d);
    IsoCalendarCharacterised(d);
    WeekOneMondayNearNewYear(r.year);
    MondayByWeeks(Ordinal(d), IsoWeekOneMonday(r.year));
  }

  /** Whole weeks counted from a Monday `w` reach the Monday of the week of `o`. */
  lemma MondayByWeeks(o: int, w: int)
    requires (w + 6) % 7 == 0 && w <= o
    ensures w + 7 * ((o - w) / 7) == o - (o + 6) % 7
  {
    OffsetFromMonday(o, w);
    var delta := o - w;
    assert delta == 7 * (delta / 7) + delta % 7;
  }

  /** Two dates share ISO year and week exactly when they share the Monday of their week. */
  lemma SameIsoWeekIffSameMonday(a: Date, b: Date)
    ensures (IsoCalendar(a).year == IsoCalendar(b).year && IsoCalendar(a).week == IsoCalendar(b).week)
        <==> MondayOf(a) == MondayOf(b)
  {
    IsoWeekStartsOnMonday(a);
    IsoWeekStartsOnMonday(b);
    IsoYearOfMonday(a);
    IsoYearOfMonday(b);
    SameWeekIffSameStart(IsoCalendar(a).year, IsoCalendar(a).week, MondayOf(a),
                         IsoCalendar(b).year, IsoCalendar(b).week, MondayOf(b));
  }

  /**
   * Two Mondays, each counted as whole weeks from week 1 of the ISO year that
   * holds it, are the same day exactly when they have the same year and week.
   */
  lemma SameWeekIffSameStart(ya: int, wa: int, ma: int, yb: int, wb: int, mb: int)
    requires IsoWeekOneMonday(ya) + 7 * (wa - 1) == ma && IsoWeekOneMonday(yb) + 7 * (wb - 1) == mb
    requires IsoWeekOneMonday(ya) <= ma < IsoWeekOneMonday(ya + 1)
    requires IsoWeekOneMonday(yb) <= mb < IsoWeekOneMonday(yb + 1)
    ensures (ya == yb && wa == wb) <==> ma == mb
  {
    if ma == mb {
      IsoYearUnique(ya, yb, ma);
    }
  }

  /** The Monday of a date's week lies in the date's ISO year. */
  lemma IsoYearOfMonday(d: Date)
    ensures IsoWeekOneMonday(IsoCalendar(d).year) <= MondayOf(d) < IsoWeekOneMonday(IsoCalendar(d).year + 1)
  {
    IsoCalendarCharacterised(d);
    IsoWeekStartsOnMonday(d);
  }

  /** ISO years do not overlap: a day lies in at most one of them. */
  lemma IsoYearUnique(y1: int, y2: int, o: int)
    requires IsoWeekOneMonday(y1) <= o < IsoWeekOneMonday(y1 + 1)
    requires IsoWeekOneMonday(y2) <= o < IsoWeekOneMonday(y2 + 1)
    ensures y1 == y2
  {
    if y1 < y2 {
      WeekOneMondayMonotone(y1 + 1, y2);
    } else if y2 < y1 {
      WeekOneMondayMonotone(y2 + 1, y1);
    }
  }

  // ---------------------------------------------------------------------------
  // Lemmas about the YYYY-MM-DD format

  lemma PaddedMonthIsToken(m: int)
    requires 1 <= m <= 12
    ensures IsMonthToken(ZeroPad(m, 2)) && DigitsValue(ZeroPad(m, 2)) == m
  {
    ZeroPad2(m);
    ZeroPadDigits(m, 2);
  }

  lemma PaddedDayIsToken(d: int)
    requires 1 <= d <= 31
    ensures IsDayToken(ZeroPad(d, 2)) && DayTokenValue(ZeroPad(d, 2)) == d
  {
    ZeroPad2(d);
    ZeroPadDigits(d, 2);
  }

  /** What `isoformat()` writes, `strptime(..., "%Y-%m-%d")` reads back as the same date. */
  lemma IsoFormatRoundTrip(d: Date)
    ensures ParseIsoDate(IsoFormat(d)) == Some(d)
  {
    ZeroPadDigits(d.year, 4);
    PaddedMonthIsToken(d.month);
    PaddedDayIsToken(d.day);
    ParseAssembled(ZeroPad(d.year, 4), ZeroPad(d.month, 2), ZeroPad(d.day, 2));
  }

  /** Four year digits, a `%m` token and a `%d` token, joined by dashes, parse field by field. */
  lemma ParseAssembled(y: string, m: string, dd: string)
    requires |y| == 4 && AllDigits(y) && IsMonthToken(m) && IsDayToken(dd)
    requires ValidDate(DateFields(DigitsValue(y), DigitsValue(m), DayTokenValue(dd)))
    ensures ParseIsoDate(y + "-" + m + "-" + dd) == Some(DateFields(DigitsValue(y), DigitsValue(m), DayTokenValue(dd)))
  {
    var s := y + "-" + m + "-" + dd;
    assert s[..4] == y;
    var rest := s[5..];
    assert rest == m + "-" + dd;
    DashAfterToken(m, dd);
    assert rest[..|m|] == m;
    assert rest[|m| + 1..] == dd;
  }

  /** The first dash after a `%m` token, which holds no dash, is the one that follows it. */
  lemma DashAfterToken(m: string, t: string)
    requires IsMonthToken(m)
    ensures FirstDash(m + "-" + t) == Some(|m|)
  {
    var rest := m + "-" + t;
    assert rest[|m|] == '-';
    assert FirstDash(rest[|m|..]) == Some(0);
    if |m| == 2 {
      assert rest[1..][1..] == rest[2..];
      assert FirstDash(rest[1..]) == Some(1);
    } else {
      assert rest[1..] == rest[|m|..];
    }
  }

  /**
   * `strptime(s, "%Y-%m-%d")` succeeds with `d` exactly when `s` spells `d`
   * with four year digits and a `%m` and a `%d` token.
   */
  lemma ParseIsoDateCharacterised(s: string, d: Date)
    ensures ParseIsoDate(s) == Some(d) <==> IsoFormatLoose(s, d)
  {
    if IsoFormatLoose(s, d) {
      var monthToken: string, dayToken: string :|
        && |s| >= 5 && AllDigits(s[..4]) && DigitsValue(s[..4]) == d.year
        && IsMonthToken(monthToken) && DigitsValue(monthToken) == d.month
        && IsDayToken(dayToken) && DayTokenValue(dayToken) == d.day
        && s == s[..4] + "-" + monthToken + "-" + dayToken;
      ParseAssembled(s[..4], monthToken, dayToken);
    }
  }

  /** The written form is always ten characters with dashes at positions 4 and 7. */
  lemma IsoFormatShape(d: Date)
    ensures |IsoFormat(d)| == 10 && IsoFormat(d)[4] == '-' && IsoFormat(d)[7] == '-'
  {
    ZeroPadDigits(d.year, 4);
    ZeroPadDigits(d.month, 2);
    ZeroPadDigits(d.day, 2);
  }
}
