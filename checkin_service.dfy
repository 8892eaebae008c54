/**
 * The check-in engine: eligibility (no weekends, one check-in per user per
 * day), the points a check-in earns (first of the day, streak bonus) and the
 * check-in itself, which records the event and adds the points to the user's
 * row for the current ISO week.
 *
 * The clock is the parameter `now`, the São Paulo time of the request; every
 * "today" below is its date.
 */
module CheckinService {
  import opened Wrappers
  import opened Calendar
  import opened Constants
  import opened DateTimeUtils
  import opened Exceptions
  import opened Decorators
  import opened Dicts
  import opened Store

  /** The dictionary `can_user_checkin` returns when the user may check in. */
  datatype Availability = Availability(canCheckin: bool, reason: string, message: string)

  const Available := Availability(true, "available", "Pode realizar checkin")

  /** The dictionary `process_checkin` returns. */
  datatype CheckinResult = CheckinResult(
    success: bool, message: string, username: string, pointsAwarded: int, canCheckin: bool, reason: string)

  function SuccessResult(username: string, points: int): CheckinResult
  {
    CheckinResult(true, CheckinSuccessMessage, username, points, false, "checkin_completed")
  }

  /** An event matches `{"user_id": userId, "timestamp": {"$gte": start}}` (no user filter when absent). */
  predicate Since(e: CheckinEvent, userId: Option<ObjectId>, start: DateTime)
  {
    (userId.None? || e.userId == userId.value) && AtOrAfter(e.timestamp, start)
  }

  /** `find_one` for that filter: the position of the first matching event. */
  function FirstSince(events: seq<CheckinEvent>, userId: Option<ObjectId>, start: DateTime): (r: Option<nat>)
    ensures r.None? <==> forall i :: 0 <= i < |events| ==> !Since(events[i], userId, start)
    ensures r.Some? ==> r.value < |events| && Since(events[r.value], userId, start)
    ensures r.Some? ==> forall j :: 0 <= j < r.value ==> !Since(events[j], userId, start)
  {
    if |events| == 0 then None
    else if Since(events[0], userId, start) then Some(0)
    else
      match FirstSince(events[1..], userId, start)
      case None => None
      case Some(i) => Some(i + 1)
  }

  /** `find_one({"user_id": userId, "week_id": weekId})` on the rankings: the first row for the key. */
  function FindRanking(rows: seq<RankingRow>, userId: ObjectId, weekId: string): (r: Option<nat>)
    ensures r.None? <==> forall i :: 0 <= i < |rows| ==> !(rows[i].userId == userId && rows[i].weekId == weekId)
    ensures r.Some? ==> r.value < |rows| && rows[r.value].userId == userId && rows[r.value].weekId == weekId
    ensures r.Some? ==> forall j :: 0 <= j < r.value ==> !(rows[j].userId == userId && rows[j].weekId == weekId)
  {
    if |rows| == 0 then None
    else if rows[0].userId == userId && rows[0].weekId == weekId then Some(0)
    else
      match FindRanking(rows[1..], userId, weekId)
      case None => None
      case Some(i) => Some(i + 1)
  }

  /** The week a date lies in, as `get_week_id` names it. */
  function WeekIdOf(d: Date): string
  {
    WeekId(Some(d), DateTimeFields(d, 0, 0, 0, 0, 0))
  }

  /** `can_user_checkin(user_id)` against the stored check-ins. */
  function CanUserCheckin(events: seq<CheckinEvent>, userId: ObjectId, now: DateTime): Outcome<Availability>
  {
    var today := CurrentDate(now);
    if IsWeekend(Some(today), now) then Raised(AppError(WeekendCheckinError(IsoFormat(today))))
    else
      match FirstSince(events, Some(userId), StartOfDay(Some(today), now))
      case Some(i) =>
        // the stored timestamp is read back in UTC and formatted as it is
        Raised(AppError(DuplicateCheckinError(events[i].username, FormatTimeBrazilian(events[i].timestamp))))
      case None => Returned(Available)
  }

  /**
   * `get_user_last_checkin(user_id)`: the timestamp of the user's latest check-in;
   * among equal timestamps the one stored first.
   */
  function LastCheckin(events: seq<CheckinEvent>, userId: ObjectId): (r: Option<DateTime>)
    ensures r.None? <==> forall i :: 0 <= i < |events| ==> events[i].userId != userId
    ensures r.Some? ==> exists i :: 0 <= i < |events| && events[i].userId == userId && events[i].timestamp == r.value
    ensures r.Some? ==> forall i :: 0 <= i < |events| && events[i].userId == userId ==> AtOrAfter(r.value, events[i].timestamp)
  {
    if |events| == 0 then None
    else
      var rest := LastCheckin(events[1..], userId);
      assert forall i :: 1 <= i < |events| ==> events[i] == events[1..][i - 1];
      if events[0].userId != userId then rest
      else if rest.None? || AtOrAfter(events[0].timestamp, rest.value) then Some(events[0].timestamp)
      else rest
  }

  /** `_calculate_streak_bonus(user_id)`: any failure inside it (a malformed date, an overflow) gives 0. */
  function StreakBonusOf(rows: seq<RankingRow>, userId: ObjectId, now: DateTime): int
  {
    var today := CurrentDate(now);
    match FindRanking(rows, userId, WeekId(Some(today), now))
    case None => 0
    case Some(i) =>
      var stored := rows[i].lastCheckinDate;
      if stored.None? || stored.value == "" then 0
      else
        match ParseIsoDate(stored.value)
        case None => 0
        case Some(last) =>
          var expected := SubDays(today, if Weekday(today) == 0 then 3 else 1);
          if expected.Some? && last == expected.value then StreakBonus else 0
  }

  /** `calculate_points(user_id)`: 10 for the day's first check-in by anybody, else 5, plus the streak bonus. */
  function CalculatePoints(events: seq<CheckinEvent>, rows: seq<RankingRow>, userId: ObjectId, now: DateTime): int
  {
    var today := CurrentDate(now);
    var basePoints :=
      if FirstSince(events, None, StartOfDay(Some(today), now)).None? then FirstCheckinOfDay else RegularCheckin;
    basePoints + StreakBonusOf(rows, userId, now)
  }

  /**
   * The upsert of `process_checkin`: `$inc` the points and `$set` the date,
   * username and update time of the row for the user and week, or insert that
   * row when there is none.
   */
  function UpsertRanking(rows: seq<RankingRow>, userId: ObjectId, weekId: string, points: int,
                         date: string, username: string, at: DateTime): (r: seq<RankingRow>)
  {
    match FindRanking(rows, userId, weekId)
    case Some(i) =>
      rows[i := rows[i].(points := rows[i].points + points, lastCheckinDate := Some(date),
                         username := username, updatedAt := Some(at))]
    case None => rows + [RankingRow(userId, weekId, points, Some(date), username, Some(at))]
  }

  /** The row `find_one` returns for a user and week. */
  function RowFor(rows: seq<RankingRow>, userId: ObjectId, weekId: string): Option<RankingRow>
  {
    match FindRanking(rows, userId, weekId)
    case Some(i) => Some(rows[i])
    case None => None
  }

  /** The points stored for a user and week, 0 without a row. */
  function WeekPoints(rows: seq<RankingRow>, userId: ObjectId, weekId: string): int
  {
    match RowFor(rows, userId, weekId)
    case Some(row) => row.points
    case None => 0
  }

  /**
   * What `process_checkin(user)` (wrapped as it is by `handle_checkin_exceptions`
   * and `log_checkin_operation`) returns, with the check-ins and ranking rows
   * after it. `now` must denote an instant the driver can store.
   */
  function ProcessCheckinSpec(events: seq<CheckinEvent>, rows: seq<RankingRow>, user: User, now: DateTime)
    : (Outcome<CheckinResult>, seq<CheckinEvent>, seq<RankingRow>)
    requires ToUtc(now).Some?
  {
    var today := CurrentDate(now);
    match CanUserCheckin(events, user.id, now)
    case Raised(x) => (HandleCheckinExceptions(Raised(x)), events, rows)
    case Returned(_) =>
      var pointsAwarded := CalculatePoints(events, rows, user.id, now);
      var (events', rows') :=
        RecordCheckin(events, rows, user, today, WeekId(Some(today), now), pointsAwarded, ToUtc(now).value);
      (Returned(SuccessResult(user.username, pointsAwarded)), events', rows')
  }

  /**
   * The two writes of an accepted check-in: `insert_one` of the event stored at
   * `at`, then the upsert of the user's row for the week.
   */
  function RecordCheckin(events: seq<CheckinEvent>, rows: seq<RankingRow>, user: User, today: Date,
                         weekId: string, points: int, at: DateTime): (seq<CheckinEvent>, seq<RankingRow>)
  {
    (events + [CheckinEvent(user.id, user.username, at)],
     UpsertRanking(rows, user.id, weekId, points, IsoFormat(today), user.username, at))
  }

  /** `process_checkin(user)` on the database. */
  method ProcessCheckin(db: Database, user: User, now: DateTime) returns (r: Outcome<CheckinResult>)
    requires ToUtc(now).Some?
    modifies db
    ensures (r, db.checkins, db.rankings) == ProcessCheckinSpec(old(db.checkins), old(db.rankings), user, now)
    ensures db.users == old(db.users)
  {
    var today := CurrentDate(now);
    var can := CanUserCheckin(db.checkins, user.id, now);
    if can.Raised? {
      r := HandleCheckinExceptions(Raised(can.exception));
      return;
    }
    var pointsAwarded := CalculatePoints(db.checkins, db.rankings, user.id, now);
    var at := ToUtc(now).value;
    db.checkins := db.checkins + [CheckinEvent(user.id, user.username, at)];
    var weekId := WeekId(Some(today), now);
    db.rankings := UpsertRanking(db.rankings, user.id, weekId, pointsAwarded, IsoFormat(today), user.username, at);
    r := Returned(SuccessResult(user.username, pointsAwarded));
  }

  /**
   * What the stored state keeps: timestamps in UTC, one ranking row per user
   * and week, and every well-formed last check-in date inside its row's week.
   */
  predicate ValidState(events: seq<CheckinEvent>, rows: seq<RankingRow>)
  {
    && (forall i :: 0 <= i < |events| ==> events[i].timestamp.offsetMinutes == 0)
    && UniqueRankingKeys(rows)
    && DatesMatchWeeks(rows)
  }

  predicate DatesMatchWeeks(rows: seq<RankingRow>)
  {
    forall i :: 0 <= i < |rows| && rows[i].lastCheckinDate.Some? && ParseIsoDate(rows[i].lastCheckinDate.value).Some? ==>
      rows[i].weekId == WeekIdOf(ParseIsoDate(rows[i].lastCheckinDate.value).value)
  }

  // ---------------------------------------------------------------------------
  // Lemmas: eligibility and points

  /** On a weekend the answer is the weekend error whatever is stored: it comes before any read. */
  lemma WeekendRejectedBeforeReads(events: seq<CheckinEvent>, others: seq<CheckinEvent>, userId: ObjectId, now: DateTime)
    requires Weekday(now.date) in Weekend
    ensures CanUserCheckin(events, userId, now) == CanUserCheckin(others, userId, now)
      == Raised(AppError(WeekendCheckinError(IsoFormat(now.date))))
  {
  }

  /**
   * On a workday the duplicate error is raised exactly when the user has a
   * check-in at or after the start of today, naming the time of one of them;
   * otherwise the user may check in.
   */
  lemma DuplicateIffCheckedInToday(events: seq<CheckinEvent>, userId: ObjectId, now: DateTime)
    requires Weekday(now.date) in Workdays
    ensures var r := CanUserCheckin(events, userId, now);
      var start := StartOfDay(Some(now.date), now);
      && (r.Raised? <==> exists i :: 0 <= i < |events| && events[i].userId == userId && AtOrAfter(events[i].timestamp, start))
      && (r.Raised? ==>
            (exists i :: 0 <= i < |events| && events[i].userId == userId && AtOrAfter(events[i].timestamp, start)
              && r.exception == AppError(DuplicateCheckinError(events[i].username, FormatTimeBrazilian(events[i].timestamp)))))
      && (r.Returned? ==> r.value == Availability(true, "available", "Pode realizar checkin"))
  {
    WeekdaysPartition(Weekday(now.date));
    var start := StartOfDay(Some(now.date), now);
    var f := FirstSince(events, Some(userId), start);
    if f.Some? {
      assert Since(events[f.value], Some(userId), start);
    } else {
      forall i | 0 <= i < |events| && events[i].userId == userId
        ensures !AtOrAfter(events[i].timestamp, start)
      {
        assert !Since(events[i], Some(userId), start);
      }
    }
  }

  /** The streak bonus is 0 or 2. */
  lemma StreakBonusValues(rows: seq<RankingRow>, userId: ObjectId, now: DateTime)
    ensures StreakBonusOf(rows, userId, now) in {0, StreakBonus}
  {
  }

  /**
   * The points are 10 when nobody has checked in since the start of today and 5
   * otherwise, plus the streak bonus; so they are one of 5, 7, 10 and 12.
   */
  lemma PointsValues(events: seq<CheckinEvent>, rows: seq<RankingRow>, userId: ObjectId, now: DateTime)
    ensures var start := StartOfDay(Some(now.date), now);
      CalculatePoints(events, rows, userId, now) - StreakBonusOf(rows, userId, now) ==
        if forall i :: 0 <= i < |events| ==> !AtOrAfter(events[i].timestamp, start) then 10 else 5
    ensures CalculatePoints(events, rows, userId, now) in {5, 7, 10, 12}
  {
    var start := StartOfDay(Some(now.date), now);
    if forall i :: 0 <= i < |events| ==> !AtOrAfter(events[i].timestamp, start) {
      assert forall i :: 0 <= i < |events| ==> !Since(events[i], None, start);
    } else {
      var i :| 0 <= i < |events| && AtOrAfter(events[i].timestamp, start);
      assert Since(events[i], None, start);
    }
  }

  /** Without a row for this week, or without a readable date in it, there is no bonus. */
  lemma StreakNeedsReadableDate(rows: seq<RankingRow>, userId: ObjectId, now: DateTime)
    ensures var row := RowFor(rows, userId, WeekIdOf(now.date));
      (row.None? || row.value.lastCheckinDate.None? || ParseIsoDate(row.value.lastCheckinDate.value).None?)
        ==> StreakBonusOf(rows, userId, now) == 0
  {
  }

  /**
   * Monday starts a new ISO week, and the row looked up is this week's: when each
   * row's date lies in the row's own week, the Friday-to-Monday bonus never applies.
   */
  lemma MondayStreakNeverApplies(rows: seq<RankingRow>, userId: ObjectId, now: DateTime)
    requires DatesMatchWeeks(rows)
    requires Weekday(now.date) == 0
    ensures StreakBonusOf(rows, userId, now) == 0
  {
    var today := now.date;
    var f := FindRanking(rows, userId, WeekId(Some(today), now));
    if f.Some? {
      var stored := rows[f.value].lastCheckinDate;
      if stored.Some? && stored.value != "" && ParseIsoDate(stored.value).Some? {
        var last := ParseIsoDate(stored.value).value;
        var expected := SubDays(today, 3);
        if expected.Some? && last == expected.value {
          assert rows[f.value].weekId == WeekIdOf(last);
          WeekIdSameIffSameWeek(last, today, now);
          assert false;
        }
      }
    }
  }

  // ---------------------------------------------------------------------------
  // Lemmas: the ranking upsert

  /** Rows with the same keys position by position give the same lookups. */
  lemma SameKeysSameLookup(a: seq<RankingRow>, b: seq<RankingRow>, userId: ObjectId, weekId: string)
    requires |a| == |b|
    requires forall i :: 0 <= i < |a| ==> a[i].userId == b[i].userId && a[i].weekId == b[i].weekId
    ensures FindRanking(a, userId, weekId) == FindRanking(b, userId, weekId)
  {
    var fa, fb := FindRanking(a, userId, weekId), FindRanking(b, userId, weekId);
    if fa.Some? && fb.Some? {
      assert !(fa.value < fb.value) && !(fb.value < fa.value);
    }
  }

  /**
   * The upsert leaves one row for the key, with the points increased by the
   * award (from 0 for a new row) and the date, username and time set; the row
   * every other key finds is unchanged, and keys stay unique.
   */
  lemma UpsertRankingEffect(rows: seq<RankingRow>, userId: ObjectId, weekId: string, points: int,
                            date: string, username: string, at: DateTime)
    ensures var r := UpsertRanking(rows, userId, weekId, points, date, username, at);
      && RowFor(r, userId, weekId) ==
           Some(RankingRow(userId, weekId, WeekPoints(rows, userId, weekId) + points, Some(date), username, Some(at)))
      && |r| == |rows| + (if RowFor(rows, userId, weekId).None? then 1 else 0)
      && (UniqueRankingKeys(rows) ==> UniqueRankingKeys(r))
    ensures forall u, w :: (u, w) != (userId, weekId) ==>
      RowFor(UpsertRanking(rows, userId, weekId, points, date, username, at), u, w) == RowFor(rows, u, w)
  {
    UpsertRankingOwnRow(rows, userId, weekId, points, date, username, at);
    UpsertRankingOtherRows(rows, userId, weekId, points, date, username, at);
  }

  /** The upserted row, the count of rows, and unique keys. */
  lemma UpsertRankingOwnRow(rows: seq<RankingRow>, userId: ObjectId, weekId: string, points: int,
                            date: string, username: string, at: DateTime)
    ensures var r := UpsertRanking(rows, userId, weekId, points, date, username, at);
      && RowFor(r, userId, weekId) ==
           Some(RankingRow(userId, weekId, WeekPoints(rows, userId, weekId) + points, Some(date), username, Some(at)))
      && |r| == |rows| + (if RowFor(rows, userId, weekId).None? then 1 else 0)
      && (UniqueRankingKeys(rows) ==> UniqueRankingKeys(r))
  {
    var r := UpsertRanking(rows, userId, weekId, points, date, username, at);
    match FindRanking(rows, userId, weekId)
    case Some(i) =>
      SameKeysSameLookup(r, rows, userId, weekId);
    case None =>
      var added := RankingRow(userId, weekId, points, Some(date), username, Some(at));
      assert r == rows + [added];
      var fk := FindRanking(r, userId, weekId);
      assert fk.Some? by { assert r[|rows|].userId == userId && r[|rows|].weekId == weekId; }
      assert fk.value == |rows|;
  }

  /** The rows every other key finds are unchanged by the upsert. */
  lemma UpsertRankingOtherRows(rows: seq<RankingRow>, userId: ObjectId, weekId: string, points: int,
                               date: string, username: string, at: DateTime)
    ensures forall u, w :: (u, w) != (userId, weekId) ==>
      RowFor(UpsertRanking(rows, userId, weekId, points, date, username, at), u, w) == RowFor(rows, u, w)
  {
    var r := UpsertRanking(rows, userId, weekId, points, date, username, at);
    match FindRanking(rows, userId, weekId)
    case Some(i) =>
      forall u, w
        ensures FindRanking(r, u, w) == FindRanking(rows, u, w)
      {
        SameKeysSameLookup(r, rows, u, w);
      }
    case None =>
      var added := RankingRow(userId, weekId, points, Some(date), username, Some(at));
      assert r == rows + [added];
      forall u, w | (u, w) != (userId, weekId)
        ensures RowFor(r, u, w) == RowFor(rows, u, w)
      {
        var fr, f0 := FindRanking(r, u, w), FindRanking(rows, u, w);
        if f0.Some? {
          assert r[f0.value] == rows[f0.value];
          assert !(fr.value < f0.value);
        } else {
          assert !(r[|rows|].userId == u && r[|rows|].weekId == w);
        }
      }
  }

  // ---------------------------------------------------------------------------
  // Lemmas: the check-in

  /**
   * A refused check-in changes nothing and is reported as HTTP 400 (weekend) or
   * 409 (duplicate), with the error's dictionary as detail.
   */
  lemma ProcessCheckinRejected(events: seq<CheckinEvent>, rows: seq<RankingRow>, user: User, now: DateTime)
    requires ToUtc(now).Some?
    requires CanUserCheckin(events, user.id, now).Raised?
    ensures var (out, events', rows') := ProcessCheckinSpec(events, rows, user, now);
      var err := CanUserCheckin(events, user.id, now).exception.error;
      && events' == events && rows' == rows
      && out == Raised(HttpError(if Weekday(now.date) in Weekend then 400 else 409, DictDetail(ToDict(err)), []))
  {
    DefaultStatuses(CanUserCheckin(events, user.id, now).exception.error);
  }

  /**
   * The writes append exactly the one event and update only the user's row for
   * the week.
   */
  lemma RecordCheckinEffect(events: seq<CheckinEvent>, rows: seq<RankingRow>, user: User, today: Date,
                            weekId: string, points: int, at: DateTime)
    ensures var (events', rows') := RecordCheckin(events, rows, user, today, weekId, points, at);
      && |events'| == |events| + 1 && events'[..|events|] == events
      && events'[|events|] == CheckinEvent(user.id, user.username, at)
      && RowFor(rows', user.id, weekId) ==
           Some(RankingRow(user.id, weekId, WeekPoints(rows, user.id, weekId) + points, Some(IsoFormat(today)),
                           user.username, Some(at)))
      && (forall u, w :: (u, w) != (user.id, weekId) ==> RowFor(rows', u, w) == RowFor(rows, u, w))
  {
    var events' := events + [CheckinEvent(user.id, user.username, at)];
    assert events'[..|events|] == events;
    UpsertRankingEffect(rows, user.id, weekId, points, IsoFormat(today), user.username, at);
  }

  /**
   * The writes keep timestamps in UTC, keys unique, and every date in its row's
   * week, when the event is stored in UTC and `weekId` is the week of `today`.
   */
  lemma RecordCheckinKeepsValid(events: seq<CheckinEvent>, rows: seq<RankingRow>, user: User, today: Date,
                                weekId: string, points: int, at: DateTime)
    requires ValidState(events, rows) && at.offsetMinutes == 0 && weekId == WeekIdOf(today)
    ensures var (events', rows') := RecordCheckin(events, rows, user, today, weekId, points, at);
      ValidState(events', rows')
  {
    var rows' := UpsertRanking(rows, user.id, weekId, points, IsoFormat(today), user.username, at);
    UpsertRankingEffect(rows, user.id, weekId, points, IsoFormat(today), user.username, at);
    IsoFormatRoundTrip(today);
    forall i | 0 <= i < |rows'| && rows'[i].lastCheckinDate.Some? && ParseIsoDate(rows'[i].lastCheckinDate.value).Some?
      ensures rows'[i].weekId == WeekIdOf(ParseIsoDate(rows'[i].lastCheckinDate.value).value)
    {
      match FindRanking(rows, user.id, weekId)
      case Some(k) =>
        if i != k { assert rows'[i] == rows[i]; }
      case None =>
        if i < |rows| { assert rows'[i] == rows[i]; }
    }
  }

  /** The week id of the clock's date, in the form the state invariant uses. */
  lemma TodaysWeekId(now: DateTime)
    ensures WeekIdOf(now.date) == WeekId(Some(now.date), now)
  {
  }

  /** An accepted check-in is the two writes, with the points `calculate_points` gives. */
  lemma AcceptedIsRecord(events: seq<CheckinEvent>, rows: seq<RankingRow>, user: User, now: DateTime)
    requires ToUtc(now).Some?
    requires CanUserCheckin(events, user.id, now).Returned?
    ensures var pts := CalculatePoints(events, rows, user.id, now);
      var written := RecordCheckin(events, rows, user, now.date, WeekIdOf(now.date), pts, ToUtc(now).value);
      ProcessCheckinSpec(events, rows, user, now) == (Returned(SuccessResult(user.username, pts)), written.0, written.1)
  {
    TodaysWeekId(now);
  }

  /**
   * An accepted check-in appends exactly one event for the user at the instant
   * `now` and reports success with 5, 7, 10 or 12 points.
   */
  lemma ProcessCheckinAccepted(events: seq<CheckinEvent>, rows: seq<RankingRow>, user: User, now: DateTime)
    requires ToUtc(now).Some?
    requires CanUserCheckin(events, user.id, now).Returned?
    ensures var (out, events', _) := ProcessCheckinSpec(events, rows, user, now);
      && |events'| == |events| + 1 && events'[..|events|] == events
      && events'[|events|].userId == user.id && events'[|events|].username == user.username
      && events'[|events|].timestamp.offsetMinutes == 0 && UtcMicros(events'[|events|].timestamp) == UtcMicros(now)
      && out.Returned?
      && out.value.success && !out.value.canCheckin && out.value.reason == "checkin_completed"
      && out.value.message == CheckinSuccessMessage && out.value.username == user.username
      && out.value.pointsAwarded in {5, 7, 10, 12}
  {
    var pts := CalculatePoints(events, rows, user.id, now);
    PointsValues(events, rows, user.id, now);
    AcceptedIsRecord(events, rows, user, now);
    RecordCheckinEffect(events, rows, user, now.date, WeekIdOf(now.date), pts, ToUtc(now).value);
  }

  /**
   * An accepted check-in adds the points awarded to the user's row for the
   * current week (a new row when there is none), sets today's date as
   * `YYYY-MM-DD`, the username and the update time.
   */
  lemma ProcessCheckinUpdatesRanking(events: seq<CheckinEvent>, rows: seq<RankingRow>, user: User, now: DateTime)
    requires ToUtc(now).Some?
    requires CanUserCheckin(events, user.id, now).Returned?
    ensures var p := ProcessCheckinSpec(events, rows, user, now);
      var weekId := WeekIdOf(now.date);
      var r := RowFor(p.2, user.id, weekId);
      && p.0.Returned?
      && r.Some? && r.value.userId == user.id && r.value.weekId == weekId
      && r.value.points == WeekPoints(rows, user.id, weekId) + p.0.value.pointsAwarded
      && r.value.lastCheckinDate == Some(IsoFormat(now.date))
      && r.value.username == user.username
      && r.value.updatedAt == Some(ToUtc(now).value)
  {
    AcceptedIsRecord(events, rows, user, now);
    AcceptedRowFor(ProcessCheckinSpec(events, rows, user, now), rows, user, WeekIdOf(now.date),
                   CalculatePoints(events, rows, user.id, now), IsoFormat(now.date), ToUtc(now).value);
  }

  /** The row an accepted outcome `p` leaves for the user, from the upsert it wrote. */
  lemma AcceptedRowFor(p: (Outcome<CheckinResult>, seq<CheckinEvent>, seq<RankingRow>), rows: seq<RankingRow>,
                       user: User, weekId: string, pts: int, date: string, at: DateTime)
    requires p.0 == Returned(SuccessResult(user.username, pts))
    requires p.2 == UpsertRanking(rows, user.id, weekId, pts, date, user.username, at)
    ensures p.0.Returned?
    ensures RowFor(p.2, user.id, weekId) ==
      Some(RankingRow(user.id, weekId, WeekPoints(rows, user.id, weekId) + p.0.value.pointsAwarded,
                      Some(date), user.username, Some(at)))
  {
    UpsertRankingOwnRow(rows, user.id, weekId, pts, date, user.username, at);
  }

  /** An accepted check-in leaves the row of every other user and week as it was. */
  lemma ProcessCheckinKeepsOtherRows(events: seq<CheckinEvent>, rows: seq<RankingRow>, user: User, now: DateTime)
    requires ToUtc(now).Some?
    requires CanUserCheckin(events, user.id, now).Returned?
    ensures var rows' := ProcessCheckinSpec(events, rows, user, now).2;
      forall u, w :: (u, w) != (user.id, WeekIdOf(now.date)) ==> RowFor(rows', u, w) == RowFor(rows, u, w)
  {
    var pts := CalculatePoints(events, rows, user.id, now);
    AcceptedIsRecord(events, rows, user, now);
    UpsertRankingOtherRows(rows, user.id, WeekIdOf(now.date), pts, IsoFormat(now.date), user.username, ToUtc(now).value);
  }

  /** A check-in keeps timestamps in UTC, one row per user and week, and every row's date in its week. */
  lemma ProcessCheckinKeepsValid(events: seq<CheckinEvent>, rows: seq<RankingRow>, user: User, now: DateTime)
    requires ToUtc(now).Some?
    requires ValidState(events, rows)
    ensures var (_, events', rows') := ProcessCheckinSpec(events, rows, user, now);
      ValidState(events', rows')
  {
    if CanUserCheckin(events, user.id, now).Returned? {
      var pts := CalculatePoints(events, rows, user.id, now);
      AcceptedIsRecord(events, rows, user, now);
      RecordCheckinKeepsValid(events, rows, user, now.date, WeekIdOf(now.date), pts, ToUtc(now).value);
    }
  }

  /**
   * After a check-in at São Paulo time `now`, any later request on the same day
   * is refused as a duplicate.
   */
  lemma SecondCheckinSameDayRejected(events: seq<CheckinEvent>, rows: seq<RankingRow>, user: User,
                                     now: DateTime, later: DateTime)
    requires ToUtc(now).Some? && InSaoPaulo(now) && InSaoPaulo(later) && later.date == now.date
    requires CanUserCheckin(events, user.id, now).Returned?
    ensures var (_, events', _) := ProcessCheckinSpec(events, rows, user, now);
      var r := CanUserCheckin(events', user.id, later);
      r.Raised? && r.exception.AppError? && r.exception.error.cls == DuplicateCheckin
  {
    var at := ToUtc(now).value;
    var events' := events + [CheckinEvent(user.id, user.username, at)];
    var start := StartOfDay(Some(later.date), later);
    WithinDayIffSameDate(now, now.date, later);
    assert Since(events'[|events|], Some(user.id), start);
  }

  /** Dates of the same Monday-to-Sunday week have the same week id. */
  lemma SameWeekSameId(a: Date, b: Date)
    requires MondayOf(a) == MondayOf(b)
    ensures WeekIdOf(a) == WeekIdOf(b)
  {
    var n := DateTimeFields(a, 0, 0, 0, 0, 0);
    WeekIdSameIffSameWeek(a, b, n);
    assert WeekIdOf(b) == WeekId(Some(b), n);
  }

  /** The day after a Monday to Thursday lies in the same week. */
  lemma NextDaySameWeek(a: Date, b: Date)
    requires Ordinal(b) == Ordinal(a) + 1 && Weekday(b) != 0
    ensures MondayOf(a) == MondayOf(b)
  {
    NextDayArithmetic(Ordinal(a));
  }

  lemma NextDayArithmetic(o: int)
    requires (o + 7) % 7 != 0
    ensures o - (o + 6) % 7 == o + 1 - (o + 7) % 7
  {
  }

  /**
   * With this week's row holding a date string that `strptime` reads as
   * `prev`, the bonus is due exactly when `prev` is the expected previous day:
   * yesterday, or three days back on a Monday.
   */
  lemma StreakFromStoredDate(rows: seq<RankingRow>, userId: ObjectId, now: DateTime, prev: Date)
    requires RowFor(rows, userId, WeekIdOf(now.date)).Some?
    requires RowFor(rows, userId, WeekIdOf(now.date)).value.lastCheckinDate.Some?
    requires ParseIsoDate(RowFor(rows, userId, WeekIdOf(now.date)).value.lastCheckinDate.value) == Some(prev)
    ensures StreakBonusOf(rows, userId, now) ==
      if SubDays(now.date, if Weekday(now.date) == 0 then 3 else 1) == Some(prev) then StreakBonus else 0
  {
    TodaysWeekId(now);
  }

  /**
   * A check-in on Monday to Thursday earns the streak bonus on the next day: the
   * date written into this week's row reads back as yesterday.
   */
  lemma StreakAfterCheckinYesterday(events: seq<CheckinEvent>, rows: seq<RankingRow>, user: User,
                                    yesterday: DateTime, now: DateTime)
    requires ToUtc(yesterday).Some?
    requires CanUserCheckin(events, user.id, yesterday).Returned?
    requires Ordinal(now.date) == Ordinal(yesterday.date) + 1 && 1 <= Weekday(now.date) <= 4
    ensures var (_, _, rows') := ProcessCheckinSpec(events, rows, user, yesterday);
      StreakBonusOf(rows', user.id, now) == StreakBonus
  {
    var rows' := ProcessCheckinSpec(events, rows, user, yesterday).2;
    ProcessCheckinUpdatesRanking(events, rows, user, yesterday);
    StreakNextDay(rows', user.id, now, yesterday.date);
  }

  /** A row of the week holding yesterday's date earns the bonus from Tuesday to Friday. */
  lemma StreakNextDay(rows: seq<RankingRow>, userId: ObjectId, now: DateTime, d: Date)
    requires RowFor(rows, userId, WeekIdOf(d)).Some?
    requires RowFor(rows, userId, WeekIdOf(d)).value.lastCheckinDate == Some(IsoFormat(d))
    requires Ordinal(now.date) == Ordinal(d) + 1 && 1 <= Weekday(now.date) <= 4
    ensures StreakBonusOf(rows, userId, now) == StreakBonus
  {
    NextDaySameWeek(d, now.date);
    SameWeekSameId(d, now.date);
    IsoFormatRoundTrip(d);
    StreakFromStoredDate(rows, userId, now, d);
    OrdinalPositive(d);
    var expected := SubDays(now.date, 1);
    assert expected.Some?;
    OrdinalInjective(expected.value, d);
  }

  // ---------------------------------------------------------------------------
  // Lemmas: the answers the routers see

  /** The result of `can_user_checkin` as the status endpoints expect it. */
  predicate ExpectedAvailability(can: Outcome<Availability>)
  {
    || can == Returned(Available)
    || (can.Raised? && can.exception.AppError? && can.exception.error.cls in {WeekendCheckin, DuplicateCheckin})
  }

  /** Against the stored check-ins, `can_user_checkin` only gives the expected answers: the weekend
   * error exactly on weekends, the duplicate error exactly after a check-in today. */
  lemma CanUserCheckinExpected(events: seq<CheckinEvent>, userId: ObjectId, now: DateTime)
    ensures var can := CanUserCheckin(events, userId, now);
      var start := StartOfDay(Some(now.date), now);
      && ExpectedAvailability(can)
      && (can.Raised? && can.exception.error.cls == WeekendCheckin <==> Weekday(now.date) in Weekend)
      && (can.Raised? && can.exception.error.cls == DuplicateCheckin <==> (Weekday(now.date) in Workdays
            && exists i :: 0 <= i < |events| && events[i].userId == userId && AtOrAfter(events[i].timestamp, start)))
      && (can.Raised? && can.exception.error.cls == DuplicateCheckin ==> !HasKey(can.exception.error.details, "checkin_time"))
  {
    WeekdaysPartition(Weekday(now.date));
    if Weekday(now.date) in Workdays {
      DuplicateIffCheckedInToday(events, userId, now);
      var can := CanUserCheckin(events, userId, now);
      if can.Raised? {
        var i :| 0 <= i < |events| && events[i].userId == userId
          && AtOrAfter(events[i].timestamp, StartOfDay(Some(now.date), now))
          && can.exception == AppError(DuplicateCheckinError(events[i].username, FormatTimeBrazilian(events[i].timestamp)));
        DuplicateCheckinErrorFields(events[i].username, FormatTimeBrazilian(events[i].timestamp));
      }
    } else {
      WeekendRejectedBeforeReads(events, events, userId, now);
    }
  }
}
