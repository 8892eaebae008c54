/**
 * The check-in endpoints: `GET /checkin/status`, which answers 200 in every
 * foreseen case and turns each refusal into flags, and `POST /checkin/`,
 * which hands the authenticated user to the check-in engine.
 */
module CheckinRouter {
  import opened Wrappers
  import opened Calendar
  import opened Constants
  import opened DateTimeUtils
  import opened Values
  import opened Dicts
  import opened Exceptions
  import opened Decorators
  import opened Store
  import opened Responses
  import opened CheckinService

  /** The status when `can_user_checkin` returned. */
  function AvailableStatus(canCheckin: bool, last: Option<DateTime>, today: Date): CheckinStatusResponse
  {
    CheckinStatusResponse(
      canCheckin,
      if last.Some? then Some(IsoFormat(last.value.date)) else None,
      if last.Some? then Some(FormatDateBrazilian(last.value.date)) else None,
      false, false, "available", "Você pode fazer checkin agora", FormatDateBrazilian(today))
  }

  /** The status on a Saturday or Sunday. */
  function WeekendStatus(today: Date): CheckinStatusResponse
  {
    CheckinStatusResponse(false, None, None, true, false, "Hoje é final de semana", WeekendMessage, IsoFormat(today))
  }

  /** `e.details.get('checkin_time', 'N/A')` as the f-string renders it. */
  function CheckinTimeText(details: Details): string
  {
    Display(GetOr(details, "checkin_time", Str("N/A")))
  }

  /** The status after a check-in today; `details` are those of the duplicate error. */
  function DuplicateStatus(details: Details, last: Option<DateTime>, today: Date): CheckinStatusResponse
  {
    CheckinStatusResponse(
      false,
      if last.Some? then Some(IsoFormat(last.value.date)) else None,
      if last.Some? then Some(FormatDateBrazilian(last.value.date)) else None,
      false, true, "Checkin já realizado hoje", "Você já fez checkin hoje às " + CheckinTimeText(details),
      IsoFormat(today))
  }

  /** The status after any other failure. */
  function ErrorStatus(today: Date): CheckinStatusResponse
  {
    CheckinStatusResponse(false, None, None, false, false, "Erro interno",
      "Ocorreu um erro ao verificar o status. Tente novamente.", IsoFormat(today))
  }

  predicate IsWeekendError(x: Exception)
  {
    x.AppError? && IsSubclassOf(x.error.cls, WeekendCheckin)
  }

  predicate IsDuplicateError(x: Exception)
  {
    x.AppError? && IsSubclassOf(x.error.cls, DuplicateCheckin)
  }

  /**
   * The exception that leaves the `try` of `get_checkin_status`: that of
   * `can_user_checkin`, or else that of the first `get_user_last_checkin`.
   */
  function FirstFailure(can: Outcome<Availability>, last: Outcome<Option<DateTime>>): Option<Exception>
  {
    if can.Raised? then Some(can.exception)
    else if last.Raised? then Some(last.exception)
    else None
  }

  /**
   * The `except` clauses in their order, for the exception `x` raised in the
   * `try`. The duplicate branch asks for the last check-in again, outside
   * the `try`, with the outcome `last`.
   */
  function CaughtStatus(x: Exception, last: Outcome<Option<DateTime>>, today: Date)
    : Outcome<CheckinStatusResponse>
  {
    if IsWeekendError(x) then Returned(WeekendStatus(today))
    else if IsDuplicateError(x) then
      (match last
       case Returned(l) => Returned(DuplicateStatus(x.error.details, l, today))
       case Raised(y) => Raised(y))
    else if IsException(x) then Returned(ErrorStatus(today))
    else Raised(x)
  }

  /**
   * `get_checkin_status(current_user)`, given what `can_user_checkin` and
   * `get_user_last_checkin` do for the user and today's date; both calls
   * sit inside the same `try`.
   */
  function CheckinStatus(can: Outcome<Availability>, last: Outcome<Option<DateTime>>, today: Date)
    : Outcome<CheckinStatusResponse>
  {
    match can
    case Returned(v) =>
      (match last
       case Returned(l) => Returned(AvailableStatus(v.canCheckin, l, today))
       case Raised(y) => CaughtStatus(y, last, today))
    case Raised(x) => CaughtStatus(x, last, today)
  }

  /** `get_checkin_status` against the stored check-ins. */
  function CheckinStatusOf(events: seq<CheckinEvent>, user: User, now: DateTime): Outcome<CheckinStatusResponse>
  {
    CheckinStatus(CanUserCheckin(events, user.id, now),
                  HandleCheckinExceptions(Returned(LastCheckin(events, user.id))), CurrentDate(now))
  }

  /** `perform_checkin(current_user)`: the engine's answer, passed on unchanged. */
  method PerformCheckin(db: Database, user: User, now: DateTime) returns (r: Outcome<CheckinResult>)
    requires ToUtc(now).Some?
    modifies db
    ensures (r, db.checkins, db.rankings) == ProcessCheckinSpec(old(db.checkins), old(db.rankings), user, now)
    ensures db.users == old(db.users)
  {
    r := ProcessCheckin(db, user, now);
  }

  // ---------------------------------------------------------------------------
  // Lemmas

  /**
   * Whichever of the two calls in the `try` raises, its exception is
   * dispatched by class: the status endpoint fails only with an exception
   * outside `Exception`, or a duplicate error whose second lookup fails; a
   * weekend error gives the weekend answer without reading the last
   * check-in, and any other error the "Erro interno" answer.
   */
  lemma CheckinStatusFailures(can: Outcome<Availability>, last: Outcome<Option<DateTime>>, today: Date)
    ensures var r := CheckinStatus(can, last, today);
      var f := FirstFailure(can, last);
      && (f.None? ==> r == Returned(AvailableStatus(can.value.canCheckin, last.value, today)))
      && (r.Raised? <==>
            f.Some? && (!IsException(f.value) || (IsDuplicateError(f.value) && last.Raised?)))
      && (f.Some? && IsWeekendError(f.value) ==> r == Returned(WeekendStatus(today)))
      && (f.Some? && IsDuplicateError(f.value) && last.Returned? ==>
            r == Returned(DuplicateStatus(f.value.error.details, last.value, today)))
      && ((f.Some? && IsException(f.value) && !IsWeekendError(f.value)
           && !IsDuplicateError(f.value)) ==> r == Returned(ErrorStatus(today)))
      && (r.Returned? && !r.value.canCheckin && !r.value.isWeekend && !r.value.alreadyCheckedToday ==>
            r.value == ErrorStatus(today) || (f.None? && !can.value.canCheckin))
  {
    var f := FirstFailure(can, last);
    if f.Some? {
      assert CheckinStatus(can, last, today) == CaughtStatus(f.value, last, today);
      CaughtStatusCases(f.value, last, today);
    }
  }

  /** The `except` clauses, one exception at a time. */
  lemma CaughtStatusCases(x: Exception, last: Outcome<Option<DateTime>>, today: Date)
    ensures var r := CaughtStatus(x, last, today);
      && (r.Raised? <==> !IsException(x) || (IsDuplicateError(x) && last.Raised?))
      && (IsWeekendError(x) ==> r == Returned(WeekendStatus(today)))
      && (IsDuplicateError(x) && last.Returned? ==> r == Returned(DuplicateStatus(x.error.details, last.value, today)))
      && (IsException(x) && !IsWeekendError(x) && !IsDuplicateError(x) ==> r == Returned(ErrorStatus(today)))
      && (r.Returned? && !r.value.canCheckin && !r.value.isWeekend && !r.value.alreadyCheckedToday ==>
            r.value == ErrorStatus(today))
  {
    RefusalClasses(x);
    if IsWeekendError(x) {
    } else if IsDuplicateError(x) {
      assert IsException(x);
    } else {
      assert CaughtStatus(x, last, today) == if IsException(x) then Returned(ErrorStatus(today)) else Raised(x);
    }
  }

  /** The two refusals are leaf classes, so neither error is the other. */
  lemma RefusalClasses(x: Exception)
    ensures IsWeekendError(x) <==> x.AppError? && x.error.cls == WeekendCheckin
    ensures IsDuplicateError(x) <==> x.AppError? && x.error.cls == DuplicateCheckin
  {
    if x.AppError? {
      Hierarchy(x.error.cls);
    }
  }

  /**
   * The duplicate error carries no `checkin_time` detail, so the status
   * message never shows the time of the earlier check-in.
   */
  lemma DuplicateMessageHasNoTime(username: string, time: string, last: Option<DateTime>, today: Date)
    ensures DuplicateStatus(DuplicateCheckinError(username, time).details, last, today).message
      == "Você já fez checkin hoje às N/A"
  {
    DuplicateCheckinErrorFields(username, time);
  }

  /**
   * For the answers `can_user_checkin` gives, exactly one flag is set; the
   * duplicate message falls back to "N/A" when the error has no
   * `checkin_time` detail.
   */
  lemma CheckinStatusCases(can: Outcome<Availability>, last: Option<DateTime>, today: Date)
    requires ExpectedAvailability(can)
    ensures var r := CheckinStatus(can, Returned(last), today);
      && r.Returned?
      && (r.value.canCheckin <==> can.Returned?)
      && (r.value.isWeekend <==> can.Raised? && can.exception.error.cls == WeekendCheckin)
      && (r.value.alreadyCheckedToday <==> can.Raised? && can.exception.error.cls == DuplicateCheckin)
      && (r.value.alreadyCheckedToday && !HasKey(can.exception.error.details, "checkin_time") ==>
            r.value.message == "Você já fez checkin hoje às N/A")
      && (r.value.isWeekend ==> (r.value.lastCheckinDate.None? && r.value.lastCheckinFormatted.None?
            && r.value.today == IsoFormat(today)))
      && (r.value.canCheckin ==> r.value.reason == "available" && r.value.today == FormatDateBrazilian(today))
  {
    if can.Raised? {
      Hierarchy(can.exception.error.cls);
    }
  }

  /**
   * Against the stored check-ins the status is always an answer, exactly
   * one of "available", "weekend" and "already checked today" holds, the
   * weekend on Saturdays and Sundays and the duplicate when the user already
   * checked in today.
   */
  lemma CheckinStatusOfFlags(events: seq<CheckinEvent>, user: User, now: DateTime)
    ensures var r := CheckinStatusOf(events, user, now);
      var start := StartOfDay(Some(now.date), now);
      && r.Returned?
      && (r.value.canCheckin || r.value.isWeekend || r.value.alreadyCheckedToday)
      && !(r.value.canCheckin && r.value.isWeekend) && !(r.value.canCheckin && r.value.alreadyCheckedToday)
      && !(r.value.isWeekend && r.value.alreadyCheckedToday)
      && (r.value.isWeekend <==> Weekday(now.date) in Weekend)
      && (r.value.alreadyCheckedToday <==> (Weekday(now.date) in Workdays
            && exists i :: 0 <= i < |events| && events[i].userId == user.id && AtOrAfter(events[i].timestamp, start)))
      && (r.value.alreadyCheckedToday ==> r.value.message == "Você já fez checkin hoje às N/A")
  {
    var can := CanUserCheckin(events, user.id, now);
    var last := LastCheckin(events, user.id);
    CanUserCheckinExpected(events, user.id, now);
    assert CheckinStatusOf(events, user, now) == CheckinStatus(can, Returned(last), now.date);
    CheckinStatusCases(can, last, now.date);
  }

  /**
   * `POST /checkin/` answers with the engine's success result, or with the
   * engine's refusal turned into HTTP 400 (weekend) or 409 (duplicate).
   */
  lemma PerformCheckinAnswers(events: seq<CheckinEvent>, rows: seq<RankingRow>, user: User, now: DateTime)
    requires ToUtc(now).Some?
    ensures var (r, _, _) := ProcessCheckinSpec(events, rows, user, now);
      && (r.Returned? <==> CanUserCheckin(events, user.id, now).Returned?)
      && (r.Returned? ==> r.value.success && r.value.username == user.username)
      && (r.Raised? ==> r.exception.HttpError? && r.exception.status in {400, 409})
  {
    if CanUserCheckin(events, user.id, now).Raised? {
      ProcessCheckinRejected(events, rows, user, now);
    } else {
      ProcessCheckinAccepted(events, rows, user, now);
    }
  }
}
