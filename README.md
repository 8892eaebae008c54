# Check-in and leaderboard service: a verified model

This project models the core of a small FastAPI service, backed by MongoDB, where users:

- register and log in;
- check in once per working day, in São Paulo time;
- earn points for each check-in;
- compete on a weekly leaderboard and an all-time leaderboard.

The model covers these parts of the service:

- **The check-in engine.** Its eligibility rules are no weekends and one check-in per user per day. It scores 10 points for the first check-in of the day and 5 after that, plus a 2-point streak bonus. The bonus depends on the user's row for the current ISO week. A check-in appends an event and upserts the user's weekly row.
- **The date helpers.** These cover the bounds of a day, the weekend tests, the ISO 8601 week identifier `YYYY-Www` (section 4.1.4 of ISO 8601:2004) and the Brazilian time and date formats. The calendar-date format `YYYY-MM-DD` (section 4.1.2.2) is written and parsed back.
- **The ranking queries.** These are the weekly top 100, the all-time top 100 grouped by username with the requester's position, and the status endpoint.
- **The check-in endpoints.** This is the status endpoint's branch mapping and the pass-through of `POST /checkin/`.
- **The exception records and the decorator that turns them into HTTP statuses.** This includes the exact-type status table, the pass-through rules, `validate_input` and `log_execution_time`.
- **The username repair pass over the two denormalised tables.**
- **The log-context serialiser and the choice of level and context in each log helper.**
- **Registration and login.**

**How state is represented.** The three collections (`users`, `checkins`, `weekly_rankings`) are sequences in the fields of a `Database` class, kept in storage order. `find_one` is the first match. Storage order also decides how equal scores are ordered in the leaderboards.

**The clock.** It is the parameter `now`: the São Paulo reading that `datetime.now(SAO_PAULO_TZ)` would give, one reading per request.

**Stored timestamps.** These are UTC datetimes, because the driver stores aware datetimes as UTC and reads them back naive in UTC. So the time in the duplicate message (`format_time_brazilian` of the stored timestamp) and the last check-in date on the status endpoints are UTC values. `StoredDateIsUtcDate` states the consequence: a check-in from 21:00 São Paulo time onwards is reported under the next day.

**The Monday streak.** The source looks up the streak under the current week's identifier, and every Monday starts a new ISO week. So the Friday-to-Monday branch never finds Friday's row. The model keeps this behaviour, and `MondayStreakNeverApplies` proves it.

**The duplicate status message.** `get_checkin_status` reads a `checkin_time` detail that `DuplicateCheckinError` never sets. So its message always ends in "N/A", and `DuplicateMessageHasNoTime` proves it.

Libraries outside the model are parameters:

- the bcrypt hash that is stored;
- the verdict of `verify_password`;
- the JWT encoder;
- the configured token lifetime;
- the new document's `_id`.

## Model

| member | source | states |
|---|---|---|
| Constants.WeekdaysPartition | app/utils/constants.py:27-30 | Workdays 0..4 and weekend 5..6 are disjoint and cover exactly the weekdays 0..6 |
| Calendar.PrevDay | app/services/checkin_service.py:189-191 | the day before exists exactly when the date is after 0001-01-01, and its ordinal is one less |
| Calendar.SubDays | app/services/checkin_service.py:189-191 | `date - timedelta(days=k)` exists exactly when the ordinal stays at least 1, and it is k ordinals earlier |
| Calendar.FromOrdinal | app/services/checkin_service.py:189-191 | `date.fromordinal(n)` exists exactly for 1..3652059 and has ordinal n |
| Calendar.ToUtc | app/services/checkin_service.py:249-255 | converting to UTC keeps the instant and gives offset 0; it fails exactly when the UTC day falls outside years 1..9999 |
| Calendar.ParseIsoDate | app/services/checkin_service.py:184 | a successful `strptime(s, "%Y-%m-%d")` gives a date whose fields are the parsed numbers |
| Calendar.ParseIsoDateCharacterised | app/services/checkin_service.py:184 | the parse yields `d` exactly when the string is four year digits, a `%m` token and a `%d` token for `d`, joined by dashes |
| Calendar.IsoCalendarCharacterised | app/utils/datetime_utils.py:52 | `isocalendar()` puts the date between the Monday of week 1 of its ISO year and that of the next, with week `(ordinal - week-1 Monday) / 7 + 1` in 1..53 and ISO weekday `weekday() + 1` |
| Calendar.IsoWeekStartsOnMonday | app/utils/datetime_utils.py:52 | the ISO year and week locate the Monday of the date's week |
| Calendar.SameIsoWeekIffSameMonday | app/utils/datetime_utils.py:52 | two dates have the same ISO year and week exactly when they share the Monday of their week |
| Calendar.IsoFormatRoundTrip | app/services/checkin_service.py:268 | the `YYYY-MM-DD` string written for a date parses back with `%Y-%m-%d` to the same date |
| Calendar.IsoFormatShape | app/services/checkin_service.py:268 | `isoformat()` is ten characters with dashes at positions 4 and 7 |
| Calendar.OrdinalInjective | app/services/checkin_service.py:189-191 | distinct dates have distinct ordinals |
| DateTimeUtils.StartOfDay | app/utils/datetime_utils.py:18-23 | the start of day is on the target date (today when absent), in São Paulo time |
| DateTimeUtils.EndOfDay | app/utils/datetime_utils.py:26-31 | the end of day is on the target date (today when absent), in São Paulo time |
| DateTimeUtils.DayBounds | app/utils/datetime_utils.py:18-31 | the start is 00:00:00.000000 and the end 23:59:59.999999, one microsecond short of a day apart |
| DateTimeUtils.WithinDayIffSameDate | app/utils/datetime_utils.py:18-31 | a São Paulo datetime lies between the start and end of a date exactly when it falls on it |
| DateTimeUtils.WeekendIff | app/utils/datetime_utils.py:34-44 | `is_weekend` holds exactly for weekday 5 or 6 and `is_workday` exactly for 0..4; an absent date means today |
| DateTimeUtils.WeekIdRoundTrip | app/utils/datetime_utils.py:47-53 | the week id reads back as the ISO year, "-W" and the two-digit ISO week of the date (today when absent) |
| DateTimeUtils.WeekIdSameIffSameWeek | app/utils/datetime_utils.py:52-53 | two dates get the same week id exactly when they lie in the same Monday-to-Sunday week |
| DateTimeUtils.FormatTimeFields | app/utils/datetime_utils.py:56-58 | `HH:MM:SS` is eight characters whose three zero-padded fields decode to hour, minute and second |
| DateTimeUtils.FormatDateFields | app/utils/datetime_utils.py:61-63 | `DD/MM/YYYY` is ten characters whose zero-padded fields decode to day, month and year |
| Exceptions.ClassName | app/utils/exceptions.py:17-18 | every class name, the default error code, is non-empty |
| Exceptions.NewCheckinError | app/utils/exceptions.py:8-19 | an absent or empty error code becomes the class name; absent details become an empty dictionary |
| Exceptions.ToDict | app/utils/exceptions.py:22-28 | `to_dict` has exactly the keys error_code, message and details, holding the stored values |
| Exceptions.ToDictDetermines | app/utils/exceptions.py:22-28 | two errors of a class with equal dictionaries are equal |
| Exceptions.Hierarchy | app/utils/exceptions.py:31-99 | every error descends from CheckinBaseException; the business-rule errors are BusinessRuleError, WeekendCheckinError and DuplicateCheckinError |
| Exceptions.WeekendCheckinErrorFields | app/utils/exceptions.py:51-59 | code WEEKEND_CHECKIN_NOT_ALLOWED, details exactly {attempted_date}, a BusinessRuleError |
| Exceptions.DuplicateCheckinErrorFields | app/utils/exceptions.py:62-73 | code DUPLICATE_CHECKIN, details exactly {username, existing_checkin_time} with no checkin_time key, and a message containing both |
| Exceptions.UserNotFoundErrorFields | app/utils/exceptions.py:76-84 | code USER_NOT_FOUND and details exactly {identifier}; not a business-rule error |
| Logging.ContextItems | app/utils/logging.py:44-46 | one `k=v` item per context entry, in insertion order |
| Logging.FormatContext | app/utils/logging.py:39-48 | the loop builds exactly the specified context string |
| Logging.FormatContextEmpty | app/utils/logging.py:41-42 | the context string is empty exactly for no context or an empty one |
| Logging.FormatContextItems | app/utils/logging.py:44-48 | a non-empty context renders as each item preceded by " \| ", so every `k=v` appears after a separator |
| Logging.ErrorRecordSuffix | app/utils/logging.py:60-64 | an error record is the message and the formatted context, followed by " \| error_type=<name>" when an exception is given and by nothing otherwise |
| Logging.CheckinDeniedContext | app/utils/logging.py:101-110 | the denial context has username and reason, and extra details are merged in and override them; it logs at warning level |
| Logging.DatabaseOperationLevel | app/utils/logging.py:124-137 | info level exactly on success, error level otherwise; duration_ms present exactly when a duration is given |
| Logging.TokenValidationReason | app/utils/logging.py:177-186 | the reason is logged exactly on a failure that has one; info on success, warning otherwise |
| Logging.HealthCheckEmoji | app/utils/logging.py:199-206 | the record starts with ✅ exactly when the status is "healthy", else ❌ |
| Decorators.DefaultMappingsUnique | app/utils/decorators.py:39-46 | the default status table lists each class once |
| Decorators.DefaultStatuses | app/utils/decorators.py:39-46 | Weekend 400, Duplicate 409, UserNotFound 404, Authentication 401, Validation 422, Database 500, anything else 400 |
| Decorators.ExactTypeLookup | app/utils/decorators.py:74 | the lookup is by exact class: BusinessRuleError and AuthorizationError get the 400 fallback though subclasses are listed |
| Decorators.CustomMappingsOverride | app/utils/decorators.py:49-50 | a class in the custom mappings gets its custom status; any other keeps the default |
| Decorators.HandleExceptionsCases | app/utils/decorators.py:53-108 | results pass through; application errors become HTTP errors with their status and `to_dict()`; HTTP, Value, Type and Attribute errors and validation-named ones are re-raised; the rest become 500 INTERNAL_SERVER_ERROR |
| Decorators.HandleExceptionsIdempotent | app/utils/decorators.py:53-108 | wrapping an already wrapped call changes nothing |
| Decorators.ValidationNamedPassThrough | app/utils/decorators.py:88-108 | an unexpected exception is re-raised unchanged exactly when its lowered qualified class name contains "pydantic" or "validation", and becomes the 500 INTERNAL_SERVER_ERROR otherwise, whatever the custom table |
| Decorators.QuotedNameContains | app/utils/decorators.py:90 | a quote-free word of at least eight letters occurs in the lowered `str(type(e))` exactly when it occurs in the lowered qualified name |
| Decorators.HandleExceptionsLogWhen | app/utils/decorators.py:56-99 | with a logger, a line is logged exactly when the call returned or the wrapper translated the exception, at info level on success and error level otherwise |
| Decorators.HandleExceptionsLogSuccess | app/utils/decorators.py:56-61 | the success line carries `duration_ms` as context |
| Decorators.HandleExceptionsLogBusiness | app/utils/decorators.py:67-72 | a business error's line starts with "Erro de negócio em <function>: <message>", carries each of its details as context and ends with its type name |
| Decorators.HandleExceptionsLogUnexpected | app/utils/decorators.py:94-99 | an unexpected exception's line carries `function=<name>` as context and ends with its type name |
| Decorators.ValidateInputRejects | app/utils/decorators.py:166-174 | unless the validator returns exactly True, the call is not made and a ValidationError VALIDATION_FAILED with the validator's result is raised |
| Decorators.ValidateInputAccepts | app/utils/decorators.py:166-174 | when the validator returns True, the call's outcome is returned unchanged |
| Decorators.LogExecutionTimeTransparent | app/utils/decorators.py:114-152 | the wrapped outcome, value or exception, is passed on unchanged; one info line on success, one error line on failure |
| Store.FindUserById | app/db/database.py:44-45 | the lookup by `_id` fails exactly when no user has the id, and otherwise returns a stored user with it |
| Store.FindUserByName | app/routers/user_router.py:15 | the lookup by username fails exactly when no user has the name, and otherwise returns a stored user with it |
| Store.Database.FixCheckinUsernames | app/db/database.py:43-51 | the check-ins become the repaired ones, nothing else changes, and the count is the stale rows of the old table |
| Store.Database.FixRankingUsernames | app/db/database.py:54-62 | the ranking rows become the repaired ones, nothing else changes, and the count is the stale rows of the old table |
| Store.Database.FixUsernameInconsistencies | app/db/database.py:36-69 | both tables are repaired, users are untouched, and the result is the number of stale rows in both |
| Store.FixCheckinsConsistent | app/db/database.py:43-51 | after the pass a check-in of an existing user carries that user's current username; rows of unknown users and all other fields stay as they were |
| Store.FixRankingsConsistent | app/db/database.py:54-62 | the same for ranking rows |
| Store.StaleCheckinsCountsRewrites | app/db/database.py:46-50 | the counter equals the number of check-ins the pass changes |
| Store.StaleRankingsCountsRewrites | app/db/database.py:58-62 | the counter equals the number of ranking rows the pass changes |
| Store.NoStaleCheckinsAfterFix | app/db/database.py:43-51 | no check-in is stale after the pass |
| Store.NoStaleRankingsAfterFix | app/db/database.py:54-62 | no ranking row is stale after the pass |
| Store.FixIdempotent | app/db/database.py:36-69 | a second pass changes nothing and reports 0 |
| Store.FixRankingsKeepsKeys | app/db/database.py:54-62 | the pass keeps every row's user and week, so one row per user and week stays so |
| CheckinService.FirstSince | app/services/checkin_service.py:52-55 | the first check-in of the user at or after a start, or none exactly when there is none |
| CheckinService.FindRanking | app/services/checkin_service.py:166-167 | the first row of a user and week, or none exactly when there is none |
| CheckinService.LastCheckin | app/services/checkin_service.py:74-101 | none exactly when the user has no check-in; otherwise one of the user's timestamps, at or after all the others |
| CheckinService.WeekendRejectedBeforeReads | app/services/checkin_service.py:42-46 | on a weekend the answer is the weekend error with today's date, whatever is stored |
| CheckinService.DuplicateIffCheckedInToday | app/services/checkin_service.py:49-72 | on a workday the duplicate error is raised exactly when the user has a check-in at or after today's start, naming one of them; otherwise "available" |
| CheckinService.CanUserCheckinExpected | app/services/checkin_service.py:28-72 | the only answers are "available", the weekend error exactly on weekends, and the duplicate error (without a checkin_time detail) exactly after a check-in today |
| CheckinService.PointsValues | app/services/checkin_service.py:119-134 | base points are 10 exactly when nobody checked in since today's start, else 5, and the total lies in {5, 7, 10, 12} |
| CheckinService.StreakBonusValues | app/services/checkin_service.py:155-212 | the streak bonus is 0 or 2 and never raises |
| CheckinService.StreakNeedsReadableDate | app/services/checkin_service.py:166-212 | without a row for the current week, a last date, or a date that parses, the bonus is 0 |
| CheckinService.StreakFromStoredDate | app/services/checkin_service.py:183-204 | with a stored string that `strptime` reads as a date, the bonus is 2 exactly when that date is yesterday (three days earlier on Monday) |
| CheckinService.MondayStreakNeverApplies | app/services/checkin_service.py:167-191 | when stored dates lie in their row's week, Monday never earns the bonus: the current week's row cannot hold Friday |
| CheckinService.StreakNextDay | app/services/checkin_service.py:189-204 | Tuesday to Friday, a current-week row dated yesterday earns the bonus |
| CheckinService.StreakAfterCheckinYesterday | app/services/checkin_service.py:166-278 | a check-in on Monday to Thursday makes the next day's check-in earn the bonus |
| CheckinService.SameKeysSameLookup | app/services/checkin_service.py:166-167 | rows with the same users and weeks give the same lookups |
| CheckinService.UpsertRankingEffect | app/services/checkin_service.py:264-278 | the upsert adds the points to the (user, week) row or appends one, sets date, username and time, and leaves every other row alone |
| CheckinService.ProcessCheckin | app/services/checkin_service.py:214-311 | the method returns and stores exactly what the specification of `process_checkin` gives; users are untouched |
| CheckinService.ProcessCheckinRejected | app/services/checkin_service.py:243-301 | a refused check-in changes no table and ends in HTTP 400 (weekend) or 409 (duplicate) with the error's dictionary |
| CheckinService.RecordCheckinEffect | app/services/checkin_service.py:249-278 | the two writes append exactly one event and upsert exactly the user's row for the week |
| CheckinService.RecordCheckinKeepsValid | app/services/checkin_service.py:249-278 | the writes keep timestamps in UTC, one row per user and week, and stored dates inside their row's week |
| CheckinService.TodaysWeekId | app/services/checkin_service.py:246 | the week id of today is the week id of the date of `now` |
| CheckinService.AcceptedIsRecord | app/services/checkin_service.py:243-301 | an accepted check-in is the two writes with the computed points, stored at the UTC instant of `now` |
| CheckinService.ProcessCheckinAccepted | app/services/checkin_service.py:249-301 | an accepted check-in appends one event of the user at `now` and returns success, can_checkin False, "checkin_completed", the success message and points in {5, 7, 10, 12} |
| CheckinService.ProcessCheckinUpdatesRanking | app/services/checkin_service.py:264-278 | the user's row for the week gains the points awarded (a new row when absent), gets today's `YYYY-MM-DD`, the username and the stored UTC instant as update time |
| CheckinService.ProcessCheckinKeepsOtherRows | app/services/checkin_service.py:264-278 | every other user's and week's row is unchanged by an accepted check-in |
| CheckinService.ProcessCheckinKeepsValid | app/services/checkin_service.py:214-311 | every check-in, accepted or refused, keeps the stored state valid |
| CheckinService.SecondCheckinSameDayRejected | app/services/checkin_service.py:49-255 | after an accepted check-in, any later request the same São Paulo day is refused as a duplicate |
| CheckinService.SameWeekSameId | app/utils/datetime_utils.py:52-53 | dates with the same Monday have the same week id |
| CheckinService.NextDaySameWeek | app/services/checkin_service.py:189-191 | a next day that is not a Monday is in the same week |
| RankingRouter.Limit | app/routers/ranking_router.py:42 | `.limit(n)` keeps min(n, length) entries |
| RankingRouter.SortDescSpec | app/routers/ranking_router.py:40 | the sort orders by points, highest first, and is a permutation of its input |
| RankingRouter.TopEntries | app/routers/ranking_router.py:40-42 | sort then limit gives an ordered selection of min(n, length) input entries, all of them when they fit, and no entry left out outscores a kept one |
| RankingRouter.WeekEntriesMembers | app/routers/ranking_router.py:37-39 | the entries of a week are the (username, points) projections of exactly that week's rows |
| RankingRouter.WeekRankingSpec | app/routers/ranking_router.py:33-47 | the weekly list is ordered, at most 100, min(100, rows of the week) long, a sub-multiset of the week's entries and all of them when at most 100, each entry a row of the week, and no row left out outscores a listed one |
| RankingRouter.WeeklyRankingWeek | app/routers/ranking_router.py:33-66 | the weekly response names the current ISO week and ranks that week's rows |
| RankingRouter.Groups | app/routers/ranking_router.py:170-178 | one group per distinct username |
| RankingRouter.UsernamesSpec | app/routers/ranking_router.py:170-178 | the group keys are the rows' usernames, each once |
| RankingRouter.GroupsSpec | app/routers/ranking_router.py:170-178 | every group has its own username, that username occurs in the rows, and its points are the sum of its rows' points across weeks |
| RankingRouter.AllTimeOrder | app/routers/ranking_router.py:179-183 | the all-time list is ordered, lists each username once and has min(100, number of users) entries |
| RankingRouter.AllTimeTotals | app/routers/ranking_router.py:170-183 | each listed user occurs in the rows and has the sum of their points over all weeks |
| RankingRouter.AllTimeTop | app/routers/ranking_router.py:179-183 | a user left out totals no more than anyone listed |
| RankingRouter.FirstPosition | app/routers/ranking_router.py:197-201 | the position is 1 + the index of the first entry of the user, and none exactly when the user is absent |
| RankingRouter.UserPosition | app/routers/ranking_router.py:197-201 | the loop with its early break computes that position |
| RankingRouter.UserPositionFound | app/routers/ranking_router.py:197-206 | a position exists exactly when the user is listed, and it points at the user's all-time total |
| RankingRouter.GetAllTimeRanking | app/routers/ranking_router.py:147-209 | the response has type "all_time", today's ISO date, the list, total_participants equal to its length and the user's position |
| RankingRouter.MyStatusCases | app/routers/ranking_router.py:97-125 | for the answers `can_user_checkin` gives, exactly one flag is set, the reason names it, today is `DD/MM/YYYY` and the last check-in is reported when there is one |
| RankingRouter.MyStatusFlags | app/routers/ranking_router.py:69-125 | against the stored check-ins the status never fails; exactly one of available, weekend and already checked holds; weekend exactly on weekends, already checked exactly after a check-in today |
| RankingRouter.StatusFromFlags | app/routers/ranking_router.py:97-111 | whatever decides the two refusals, the weekend flag is set exactly for the weekend refusal and the already-checked flag exactly for the duplicate one, and exactly one flag holds |
| RankingRouter.MyStatusDates | app/routers/ranking_router.py:113-125 | the status shows today's `DD/MM/YYYY`, no last check-in date exactly when the user has no check-in, and otherwise the ISO date of the latest one |
| RankingRouter.MyStatusFailure | app/routers/ranking_router.py:138-144 | any other failure becomes the DatabaseError "Falha ao consultar status do usuário" |
| RankingRouter.StoredDateIsUtcDate | app/routers/ranking_router.py:118-119 | the stored instant's date is the São Paulo date, or the next day for check-ins from 21:00 on |
| CheckinRouter.CheckinStatusFailures | app/routers/checkin_router.py:37-136 | both calls inside the `try` are dispatched by the same `except` clauses: without an exception the answer is "available"; the status fails only with an exception outside `Exception`, or a duplicate error whose second lookup fails; a weekend error gives the weekend answer, a duplicate error the duplicate answer, and any other error the all-false "Erro interno" answer |
| CheckinRouter.CaughtStatusCases | app/routers/checkin_router.py:67-136 | for one raised exception: weekend answer for a WeekendCheckinError, the duplicate answer or the second lookup's exception for a DuplicateCheckinError, "Erro interno" for any other `Exception`, and re-raised otherwise |
| CheckinRouter.RefusalClasses | app/utils/exceptions.py:51-73 | `except WeekendCheckinError` and `except DuplicateCheckinError` catch exactly those two leaf classes, so no error is caught as both |
| CheckinRouter.CheckinStatusCases | app/routers/checkin_router.py:37-113 | for the answers `can_user_checkin` gives, exactly one flag is set; the weekend answer has no last check-in and an ISO date; available has reason "available" |
| CheckinRouter.DuplicateMessageHasNoTime | app/routers/checkin_router.py:97 | the duplicate message built from a DuplicateCheckinError's details always ends in "N/A" |
| CheckinRouter.CheckinStatusOfFlags | app/routers/checkin_router.py:19-113 | against the stored check-ins the status is always a 200 answer with exactly one flag, weekend exactly on weekends, already checked exactly after a check-in today, with the "N/A" message |
| CheckinRouter.PerformCheckin | app/routers/checkin_router.py:143-177 | the endpoint returns and stores exactly what `process_checkin` does |
| CheckinRouter.PerformCheckinAnswers | app/routers/checkin_router.py:166-177 | the answer is a success for the user exactly when eligible, otherwise HTTP 400 or 409 |
| UserRouter.CreateUser | app/routers/user_router.py:12-26 | the method returns and stores exactly what the specification of `create_user` gives; the other tables are untouched |
| UserRouter.CreateUserEffect | app/routers/user_router.py:15-26 | registration succeeds exactly for a new username and then appends exactly that user with the given hash, found by its name; otherwise 400 and no change; usernames stay unique |
| UserRouter.LoginOutcome | app/routers/user_router.py:28-42 | 401 with `WWW-Authenticate: Bearer` exactly when the user is unknown or the password does not verify; otherwise a bearer token encoding the username and now plus the lifetime (15 minutes for a zero lifetime) |
| UserRouter.RegisteredUserCanLogIn | app/routers/user_router.py:12-42 | a user who just registered logs in with a password the stored hash verifies |

## Left out

- Database failures are not modelled, nor the DatabaseError wrapping in the service's `except` clauses, because the in-memory tables never fail. The routers take the service's answers as `Outcome` values, so their error branches are still modelled.
- Concurrency is not modelled: the check-then-insert race between two check-ins, and the atomicity of `$inc` upserts. Each request is one sequential step.
- Durations (`time.time`, `duration_ms`), log handlers and stdout are left out. Each log helper is the record it would emit, and the log calls inside the service and routers are not emitted.
- The clock is read once per request, as `now`. The source reads it several times within one request.
- `CheckinService.ProcessCheckin`: requires that `now` converts to a UTC instant within year 9999. The driver cannot store the last three hours of 9999-12-31 São Paulo time.
- Timestamps keep microseconds. MongoDB truncates them to milliseconds.
- `%Y` in `strftime` is modelled as zero-padded to four digits. glibc does not pad it: for years 1-999 it writes the year without leading zeros (`42-01-05`, `05/01/42`). The model therefore differs from the source for those years in two places:
  - the date stored at app/services/checkin_service.py:268 would be `42-01-05`, which the four-digit `%Y` of `strptime` at line 184 rejects, so `Calendar.IsoFormatRoundTrip` does not hold there. The source then never awards the streak bonus, while `CheckinService.StreakNextDay` and `CheckinService.StreakAfterCheckinYesterday` give 2;
  - `format_date_brazilian` (app/utils/datetime_utils.py:61-63) returns fewer than the ten characters `DateTimeUtils.FormatDateFields` states.
- `Decorators.ValidateInputRejects`: the error message is the `str()` of the validator's result. The source stores the result object itself, so for a result that is not a string (False, None, 0) `to_dict()` and the 422 detail carry that object, where the model carries its text.
- The date parser accepts ASCII digits only. Python's `\d` also matches other Unicode digits.
- `.lower()` in the validation-name test lowers ASCII letters only.
- A `last_checkin_date` that is not a string is not modelled: the field is a string or absent.
- Every check-in event carries a username, so the "Unknown" default of the repair pass never applies.
- Custom status mappings are keyed by the application's own exception classes only.
- Mongo leaves the order of equal scores open. The model keeps storage order, and the `$group` stage's output follows first appearance.
- `UserRouter.CreateUser`: the password hash arrives as a parameter, because bcrypt is salted. The relation between password and hash is only what `verify` says.
- `get_current_user` and token decoding in app/auth.py are not modelled, because JWT decoding is foreign code. `create_access_token` is modelled with an abstract encoder.
- `UserCreate` and `Token` are imported from app/models/user.py, which does not define them. The model assumes a username and a password, and the two token fields.
- Response validation by the Pydantic schemas is not modelled. The status answers use the eight fields of `CheckinStatusResponse`.
- The health check of the database connection is not modelled, because it is I/O.
