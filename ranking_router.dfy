/**
 * The ranking endpoints: the current week's leaderboard, the all-time
 * leaderboard with the requester's position, and the simplified check-in
 * status. The database's sorts leave the order of equal scores open; the
 * model keeps storage order among them.
 */
module RankingRouter {
  import opened Wrappers
  import opened Calendar
  import opened Constants
  import opened DateTimeUtils
  import opened Exceptions
  import opened Decorators
  import opened Store
  import opened Responses
  import opened CheckinService

  /** A leaderboard entry: `{"username": ..., "points": ...}`. */
  datatype Entry = Entry(username: string, points: int)

  const RankingLimit := 100

  predicate SortedDesc(s: seq<Entry>)
  {
    forall i, j :: 0 <= i < j < |s| ==> s[i].points >= s[j].points
  }

  /** Places `x` before the first entry that does not outscore it. */
  function Insert(x: Entry, s: seq<Entry>): seq<Entry>
  {
    if |s| == 0 || s[0].points <= x.points then [x] + s else [s[0]] + Insert(x, s[1..])
  }

  /** `.sort("points", -1)`, keeping storage order among equal scores. */
  function SortDesc(s: seq<Entry>): seq<Entry>
  {
    if |s| == 0 then [] else Insert(s[0], SortDesc(s[1..]))
  }

  /** `.limit(n)`. */
  function Limit(s: seq<Entry>, n: nat): (r: seq<Entry>)
    ensures |r| == if |s| <= n then |s| else n
  {
    if |s| <= n then s else s[..n]
  }

  /** The rows of a week, projected to username and points, in storage order. */
  function WeekEntries(rows: seq<RankingRow>, weekId: string): seq<Entry>
  {
    if |rows| == 0 then []
    else
      var rest := WeekEntries(rows[1..], weekId);
      if rows[0].weekId == weekId then [Entry(rows[0].username, rows[0].points)] + rest else rest
  }

  /** The response of `GET /ranking/weekly`. */
  datatype WeeklyRanking = WeeklyRanking(weekId: string, ranking: seq<Entry>)

  /** The leaderboard of one week: its rows by points, highest first, at most 100. */
  function WeekRanking(rows: seq<RankingRow>, weekId: string): seq<Entry>
  {
    Limit(SortDesc(WeekEntries(rows, weekId)), RankingLimit)
  }

  /** `get_current_weekly_ranking()`. */
  function GetCurrentWeeklyRanking(rows: seq<RankingRow>, now: DateTime): WeeklyRanking
  {
    var weekId := WeekId(Some(CurrentDate(now)), now);
    WeeklyRanking(weekId, WeekRanking(rows, weekId))
  }

  /** The distinct usernames of the rows, in order of first appearance. */
  function Usernames(rows: seq<RankingRow>): seq<string>
  {
    if |rows| == 0 then []
    else
      var init := Usernames(rows[..|rows| - 1]);
      var name := rows[|rows| - 1].username;
      if name in init then init else init + [name]
  }

  /** `{"$sum": "$points"}` over the rows of one username. */
  function TotalPoints(rows: seq<RankingRow>, name: string): int
  {
    if |rows| == 0 then 0
    else TotalPoints(rows[..|rows| - 1], name) + (if rows[|rows| - 1].username == name then rows[|rows| - 1].points else 0)
  }

  /** The `$group` stage: one entry per username with its total. */
  function Groups(rows: seq<RankingRow>): (r: seq<Entry>)
    ensures |r| == |Usernames(rows)|
  {
    var names := Usernames(rows);
    seq(|names|, i requires 0 <= i < |names| => Entry(names[i], TotalPoints(rows, names[i])))
  }

  /** The whole aggregation pipeline: group, sort by total, limit. */
  function AllTimeList(rows: seq<RankingRow>): seq<Entry>
  {
    Limit(SortDesc(Groups(rows)), RankingLimit)
  }

  /** 1 + the index of the first entry of the user, as the loop of `get_all_time_ranking` finds it. */
  function FirstPosition(ranking: seq<Entry>, username: string): (r: Option<nat>)
    ensures r.None? <==> forall i :: 0 <= i < |ranking| ==> ranking[i].username != username
    ensures r.Some? ==> 1 <= r.value <= |ranking| && ranking[r.value - 1].username == username
    ensures r.Some? ==> forall j :: 0 <= j < r.value - 1 ==> ranking[j].username != username
  {
    if |ranking| == 0 then None
    else if ranking[0].username == username then Some(1)
    else
      match FirstPosition(ranking[1..], username)
      case None => None
      case Some(p) => Some(p + 1)
  }

  /** The loop over the ranking with `enumerate` and `break`. */
  method UserPosition(ranking: seq<Entry>, username: string) returns (position: Option<nat>)
    ensures position == FirstPosition(ranking, username)
  {
    position := None;
    var idx := 0;
    while idx < |ranking|
      invariant 0 <= idx <= |ranking|
      invariant forall j :: 0 <= j < idx ==> ranking[j].username != username
    {
      if ranking[idx].username == username {
        position := Some(idx + 1);
        break;
      }
      idx := idx + 1;
    }
  }

  /** The response of `GET /ranking/all-time`. */
  datatype AllTimeRanking = AllTimeRanking(
    kind: string, date: string, totalParticipants: nat, ranking: seq<Entry>, userPosition: Option<nat>)

  /** `get_all_time_ranking(current_user)`. */
  method GetAllTimeRanking(rows: seq<RankingRow>, username: string, now: DateTime) returns (response: AllTimeRanking)
    ensures var list := AllTimeList(rows);
      response == AllTimeRanking("all_time", IsoFormat(CurrentDate(now)), |list|, list, FirstPosition(list, username))
  {
    var rankingList := AllTimeList(rows);
    var userPosition := UserPosition(rankingList, username);
    response := AllTimeRanking("all_time", IsoFormat(CurrentDate(now)), |rankingList|, rankingList, userPosition);
  }

  /**
   * `get_my_status(current_user)`, given what `can_user_checkin` and
   * `get_user_last_checkin` do for the user and today's date. A stored
   * timestamp is in UTC, and so is the date reported for it.
   */
  function MyStatus(can: Outcome<Availability>, last: Outcome<Option<DateTime>>, today: Date): Outcome<CheckinStatusResponse>
  {
    var statusError := Raised(AppError(NewCheckinError(Database, "Falha ao consultar status do usuário", None, None)));
    match StatusFlags(can)
    case Raised(x) => if IsException(x) then statusError else Raised(x)
    case Returned((canCheckin, isWeekend, alreadyChecked)) =>
      match last
      case Raised(x) => if IsException(x) then statusError else Raised(x)
      case Returned(lastCheckin) => Returned(StatusResponse(canCheckin, isWeekend, alreadyChecked, lastCheckin, today))
  }

  /**
   * The inner `try` of `get_my_status`: `(can_checkin, is_weekend,
   * already_checked_today)`, with the two refusals caught by class and
   * anything else passed on.
   */
  function StatusFlags(can: Outcome<Availability>): Outcome<(bool, bool, bool)>
  {
    match can
    case Returned(v) => Returned((v.canCheckin, false, false))
    case Raised(x) =>
      if x.AppError? && IsSubclassOf(x.error.cls, WeekendCheckin) then Returned((false, true, false))
      else if x.AppError? && IsSubclassOf(x.error.cls, DuplicateCheckin) then Returned((false, false, true))
      else Raised(x)
  }

  /** The `response_data` of `get_my_status`. */
  function StatusResponse(canCheckin: bool, isWeekend: bool, alreadyChecked: bool,
                          lastCheckin: Option<DateTime>, today: Date): CheckinStatusResponse
  {
    CheckinStatusResponse(
      canCheckin,
      if lastCheckin.Some? then Some(IsoFormat(lastCheckin.value.date)) else None,
      if lastCheckin.Some? then Some(FormatDateBrazilian(lastCheckin.value.date)) else None,
      isWeekend, alreadyChecked,
      if canCheckin then "available" else if isWeekend then "weekend"
      else if alreadyChecked then "already_checked" else "unknown",
      if canCheckin then "Você pode fazer checkin agora" else if isWeekend then "Fim de semana"
      else if alreadyChecked then "Já fez checkin hoje" else "Não pode fazer checkin",
      FormatDateBrazilian(today))
  }

  /** `get_my_status` against the stored check-ins. */
  function MyStatusOf(events: seq<CheckinEvent>, user: User, now: DateTime): Outcome<CheckinStatusResponse>
  {
    MyStatus(CanUserCheckin(events, user.id, now),
             HandleCheckinExceptions(Returned(LastCheckin(events, user.id))), CurrentDate(now))
  }

  // ---------------------------------------------------------------------------
  // Lemmas: sorting and limiting

  /** Names listed more than once nowhere. */
  predicate DistinctNames(s: seq<Entry>)
  {
    forall i, j :: 0 <= i < j < |s| ==> s[i].username != s[j].username
  }

  lemma {:induction false} InsertMembers(x: Entry, s: seq<Entry>)
    ensures forall e :: e in Insert(x, s) <==> e == x || e in s
    decreases |s|
  {
    if |s| > 0 && s[0].points > x.points {
      InsertMembers(x, s[1..]);
      assert s == [s[0]] + s[1..];
    }
  }

  lemma InsertSorted(x: Entry, s: seq<Entry>)
    requires SortedDesc(s)
    ensures SortedDesc(Insert(x, s))
    ensures multiset(Insert(x, s)) == multiset(s) + multiset{x}
  {
    InsertOrdered(x, s);
    InsertCounts(x, s);
  }

  lemma {:induction false} InsertOrdered(x: Entry, s: seq<Entry>)
    requires SortedDesc(s)
    ensures SortedDesc(Insert(x, s))
    decreases |s|
  {
    if |s| > 0 && s[0].points > x.points {
      var t := s[1..];
      InsertOrdered(x, t);
      InsertMembers(x, t);
      var r := Insert(x, t);
      forall k | 0 <= k < |r|
        ensures s[0].points >= r[k].points
      {
        assert r[k] in r;
        if r[k] != x {
          var m :| 0 <= m < |t| && t[m] == r[k];
          assert t[m] == s[m + 1];
        }
      }
      ConsSorted(s[0], r);
    } else {
      ConsSorted(x, s);
    }
  }

  /** An entry scoring at least as much as every entry of a sorted list can lead it. */
  lemma ConsSorted(h: Entry, r: seq<Entry>)
    requires SortedDesc(r)
    requires forall k :: 0 <= k < |r| ==> h.points >= r[k].points
    ensures SortedDesc([h] + r)
  {
    var c := [h] + r;
    forall i, j | 0 <= i < j < |c|
      ensures c[i].points >= c[j].points
    {
      assert c[j] == r[j - 1];
      if i > 0 {
        assert c[i] == r[i - 1];
      }
    }
  }

  lemma {:induction false} InsertCounts(x: Entry, s: seq<Entry>)
    ensures multiset(Insert(x, s)) == multiset(s) + multiset{x}
    decreases |s|
  {
    if |s| > 0 && s[0].points > x.points {
      var t := s[1..];
      InsertCounts(x, t);
      assert Insert(x, s) == [s[0]] + Insert(x, t);
      assert s == [s[0]] + t;
    }
  }

  lemma {:induction false} InsertDistinct(x: Entry, s: seq<Entry>)
    requires DistinctNames(s)
    requires forall k :: 0 <= k < |s| ==> s[k].username != x.username
    ensures DistinctNames(Insert(x, s))
    decreases |s|
  {
    if |s| > 0 && s[0].points > x.points {
      var t := s[1..];
      InsertMembers(x, t);
      InsertDistinct(x, t);
      var r := Insert(x, t);
      assert Insert(x, s) == [s[0]] + r;
      forall k | 0 <= k < |r|
        ensures s[0].username != r[k].username
      {
        assert r[k] in r;
        if r[k] != x {
          var m :| 0 <= m < |t| && t[m] == r[k];
          assert t[m] == s[m + 1];
        }
      }
    }
  }

  /** The sort orders by points, highest first, and keeps every entry. */
  lemma SortDescSpec(s: seq<Entry>)
    ensures SortedDesc(SortDesc(s))
    ensures multiset(SortDesc(s)) == multiset(s)
  {
    SortDescOrdered(s);
    SortDescCounts(s);
  }

  lemma {:induction false} SortDescOrdered(s: seq<Entry>)
    ensures SortedDesc(SortDesc(s))
    decreases |s|
  {
    if |s| > 0 {
      SortDescOrdered(s[1..]);
      InsertOrdered(s[0], SortDesc(s[1..]));
    }
  }

  lemma {:induction false} SortDescCounts(s: seq<Entry>)
    ensures multiset(SortDesc(s)) == multiset(s)
    decreases |s|
  {
    if |s| > 0 {
      var t := s[1..];
      SortDescCounts(t);
      InsertCounts(s[0], SortDesc(t));
      assert s == [s[0]] + t;
      assert multiset(s) == multiset(t) + multiset{s[0]};
    }
  }

  lemma {:induction false} SortDescDistinct(s: seq<Entry>)
    requires DistinctNames(s)
    ensures DistinctNames(SortDesc(s))
    decreases |s|
  {
    if |s| > 0 {
      var t := s[1..];
      SortDescDistinct(t);
      SortDescSpec(t);
      forall k | 0 <= k < |SortDesc(t)|
        ensures SortDesc(t)[k].username != s[0].username
      {
        assert SortDesc(t)[k] in multiset(t);
      }
      InsertDistinct(s[0], SortDesc(t));
    }
  }

  /**
   * Sorting then limiting keeps the best-scored entries: the result is
   * ordered, at most `n` long, taken from the input, and no entry left out
   * outscores one that was kept.
   */
  lemma TopEntries(s: seq<Entry>, n: nat)
    ensures var r := Limit(SortDesc(s), n);
      && SortedDesc(r)
      && |r| == (if |s| <= n then |s| else n)
      && multiset(r) <= multiset(s)
      && (|s| <= n ==> multiset(r) == multiset(s))
      && forall e :: e in s && e !in r ==> forall i :: 0 <= i < |r| ==> e.points <= r[i].points
  {
    SortDescSpec(s);
    var sorted := SortDesc(s);
    assert |sorted| == |s| by {
      assert |multiset(sorted)| == |multiset(s)|;
    }
    LimitOfSorted(sorted, n);
    forall e | e in s
      ensures e in sorted
    {
      assert e in multiset(s);
    }
  }

  /** A prefix of a sorted list is sorted, and nothing after it outscores anything in it. */
  lemma LimitOfSorted(t: seq<Entry>, n: nat)
    requires SortedDesc(t)
    ensures var r := Limit(t, n);
      && SortedDesc(r)
      && multiset(r) <= multiset(t)
      && (|t| <= n ==> r == t)
      && forall e :: e in t && e !in r ==> forall i :: 0 <= i < |r| ==> e.points <= r[i].points
  {
    var r := Limit(t, n);
    if |t| > n {
      assert t == r + t[n..];
      assert multiset(t) == multiset(r) + multiset(t[n..]);
      forall e | e in t && e !in r
        ensures forall i :: 0 <= i < |r| ==> e.points <= r[i].points
      {
        var j :| 0 <= j < |t| && t[j] == e;
        assert j >= n;
      }
    }
  }

  // ---------------------------------------------------------------------------
  // Lemmas: the weekly ranking

  /** The entries of a week are the projections of exactly the rows of that week. */
  lemma {:induction false} WeekEntriesMembers(rows: seq<RankingRow>, weekId: string)
    ensures forall e :: e in WeekEntries(rows, weekId) <==>
      exists i :: 0 <= i < |rows| && rows[i].weekId == weekId && Entry(rows[i].username, rows[i].points) == e
    decreases |rows|
  {
    if |rows| > 0 {
      WeekEntriesMembers(rows[1..], weekId);
      assert forall i :: 1 <= i < |rows| ==> rows[i] == rows[1..][i - 1];
    }
  }

  /**
   * A week's leaderboard holds its 100 best scores, highest first, each one
   * a row of that week and no row listed more often than the week holds it
   * (all of them when they fit); no row of the week left out outscores a
   * listed one.
   */
  lemma WeekRankingSpec(rows: seq<RankingRow>, weekId: string)
    ensures var r := WeekRanking(rows, weekId);
      var week := WeekEntries(rows, weekId);
      && SortedDesc(r)
      && |r| <= RankingLimit
      && |r| == (if |week| <= RankingLimit then |week| else RankingLimit)
      && multiset(r) <= multiset(week)
      && (|week| <= RankingLimit ==> multiset(r) == multiset(week))
      && (forall k :: 0 <= k < |r| ==>
            (exists i :: 0 <= i < |rows| && rows[i].weekId == weekId && r[k] == Entry(rows[i].username, rows[i].points)))
      && (forall i :: 0 <= i < |rows| && rows[i].weekId == weekId && Entry(rows[i].username, rows[i].points) !in r
            ==> forall k :: 0 <= k < |r| ==> rows[i].points <= r[k].points)
  {
    var r := WeekRanking(rows, weekId);
    var week := WeekEntries(rows, weekId);
    TopEntries(week, RankingLimit);
    WeekEntriesMembers(rows, weekId);
    forall k | 0 <= k < |r|
      ensures r[k] in week
    {
      assert r[k] in multiset(r);
    }
    forall i | 0 <= i < |rows| && rows[i].weekId == weekId
      ensures Entry(rows[i].username, rows[i].points) in week
    {
    }
  }

  /** `GET /ranking/weekly` reports the ISO week the São Paulo date lies in. */
  lemma WeeklyRankingWeek(rows: seq<RankingRow>, now: DateTime)
    ensures var r := GetCurrentWeeklyRanking(rows, now);
      r.weekId == WeekIdOf(now.date) && r.ranking == WeekRanking(rows, WeekIdOf(now.date))
  {
    TodaysWeekId(now);
  }

  // ---------------------------------------------------------------------------
  // Lemmas: the all-time ranking

  /** Whether some row carries the username. */
  predicate Occurs(rows: seq<RankingRow>, name: string)
  {
    exists i :: 0 <= i < |rows| && rows[i].username == name
  }

  lemma OccursSplit(rows: seq<RankingRow>, name: string)
    requires |rows| > 0
    ensures Occurs(rows, name) <==> Occurs(rows[..|rows| - 1], name) || rows[|rows| - 1].username == name
  {
    var init := rows[..|rows| - 1];
    if Occurs(rows, name) && rows[|rows| - 1].username != name {
      var i :| 0 <= i < |rows| && rows[i].username == name;
      assert init[i] == rows[i];
    }
    if Occurs(init, name) {
      var i :| 0 <= i < |init| && init[i].username == name;
      assert rows[i] == init[i];
    }
  }

  predicate Distinct(names: seq<string>)
  {
    forall i, j :: 0 <= i < j < |names| ==> names[i] != names[j]
  }

  /** The grouping keys are the usernames of the rows, each once. */
  lemma {:induction false} UsernamesSpec(rows: seq<RankingRow>)
    ensures Distinct(Usernames(rows))
    ensures forall n :: n in Usernames(rows) <==> Occurs(rows, n)
    decreases |rows|
  {
    if |rows| > 0 {
      var init := rows[..|rows| - 1];
      var last := rows[|rows| - 1].username;
      UsernamesSpec(init);
      forall n
        ensures Occurs(rows, n) <==> Occurs(init, n) || last == n
      {
        OccursSplit(rows, n);
      }
      var before := Usernames(init);
      if last !in before {
        var names := before + [last];
        assert Usernames(rows) == names;
        forall i, j | 0 <= i < j < |names|
          ensures names[i] != names[j]
        {
          if j == |before| {
            assert names[i] == before[i];
          }
        }
      }
    }
  }

  /** A username that occurs in no row totals 0. */
  lemma {:induction false} TotalPointsAbsent(rows: seq<RankingRow>, name: string)
    requires !Occurs(rows, name)
    ensures TotalPoints(rows, name) == 0
    decreases |rows|
  {
    if |rows| > 0 {
      OccursSplit(rows, name);
      TotalPointsAbsent(rows[..|rows| - 1], name);
    }
  }

  /** Every group of the `$group` stage has its own username and that user's total. */
  lemma GroupsSpec(rows: seq<RankingRow>)
    ensures var g := Groups(rows);
      && DistinctNames(g)
      && (forall k :: 0 <= k < |g| ==> g[k].points == TotalPoints(rows, g[k].username) && Occurs(rows, g[k].username))
      && (forall n :: Occurs(rows, n) ==> exists k :: 0 <= k < |g| && g[k].username == n)
  {
    UsernamesSpec(rows);
    var names := Usernames(rows);
    var g := Groups(rows);
    assert forall k :: 0 <= k < |g| ==> g[k].username == names[k];
    assert forall k :: 0 <= k < |g| ==> names[k] in names;
    forall i, j | 0 <= i < j < |g|
      ensures g[i].username != g[j].username
    {
      assert names[i] != names[j];
    }
    forall n | Occurs(rows, n)
      ensures exists k :: 0 <= k < |g| && g[k].username == n
    {
      var k :| 0 <= k < |names| && names[k] == n;
      assert g[k].username == n;
    }
  }

  /** Whether a username appears in a ranking. */
  predicate Listed(ranking: seq<Entry>, username: string)
  {
    exists k :: 0 <= k < |ranking| && ranking[k].username == username
  }

  /** The all-time leaderboard is ordered, lists each user at most once and at most 100 of them. */
  lemma AllTimeOrder(rows: seq<RankingRow>)
    ensures var list := AllTimeList(rows);
      SortedDesc(list) && DistinctNames(list) && |list| <= RankingLimit
      && |list| == (if |Usernames(rows)| <= RankingLimit then |Usernames(rows)| else RankingLimit)
  {
    var g := Groups(rows);
    GroupsSpec(rows);
    TopEntries(g, RankingLimit);
    SortDescDistinct(g);
  }

  /** Each listed user is one of the rows' users, with the sum of all their weekly points. */
  lemma AllTimeTotals(rows: seq<RankingRow>)
    ensures var list := AllTimeList(rows);
      forall k :: 0 <= k < |list| ==> list[k].points == TotalPoints(rows, list[k].username) && Occurs(rows, list[k].username)
  {
    var g := Groups(rows);
    var list := AllTimeList(rows);
    GroupsSpec(rows);
    TopEntries(g, RankingLimit);
    forall k | 0 <= k < |list|
      ensures list[k].points == TotalPoints(rows, list[k].username) && Occurs(rows, list[k].username)
    {
      assert list[k] in multiset(list);
      assert list[k] in g;
    }
  }

  /** A user left out of the all-time leaderboard totals no more than anyone listed. */
  lemma AllTimeTop(rows: seq<RankingRow>, name: string)
    requires Occurs(rows, name) && !Listed(AllTimeList(rows), name)
    ensures var list := AllTimeList(rows);
      forall k :: 0 <= k < |list| ==> TotalPoints(rows, name) <= list[k].points
  {
    var g := Groups(rows);
    var list := AllTimeList(rows);
    GroupsSpec(rows);
    TopEntries(g, RankingLimit);
    var k :| 0 <= k < |g| && g[k].username == name;
    assert g[k] in g;
    assert g[k] !in list;
  }

  /** The requester's position points at their own entry, and a listed requester always has one. */
  lemma UserPositionFound(rows: seq<RankingRow>, username: string)
    ensures var list := AllTimeList(rows);
      var p := FirstPosition(list, username);
      && (p.Some? <==> Listed(list, username))
      && (p.Some? ==> list[p.value - 1].points == TotalPoints(rows, username))
  {
    var list := AllTimeList(rows);
    PositionIffListed(list, username);
    AllTimeTotals(rows);
  }

  /** The loop finds a position exactly when the user is in the list. */
  lemma PositionIffListed(ranking: seq<Entry>, username: string)
    ensures FirstPosition(ranking, username).Some? <==> Listed(ranking, username)
  {
    var p := FirstPosition(ranking, username);
    if p.Some? {
      assert ranking[p.value - 1].username == username;
    }
  }

  // ---------------------------------------------------------------------------
  // Lemmas: the status endpoint

  /**
   * For the answers `can_user_checkin` gives, exactly one flag is set, the
   * reason names it, and the last check-in is reported when there is one.
   */
  lemma MyStatusCases(can: Outcome<Availability>, last: Option<DateTime>, today: Date)
    requires ExpectedAvailability(can)
    ensures var r := MyStatus(can, Returned(last), today);
      && r.Returned?
      && (r.value.canCheckin <==> can.Returned?)
      && (r.value.isWeekend <==> can.Raised? && can.exception.error.cls == WeekendCheckin)
      && (r.value.alreadyCheckedToday <==> can.Raised? && can.exception.error.cls == DuplicateCheckin)
      && r.value.reason == (if can.Returned? then "available" else if r.value.isWeekend then "weekend" else "already_checked")
      && r.value.today == FormatDateBrazilian(today)
      && r.value.lastCheckinDate == (if last.Some? then Some(IsoFormat(last.value.date)) else None)
      && r.value.lastCheckinFormatted == (if last.Some? then Some(FormatDateBrazilian(last.value.date)) else None)
  {
    StatusFlagsCases(can);
  }

  /** The expected answers of `can_user_checkin` set exactly one flag, the matching one. */
  lemma StatusFlagsCases(can: Outcome<Availability>)
    requires ExpectedAvailability(can)
    ensures StatusFlags(can) == Returned((can.Returned?,
      can.Raised? && can.exception.error.cls == WeekendCheckin,
      can.Raised? && can.exception.error.cls == DuplicateCheckin))
  {
    if can.Raised? {
      Hierarchy(can.exception.error.cls);
    }
  }

  /**
   * Against the stored check-ins the status never fails, and exactly one of
   * "available", "weekend" and "already checked today" holds: the weekend on
   * Saturdays and Sundays, the duplicate when the user already has a
   * check-in today.
   */
  lemma MyStatusFlags(events: seq<CheckinEvent>, user: User, now: DateTime)
    ensures var r := MyStatusOf(events, user, now);
      var start := StartOfDay(Some(now.date), now);
      && r.Returned?
      && (r.value.canCheckin || r.value.isWeekend || r.value.alreadyCheckedToday)
      && !(r.value.canCheckin && r.value.isWeekend) && !(r.value.canCheckin && r.value.alreadyCheckedToday)
      && !(r.value.isWeekend && r.value.alreadyCheckedToday)
      && (r.value.isWeekend <==> Weekday(now.date) in Weekend)
      && (r.value.alreadyCheckedToday <==> (Weekday(now.date) in Workdays
            && exists i :: 0 <= i < |events| && events[i].userId == user.id && AtOrAfter(events[i].timestamp, start)))
  {
    var can := CanUserCheckin(events, user.id, now);
    var last := LastCheckin(events, user.id);
    CanUserCheckinExpected(events, user.id, now);
    assert MyStatusOf(events, user, now) == MyStatus(can, Returned(last), now.date);
    var start := StartOfDay(Some(now.date), now);
    var checkedToday := exists i :: 0 <= i < |events| && events[i].userId == user.id && AtOrAfter(events[i].timestamp, start);
    StatusFromFlags(can, last, now.date, Weekday(now.date) in Weekend, Weekday(now.date) in Workdays && checkedToday);
  }

  /** The status flags follow the two refusals of `can_user_checkin`, however they are decided. */
  lemma StatusFromFlags(can: Outcome<Availability>, last: Option<DateTime>, today: Date, weekend: bool, duplicate: bool)
    requires ExpectedAvailability(can)
    requires (can.Raised? && can.exception.error.cls == WeekendCheckin) <==> weekend
    requires (can.Raised? && can.exception.error.cls == DuplicateCheckin) <==> duplicate
    ensures var r := MyStatus(can, Returned(last), today);
      && r.Returned?
      && (r.value.canCheckin || r.value.isWeekend || r.value.alreadyCheckedToday)
      && !(r.value.canCheckin && r.value.isWeekend) && !(r.value.canCheckin && r.value.alreadyCheckedToday)
      && !(r.value.isWeekend && r.value.alreadyCheckedToday)
      && (r.value.isWeekend <==> weekend) && (r.value.alreadyCheckedToday <==> duplicate)
  {
    MyStatusCases(can, last, today);
  }

  /**
   * The status shows today's date, and the date of the latest stored
   * check-in of the user, none when there is none.
   */
  lemma MyStatusDates(events: seq<CheckinEvent>, user: User, now: DateTime)
    ensures var r := MyStatusOf(events, user, now);
      var last := LastCheckin(events, user.id);
      && r.Returned?
      && r.value.today == FormatDateBrazilian(now.date)
      && (r.value.lastCheckinDate.None? <==> forall i :: 0 <= i < |events| ==> events[i].userId != user.id)
      && (last.Some? ==> r.value.lastCheckinDate == Some(IsoFormat(last.value.date)))
  {
    var can := CanUserCheckin(events, user.id, now);
    var last := LastCheckin(events, user.id);
    CanUserCheckinExpected(events, user.id, now);
    assert MyStatusOf(events, user, now) == MyStatus(can, Returned(last), now.date);
    MyStatusCases(can, last, now.date);
  }

  /**
   * Any failure of the checks, other than the two expected refusals, is
   * reported as the database error of the status endpoint.
   */
  lemma MyStatusFailure(can: Outcome<Availability>, last: Outcome<Option<DateTime>>, today: Date)
    requires can.Raised? && IsException(can.exception)
    requires !(can.exception.AppError? && can.exception.error.cls in {WeekendCheckin, DuplicateCheckin})
    ensures MyStatus(can, last, today)
      == Raised(AppError(CheckinError(Database, "Falha ao consultar status do usuário", "DatabaseError", [])))
  {
    if can.exception.AppError? {
      var c := can.exception.error.cls;
      Hierarchy(c);
    }
  }

  /** A micro-second count split into days around a three-hour shift. */
  lemma ShiftedDay(a: int, b: int, x: int, y: int, day: int)
    requires day > 0 && 0 <= x < day && 0 <= y < 2 * day
    requires a * day + x == b * day + y
    ensures a == b + (if y >= day then 1 else 0)
  {
    var q := a - b;
    assert q * day == y - x;
  }

  /**
   * A stored timestamp is the UTC instant, and the status reports its UTC
   * date: a check-in from 21:00 São Paulo time on is shown under the next day.
   */
  lemma StoredDateIsUtcDate(now: DateTime)
    requires InSaoPaulo(now) && ToUtc(now).Some?
    ensures Ordinal(ToUtc(now).value.date) == Ordinal(now.date) + (if now.hour >= 21 then 1 else 0)
  {
    var u := ToUtc(now).value;
    var x := (u.hour * 3600 + u.minute * 60 + u.second) * 1000000 + u.microsecond;
    var y := (now.hour * 3600 + now.minute * 60 + now.second) * 1000000 + now.microsecond + 180 * 60000000;
    DayAndTime(Ordinal(u.date), u.hour * 3600 + u.minute * 60 + u.second, u.microsecond, 0);
    DayAndTime(Ordinal(now.date), now.hour * 3600 + now.minute * 60 + now.second, now.microsecond, -180);
    ShiftedDay(Ordinal(u.date), Ordinal(now.date), x, y, DayMicros);
  }

  /** `UtcMicros` in whole days plus the time of day, for day `o`, second `s` and offset `off`. */
  lemma DayAndTime(o: int, s: int, us: int, off: int)
    ensures (o * 86400 + s) * 1000000 + us - off * 60000000
      == o * DayMicros + (s * 1000000 + us - off * 60000000)
  {
  }
}
