/**
 * The three document collections (`users`, `checkins`, `weekly_rankings`) as
 * in-memory sequences in storage order, and the maintenance pass that
 * realigns denormalised usernames with the users collection.
 *
 * Timestamps are kept as the driver gives them back: naive datetimes in UTC,
 * here datetimes of offset zero.
 */
module Store {
  import opened Wrappers
  import opened Calendar

  /** The hexadecimal text of a document's `_id`. */
  type ObjectId = string

  /** A `users` document: `_id`, `username` and the password hash. */
  datatype User = User(id: ObjectId, username: string, password: string)

  /** A `checkins` document. */
  datatype CheckinEvent = CheckinEvent(userId: ObjectId, username: string, timestamp: DateTime)

  /**
   * A `weekly_rankings` document, one per user and ISO week: the week's points,
   * the date of the last check-in as written (`YYYY-MM-DD`, absent on rows not
   * made by a check-in), the username and the time of the last update.
   */
  datatype RankingRow = RankingRow(
    userId: ObjectId, weekId: string, points: int, lastCheckinDate: Option<string>,
    username: string, updatedAt: Option<DateTime>)

  /** `find_one({"_id": id})` on the users: the first user with that id. */
  function FindUserById(users: seq<User>, id: ObjectId): (r: Option<User>)
    ensures r.None? <==> forall i :: 0 <= i < |users| ==> users[i].id != id
    ensures r.Some? ==> r.value.id == id && r.value in users
  {
    if |users| == 0 then None
    else if users[0].id == id then Some(users[0])
    else FindUserById(users[1..], id)
  }

  /** `find_one({"username": name})` on the users: the first user with that name. */
  function FindUserByName(users: seq<User>, name: string): (r: Option<User>)
    ensures r.None? <==> forall i :: 0 <= i < |users| ==> users[i].username != name
    ensures r.Some? ==> r.value.username == name && r.value in users
  {
    if |users| == 0 then None
    else if users[0].username == name then Some(users[0])
    else FindUserByName(users[1..], name)
  }

  /** A row names an existing user but carries a different username. */
  predicate IsStale(users: seq<User>, userId: ObjectId, username: string)
  {
    var u := FindUserById(users, userId);
    u.Some? && username != u.value.username
  }

  /** The username a row carries after the maintenance pass. */
  function CorrectedName(users: seq<User>, userId: ObjectId, username: string): string
  {
    var u := FindUserById(users, userId);
    if u.Some? && username != u.value.username then u.value.username else username
  }

  /** The check-ins after the pass over them. */
  function FixCheckins(users: seq<User>, cs: seq<CheckinEvent>): (r: seq<CheckinEvent>)
    ensures |r| == |cs|
  {
    seq(|cs|, i requires 0 <= i < |cs| => cs[i].(username := CorrectedName(users, cs[i].userId, cs[i].username)))
  }

  /** The ranking rows after the pass over them. */
  function FixRankings(users: seq<User>, rs: seq<RankingRow>): (r: seq<RankingRow>)
    ensures |r| == |rs|
  {
    seq(|rs|, i requires 0 <= i < |rs| => rs[i].(username := CorrectedName(users, rs[i].userId, rs[i].username)))
  }

  function StaleCheckins(users: seq<User>, cs: seq<CheckinEvent>): nat
  {
    if |cs| == 0 then 0
    else StaleCheckins(users, cs[..|cs| - 1]) + (if IsStale(users, cs[|cs| - 1].userId, cs[|cs| - 1].username) then 1 else 0)
  }

  function StaleRankings(users: seq<User>, rs: seq<RankingRow>): nat
  {
    if |rs| == 0 then 0
    else StaleRankings(users, rs[..|rs| - 1]) + (if IsStale(users, rs[|rs| - 1].userId, rs[|rs| - 1].username) then 1 else 0)
  }

  /** The number of positions at which two sequences of equal length differ. */
  function Differences<T(==)>(a: seq<T>, b: seq<T>): nat
    requires |a| == |b|
  {
    if |a| == 0 then 0
    else Differences(a[..|a| - 1], b[..|b| - 1]) + (if a[|a| - 1] != b[|b| - 1] then 1 else 0)
  }

  /** The ranking rows hold at most one row per user and week. */
  predicate UniqueRankingKeys(rs: seq<RankingRow>)
  {
    forall i, j :: 0 <= i < j < |rs| ==> (rs[i].userId, rs[i].weekId) != (rs[j].userId, rs[j].weekId)
  }

  /** The database: the three collections in storage order. */
  class Database {
    var users: seq<User>
    var checkins: seq<CheckinEvent>
    var rankings: seq<RankingRow>

    /** An empty database. */
    constructor ()
      ensures users == [] && checkins == [] && rankings == []
    {
      users := [];
      checkins := [];
      rankings := [];
    }

    /** The first loop of `fix_username_inconsistencies`: the check-ins, one `update_one` per stale row. */
    method FixCheckinUsernames() returns (corrections: nat)
      modifies this
      ensures checkins == FixCheckins(users, old(checkins))
      ensures users == old(users) && rankings == old(rankings)
      ensures corrections == StaleCheckins(users, old(checkins))
    {
      var i := 0;
      corrections := 0;
      while i < |checkins|
        invariant 0 <= i <= |checkins| && |checkins| == |old(checkins)|
        invariant users == old(users) && rankings == old(rankings)
        invariant checkins[..i] == FixCheckins(users, old(checkins))[..i]
        invariant checkins[i..] == old(checkins)[i..]
        invariant corrections == StaleCheckins(users, old(checkins)[..i])
      {
        var c := checkins[i];
        FixCheckinsStep(users, old(checkins), checkins, i);
        var user := FindUserById(users, c.userId);
        if user.Some? && c.username != user.value.username {
          checkins := checkins[i := c.(username := user.value.username)];
          corrections := corrections + 1;
        }
        i := i + 1;
      }
      assert old(checkins)[..i] == old(checkins);
      assert checkins == checkins[..i];
    }

    /** The second loop of `fix_username_inconsistencies`: the ranking rows. */
    method FixRankingUsernames() returns (corrections: nat)
      modifies this
      ensures rankings == FixRankings(users, old(rankings))
      ensures users == old(users) && checkins == old(checkins)
      ensures corrections == StaleRankings(users, old(rankings))
    {
      var i := 0;
      corrections := 0;
      while i < |rankings|
        invariant 0 <= i <= |rankings| && |rankings| == |old(rankings)|
        invariant users == old(users) && checkins == old(checkins)
        invariant rankings[..i] == FixRankings(users, old(rankings))[..i]
        invariant rankings[i..] == old(rankings)[i..]
        invariant corrections == StaleRankings(users, old(rankings)[..i])
      {
        var r := rankings[i];
        FixRankingsStep(users, old(rankings), rankings, i);
        var user := FindUserById(users, r.userId);
        if user.Some? && r.username != user.value.username {
          rankings := rankings[i := r.(username := user.value.username)];
          corrections := corrections + 1;
        }
        i := i + 1;
      }
      assert old(rankings)[..i] == old(rankings);
      assert rankings == rankings[..i];
    }

    /**
     * `fix_username_inconsistencies()`: both passes; the count is the number of
     * rows rewritten.
     */
    method FixUsernameInconsistencies() returns (correctionsMade: nat)
      modifies this
      ensures users == old(users)
      ensures checkins == FixCheckins(users, old(checkins))
      ensures rankings == FixRankings(users, old(rankings))
      ensures correctionsMade == StaleCheckins(users, old(checkins)) + StaleRankings(users, old(rankings))
    {
      var fromCheckins := FixCheckinUsernames();
      var fromRankings := FixRankingUsernames();
      correctionsMade := fromCheckins + fromRankings;
    }
  }

  // ---------------------------------------------------------------------------
  // Lemmas

  /** One step of the pass over the check-ins: row `i` takes its corrected name. */
  lemma FixCheckinsStep(users: seq<User>, orig: seq<CheckinEvent>, cur: seq<CheckinEvent>, i: nat)
    requires i < |orig| == |cur|
    requires cur[..i] == FixCheckins(users, orig)[..i] && cur[i..] == orig[i..]
    ensures cur[i] == orig[i]
    ensures var next := cur[i := FixCheckins(users, orig)[i]];
      && next[..i + 1] == FixCheckins(users, orig)[..i + 1] && next[i + 1..] == orig[i + 1..]
      && (!IsStale(users, orig[i].userId, orig[i].username) ==> next == cur)
    ensures StaleCheckins(users, orig[..i + 1])
      == StaleCheckins(users, orig[..i]) + (if IsStale(users, orig[i].userId, orig[i].username) then 1 else 0)
  {
    assert cur[i..][0] == orig[i..][0];
    var fixed := FixCheckins(users, orig);
    var next := cur[i := fixed[i]];
    assert next[..i + 1] == fixed[..i + 1] by {
      assert next[..i] == cur[..i];
    }
    assert next[i + 1..] == orig[i + 1..] by {
      assert next[i + 1..] == cur[i + 1..];
      assert cur[i + 1..] == cur[i..][1..];
    }
    if !IsStale(users, orig[i].userId, orig[i].username) {
      assert next == cur;
    }
    assert orig[..i + 1][..i] == orig[..i];
  }

  /** One step of the pass over the ranking rows: row `i` takes its corrected name. */
  lemma FixRankingsStep(users: seq<User>, orig: seq<RankingRow>, cur: seq<RankingRow>, i: nat)
    requires i < |orig| == |cur|
    requires cur[..i] == FixRankings(users, orig)[..i] && cur[i..] == orig[i..]
    ensures cur[i] == orig[i]
    ensures var next := cur[i := FixRankings(users, orig)[i]];
      && next[..i + 1] == FixRankings(users, orig)[..i + 1] && next[i + 1..] == orig[i + 1..]
      && (!IsStale(users, orig[i].userId, orig[i].username) ==> next == cur)
    ensures StaleRankings(users, orig[..i + 1])
      == StaleRankings(users, orig[..i]) + (if IsStale(users, orig[i].userId, orig[i].username) then 1 else 0)
  {
    assert cur[i..][0] == orig[i..][0];
    var fixed := FixRankings(users, orig);
    var next := cur[i := fixed[i]];
    assert next[..i + 1] == fixed[..i + 1] by {
      assert next[..i] == cur[..i];
    }
    assert next[i + 1..] == orig[i + 1..] by {
      assert next[i + 1..] == cur[i + 1..];
      assert cur[i + 1..] == cur[i..][1..];
    }
    if !IsStale(users, orig[i].userId, orig[i].username) {
      assert next == cur;
    }
    assert orig[..i + 1][..i] == orig[..i];
  }

  /** After the pass every check-in of an existing user carries that user's username. */
  lemma FixCheckinsConsistent(users: seq<User>, cs: seq<CheckinEvent>, i: nat)
    requires i < |cs|
    ensures var f := FixCheckins(users, cs)[i];
      && (FindUserById(users, f.userId).Some? ==> f.username == FindUserById(users, f.userId).value.username)
      && (FindUserById(users, cs[i].userId).None? ==> f == cs[i])
      && f.(username := cs[i].username) == cs[i]
      && !IsStale(users, f.userId, f.username)
  {
  }

  /** The same for the ranking rows. */
  lemma FixRankingsConsistent(users: seq<User>, rs: seq<RankingRow>, i: nat)
    requires i < |rs|
    ensures var f := FixRankings(users, rs)[i];
      && (FindUserById(users, f.userId).Some? ==> f.username == FindUserById(users, f.userId).value.username)
      && (FindUserById(users, rs[i].userId).None? ==> f == rs[i])
      && f.(username := rs[i].username) == rs[i]
      && !IsStale(users, f.userId, f.username)
  {
  }

  /** The count of stale check-ins is the number of rows the pass rewrites. */
  lemma {:induction false} StaleCheckinsCountsRewrites(users: seq<User>, cs: seq<CheckinEvent>)
    ensures StaleCheckins(users, cs) == Differences(cs, FixCheckins(users, cs))
    decreases |cs|
  {
    if |cs| > 0 {
      var init := cs[..|cs| - 1];
      StaleCheckinsCountsRewrites(users, init);
      assert FixCheckins(users, cs)[..|cs| - 1] == FixCheckins(users, init);
    }
  }

  /** The count of stale ranking rows is the number of rows the pass rewrites. */
  lemma {:induction false} StaleRankingsCountsRewrites(users: seq<User>, rs: seq<RankingRow>)
    ensures StaleRankings(users, rs) == Differences(rs, FixRankings(users, rs))
    decreases |rs|
  {
    if |rs| > 0 {
      var init := rs[..|rs| - 1];
      StaleRankingsCountsRewrites(users, init);
      assert FixRankings(users, rs)[..|rs| - 1] == FixRankings(users, init);
    }
  }

  /** No row is stale after the pass. */
  lemma {:induction false} NoStaleCheckinsAfterFix(users: seq<User>, cs: seq<CheckinEvent>)
    ensures StaleCheckins(users, FixCheckins(users, cs)) == 0
    decreases |cs|
  {
    if |cs| > 0 {
      var init := cs[..|cs| - 1];
      NoStaleCheckinsAfterFix(users, init);
      assert FixCheckins(users, cs)[..|cs| - 1] == FixCheckins(users, init);
    }
  }

  lemma {:induction false} NoStaleRankingsAfterFix(users: seq<User>, rs: seq<RankingRow>)
    ensures StaleRankings(users, FixRankings(users, rs)) == 0
    decreases |rs|
  {
    if |rs| > 0 {
      var init := rs[..|rs| - 1];
      NoStaleRankingsAfterFix(users, init);
      assert FixRankings(users, rs)[..|rs| - 1] == FixRankings(users, init);
    }
  }

  /** A second pass corrects nothing and changes nothing. */
  lemma FixIdempotent(users: seq<User>, cs: seq<CheckinEvent>, rs: seq<RankingRow>)
    ensures FixCheckins(users, FixCheckins(users, cs)) == FixCheckins(users, cs)
    ensures FixRankings(users, FixRankings(users, rs)) == FixRankings(users, rs)
    ensures StaleCheckins(users, FixCheckins(users, cs)) + StaleRankings(users, FixRankings(users, rs)) == 0
  {
    NoStaleCheckinsAfterFix(users, cs);
    NoStaleRankingsAfterFix(users, rs);
  }

  /** The pass keeps the (user, week) keys of the ranking rows, so their uniqueness too. */
  lemma FixRankingsKeepsKeys(users: seq<User>, rs: seq<RankingRow>)
    ensures forall i :: 0 <= i < |rs| ==>
      FixRankings(users, rs)[i].userId == rs[i].userId && FixRankings(users, rs)[i].weekId == rs[i].weekId
    ensures UniqueRankingKeys(rs) ==> UniqueRankingKeys(FixRankings(users, rs))
  {
  }
}
