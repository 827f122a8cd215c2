/** Daily check-in, ranking and statistics: create-attendance, calculate-attendance-statistics and the
    re-ranking seeder. Rows of `attendances` and `attendance_statistics` are keyed by user and day. */
module Attendance {
  import opened Common
  import opened Calendar
  import opened KstDate

  type Key = (int, int)  // user, day

  datatype Stat = Stat(total: int, streak: int, time: int, rank: int)

  type Stats = map<Key, Stat>

  // ----- The ranking order -----

  /** Total descending, streak descending, check-in time ascending. */
  predicate Before(a: Stat, b: Stat) {
    a.total > b.total
    || (a.total == b.total && (a.streak > b.streak || (a.streak == b.streak && a.time < b.time)))
  }

  function UsersOf(stats: Stats, day: int): set<int> {
    set k | k in stats && k.1 == day :: k.0
  }

  /** The users whose row on this day is strictly better than r. */
  function Better(stats: Stats, day: int, r: Stat): set<int> {
    set u | u in UsersOf(stats, day) && Before(stats[(u, day)], r)
  }

  predicate InOrder(stats: Stats, day: int, users: seq<int>)
    requires forall i :: 0 <= i < |users| ==> (users[i], day) in stats
  {
    forall i, j :: 0 <= i < j < |users| ==> !Before(stats[(users[j], day)], stats[(users[i], day)])
  }

  /** A possible answer of the ordered query for one day; ties may come in any order. */
  ghost predicate Listing(stats: Stats, day: int, users: seq<int>) {
    Lists(users, UsersOf(stats, day)) && InOrder(stats, day, users)
  }

  predicate DistinctTimes(stats: Stats, day: int) {
    forall u, v :: u in UsersOf(stats, day) && v in UsersOf(stats, day) && u != v ==>
      stats[(u, day)].time != stats[(v, day)].time
  }

  /** The ranks of a day are the positions, from 1, in some ordered listing of it. */
  ghost predicate RankedAs(stats: Stats, day: int, users: seq<int>) {
    Listing(stats, day, users) && forall i :: 0 <= i < |users| ==> stats[(users[i], day)].rank == i + 1
  }

  ghost predicate Ranked(stats: Stats, day: int) {
    exists users :: RankedAs(stats, day, users)
  }

  /** In an ordered listing the better rows come first. */
  lemma BetterIsPrefix(stats: Stats, day: int, users: seq<int>, r: Stat, n: int)
    requires Listing(stats, day, users) && 0 <= n <= |users|
    requires forall i :: 0 <= i < n ==> Before(stats[(users[i], day)], r)
    requires n < |users| ==> !Before(stats[(users[n], day)], r)
    ensures |Better(stats, day, r)| == n
  {
    assert Better(stats, day, r) == Elems(users[..n]) by {
      forall u | u in Better(stats, day, r) ensures u in users[..n] {
        var i :| 0 <= i < |users| && users[i] == u;
        assert i < n;
        assert users[..n][i] == u;
      }
    }
    DistinctSize(users[..n]);
  }

  /** With pairwise different check-in times a row's rank is one more than the number of better rows, so the
      ranks do not depend on the listing. */
  lemma RankCountsBetter(stats: Stats, day: int, u: int)
    requires Ranked(stats, day) && DistinctTimes(stats, day) && u in UsersOf(stats, day)
    ensures stats[(u, day)].rank == 1 + |Better(stats, day, stats[(u, day)])|
  {
    var users :| RankedAs(stats, day, users);
    var n :| 0 <= n < |users| && users[n] == u;
    forall i | 0 <= i < n ensures Before(stats[(users[i], day)], stats[(u, day)]) {
      assert users[i] != u;
    }
    BetterIsPrefix(stats, day, users, stats[(u, day)], n);
  }

  /** With ties, the rank still lies between the strictly better and the not worse rows. */
  lemma RankBounds(stats: Stats, day: int, u: int)
    requires Ranked(stats, day) && u in UsersOf(stats, day)
    ensures 1 <= stats[(u, day)].rank <= |UsersOf(stats, day)|
    ensures forall v :: v in UsersOf(stats, day) && v != u ==> stats[(v, day)].rank != stats[(u, day)].rank
    ensures forall v :: v in Better(stats, day, stats[(u, day)]) ==> stats[(v, day)].rank < stats[(u, day)].rank
  {
    var users :| RankedAs(stats, day, users);
    ListSize(users, UsersOf(stats, day));
    var n :| 0 <= n < |users| && users[n] == u;
    forall v | v in UsersOf(stats, day) && v != u
      ensures stats[(v, day)].rank != stats[(u, day)].rank
      ensures Before(stats[(v, day)], stats[(u, day)]) ==> stats[(v, day)].rank < stats[(u, day)].rank
    {
      var i :| 0 <= i < |users| && users[i] == v;
    }
  }

  /** Every place from 1 to the number of rows is taken. */
  lemma EveryRankTaken(stats: Stats, day: int, k: int)
    requires Ranked(stats, day) && 1 <= k <= |UsersOf(stats, day)|
    ensures exists u :: u in UsersOf(stats, day) && stats[(u, day)].rank == k
  {
    var users :| RankedAs(stats, day, users);
    ListSize(users, UsersOf(stats, day));
    var u := users[k - 1];
    assert u in UsersOf(stats, day);
    assert stats[(u, day)].rank == k;
  }

  // ----- One check-in -----

  /** What one check-in does to the statistics: a new row continuing yesterday's, all else unchanged except
      today's ranks, which are put right. */
  ghost predicate RowAdded(before: Stats, after: Stats, user: int, day: int, now: int) {
    (user, day) !in before && after.Keys == before.Keys + {(user, day)}
    && (var y := (user, day - 1);
        var r := after[(user, day)];
        r.total == (if y in before then before[y].total else 0) + 1
        && r.streak == (if y in before && before[y].streak > 0 then before[y].streak + 1 else 1)
        && r.time == now)
    && (forall k :: k in before ==> after[k] == before[k].(rank := after[k].rank))
    && (forall k :: k in before && k.1 != day ==> after[k] == before[k])
    && Ranked(after, day)
  }

  lemma UsersAfter(before: Stats, after: Stats, user: int, day: int)
    requires after.Keys == before.Keys + {(user, day)}
    ensures UsersOf(after, day) == UsersOf(before, day) + {user}
  {
    forall u | u in UsersOf(before, day) ensures u in UsersOf(after, day) {
      assert (u, day) in after;
    }
    assert (user, day) in after;
  }

  /** Ranks play no part in the order, so the rows better than r are the old ones and perhaps the new one. */
  lemma BetterAfter(before: Stats, after: Stats, user: int, day: int, r: Stat)
    requires (user, day) !in before && after.Keys == before.Keys + {(user, day)}
    requires forall k :: k in before ==> after[k] == before[k].(rank := after[k].rank)
    ensures Better(after, day, r) == Better(before, day, r) + if Before(after[(user, day)], r) then {user} else {}
  {
    UsersAfter(before, after, user, day);
    forall u | u in UsersOf(before, day) ensures u in Better(after, day, r) <==> u in Better(before, day, r) {
      assert (u, day) in before;
    }
  }

  lemma BetterIgnoresRank(stats: Stats, day: int, r: Stat, rank: int)
    ensures Better(stats, day, r.(rank := rank)) == Better(stats, day, r)
  {
    assert forall u :: u in UsersOf(stats, day) ==>
      (Before(stats[(u, day)], r.(rank := rank)) <==> Before(stats[(u, day)], r));
  }

  lemma TimesStayDistinct(before: Stats, after: Stats, user: int, day: int)
    requires after.Keys == before.Keys + {(user, day)} && DistinctTimes(after, day)
    requires forall k :: k in before ==> after[k] == before[k].(rank := after[k].rank)
    ensures DistinctTimes(before, day)
  {
    UsersAfter(before, after, user, day);
    forall u | u in UsersOf(before, day) ensures after[(u, day)].time == before[(u, day)].time {
      assert (u, day) in before;
    }
  }

  /** A check-in moves exactly the rows it beats down one place, leaves the others of the day where they were
      and touches no other day. */
  lemma CheckInShiftsRanks(before: Stats, after: Stats, user: int, day: int, now: int, u: int)
    requires RowAdded(before, after, user, day, now)
    requires Ranked(before, day) && DistinctTimes(after, day) && u in UsersOf(before, day)
    ensures after[(u, day)].rank
            == before[(u, day)].rank + if Before(after[(user, day)], before[(u, day)]) then 1 else 0
  {
    hide Ranked, DistinctTimes;
    UsersAfter(before, after, user, day);
    TimesStayDistinct(before, after, user, day);
    RankCountsBetter(before, day, u);
    RankCountsBetter(after, day, u);
    assert (u, day) in before;
    var row := before[(u, day)];
    BetterAfter(before, after, user, day, after[(u, day)]);
    BetterIgnoresRank(before, day, row, after[(u, day)].rank);
    assert user !in UsersOf(before, day);
  }

  /** The rank found by the early-exit loop before the insertion is the new row's place afterwards. */
  lemma EarlyRankIsFinal(before: Stats, after: Stats, user: int, day: int, now: int)
    requires RowAdded(before, after, user, day, now) && DistinctTimes(after, day)
    ensures after[(user, day)].rank == 1 + |Better(before, day, after[(user, day)])|
  {
    UsersAfter(before, after, user, day);
    RankCountsBetter(after, day, user);
    BetterAfter(before, after, user, day, after[(user, day)]);
  }

  lemma BetterIs(stats: Stats, day: int, r: Stat)
    ensures Better(stats, day, r)
            == set u | u in UsersOf(stats, day)
                       && var row := stats[(u, day)];
                          row.total > r.total || (row.total == r.total && row.streak > r.streak)
                          || (row.total == r.total && row.streak == r.streak && row.time < r.time)
  {
    var better := set u | u in UsersOf(stats, day)
                          && var row := stats[(u, day)];
                             row.total > r.total || (row.total == r.total && row.streak > r.streak)
                             || (row.total == r.total && row.streak == r.streak && row.time < r.time);
    forall u ensures u in better <==> u in Better(stats, day, r) {}
  }

  // ----- Streaks over whole runs -----

  datatype State = State(attendances: map<Key, int>, stats: Stats)

  /** n is the length of the longest run of consecutive attended days of user u ending on day d. */
  predicate IsRunLength(attended: set<Key>, u: int, d: int, n: int) {
    n >= 0 && (forall k :: d - n < k <= d ==> (u, k) in attended) && (u, d - n) !in attended
  }

  lemma RunLengthIsUnique(attended: set<Key>, u: int, d: int, m: int, n: int)
    requires IsRunLength(attended, u, d, m) && IsRunLength(attended, u, d, n)
    ensures m == n
  {
    assert !(m < n) by { assert m < n ==> (u, d - m) in attended; }
    assert !(n < m) by { assert n < m ==> (u, d - n) in attended; }
  }

  /** The stored streak is the true one, the stored total obeys the same recurrence, and no row is in the
      future of day `today`. */
  ghost predicate StreaksTrue(s: State, today: int) {
    s.attendances.Keys == s.stats.Keys
    && forall k :: k in s.stats ==>
         k.1 <= today && s.stats[k].streak >= 1 && s.stats[k].total == s.stats[k].streak
         && IsRunLength(s.stats.Keys, k.0, k.1, s.stats[k].streak)
  }

  datatype Event = CheckIn(user: int, now: int) | Recalculate(now: int) | ReRank(now: int)

  /** The possible effects of a use case on the two tables. */
  ghost predicate Step(s: State, e: Event, s': State) {
    var day := KstDay(e.now);
    match e
    case CheckIn(user, now) =>
      if (user, day) in s.attendances || (user, day) in s.stats then s' == s
      else s'.attendances == s.attendances[(user, day) := now] && RowAdded(s.stats, s'.stats, user, day, now)
    case Recalculate(now) => s'.attendances == s.attendances && Recalculated(s, s'.stats, day)
    case ReRank(now) =>
      s'.attendances == s.attendances && OnlyRanksChange(s.stats, s'.stats, day) && Ranked(s'.stats, day)
  }

  ghost predicate OnlyRanksChange(before: Stats, after: Stats, day: int) {
    after.Keys == before.Keys
    && forall k :: k in before ==>
         after[k] == before[k].(rank := after[k].rank) && (k.1 != day ==> after[k] == before[k])
  }

  function Attendees(attendances: map<Key, int>, day: int): set<int> {
    set k | k in attendances && k.1 == day :: k.0
  }

  /** Today's attendances by time of arrival. */
  ghost predicate ArrivalListing(attendances: map<Key, int>, day: int, users: seq<int>) {
    Lists(users, Attendees(attendances, day))
    && forall i, j :: 0 <= i < j < |users| && (users[i], day) in attendances && (users[j], day) in attendances ==>
         attendances[(users[i], day)] <= attendances[(users[j], day)]
  }

  function Lookup<K(==), V>(m: map<K, V>, k: K): Option<V> {
    if k in m then Some(m[k]) else None
  }

  /** The row the batch job writes for the attendance at position i of the arrival list. */
  function BatchRow(time: int, yesterday: Option<Stat>, i: int): Stat {
    Stat((if yesterday.Some? then yesterday.value.total else 0) + 1,
         if yesterday.Some? && yesterday.value.streak > 0 then yesterday.value.streak + 1 else 1,
         time, i + 1)
  }

  function BatchRowOf(s: State, day: int, user: int, i: int): Stat
    requires (user, day) in s.attendances
  {
    BatchRow(s.attendances[(user, day)], Lookup(s.stats, (user, day - 1)), i)
  }

  ghost predicate Recalculated(s: State, after: Stats, day: int) {
    exists users :: RecalculatedAs(s, after, day, users)
  }

  ghost predicate RecalculatedAs(s: State, after: Stats, day: int, users: seq<int>) {
    ArrivalListing(s.attendances, day, users)
    && (forall i :: 0 <= i < |users| ==>
          (users[i], day) in s.attendances && (users[i], day) in after
          && after[(users[i], day)] == BatchRowOf(s, day, users[i], i))
    && (forall k :: k in s.stats && (k.1 != day || k.0 !in users) ==> k in after && after[k] == s.stats[k])
    && forall k :: k in after ==> k in s.stats || (k.1 == day && k.0 in users)
  }

  /** The statistics carry the check-in time of the attendance. */
  ghost predicate TimesMatch(s: State) {
    forall k :: k in s.stats && k in s.attendances ==> s.stats[k].time == s.attendances[k]
  }

  /** The new row continues yesterday's run. */
  lemma NewRowStreak(s: State, after: Stats, user: int, day: int, now: int, today: int)
    requires StreaksTrue(s, today) && RowAdded(s.stats, after, user, day, now)
    ensures var r := after[(user, day)]; r.total == r.streak >= 1 && IsRunLength(after.Keys, user, day, r.streak)
  {
    hide Ranked;
    var y, n := (user, day - 1), after[(user, day)].streak;
    if y in s.stats {
      assert IsRunLength(s.stats.Keys, user, day - 1, n - 1);
    }
  }

  /** No older run grows, because the new day is not before any of its days. */
  lemma OldRowStreak(s: State, after: Stats, user: int, day: int, now: int, today: int, k: Key)
    requires StreaksTrue(s, today) && today <= day && RowAdded(s.stats, after, user, day, now) && k in s.stats
    ensures after[k].total == after[k].streak >= 1 && IsRunLength(after.Keys, k.0, k.1, after[k].streak)
  {
    hide Ranked;
    assert after[k] == s.stats[k].(rank := after[k].rank);
  }

  lemma CheckInKeepsStreaks(s: State, s': State, user: int, now: int, today: int)
    requires StreaksTrue(s, today) && today <= KstDay(now) && Step(s, CheckIn(user, now), s')
    ensures StreaksTrue(s', KstDay(now))
  {
    hide Ranked, IsRunLength;
    var day := KstDay(now);
    if s' != s {
      NewRowStreak(s, s'.stats, user, day, now, today);
      forall k | k in s.stats
        ensures s'.stats[k].total == s'.stats[k].streak >= 1 && IsRunLength(s'.stats.Keys, k.0, k.1, s'.stats[k].streak)
      {
        OldRowStreak(s, s'.stats, user, day, now, today, k);
      }
    }
  }

  /** In a table of true streaks each row is determined by the one of the day before. */
  lemma YesterdayDecides(s: State, today: int, k: Key)
    requires StreaksTrue(s, today) && k in s.stats
    ensures var y := (k.0, k.1 - 1);
            s.stats[k].streak == s.stats[k].total == if y in s.stats then s.stats[y].streak + 1 else 1
  {
    var y, n := (k.0, k.1 - 1), s.stats[k].streak;
    if y in s.stats {
      assert IsRunLength(s.stats.Keys, y.0, y.1, n - 1) by {
        assert n != 1 by { assert n == 1 ==> y !in s.stats; }
      }
      RunLengthIsUnique(s.stats.Keys, y.0, y.1, n - 1, s.stats[y].streak);
    } else {
      assert n > 1 ==> (k.0, k.1 - 1) in s.stats.Keys;
    }
  }

  lemma BatchKeepsKeys(s: State, after: Stats, today: int, day: int, users: seq<int>)
    requires StreaksTrue(s, today) && RecalculatedAs(s, after, day, users)
    ensures after.Keys == s.stats.Keys
    ensures forall k :: k in s.stats && k.1 == day ==> k.0 in users
  {
    forall k | k in s.stats && k.1 == day ensures k.0 in users && k in after {
      assert k in s.attendances && k.0 in Attendees(s.attendances, day);
      var i :| 0 <= i < |users| && users[i] == k.0;
    }
    forall k | k in after ensures k in s.stats {
      if k.1 == day && k.0 in users {
        var i :| 0 <= i < |users| && users[i] == k.0;
        assert (users[i], day) in s.attendances;
      }
    }
  }

  lemma BatchRowIsOld(s: State, today: int, day: int, user: int, i: int)
    requires StreaksTrue(s, today) && TimesMatch(s) && (user, day) in s.stats
    ensures BatchRowOf(s, day, user, i) == s.stats[(user, day)].(rank := i + 1)
  {
    YesterdayDecides(s, today, (user, day));
  }

  /** On true streaks the batch job rewrites every total, streak and time with itself; it only replaces
      today's ranks by the order of arrival. */
  lemma RecalculateOnlyRanks(s: State, after: Stats, today: int, day: int)
    requires StreaksTrue(s, today) && TimesMatch(s) && Recalculated(s, after, day)
    ensures OnlyRanksChange(s.stats, after, day)
  {
    hide StreaksTrue, TimesMatch;
    var users :| RecalculatedAs(s, after, day, users);
    BatchKeepsKeys(s, after, today, day, users);
    forall k | k in s.stats
      ensures after[k] == s.stats[k].(rank := after[k].rank) && (k.1 != day ==> after[k] == s.stats[k])
    {
      if k.1 == day {
        var i :| 0 <= i < |users| && users[i] == k.0;
        BatchRowIsOld(s, today, day, k.0, i);
      }
    }
  }

  /** On the rows the batch job wrote: its ranks are right exactly when nobody who came later stands higher. */
  lemma WrittenRanksAgree(s: State, after: Stats, day: int, users: seq<int>)
    requires RecalculatedAs(s, after, day, users) && UsersOf(after, day) == Elems(users)
    requires DistinctTimes(after, day)
    ensures Ranked(after, day) <==>
              forall u, v :: u in users && v in users && after[(u, day)].time < after[(v, day)].time ==>
                !Before(after[(v, day)], after[(u, day)])
  {
    forall i, j | 0 <= i < j < |users| ensures after[(users[i], day)].time < after[(users[j], day)].time {
      assert users[i] in Elems(users) && users[j] in Elems(users);
    }
    if forall u, v :: u in users && v in users && after[(u, day)].time < after[(v, day)].time ==>
         !Before(after[(v, day)], after[(u, day)]) {
      forall i, j | 0 <= i < j < |users| ensures !Before(after[(users[j], day)], after[(users[i], day)]) {
        assert users[i] in users && users[j] in users;
      }
      assert RankedAs(after, day, users);
    }
    if Ranked(after, day) {
      forall u, v | u in users && v in users && after[(u, day)].time < after[(v, day)].time
        ensures !Before(after[(v, day)], after[(u, day)])
      {
        EarlierStandsHigher(s, after, day, users, u, v);
      }
    }
  }

  lemma EarlierStandsHigher(s: State, after: Stats, day: int, users: seq<int>, u: int, v: int)
    requires RecalculatedAs(s, after, day, users) && UsersOf(after, day) == Elems(users)
    requires Ranked(after, day) && u in users && v in users
    requires after[(u, day)].time < after[(v, day)].time
    ensures !Before(after[(v, day)], after[(u, day)])
  {
    var i :| 0 <= i < |users| && users[i] == u;
    var j :| 0 <= j < |users| && users[j] == v;
    RankBounds(after, day, u);
    assert after[(users[i], day)].rank == i + 1 && after[(users[j], day)].rank == j + 1;
    assert after[(users[i], day)].time == s.attendances[(users[i], day)];
    assert after[(users[j], day)].time == s.attendances[(users[j], day)];
  }

  /** A run: consecutive steps from empty tables, with a clock that never runs back. */
  ghost predicate Run(ss: seq<State>, es: seq<Event>) {
    |ss| == |es| + 1 && ss[0] == State(map[], map[])
    && (forall i :: 0 <= i < |es| ==> Step(ss[i], es[i], ss[i + 1]))
    && forall i, j :: 0 <= i < j < |es| ==> es[i].now <= es[j].now
  }

  lemma StepKeepsTimes(s: State, e: Event, s': State, today: int)
    requires StreaksTrue(s, today) && TimesMatch(s) && Step(s, e, s')
    ensures TimesMatch(s')
  {
    if e.Recalculate? {
      RecalculateOnlyRanks(s, s'.stats, today, KstDay(e.now));
    }
    forall k | k in s'.stats && k in s'.attendances ensures s'.stats[k].time == s'.attendances[k] {
      if k in s.stats {
        assert s'.stats[k] == s.stats[k].(rank := s'.stats[k].rank);
      }
    }
  }

  lemma RanksChangeKeepsStreaks(s: State, s': State, day: int, today: int, later: int)
    requires StreaksTrue(s, today) && s'.attendances == s.attendances && OnlyRanksChange(s.stats, s'.stats, day)
    requires today <= later
    ensures StreaksTrue(s', later)
  {
    forall k | k in s'.stats
      ensures k.1 <= later && s'.stats[k].streak >= 1 && s'.stats[k].total == s'.stats[k].streak
      ensures IsRunLength(s'.stats.Keys, k.0, k.1, s'.stats[k].streak)
    {
      assert s'.stats[k] == s.stats[k].(rank := s'.stats[k].rank);
    }
  }

  /** In every state of every run, however check-ins, batch recalculations and re-rankings are mixed: each
      stored streak is the length of the user's run of consecutive days, and each stored total equals it. */
  lemma {:induction false} StreaksAreTrue(ss: seq<State>, es: seq<Event>, n: nat)
    requires Run(ss, es) && n <= |es|
    ensures TimesMatch(ss[n])
    ensures n > 0 ==> StreaksTrue(ss[n], KstDay(es[n - 1].now))
    ensures n == 0 ==> forall today :: StreaksTrue(ss[0], today)
  {
    if n > 0 {
      StreaksAreTrue(ss, es, n - 1);
      var e, s, s' := es[n - 1], ss[n - 1], ss[n];
      var today := KstDay(if n > 1 then es[n - 2].now else e.now);
      assert Step(ss[n - 1], es[n - 1], ss[n - 1 + 1]);
      StepKeepsTimes(s, e, s', today);
      match e
      case CheckIn(user, now) => CheckInKeepsStreaks(s, s', user, now, today);
      case Recalculate(now) =>
        RecalculateOnlyRanks(s, s'.stats, today, KstDay(now));
        RanksChangeKeepsStreaks(s, s', KstDay(now), today, KstDay(now));
      case ReRank(now) =>
        RanksChangeKeepsStreaks(s, s', KstDay(now), today, KstDay(now));
    }
  }

  /** In every run with distinct check-in times of the day: the batch job leaves its day ranked as the check-ins
      rank it if and only if, before it ran, nobody who came later stood higher. */
  lemma ArrivalRanksAgree(ss: seq<State>, es: seq<Event>, n: nat)
    requires Run(ss, es) && n < |es| && es[n].Recalculate?
    requires DistinctTimes(ss[n].stats, KstDay(es[n].now))
    ensures var day, stats := KstDay(es[n].now), ss[n].stats;
            Ranked(ss[n + 1].stats, day) <==>
            forall u, v :: u in UsersOf(stats, day) && v in UsersOf(stats, day)
                           && stats[(u, day)].time < stats[(v, day)].time ==>
              !Before(stats[(v, day)], stats[(u, day)])
  {
    var day, s, after := KstDay(es[n].now), ss[n], ss[n + 1].stats;
    var today := if n > 0 then KstDay(es[n - 1].now) else day;
    StreaksAreTrue(ss, es, n);
    assert Step(ss[n], es[n], ss[n + 1]);
    hide StreaksTrue, TimesMatch, Ranked, Run, Step, KstDay;
    var users :| RecalculatedAs(s, after, day, users);
    BatchKeepsKeys(s, after, today, day, users);
    RecalculateOnlyRanks(s, after, today, day);
    OrderIgnoresRanks(s.stats, after, day);
    forall u ensures u in UsersOf(after, day) <==> u in users {
      assert (u, day) in after <==> (u, day) in s.stats;
    }
    assert UsersOf(after, day) == Elems(users);
    WrittenRanksAgree(s, after, day, users);
  }

  lemma OrderIgnoresRanks(before: Stats, after: Stats, day: int)
    requires OnlyRanksChange(before, after, day)
    ensures UsersOf(after, day) == UsersOf(before, day)
    ensures DistinctTimes(before, day) ==> DistinctTimes(after, day)
    ensures forall u, v :: u in UsersOf(before, day) && v in UsersOf(before, day) ==>
              (after[(u, day)].time < after[(v, day)].time <==> before[(u, day)].time < before[(v, day)].time)
              && (Before(after[(u, day)], after[(v, day)]) <==> Before(before[(u, day)], before[(v, day)]))
  {
    forall u ensures u in UsersOf(before, day) <==> u in UsersOf(after, day) {
      assert (u, day) in before <==> (u, day) in after;
    }
    forall u | u in UsersOf(before, day)
      ensures after[(u, day)] == before[(u, day)].(rank := after[(u, day)].rank)
    {
      assert (u, day) in before;
    }
  }

  lemma RankedElsewhere(before: Stats, after: Stats, d: int)
    requires Ranked(before, d)
    requires forall k: Key :: k.1 == d ==> (k in before <==> k in after) && (k in before ==> after[k] == before[k])
    ensures Ranked(after, d)
  {
    var users :| RankedAs(before, d, users);
    forall u ensures u in UsersOf(before, d) <==> u in UsersOf(after, d) {
      assert (u, d) in before <==> (u, d) in after;
    }
    forall i | 0 <= i < |users| ensures after[(users[i], d)] == before[(users[i], d)] {
      assert (users[i], d) in before;
    }
    assert RankedAs(after, d, users);
  }

  /** In every state reached by check-ins and re-rankings the ranks of every day are the places of an ordered
      listing. Only the batch job can break this, for its own day, and the next re-ranking of that day, so the
      next check-in, restores it: from position m, empty or put right, the ranks last until a batch run. */
  lemma {:induction false} RanksAreKept(ss: seq<State>, es: seq<Event>, m: nat, n: nat, d: int)
    requires Run(ss, es) && m <= n <= |es| && (m == 0 || PutsRight(ss[m - 1], es[m - 1], d))
    requires forall i :: m <= i < n && es[i].Recalculate? ==> KstDay(es[i].now) != d
    ensures Ranked(ss[n].stats, d)
    decreases n
  {
    if n == 0 {
      assert RankedAs(ss[0].stats, d, []);
    } else {
      assert Step(ss[n - 1], es[n - 1], ss[n - 1 + 1]);
      if n > m {
        RanksAreKept(ss, es, m, n - 1, d);
        if KstDay(es[n - 1].now) != d {
          RankedElsewhere(ss[n - 1].stats, ss[n].stats, d);
        }
      }
    }
  }

  /** The event re-ranks day d: the seeder, or a check-in that is not refused. */
  predicate PutsRight(s: State, e: Event, d: int) {
    KstDay(e.now) == d
    && (e.ReRank? || (e.CheckIn? && (e.user, d) !in s.attendances && (e.user, d) !in s.stats))
  }

  /** The ranking in so many words: in such a state the larger total stands higher; of equal totals the larger streak;
      of equal totals and streaks the earlier check-in. */
  lemma RanksFollowTotalStreakTime(ss: seq<State>, es: seq<Event>, m: nat, n: nat, d: int, u: int, v: int)
    requires Run(ss, es) && m <= n <= |es| && (m == 0 || PutsRight(ss[m - 1], es[m - 1], d))
    requires forall i :: m <= i < n && es[i].Recalculate? ==> KstDay(es[i].now) != d
    requires (u, d) in ss[n].stats && (v, d) in ss[n].stats
    ensures var x, y := ss[n].stats[(u, d)], ss[n].stats[(v, d)];
            x.total > y.total || (x.total == y.total && x.streak > y.streak)
            || (x.total == y.total && x.streak == y.streak && x.time < y.time) ==>
              x.rank < y.rank
  {
    RanksAreKept(ss, es, m, n, d);
    hide Run, Ranked;
    RankBounds(ss[n].stats, d, v);
  }

  /** A step adds the attendance of a check-in, if it is the first, and takes none away. */
  lemma AttendanceStep(s: State, e: Event, s': State, k: Key)
    requires Step(s, e, s') && s.attendances.Keys == s.stats.Keys
    ensures k in s'.attendances <==> k in s.attendances || ChecksIn(e, k)
    ensures k in s.attendances ==> s'.attendances[k] == s.attendances[k]
    ensures k !in s.attendances && ChecksIn(e, k) ==> s'.attendances[k] == e.now
  {
    hide Recalculated, RowAdded, OnlyRanksChange, Ranked;
    if e.CheckIn? {
      var key := (e.user, KstDay(e.now));
      assert key in s.attendances <==> key in s.stats;
    }
  }

  predicate FirstCheckIn(es: seq<Event>, k: Key, i: int) {
    0 <= i < |es| && ChecksIn(es[i], k) && forall j :: 0 <= j < i ==> !ChecksIn(es[j], k)
  }

  /** In every run the attendances are the users' first check-ins of each Korean day, at their times. */
  lemma {:induction false} AttendancesAreCheckIns(ss: seq<State>, es: seq<Event>, n: nat, k: Key)
    requires Run(ss, es) && n <= |es|
    ensures |ss| == |es| + 1
    ensures k !in ss[n].attendances ==> forall i :: 0 <= i < n ==> !ChecksIn(es[i], k)
    ensures k in ss[n].attendances ==> exists i :: i < n && FirstCheckIn(es, k, i) && ss[n].attendances[k] == es[i].now
  {
    hide Run, Step, ChecksIn, FirstCheckIn;
    RunLength(ss, es);
    if n > 0 {
      AttendancesAreCheckIns(ss, es, n - 1, k);
      RunStep(ss, es, n - 1);
      AttendanceStep(ss[n - 1], es[n - 1], ss[n], k);
      if k in ss[n].attendances && k !in ss[n - 1].attendances {
        IsFirstCheckIn(es, k, n - 1);
      }
    }
  }

  lemma RunLength(ss: seq<State>, es: seq<Event>)
    requires Run(ss, es)
    ensures |ss| == |es| + 1 && ss[0] == State(map[], map[])
  {}

  lemma IsFirstCheckIn(es: seq<Event>, k: Key, i: int)
    requires 0 <= i < |es| && ChecksIn(es[i], k) && forall j :: 0 <= j < i ==> !ChecksIn(es[j], k)
    ensures FirstCheckIn(es, k, i)
  {}

  lemma RunStep(ss: seq<State>, es: seq<Event>, n: nat)
    requires Run(ss, es) && n < |es|
    ensures |ss| == |es| + 1 && Step(ss[n], es[n], ss[n + 1]) && ss[n].attendances.Keys == ss[n].stats.Keys
  {
    StreaksAreTrue(ss, es, n);
  }

  predicate ChecksIn(e: Event, k: Key) {
    e.CheckIn? && e.user == k.0 && (e.now + 32_400_000) / 86_400_000 == k.1
  }

  // ----- What the total counts -----

  function AttendedDays(attended: set<Key>, u: int, d: int): set<Key> {
    set k | k in attended && k.0 == u && k.1 <= d
  }

  function RunDays(u: int, d: int, n: nat): (s: set<Key>)
    ensures |s| == n && forall k: Key :: k in s <==> k.0 == u && d - n < k.1 <= d
  {
    if n == 0 then {} else RunDays(u, d, n - 1) + {(u, d - n + 1)}
  }

  lemma RunIsAllDays(attended: set<Key>, u: int, d: int, n: nat)
    requires IsRunLength(attended, u, d, n)
    ensures n <= |AttendedDays(attended, u, d)|
    ensures n == |AttendedDays(attended, u, d)| <==>
              forall k :: k in attended && k.0 == u && k.1 <= d ==> d - n < k.1
  {
    var run := RunDays(u, d, n);
    SubsetSize(run, AttendedDays(attended, u, d));
    if forall k :: k in attended && k.0 == u && k.1 <= d ==> d - n < k.1 {
      assert run == AttendedDays(attended, u, d);
    }
  }

  /** From the user's first attended day to this one, every day was attended. */
  ghost predicate NoneMissed(attendances: map<Key, int>, u: int, d: int) {
    forall first, x :: (u, first) in attendances && first <= x <= d ==> (u, x) in attendances
  }

  /** The column comment promises the number of attendance days up to the date. In every state of every run the
      stored total is never more than that, and equals it exactly when the user never missed a day. */
  lemma TotalIsAllDaysIffNoneMissed(ss: seq<State>, es: seq<Event>, n: nat, k: Key)
    requires Run(ss, es) && n <= |es| && k in ss[n].stats
    ensures var all := AttendedDays(ss[n].attendances.Keys, k.0, k.1);
            ss[n].stats[k].total <= |all|
            && (ss[n].stats[k].total == |all| <==> NoneMissed(ss[n].attendances, k.0, k.1))
  {
    StreaksAreTrue(ss, es, n);
    var s := ss[n];
    var attended, u, d, m := s.stats.Keys, k.0, k.1, s.stats[k].streak;
    assert attended == s.attendances.Keys;
    RunIsAllDays(attended, u, d, m);
    if forall a :: a in attended && a.0 == u && a.1 <= d ==> d - m < a.1 {
      forall first, x | (u, first) in s.attendances && first <= x <= d ensures (u, x) in s.attendances {
        assert (u, first) in attended;
        assert (u, x) in attended;
      }
    }
    if NoneMissed(s.attendances, u, d) {
      forall a | a in attended && a.0 == u && a.1 <= d ensures d - m < a.1 {
        assert (u, a.1) in s.attendances;
        assert (u, d - m) !in s.attendances;
      }
    }
  }

  /** Noon of a Korean day, in milliseconds. */
  function Noon(day: int): int {
    day * 86_400_000 + 10_800_000
  }

  lemma NoonIsThatDay(day: int)
    ensures KstDay(Noon(day)) == day && KstDay(Noon(day) + 1) == day
  {
    Euclid(Noon(day) + KST_OFFSET, 86_400_000, day, 43_200_000);
    Euclid(Noon(day) + 1 + KST_OFFSET, 86_400_000, day, 43_200_001);
  }

  /** A first check-in of a day is alone in its listing. */
  lemma AloneIsRanked(stats: Stats, day: int, u: int)
    requires UsersOf(stats, day) == {u} && (u, day) in stats && stats[(u, day)].rank == 1
    ensures Ranked(stats, day)
  {
    assert RankedAs(stats, day, [u]);
  }

  /** For example, a user who checks in on days 1 and 3 has attended on two days and a stored total of 1. */
  lemma TotalForgetsMissedDays()
    ensures var one := map[(7, 1) := Noon(1)];
            var two := one[(7, 3) := Noon(3)];
            var s1 := State(one, map[(7, 1) := Stat(1, 1, Noon(1), 1)]);
            var s2 := State(two, s1.stats[(7, 3) := Stat(1, 1, Noon(3), 1)]);
            Run([State(map[], map[]), s1, s2], [CheckIn(7, Noon(1)), CheckIn(7, Noon(3))])
            && s2.stats[(7, 3)].total == 1 && |AttendedDays(s2.attendances.Keys, 7, 3)| == 2
  {
    var empty := State(map[], map[]);
    var s1 := State(map[(7, 1) := Noon(1)], map[(7, 1) := Stat(1, 1, Noon(1), 1)]);
    var s2 := State(s1.attendances[(7, 3) := Noon(3)], s1.stats[(7, 3) := Stat(1, 1, Noon(3), 1)]);
    NoonIsThatDay(1);
    NoonIsThatDay(3);
    AloneIsRanked(s1.stats, 1, 7);
    AloneIsRanked(s2.stats, 3, 7);
    assert Step(empty, CheckIn(7, Noon(1)), s1);
    assert Step(s1, CheckIn(7, Noon(3)), s2);
    assert AttendedDays(s2.attendances.Keys, 7, 3) == {(7, 1), (7, 3)};
  }

  /** User 1 checks in on day 1; on day 2 user 2 comes first, and then user 1, who continues a run and so ranks
      higher; then the batch job runs. */
  function DayOne(): State {
    State(map[(1, 1) := Noon(1)], map[(1, 1) := Stat(1, 1, Noon(1), 1)])
  }

  function Morning(): State {
    State(DayOne().attendances[(2, 2) := Noon(2)], DayOne().stats[(2, 2) := Stat(1, 1, Noon(2), 1)])
  }

  function DayTwo(batch: bool): State {
    State(Morning().attendances[(1, 2) := Noon(2) + 1],
          DayOne().stats[(2, 2) := Stat(1, 1, Noon(2), if batch then 1 else 2)]
                        [(1, 2) := Stat(2, 2, Noon(2) + 1, if batch then 2 else 1)])
  }

  lemma DayTwoUsers(batch: bool)
    ensures UsersOf(DayTwo(batch).stats, 2) == {1, 2} && Attendees(DayTwo(batch).attendances, 2) == {1, 2}
  {
    var s := DayTwo(batch);
    assert (1, 2) in s.stats && (2, 2) in s.stats && (1, 2) in s.attendances && (2, 2) in s.attendances;
  }

  lemma DayTwoStep()
    ensures Step(Morning(), CheckIn(1, Noon(2) + 1), DayTwo(false))
  {
    NoonIsThatDay(2);
    DayTwoUsers(false);
    assert RankedAs(DayTwo(false).stats, 2, [1, 2]);
    assert Ranked(DayTwo(false).stats, 2);
    hide Ranked, KstDay, Noon;
    assert RowAdded(Morning().stats, DayTwo(false).stats, 1, 2, Noon(2) + 1);
  }

  lemma BatchStepOfDayTwo()
    ensures Step(DayTwo(false), Recalculate(Noon(2) + 1), DayTwo(true))
  {
    NoonIsThatDay(2);
    DayTwoUsers(false);
    hide KstDay;
    assert RecalculatedAs(DayTwo(false), DayTwo(true).stats, 2, [2, 1]);
  }

  lemma FirstSteps()
    ensures Step(State(map[], map[]), CheckIn(1, Noon(1)), DayOne())
    ensures Step(DayOne(), CheckIn(2, Noon(2)), Morning())
  {
    NoonIsThatDay(1);
    NoonIsThatDay(2);
    AloneIsRanked(DayOne().stats, 1, 1);
    AloneIsRanked(Morning().stats, 2, 2);
    hide Ranked, KstDay, Noon;
    assert RowAdded(map[], DayOne().stats, 1, 1, Noon(1));
    assert RowAdded(DayOne().stats, Morning().stats, 2, 2, Noon(2));
  }

  /** In this run the batch job's ranks by arrival are wrong. */
  lemma ArrivalRanksMayBeWrong()
    ensures Run([State(map[], map[]), DayOne(), Morning(), DayTwo(false), DayTwo(true)],
                [CheckIn(1, Noon(1)), CheckIn(2, Noon(2)), CheckIn(1, Noon(2) + 1), Recalculate(Noon(2) + 1)])
    ensures !Ranked(DayTwo(true).stats, 2)
  {
    hide Ranked, Step;
    FirstSteps();
    DayTwoStep();
    BatchStepOfDayTwo();
    DayTwoUsers(true);
    assert 1 in Better(DayTwo(true).stats, 2, DayTwo(true).stats[(2, 2)]);
    if Ranked(DayTwo(true).stats, 2) {
      RankBounds(DayTwo(true).stats, 2, 2);
    }
  }

  // ----- The use cases -----

  /** With distinct times there is one listing only, and a well ranked day is ranked by it. */
  lemma OnlyListing(stats: Stats, day: int, users: seq<int>)
    requires Ranked(stats, day) && DistinctTimes(stats, day) && Listing(stats, day, users)
    ensures RankedAs(stats, day, users)
  {
    forall n | 0 <= n < |users| ensures stats[(users[n], day)].rank == n + 1 {
      var u := users[n];
      RankCountsBetter(stats, day, u);
      forall i | 0 <= i < n ensures Before(stats[(users[i], day)], stats[(u, day)]) {
        assert users[i] in UsersOf(stats, day) && users[i] != u;
      }
      BetterIsPrefix(stats, day, users, stats[(u, day)], n);
    }
  }

  ghost predicate StrictOrder(users: set<int>, less: (int, int) -> bool) {
    (forall a :: a in users ==> !less(a, a))
    && forall a, b, c :: a in users && b in users && c in users && less(a, b) && less(b, c) ==> less(a, c)
  }

  predicate OrderedBy(users: seq<int>, less: (int, int) -> bool) {
    forall i, j :: 0 <= i < j < |users| ==> !less(users[j], users[i])
  }

  lemma StrictAt(users: set<int>, less: (int, int) -> bool, a: int, b: int, c: int)
    requires StrictOrder(users, less) && a in users && b in users && c in users
    ensures !less(a, a) && (less(a, b) && less(b, c) ==> less(a, c))
  {}

  lemma InsertionKeepsOrder(all: set<int>, users: seq<int>, less: (int, int) -> bool, u: int, i: nat)
    requires StrictOrder(all, less) && OrderedBy(users, less) && u in all && u !in users
    requires Distinct(users) && forall k :: 0 <= k < |users| ==> users[k] in all
    requires i <= |users| && (i < |users| ==> less(u, users[i]))
    requires forall k :: 0 <= k < i ==> !less(u, users[k])
    ensures var more := users[..i] + [u] + users[i..];
            OrderedBy(more, less) && Distinct(more) && Elems(more) == Elems(users) + {u}
  {
    var more := users[..i] + [u] + users[i..];
    forall k | i <= k < |users| ensures !less(users[k], u) {
      StrictAt(all, less, users[k], u, users[i]);
    }
    assert Elems(more) == Elems(users[..i] + users[i..]) + {u};
    assert users[..i] + users[i..] == users;
  }

  /** The database's ORDER BY, on a set of users. */
  method OrderBy(users: set<int>, less: (int, int) -> bool) returns (s: seq<int>)
    requires StrictOrder(users, less)
    ensures Lists(s, users) && OrderedBy(s, less)
  {
    s := [];
    var todo := users;
    while exists u :: u in todo
      invariant todo <= users && Elems(s) == users - todo && Distinct(s) && OrderedBy(s, less)
      decreases todo
    {
      var u :| u in todo;
      assert u !in Elems(s);
      assert forall k :: 0 <= k < |s| ==> s[k] in Elems(s);
      var i := 0;
      while i < |s| && !less(u, s[i])
        invariant 0 <= i <= |s| && forall k :: 0 <= k < i ==> !less(u, s[k])
      {
        i := i + 1;
      }
      InsertionKeepsOrder(users, s, less, u, i);
      s := s[..i] + [u] + s[i..];
      todo := todo - {u};
    }
    assert todo == {};
    assert forall k :: 0 <= k < |s| ==> s[k] in Elems(s);
    assert forall u :: u in users ==> u in Elems(s);
  }

  /** The day numbers of `getTodayInKST()` and `getYesterdayInKST()`, from one clock reading. */
  method TodayAndYesterday(now: int) returns (today: int, yesterday: int)
    requires ServerTime(now)
    ensures today == KstDay(now) && yesterday == today - 1
  {
    ServerClock(now);
    var todayDate := GetTodayInKst(now);
    var yesterdayDate := GetYesterdayInKst(now);
    MidnightOf(KstDay(now));
    MidnightOf(KstDay(now) - 1);
    today, yesterday := Day(todayDate), Day(yesterdayDate.value);
  }

  /** The batch job after the first n users of its list. */
  ghost predicate BatchProgress(s: State, stats: Stats, day: int, users: seq<int>, n: int) {
    0 <= n <= |users|
    && (forall i :: 0 <= i < n ==>
          (users[i], day) in s.attendances && (users[i], day) in stats
          && stats[(users[i], day)] == BatchRowOf(s, day, users[i], i))
    && (forall k :: k in s.stats && (k.1 != day || k.0 !in users[..n]) ==> k in stats && stats[k] == s.stats[k])
    && forall k :: k in stats ==> k in s.stats || (k.1 == day && k.0 in users)
  }

  lemma BatchStep(s: State, stats: Stats, day: int, users: seq<int>, n: nat)
    requires BatchProgress(s, stats, day, users, n) && n < |users| && Distinct(users)
    requires (users[n], day) in s.attendances
    ensures BatchProgress(s, stats[(users[n], day) := BatchRowOf(s, day, users[n], n)], day, users, n + 1)
  {
    assert users[..n + 1] == users[..n] + [users[n]];
  }

  datatype CheckInResult =
    | MessageTooLong
    | AlreadyCheckedIn
    | StatisticExists
    | CheckedIn(totalAttendanceDays: int, currentStreak: int, attendanceRank: int)

  class AttendanceTables {
    var attendances: map<Key, int>
    var stats: Stats

    ghost function Abs(): State
      reads this
    {
      State(attendances, stats)
    }

    constructor ()
      ensures Abs() == State(map[], map[])
    {
      attendances, stats := map[], map[];
    }

    method FindStatistics(day: int) returns (users: seq<int>)
      ensures Listing(stats, day, users)
    {
      var rows := stats;
      var less := (u, v) => (u, day) in rows && (v, day) in rows && Before(rows[(u, day)], rows[(v, day)]);
      users := OrderBy(UsersOf(rows, day), less);
      forall i, j | 0 <= i < j < |users| ensures !Before(rows[(users[j], day)], rows[(users[i], day)]) {
        assert !less(users[j], users[i]);
      }
    }

    method FindAttendances(day: int) returns (users: seq<int>)
      ensures ArrivalListing(attendances, day, users)
    {
      var rows := attendances;
      var less := (u, v) => (u, day) in rows && (v, day) in rows && rows[(u, day)] < rows[(v, day)];
      users := OrderBy(Attendees(rows, day), less);
      forall i, j | 0 <= i < j < |users| && (users[i], day) in rows && (users[j], day) in rows
        ensures rows[(users[i], day)] <= rows[(users[j], day)]
      {
        assert !less(users[j], users[i]);
      }
    }

    /** The early-exit loop: one more than the number of strictly better rows. */
    method RankAmong(users: seq<int>, day: int, r: Stat) returns (attendanceRank: int)
      requires Listing(stats, day, users)
      ensures attendanceRank == 1 + |Better(stats, day, r)|
    {
      attendanceRank := 1;
      for i := 0 to |users|
        invariant attendanceRank == i + 1
        invariant forall k :: 0 <= k < i ==> Before(stats[(users[k], day)], r)
      {
        var stat := stats[(users[i], day)];
        if stat.total > r.total {
          attendanceRank := attendanceRank + 1;
          continue;
        }
        if stat.total < r.total {
          break;
        }
        if stat.streak > r.streak {
          attendanceRank := attendanceRank + 1;
          continue;
        }
        if stat.streak < r.streak {
          break;
        }
        if stat.time < r.time {
          attendanceRank := attendanceRank + 1;
        } else {
          break;
        }
      }
      BetterIsPrefix(stats, day, users, r, attendanceRank - 1);
    }

    /** Re-rank one day by position; only ranks change, only of that day, and none if they were right. */
    method ReRankDay(day: int) returns (updatedCount: nat)
      modifies this`stats
      ensures OnlyRanksChange(old(stats), stats, day) && Ranked(stats, day)
      ensures Ranked(old(stats), day) && DistinctTimes(old(stats), day) ==> updatedCount == 0 && stats == old(stats)
    {
      var users := FindStatistics(day);
      ghost var right := Ranked(stats, day) && DistinctTimes(stats, day);
      if right {
        OnlyListing(stats, day, users);
      }
      updatedCount := 0;
      for i := 0 to |users|
        invariant OnlyRanksChange(old(stats), stats, day)
        invariant forall k :: 0 <= k < i ==> stats[(users[k], day)].rank == k + 1
        invariant right ==> updatedCount == 0 && stats == old(stats)
      {
        var key := (users[i], day);
        var newRank := i + 1;
        if stats[key].rank != newRank {
          stats := stats[key := stats[key].(rank := newRank)];
          updatedCount := updatedCount + 1;
        }
      }
      SameListing(old(stats), stats, day, users);
    }

    /** `CreateAttendanceUseCase.execute`. */
    method CheckInToday(user: int, messageLength: nat, now: int) returns (r: CheckInResult)
      requires ServerTime(now)
      modifies this
      ensures if r == MessageTooLong then messageLength > 20 && Abs() == old(Abs())
              else messageLength <= 20 && Step(old(Abs()), CheckIn(user, now), Abs())
      ensures r.CheckedIn? <==>
                messageLength <= 20 && (user, KstDay(now)) !in old(attendances) && (user, KstDay(now)) !in old(stats)
      ensures r == AlreadyCheckedIn <==> messageLength <= 20 && (user, KstDay(now)) in old(attendances)
      ensures r.CheckedIn? ==>
                var row := stats[(user, KstDay(now))];
                r == CheckedIn(row.total, row.streak, row.rank)
      ensures r.CheckedIn? && DistinctTimes(stats, KstDay(now)) ==>
                var day, total, streak := KstDay(now), r.totalAttendanceDays, r.currentStreak;
                r.attendanceRank
                == 1 + |set u | u in UsersOf(old(stats), day)
                               && var row := old(stats)[(u, day)];
                                  row.total > total || (row.total == total && row.streak > streak)
                                  || (row.total == total && row.streak == streak && row.time < now)|
    {
      if messageLength > 20 {
        return MessageTooLong;
      }
      var today, yesterday := TodayAndYesterday(now);
      if (user, today) in attendances {
        return AlreadyCheckedIn;
      }
      if (user, today) in stats {
        return StatisticExists;  // the unique constraint aborts the transaction
      }
      var totalAttendanceDays := (if (user, yesterday) in stats then stats[(user, yesterday)].total else 0) + 1;
      var currentStreak;
      if (user, yesterday) in stats && stats[(user, yesterday)].streak > 0 {
        currentStreak := stats[(user, yesterday)].streak + 1;
      } else {
        currentStreak := 1;
      }
      attendances := attendances[(user, today) := now];
      var todayStats := FindStatistics(today);
      var statistic := Stat(totalAttendanceDays, currentStreak, now, 0);
      var attendanceRank := RankAmong(todayStats, today, statistic);
      stats := stats[(user, today) := statistic.(rank := attendanceRank)];
      var _ := ReRankDay(today);
      assert RowAdded(old(stats), stats, user, today, now);
      if DistinctTimes(stats, today) {
        EarlyRankIsFinal(old(stats), stats, user, today, now);
        BetterIs(old(stats), today, stats[(user, today)]);
      }
      r := CheckedIn(totalAttendanceDays, currentStreak, stats[(user, today)].rank);
    }

    /** `AttendanceDemoSeeder.seed`. */
    method Seed(now: int) returns (updatedCount: nat)
      requires ServerTime(now)
      modifies this
      ensures Step(old(Abs()), ReRank(now), Abs())
      ensures Ranked(old(stats), KstDay(now)) && DistinctTimes(old(stats), KstDay(now)) ==>
              updatedCount == 0 && Abs() == old(Abs())
    {
      var today, _ := TodayAndYesterday(now);
      updatedCount := ReRankDay(today);
    }

    /** The `map` over today's attendances, with yesterday's rows looked up in one query. */
    method ComputeStatistics(users: seq<int>, today: int, yesterday: int) returns (rows: seq<Stat>)
      requires yesterday == today - 1 && forall i :: 0 <= i < |users| ==> (users[i], today) in attendances
      ensures |rows| == |users|
      ensures forall i :: 0 <= i < |users| ==> rows[i] == BatchRowOf(Abs(), today, users[i], i)
    {
      var yesterdayStats := map u | u in users && (u, yesterday) in stats :: stats[(u, yesterday)];
      var times := attendances;
      forall i | 0 <= i < |users| ensures Lookup(yesterdayStats, users[i]) == Lookup(stats, (users[i], yesterday)) {
        assert users[i] in users;
      }
      rows := seq(|users|, i requires 0 <= i < |users| && (users[i], today) in times =>
        BatchRow(times[(users[i], today)], Lookup(yesterdayStats, users[i]), i));
    }

    /** `CalculateAttendanceStatisticsUseCase.execute`. */
    method CalculateStatistics(now: int)
      requires ServerTime(now)
      modifies this
      ensures Step(old(Abs()), Recalculate(now), Abs())
    {
      var today, yesterday := TodayAndYesterday(now);
      var users := FindAttendances(today);
      ghost var s := Abs();
      if |users| == 0 {
        assert RecalculatedAs(s, stats, today, users);
        return;
      }
      forall i | 0 <= i < |users| ensures (users[i], today) in attendances {
        assert users[i] in Attendees(attendances, today);
      }
      var statisticsToSave := ComputeStatistics(users, today, yesterday);
      for i := 0 to |users|
        invariant attendances == s.attendances && BatchProgress(s, stats, today, users, i)
      {
        BatchStep(s, stats, today, users, i);
        stats := stats[(users[i], today) := statisticsToSave[i]];
      }
      assert users[..|users|] == users;
      assert RecalculatedAs(s, stats, today, users);
    }
  }

  lemma SameListing(before: Stats, after: Stats, day: int, users: seq<int>)
    requires OnlyRanksChange(before, after, day) && Listing(before, day, users)
    ensures Listing(after, day, users)
    ensures (forall i :: 0 <= i < |users| ==> after[(users[i], day)].rank == i + 1) ==> Ranked(after, day)
  {
    forall u ensures u in UsersOf(before, day) <==> u in UsersOf(after, day) {
      assert (u, day) in before <==> (u, day) in after;
    }
    forall i | 0 <= i < |users| ensures (users[i], day) in before {
      assert users[i] in UsersOf(before, day);
    }
    assert (forall i :: 0 <= i < |users| ==> after[(users[i], day)].rank == i + 1) ==> RankedAs(after, day, users);
  }
}
