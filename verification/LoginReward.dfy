/** The reward for the first login of a Korean day, src/modules/auth/application/handlers/login.use-case.ts.
    A login is one step with one clock reading; its token is the business of TokenLifecycle. */
module LoginReward {
  import opened KstDate

  /** A successful login: who, whether it asked for points, and when. */
  datatype Login = Login(user: int, point: bool, now: int)

  datatype Reward = Reward(user: int, at: int)

  datatype State = State(lastLoginAt: map<int, int>, rewards: seq<Reward>)

  function IsFirstLoginToday(s: State, e: Login): bool {
    e.user in s.lastLoginAt ==> KstDay(s.lastLoginAt[e.user]) != KstDay(e.now)
  }

  function After(s: State, e: Login): State {
    State(s.lastLoginAt[e.user := e.now],
          if IsFirstLoginToday(s, e) && e.point then s.rewards + [Reward(e.user, e.now)] else s.rewards)
  }

  function RunState(es: seq<Login>): State {
    if es == [] then State(map[], []) else After(RunState(es[..|es| - 1]), es[|es| - 1])
  }

  predicate Monotone(es: seq<Login>) {
    forall i, j :: 0 <= i < j < |es| ==> es[i].now <= es[j].now
  }

  /** How many rewards a user got on a Korean day. */
  function RewardsOn(rewards: seq<Reward>, user: int, day: int): nat {
    if rewards == [] then 0
    else
      var r := rewards[|rewards| - 1];
      RewardsOn(rewards[..|rewards| - 1], user, day) + if r.user == user && KstDay(r.at) == day then 1 else 0
  }

  /** The user's first login of that day, as a position in the run. */
  predicate FirstOn(es: seq<Login>, user: int, day: int, i: int) {
    0 <= i < |es| && LoginOn(es[i], user, day) && forall j :: 0 <= j < i ==> !LoginOn(es[j], user, day)
  }

  predicate LoginOn(e: Login, user: int, day: int) {
    e.user == user && KstDay(e.now) == day
  }

  lemma RewardsGrow(rewards: seq<Reward>, r: Reward, user: int, day: int)
    ensures RewardsOn(rewards + [r], user, day)
            == RewardsOn(rewards, user, day) + if r.user == user && KstDay(r.at) == day then 1 else 0
  {
    assert (rewards + [r])[..|rewards|] == rewards;
  }

  /** The user's last login of the run, as a position in it. */
  predicate LastOf(es: seq<Login>, user: int, i: int) {
    0 <= i < |es| && es[i].user == user && forall j :: i < j < |es| ==> es[j].user != user
  }

  /** The stored last login is the user's latest. */
  lemma {:induction false} LastLoginIsLatest(es: seq<Login>, user: int)
    ensures var last := RunState(es).lastLoginAt;
            if user in last then exists i :: LastOf(es, user, i) && last[user] == es[i].now
            else forall i :: 0 <= i < |es| ==> es[i].user != user
    decreases |es|
  {
    hide KstDay;
    if es != [] {
      var n := |es| - 1;
      LastLoginIsLatest(es[..n], user);
      assert forall i :: 0 <= i < n ==> es[..n][i] == es[i];
      if es[n].user == user {
        assert LastOf(es, user, n);
      } else if user in RunState(es).lastLoginAt {
        var i :| LastOf(es[..n], user, i) && RunState(es).lastLoginAt[user] == es[..n][i].now;
        assert LastOf(es, user, i);
      }
    }
  }

  /** The user's last login before login n was on another day exactly when none before it was on n's day. */
  lemma LastLoginDecides(es: seq<Login>, user: int, n: int, i: int)
    requires Monotone(es) && 0 <= n < |es| && LastOf(es[..n], user, i)
    ensures var day := KstDay(es[n].now);
            KstDay(es[i].now) != day <==> forall j :: 0 <= j < n ==> !LoginOn(es[j], user, day)
  {
    hide KstDay;
    var day := KstDay(es[n].now);
    assert forall j :: 0 <= j < n ==> es[..n][j] == es[j];
    if KstDay(es[i].now) == day {
      assert LoginOn(es[i], user, day);
    } else {
      forall j | 0 <= j < n ensures !LoginOn(es[j], user, day) {
        if j < i {
          DaysAreMonotone(es[j].now, es[i].now);
          DaysAreMonotone(es[i].now, es[n].now);
        }
      }
    }
  }

  /** With a clock that never runs back, comparing with the last login alone tells whether this is the first
      login of the day. */
  lemma ComparisonFindsFirst(es: seq<Login>)
    requires es != [] && Monotone(es)
    ensures var n := |es| - 1;
            IsFirstLoginToday(RunState(es[..n]), es[n]) <==> FirstOn(es, es[n].user, KstDay(es[n].now), n)
  {
    hide KstDay, Monotone, RunState;
    var n := |es| - 1;
    var before, user, day := es[..n], es[n].user, KstDay(es[n].now);
    LastLoginIsLatest(before, user);
    if user in RunState(before).lastLoginAt {
      var i :| LastOf(before, user, i) && RunState(before).lastLoginAt[user] == before[i].now;
      LastLoginDecides(es, user, n, i);
    } else {
      assert forall j :: 0 <= j < n ==> before[j] == es[j];
    }
  }

  lemma DaysAreMonotone(a: int, b: int)
    requires a <= b
    ensures KstDay(a) <= KstDay(b)
  {}

  /** Over every run: a user's rewards on a Korean day are at most one, and one exactly when the first login of
      that day asked for points. Later logins of the day get none, whatever they ask. */
  lemma {:induction false} OneRewardPerDay(es: seq<Login>, user: int, day: int)
    requires Monotone(es)
    ensures RewardsOn(RunState(es).rewards, user, day)
            == if exists i :: FirstOn(es, user, day, i) && es[i].point then 1 else 0
    decreases |es|
  {
    hide KstDay, IsFirstLoginToday, LoginOn;
    if es != [] {
      var n := |es| - 1;
      var before, s := es[..n], RunState(es[..n]);
      OneRewardPerDay(before, user, day);
      FirstOnGrows(es, user, day);
      ComparisonFindsFirst(es);
      RewardsGrow(s.rewards, Reward(es[n].user, es[n].now), user, day);
      LoginOnIs(es[n], user, day);
      if FirstOn(es, user, day, n) {
        assert forall i :: !FirstOn(before, user, day, i);
      } else {
        assert forall i :: FirstOn(es, user, day, i) <==> FirstOn(before, user, day, i);
      }
    }
  }

  lemma LoginOnIs(e: Login, user: int, day: int)
    ensures LoginOn(e, user, day) <==> e.user == user && KstDay(e.now) == day
  {}

  /** A further login adds at most a first login at the end. */
  lemma FirstOnGrows(es: seq<Login>, user: int, day: int)
    requires es != []
    ensures var n := |es| - 1;
            forall i :: FirstOn(es, user, day, i)
                        <==> FirstOn(es[..n], user, day, i) || (i == n && FirstOn(es, user, day, n))
    ensures var before := es[..|es| - 1];
            FirstOn(es, user, day, |es| - 1) ==> forall i :: !FirstOn(before, user, day, i)
    ensures FirstOn(es, user, day, |es| - 1) ==> LoginOn(es[|es| - 1], user, day)
  {
    var n := |es| - 1;
    assert forall i :: 0 <= i < n ==> es[..n][i] == es[i];
    forall i
      ensures FirstOn(es, user, day, i) <==> FirstOn(es[..n], user, day, i) || (i == n && FirstOn(es, user, day, n))
    {}
  }

  class LoginService {
    var lastLoginAt: map<int, int>
    var rewards: seq<Reward>

    ghost function Abs(): State
      reads this
    {
      State(lastLoginAt, rewards)
    }

    constructor ()
      ensures Abs() == RunState([])
    {
      lastLoginAt, rewards := map[], [];
    }

    /** The decision is taken on the two dates as `getTodayInKST` and `getDateInKST` compute them. */
    method Execute(user: int, point: bool, now: int)
      requires ServerTime(now) && forall u :: u in lastLoginAt ==> ServerTime(lastLoginAt[u])
      modifies this
      ensures Abs() == After(old(Abs()), Login(user, point, now))
      ensures forall u :: u in lastLoginAt ==> ServerTime(lastLoginAt[u])
    {
      var todayKst := KstMidnight(now);
      var isFirstLoginToday := point;
      if user in lastLoginAt {
        var lastLoginDateKst := KstMidnight(lastLoginAt[user]);
        isFirstLoginToday := lastLoginDateKst != todayKst && point;
      }
      lastLoginAt := lastLoginAt[user := now];
      if isFirstLoginToday {
        rewards := rewards + [Reward(user, now)];
      }
    }
  }

  method KstMidnight(t: int) returns (r: int)
    requires ServerTime(t)
    ensures r == DateOf(KstDay(t))
  {
    ServerClock(t);
    r := GetDateInKst(t);
  }
}
