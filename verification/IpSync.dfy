/** Address tracking: the expiring Redis sets of src/shared/redis/redis.service.ts and their transfer to
    the `user_ips` table by src/commands/scheduler/user-ip-sync.service.ts. */
module IpSync {
  import opened Common

  const TTL := 3_600_000
  const CHUNK := 1000
  const PREFIX := "user:ips:"

  type Pair = (string, string)

  /** A Redis set with its expiry: the key exists strictly before `expireAt`. */
  datatype IpSet = IpSet(ips: set<string>, expireAt: int)

  type Redis = map<string, IpSet>

  function KeyOf(userId: string): string {
    PREFIX + userId
  }

  predicate LineTerminator(c: char) {
    c in {'\n', '\r', '\U{2028}', '\U{2029}'}
  }

  /** The ids that /^user:ips:(.+)$/ can give back; a UUID is one. */
  predicate ProperId(userId: string) {
    userId != "" && forall i :: 0 <= i < |userId| ==> !LineTerminator(userId[i])
  }

  function UserIdOf(key: string): Option<string> {
    if PREFIX <= key && ProperId(key[|PREFIX|..]) then Some(key[|PREFIX|..]) else None
  }

  lemma KeyGivesUser(key: string, userId: string)
    ensures UserIdOf(key) == Some(userId) <==> key == KeyOf(userId) && ProperId(userId)
  {
    assert KeyOf(userId)[|PREFIX|..] == userId;
    if PREFIX <= key {
      assert key == PREFIX + key[|PREFIX|..];
    }
  }

  predicate Live(redis: Redis, key: string, now: int) {
    key in redis && now < redis[key].expireAt
  }

  /** The pairs a sync finds: one for every address in a live set of a recognisable user. */
  ghost predicate Found(redis: Redis, now: int, p: Pair) {
    ProperId(p.0) && Live(redis, KeyOf(p.0), now) && p.1 in redis[KeyOf(p.0)].ips
  }

  ghost function FoundPairs(redis: Redis, now: int): set<Pair> {
    set key, ip | key in redis && ip in redis[key].ips && Live(redis, key, now) && UserIdOf(key).Some?
      :: (UserIdOf(key).value, ip)
  }

  lemma FoundPairsIsFound(redis: Redis, now: int, p: Pair)
    ensures p in FoundPairs(redis, now) <==> Found(redis, now, p)
  {
    if p in FoundPairs(redis, now) {
      var key, ip :| key in redis && ip in redis[key].ips && Live(redis, key, now) && UserIdOf(key).Some?
                     && p == (UserIdOf(key).value, ip);
      KeyGivesUser(key, p.0);
    }
    if Found(redis, now, p) {
      KeyGivesUser(KeyOf(p.0), p.0);
    }
  }

  /** `sAdd` then `expire`: an expired set is gone before the address is added. */
  function Tracked(redis: Redis, userId: string, ip: string, now: int): Redis {
    var key := KeyOf(userId);
    redis[key := IpSet((if Live(redis, key, now) then redis[key].ips else {}) + {ip}, now + TTL)]
  }

  /** A row of `user_ips`, up to its key. */
  datatype Stamp = Stamp(createdAt: int, updatedAt: int)

  type Rows = map<Pair, Stamp>

  /** When a sync writes each of its pairs: NOW() of the statement that names it. */
  type Stamps = map<Pair, int>

  /** INSERT ... ON CONFLICT DO UPDATE SET updated_at = NOW(). */
  function Upserted(rows: Rows, at: Stamps): Rows {
    map p | p in rows.Keys + at.Keys ::
      if p in at then Stamp(if p in rows then rows[p].createdAt else at[p], at[p]) else rows[p]
  }

  function AllAt(pairs: set<Pair>, t: int): Stamps {
    map p | p in pairs :: t
  }

  lemma UpsertInChunks(rows: Rows, a: Stamps, b: Stamps)
    requires a.Keys !! b.Keys
    ensures Upserted(Upserted(rows, a), b) == Upserted(rows, a + b)
  {}

  /** Chunk k of the list is written by one statement, at times[k]. */
  predicate StampedBy(at: Stamps, bulkData: seq<Pair>, times: seq<int>)
    requires |bulkData| <= |times| * CHUNK
  {
    at.Keys == Elems(bulkData)
    && forall i :: 0 <= i < |bulkData| ==> bulkData[i] in at && at[bulkData[i]] == times[i / CHUNK]
  }

  /** Not before in the order (updatedAt, createdAt). */
  predicate AtLeast(r: Stamp, q: Stamp) {
    r.updatedAt > q.updatedAt || (r.updatedAt == q.updatedAt && r.createdAt >= q.createdAt)
  }

  /** A possible answer to ORDER BY updatedAt DESC, createdAt DESC LIMIT 1. */
  ghost predicate MostRecent(rows: Rows, userId: string, ip: string) {
    (userId, ip) in rows && forall p :: p in rows && p.0 == userId ==> AtLeast(rows[(userId, ip)], rows[p])
  }

  class UserIpSync {
    var redis: Redis
    var rows: Rows
    var lastRequestIp: map<string, string>

    constructor ()
      ensures redis == map[] && rows == map[] && lastRequestIp == map[]
    {
      redis, rows, lastRequestIp := map[], map[], map[];
    }

    method AddUserIp(userId: string, ip: string, now: int)
      modifies this`redis
      ensures redis == Tracked(old(redis), userId, ip, now)
    {
      var key := KeyOf(userId);
      var ips := if key in redis && now < redis[key].expireAt then redis[key].ips else {};
      redis := redis[key := IpSet(ips + {ip}, now + 3600 * 1000)];
    }

    /** One statement. PostgreSQL refuses a statement that names a row twice. */
    method BulkUpsert(chunk: seq<Pair>, now: int) returns (ok: bool)
      modifies this`rows
      ensures ok <==> Distinct(chunk)
      ensures rows == if ok then Upserted(old(rows), AllAt(Elems(chunk), now)) else old(rows)
    {
      ok := forall i :: 0 <= i < |chunk| ==> forall j :: i < j < |chunk| ==> chunk[i] != chunk[j];
      if ok {
        rows := Upserted(rows, AllAt(Elems(chunk), now));
      }
    }

    method MostRecentIp(userId: string) returns (ip: Option<string>)
      ensures ip.Some? ==> MostRecent(rows, userId, ip.value)
      ensures ip == None ==> forall p :: p in rows ==> p.0 != userId
    {
      ip := None;
      var todo := rows.Keys;
      while todo != {}
        invariant todo <= rows.Keys
        invariant ip.Some? ==> (userId, ip.value) in rows
        invariant forall p :: p in rows && p !in todo && p.0 == userId ==>
                    ip.Some? && AtLeast(rows[(userId, ip.value)], rows[p])
        decreases todo
      {
        var p :| p in todo;
        todo := todo - {p};
        if p.0 == userId && (ip == None || !AtLeast(rows[(userId, ip.value)], rows[p])) {
          ip := Some(p.1);
        }
      }
    }

    /** Collects the live sets user by user. */
    method CollectIps(now: int) returns (userIps: map<string, set<string>>)
      ensures forall u :: u in userIps <==> ProperId(u) && Live(redis, KeyOf(u), now) && redis[KeyOf(u)].ips != {}
      ensures forall u :: u in userIps ==> KeyOf(u) in redis && userIps[u] == redis[KeyOf(u)].ips
    {
      userIps := map[];
      var keys := set key | key in redis && now < redis[key].expireAt;
      while keys != {}
        invariant forall key :: key in keys ==> Live(redis, key, now)
        invariant forall u :: u in userIps <==>
          ProperId(u) && Live(redis, KeyOf(u), now) && redis[KeyOf(u)].ips != {} && KeyOf(u) !in keys
        invariant forall u :: u in userIps ==> KeyOf(u) in redis && userIps[u] == redis[KeyOf(u)].ips
        decreases keys
      {
        var key :| key in keys;
        keys := keys - {key};
        var userId := UserIdOf(key);
        forall u ensures UserIdOf(key) == Some(u) <==> key == KeyOf(u) && ProperId(u) {
          KeyGivesUser(key, u);
        }
        if userId.Some? && redis[key].ips != {} {
          userIps := userIps[userId.value := redis[key].ips];
        }
      }
    }

    /** Flattens the map into a list of pairs, each once. */
    method Flatten(userIps: map<string, set<string>>) returns (bulkData: seq<Pair>)
      ensures Distinct(bulkData)
      ensures forall p: Pair :: p in bulkData <==> p.0 in userIps && p.1 in userIps[p.0]
    {
      bulkData := [];
      var users := userIps.Keys;
      while users != {}
        invariant users <= userIps.Keys && Distinct(bulkData)
        invariant forall p: Pair :: p in bulkData <==> p.0 in userIps && p.1 in userIps[p.0] && p.0 !in users
        decreases users
      {
        var userId :| userId in users;
        var ips := userIps[userId];
        ghost var done := bulkData;
        while ips != {}
          invariant ips <= userIps[userId] && Distinct(bulkData)
          invariant forall p: Pair :: p in bulkData <==> p in done || (p.0 == userId && p.1 in userIps[userId] - ips)
          decreases ips
        {
          var ip :| ip in ips;
          bulkData := bulkData + [(userId, ip)];
          ips := ips - {ip};
        }
        users := users - {userId};
      }
    }

    /** The users found and their pairs, each once. */
    method CollectPairs(now: int) returns (userIds: set<string>, bulkData: seq<Pair>)
      ensures Distinct(bulkData) && Elems(bulkData) == FoundPairs(redis, now)
      ensures forall u :: u in userIds <==> exists ip :: (u, ip) in FoundPairs(redis, now)
    {
      var userIps := CollectIps(now);
      bulkData := Flatten(userIps);
      userIds := userIps.Keys;
      forall p: Pair ensures p in bulkData <==> p in FoundPairs(redis, now) {
        FoundPairsIsFound(redis, now, p);
      }
      forall u ensures u in userIps <==> exists ip :: (u, ip) in FoundPairs(redis, now) {
        if u in userIps {
          var ip :| ip in userIps[u];
          assert (u, ip) in bulkData;
        }
        if ip :| (u, ip) in FoundPairs(redis, now) {
          assert (u, ip) in bulkData;
        }
      }
    }

    /** The upserts: chunks of at most 1000 pairs, none of which names a row twice, so none is refused. `times` are
        the clock readings of the statements. */
    method UpsertAll(bulkData: seq<Pair>, times: seq<int>) returns (ok: bool, statements: nat, ghost at: Stamps)
      requires Distinct(bulkData) && |bulkData| <= |times| * CHUNK
      modifies this`rows
      ensures ok && StampedBy(at, bulkData, times) && rows == Upserted(old(rows), at)
      ensures (statements - 1) * CHUNK < |bulkData| <= statements * CHUNK
    {
      ok, statements, at := true, 0, map[];
      var i := 0;
      assert Upserted(rows, at) == rows;
      while i < |bulkData|
        invariant i == statements * CHUNK && (statements - 1) * CHUNK < |bulkData|
        invariant var done := if i < |bulkData| then i else |bulkData|;
                  ok && StampedBy(at, bulkData[..done], times) && rows == Upserted(old(rows), at)
        decreases |bulkData| - i
      {
        var end := if i + CHUNK < |bulkData| then i + CHUNK else |bulkData|;
        var chunk := bulkData[i..end];
        var done := BulkUpsert(chunk, times[statements]);
        ChunkStamped(at, bulkData, times, statements, end);
        UpsertInChunks(old(rows), at, AllAt(Elems(chunk), times[statements]));
        at := at + AllAt(Elems(chunk), times[statements]);
        ok := ok && done;
        statements := statements + 1;
        i := i + CHUNK;
      }
      assert bulkData[..|bulkData|] == bulkData;
    }

    /** The profile loop: each listed user's profile gets the first row of the ordered query. */
    method UpdateProfiles(userIds: set<string>)
      requires forall u :: u in userIds ==> exists p :: p in rows && p.0 == u
      modifies this`lastRequestIp
      ensures lastRequestIp.Keys == old(lastRequestIp).Keys + userIds
      ensures forall u :: u in lastRequestIp ==>
                if u in userIds then MostRecent(rows, u, lastRequestIp[u])
                else lastRequestIp[u] == old(lastRequestIp)[u]
    {
      var todo := userIds;
      while todo != {}
        invariant todo <= userIds && lastRequestIp.Keys == old(lastRequestIp).Keys + (userIds - todo)
        invariant forall u :: u in lastRequestIp ==>
          if u in userIds - todo then MostRecent(rows, u, lastRequestIp[u])
          else lastRequestIp[u] == old(lastRequestIp)[u]
        decreases todo
      {
        var userId :| userId in todo;
        var mostRecentIp := MostRecentIp(userId);
        lastRequestIp := lastRequestIp[userId := mostRecentIp.value];
        todo := todo - {userId};
      }
    }

    /** `syncUserIps`: afterwards the table has its old rows and every pair found in Redis, these stamped with
        the times of their statements, and each user found has the most recent of the user's rows as last address. */
    method SyncUserIps(now: int, times: seq<int>)
        returns (ok: bool, statements: nat, ghost bulkData: seq<Pair>, ghost at: Stamps)
      requires |FoundPairs(redis, now)| <= |times| * CHUNK
      modifies this`rows, this`lastRequestIp
      ensures ok && Distinct(bulkData) && Elems(bulkData) == FoundPairs(redis, now)
      ensures |bulkData| <= |times| * CHUNK && StampedBy(at, bulkData, times)
      ensures State(redis, rows) == After(old(State(redis, rows)), Sync(now, at)) && rows == Upserted(old(rows), at)
      ensures (statements - 1) * 1000 < |FoundPairs(redis, now)| <= statements * 1000
      ensures forall i :: 0 <= i < |bulkData| ==> bulkData[i] in at && at[bulkData[i]] == times[i / 1000]
      ensures forall u :: u in lastRequestIp ==>
                if exists ip :: (u, ip) in FoundPairs(redis, now) then MostRecent(rows, u, lastRequestIp[u])
                else u in old(lastRequestIp) && lastRequestIp[u] == old(lastRequestIp)[u]
      ensures forall u, ip :: (u, ip) in FoundPairs(redis, now) ==> u in lastRequestIp
    {
      hide FoundPairs, StampedBy, MostRecent, Distinct;
      var userIds, pairs := CollectPairs(now);
      DistinctSize(pairs);
      bulkData := pairs;
      ok, statements, at := UpsertAll(pairs, times);
      StampsAreAll(at, pairs, times);
      SyncIsAfter(redis, old(rows), at, now);
      forall u | u in userIds ensures exists p :: p in rows && p.0 == u {
        var ip :| (u, ip) in FoundPairs(redis, now);
        assert (u, ip) in rows;
      }
      hide Upserted, After;
      UpdateProfiles(userIds);
    }
  }

  lemma StampsAreAll(at: Stamps, bulkData: seq<Pair>, times: seq<int>)
    requires |bulkData| <= |times| * CHUNK && StampedBy(at, bulkData, times)
    ensures at.Keys == Elems(bulkData)
    ensures forall i :: 0 <= i < |bulkData| ==> bulkData[i] in at && at[bulkData[i]] == times[i / 1000]
  {}

  lemma SyncIsAfter(redis: Redis, rows: Rows, at: Stamps, now: int)
    requires at.Keys == FoundPairs(redis, now)
    ensures After(State(redis, rows), Sync(now, at)) == State(redis, Upserted(rows, at))
  {
    assert StampsOf(FoundPairs(redis, now), at, now) == at;
  }

  lemma SliceApart(bulkData: seq<Pair>, i: nat, end: nat)
    requires Distinct(bulkData) && i <= end <= |bulkData|
    ensures Elems(bulkData[..i]) !! Elems(bulkData[i..end]) && Distinct(bulkData[i..end])
  {
    forall p | p in bulkData[i..end] ensures p !in bulkData[..i] {
      var b :| 0 <= b < end - i && bulkData[i..end][b] == p;
      assert forall a :: 0 <= a < i ==> bulkData[..i][a] == bulkData[a] != bulkData[i + b];
    }
  }

  lemma ChunkNumber(j: int, k: int)
    requires k * CHUNK <= j < (k + 1) * CHUNK
    ensures j / CHUNK == k
  {}

  /** Appending the statement of one more chunk. */
  lemma ChunkStamped(at: Stamps, bulkData: seq<Pair>, times: seq<int>, k: nat, end: nat)
    requires Distinct(bulkData) && |bulkData| <= |times| * CHUNK
    requires k * CHUNK < end <= |bulkData| && end <= (k + 1) * CHUNK && k < |times|
    requires StampedBy(at, bulkData[..k * CHUNK], times)
    ensures var chunk := AllAt(Elems(bulkData[k * CHUNK..end]), times[k]);
            at.Keys !! chunk.Keys && Distinct(bulkData[k * CHUNK..end]) && StampedBy(at + chunk, bulkData[..end], times)
  {
    hide Distinct;
    var i := k * CHUNK;
    var chunk := AllAt(Elems(bulkData[i..end]), times[k]);
    ElemsOfPrefix(bulkData, i, end);
    SliceApart(bulkData, i, end);
    assert (at + chunk).Keys == at.Keys + chunk.Keys;
    forall j | 0 <= j < end
      ensures bulkData[..end][j] in at + chunk && (at + chunk)[bulkData[..end][j]] == times[j / CHUNK]
    {
      if j < i {
        assert bulkData[..i][j] == bulkData[j];
        assert bulkData[j] in at && bulkData[j] !in chunk;
      } else {
        assert bulkData[i..end][j - i] == bulkData[j];
        ChunkNumber(j, k);
      }
    }
  }

  lemma ElemsOfPrefix<T>(s: seq<T>, i: nat, j: nat)
    requires i <= j <= |s|
    ensures Elems(s[..j]) == Elems(s[..i]) + Elems(s[i..j])
  {
    assert s[..j] == s[..i] + s[i..j];
  }

  // ----- Whole runs -----

  /** A sync comes with the times of its upserts. */
  datatype Event = Track(user: string, ip: string, now: int) | Sync(now: int, at: Stamps)

  datatype State = State(redis: Redis, rows: Rows)

  /** The times of the pairs found; one that is not given is that of the run. */
  ghost function StampsOf(pairs: set<Pair>, at: Stamps, now: int): Stamps {
    map p | p in pairs :: if p in at then at[p] else now
  }

  ghost function After(s: State, e: Event): State {
    match e
    case Track(u, ip, now) => s.(redis := Tracked(s.redis, u, ip, now))
    case Sync(now, at) => s.(rows := Upserted(s.rows, StampsOf(FoundPairs(s.redis, now), at, now)))
  }

  ghost function RunState(es: seq<Event>): State {
    if es == [] then State(map[], map[]) else After(RunState(es[..|es| - 1]), es[|es| - 1])
  }

  predicate Monotone(es: seq<Event>) {
    forall i, j :: 0 <= i < j < |es| ==> es[i].now <= es[j].now
  }

  predicate Tracks(e: Event, u: string) {
    e.Track? && e.user == u
  }

  predicate EverTracked(es: seq<Event>, u: string) {
    exists i :: 0 <= i < |es| && Tracks(es[i], u)
  }

  /** When user u was last tracked. */
  function LastTrack(es: seq<Event>, u: string): int
    requires EverTracked(es, u)
  {
    var n := |es| - 1;
    if Tracks(es[n], u) then es[n].now else LastTrack(es[..n], u)
  }

  /** Since event i, user u was tracked often enough for the set never to expire between two trackings. */
  predicate Unbroken(es: seq<Event>, u: string, i: int)
    requires 0 <= i < |es| && Tracks(es[i], u)
  {
    var n := |es| - 1;
    i == n
    || (Unbroken(es[..n], u, i)
        && (Tracks(es[n], u) ==> es[n].now < LastTrack(es[..n], u) + TTL))
  }

  /** Address ip was added to u's set by an event from which the set has lived on. */
  ghost predicate StillHeld(es: seq<Event>, u: string, ip: string) {
    exists i :: HeldSince(es, u, ip, i)
  }

  predicate HeldSince(es: seq<Event>, u: string, ip: string, i: int) {
    0 <= i < |es| && Tracks(es[i], u) && es[i].ip == ip && Unbroken(es, u, i)
  }

  ghost predicate RedisReflects(es: seq<Event>, redis: Redis, u: string) {
    (KeyOf(u) in redis <==> EverTracked(es, u))
    && (EverTracked(es, u) ==>
          redis[KeyOf(u)].expireAt == LastTrack(es, u) + TTL
          && forall ip :: ip in redis[KeyOf(u)].ips <==> StillHeld(es, u, ip))
  }

  lemma KeysDiffer(u: string, v: string)
    requires KeyOf(u) == KeyOf(v)
    ensures u == v
  {
    assert KeyOf(u)[|PREFIX|..] == u && KeyOf(v)[|PREFIX|..] == v;
  }

  lemma EverTrackedStep(es: seq<Event>, u: string)
    requires es != []
    ensures EverTracked(es, u) <==> EverTracked(es[..|es| - 1], u) || Tracks(es[|es| - 1], u)
  {
    var n := |es| - 1;
    assert forall i :: 0 <= i < n ==> es[..n][i] == es[i];
    if EverTracked(es, u) && !Tracks(es[n], u) {
      var i :| 0 <= i < |es| && Tracks(es[i], u);
      assert Tracks(es[..n][i], u);
    }
    if EverTracked(es[..n], u) {
      var i :| 0 <= i < n && Tracks(es[..n][i], u);
      assert Tracks(es[i], u);
    }
  }

  /** How one event changes which addresses are still held. */
  lemma StillHeldStep(es: seq<Event>, u: string, ip: string)
    requires es != []
    ensures var n := |es| - 1;
            StillHeld(es, u, ip) <==>
              (Tracks(es[n], u) && es[n].ip == ip)
              || (StillHeld(es[..n], u, ip)
                  && (Tracks(es[n], u) && EverTracked(es[..n], u) ==> es[n].now < LastTrack(es[..n], u) + TTL))
  {
    var n := |es| - 1;
    assert forall i :: 0 <= i < n ==> es[..n][i] == es[i];
    if StillHeld(es, u, ip) {
      var i :| HeldSince(es, u, ip, i);
      if i < n {
        assert HeldSince(es[..n], u, ip, i);
      }
    }
    if StillHeld(es[..n], u, ip) {
      var i :| HeldSince(es[..n], u, ip, i);
      if Tracks(es[n], u) ==> es[n].now < LastTrack(es[..n], u) + TTL {
        assert HeldSince(es, u, ip, i);
      }
    }
    if Tracks(es[n], u) && es[n].ip == ip {
      assert HeldSince(es, u, ip, n);
    }
  }

  lemma {:induction false} RedisReflectsRun(es: seq<Event>, u: string)
    ensures RedisReflects(es, RunState(es).redis, u)
    decreases |es|
  {
    if es != [] {
      var n := |es| - 1;
      var redis := RunState(es[..n]).redis;
      RedisReflectsRun(es[..n], u);
      EverTrackedStep(es, u);
      if es[n].Track? && KeyOf(es[n].user) == KeyOf(u) {
        KeysDiffer(es[n].user, u);
      }
      forall ip ensures EverTracked(es, u) ==> (ip in RunState(es).redis[KeyOf(u)].ips <==> StillHeld(es, u, ip)) {
        StillHeldStep(es, u, ip);
        if StillHeld(es[..n], u, ip) {
          HeldIsTracked(es[..n], u, ip);
        }
      }
    }
  }

  /** In every run a user's set lives under the documented key, exactly until an hour after the last request. */
  lemma SetLivesAnHour(es: seq<Event>, u: string, t: int)
    ensures KeyOf(u) == "user:ips:" + u
    ensures Live(RunState(es).redis, KeyOf(u), t) <==> EverTracked(es, u) && t < LastTrack(es, u) + 3_600_000
  {
    hide RunState, LastTrack, EverTracked, StillHeld, KeyOf;
    RedisReflectsRun(es, u);
    KeyIs(u);
  }

  lemma KeyIs(u: string)
    ensures KeyOf(u) == "user:ips:" + u
  {}

  lemma HeldIsTracked(es: seq<Event>, u: string, ip: string)
    requires StillHeld(es, u, ip)
    ensures EverTracked(es, u)
  {
    var i :| HeldSince(es, u, ip, i);
    assert Tracks(es[i], u);
  }

  /** Event j is a sync that met the pair in a live set. */
  ghost predicate SyncedAt(es: seq<Event>, p: Pair, j: int) {
    0 <= j < |es| && es[j].Sync? && StillHeld(es[..j], p.0, p.1) && EverTracked(es[..j], p.0)
    && es[j].now < LastTrack(es[..j], p.0) + TTL
  }

  lemma SyncFinds(es: seq<Event>, p: Pair)
    requires es != [] && es[|es| - 1].Sync?
    ensures ProperId(p.0) ==>
              (p in FoundPairs(RunState(es[..|es| - 1]).redis, es[|es| - 1].now) <==> SyncedAt(es, p, |es| - 1))
    ensures !ProperId(p.0) ==> p !in FoundPairs(RunState(es[..|es| - 1]).redis, es[|es| - 1].now)
  {
    var before := es[..|es| - 1];
    FoundPairsIsFound(RunState(before).redis, es[|es| - 1].now, p);
    RedisReflectsRun(before, p.0);
  }

  /** Exactly which pairs reach the table, over every run: those tracked at some event from which the user's
      set was kept alive until a sync. Nothing else gets in, and nothing is ever removed. */
  lemma {:induction false} RowsAreTheSyncedPairs(es: seq<Event>, p: Pair)
    ensures p in RunState(es).rows <==> ProperId(p.0) && exists j :: SyncedAt(es, p, j)
    decreases |es|
  {
    if es != [] {
      var n := |es| - 1;
      RowsAreTheSyncedPairs(es[..n], p);
      assert forall j :: 0 <= j < n ==> es[..n][j] == es[j] && es[..n][..j] == es[..j];
      forall j | 0 <= j < n ensures SyncedAt(es[..n], p, j) <==> SyncedAt(es, p, j) {}
      if es[n].Sync? {
        SyncFinds(es, p);
      }
    }
  }

  /** Some sync after event i and not after event j comes within the lifetime of the set. */
  predicate SyncedInTime(es: seq<Event>, i: int, j: int) {
    exists k :: 0 <= i < k <= j < |es| && es[k].Sync? && es[k].now < es[i].now + TTL
  }

  lemma {:induction false} LastTrackIsLate(es: seq<Event>, u: string, i: int)
    requires Monotone(es) && 0 <= i < |es| && Tracks(es[i], u)
    ensures EverTracked(es, u) && LastTrack(es, u) >= es[i].now
    decreases |es|
  {
    var n := |es| - 1;
    assert EverTracked(es, u);
    if i < n && !Tracks(es[n], u) {
      assert es[..n][i] == es[i];
      LastTrackIsLate(es[..n], u, i);
    }
  }

  lemma {:induction false} UnbrokenWhileYoung(es: seq<Event>, u: string, i: int)
    requires Monotone(es) && 0 <= i < |es| && Tracks(es[i], u)
    requires forall k :: i < k < |es| ==> es[k].now < es[i].now + TTL
    ensures Unbroken(es, u, i)
    decreases |es|
  {
    var n := |es| - 1;
    if i < n {
      assert forall k :: 0 <= k < n ==> es[..n][k] == es[k];
      UnbrokenWhileYoung(es[..n], u, i);
      LastTrackIsLate(es[..n], u, i);
    }
  }

  /** A pair followed by a sync within the hour is safe. */
  lemma TrackedInTimeIsSynced(es: seq<Event>, i: int, j: int)
    requires Monotone(es) && 0 <= i <= j < |es| && es[i].Track? && SyncedInTime(es, i, j)
    ensures exists k :: SyncedAt(es, (es[i].user, es[i].ip), k)
  {
    var k :| i < k <= j && es[k].Sync? && es[k].now < es[i].now + TTL;
    var before, u := es[..k], es[i].user;
    assert forall m :: 0 <= m < k ==> before[m] == es[m];
    UnbrokenWhileYoung(before, u, i);
    LastTrackIsLate(before, u, i);
    assert HeldSince(before, u, es[i].ip, i);
    assert SyncedAt(es, (u, es[i].ip), k);
  }

  ghost function TrackedPairs(es: seq<Event>): set<Pair> {
    set i | 0 <= i < |es| && es[i].Track? && ProperId(es[i].user) :: (es[i].user, es[i].ip)
  }

  /** The schedule's promise: if every tracking is followed by a sync in less than the hour a set lives, then
      right after a sync the table holds every pair ever tracked, whatever was added and whatever expired. */
  lemma NothingIsLost(es: seq<Event>)
    requires Monotone(es) && es != [] && es[|es| - 1].Sync?
    requires forall i :: 0 <= i < |es| && es[i].Track? ==> SyncedInTime(es, i, |es| - 1)
    ensures RunState(es).rows.Keys == TrackedPairs(es)
  {
    forall p: Pair ensures p in RunState(es).rows <==> p in TrackedPairs(es) {
      RowsAreTheSyncedPairs(es, p);
      if p in TrackedPairs(es) {
        var i :| 0 <= i < |es| && es[i].Track? && ProperId(es[i].user) && p == (es[i].user, es[i].ip);
        TrackedInTimeIsSynced(es, i, |es| - 1);
      }
      if p in RunState(es).rows {
        var j :| SyncedAt(es, p, j);
        var i :| HeldSince(es[..j], p.0, p.1, i);
        assert es[i] == es[..j][i];
      }
    }
  }

  /** And a sync less than an hour after the previous one meets the condition for everything in between. */
  lemma FrequentSyncsSuffice(es: seq<Event>, first: int, last: int, i: int)
    requires Monotone(es) && 0 <= first < i < last < |es| && es[first].Sync? && es[last].Sync? && es[i].Track?
    requires es[last].now - es[first].now < 3_600_000
    ensures SyncedInTime(es, i, last)
  {
    assert es[first].now <= es[i].now;
  }

  /** The dates of a row after a run ending in a sync: one that the sync found has the time of its statement as update
      date and keeps its creation date, or was created then; any other is as before. */
  lemma SyncDates(es: seq<Event>, now: int, at: Stamps, p: Pair)
    ensures var s, found := RunState(es), FoundPairs(RunState(es).redis, now);
            var after := After(s, Sync(now, at)).rows;
            var time := if p in at then at[p] else now;
            (p in after <==> p in s.rows || p in found)
            && (p in found ==> after[p] == Stamp(if p in s.rows then s.rows[p].createdAt else time, time))
            && (p in s.rows && p !in found ==> after[p] == s.rows[p])
  {
    hide RunState, FoundPairs;
  }

  // ----- The last address -----

  /** When row p was or will be created, once the sync has written it. */
  function FirstSeen(rows: Rows, at: Stamps, p: Pair): int
    requires p in at
  {
    if p in rows then rows[p].createdAt else at[p]
  }

  /** Of two pairs a sync writes, p comes before q in the table's order: by the time of the statement, and within
      one statement by the time of creation. */
  predicate Earlier(rows: Rows, at: Stamps, p: Pair, q: Pair)
    requires p in at && q in at
  {
    at[p] < at[q] || (at[p] == at[q] && FirstSeen(rows, at, p) < FirstSeen(rows, at, q))
  }

  /** The address a sync stores as the user's last one: of those in the live set, one that no other comes after. */
  lemma LastIpIsNewestRow(rows: Rows, at: Stamps, u: string, ip: string)
    requires forall p, q :: p in rows && q in at ==> rows[p].updatedAt < at[q]
    requires exists x :: (u, x) in at
    ensures MostRecent(Upserted(rows, at), u, ip) <==>
              (u, ip) in at && forall x :: (u, x) in at ==> !Earlier(rows, at, (u, ip), (u, x))
  {
    var after := Upserted(rows, at);
    var y :| (u, y) in at;
    if MostRecent(after, u, ip) {
      assert AtLeast(after[(u, ip)], after[(u, y)]);
      forall x | (u, x) in at ensures !Earlier(rows, at, (u, ip), (u, x)) {
        assert (u, x) in after;
      }
    }
    if (u, ip) in at && forall x :: (u, x) in at ==> !Earlier(rows, at, (u, ip), (u, x)) {
      forall p | p in after && p.0 == u ensures AtLeast(after[(u, ip)], after[p]) {
        assert p == (u, p.1);
      }
    }
  }

  /** The sync was over, statements included, before this time. */
  predicate DoneBefore(e: Event, now: int) {
    e.Sync? ==> e.now < now && forall p :: p in e.at ==> e.at[p] < now
  }

  /** Syncs that do not overlap leave older stamps than the next one makes. */
  lemma {:induction false} RowsAreOlder(es: seq<Event>, now: int)
    requires forall i :: 0 <= i < |es| ==> DoneBefore(es[i], now)
    ensures forall p :: p in RunState(es).rows ==> RunState(es).rows[p].updatedAt < now
    decreases |es|
  {
    if es != [] {
      var n := |es| - 1;
      forall i | 0 <= i < n ensures DoneBefore(es[..n][i], now) {
        assert es[..n][i] == es[i];
      }
      RowsAreOlder(es[..n], now);
      assert DoneBefore(es[n], now);
    }
  }

  /** The address of the user's last request. */
  function LastIp(es: seq<Event>, u: string): string
    requires EverTracked(es, u)
  {
    var n := |es| - 1;
    if Tracks(es[n], u) then es[n].ip else LastIp(es[..n], u)
  }

  lemma {:induction false} LastIpIsHeld(es: seq<Event>, u: string)
    requires EverTracked(es, u)
    ensures StillHeld(es, u, LastIp(es, u))
    decreases |es|
  {
    var n := |es| - 1;
    EverTrackedStep(es, u);
    StillHeldStep(es, u, LastIp(es, u));
    if !Tracks(es[n], u) {
      LastIpIsHeld(es[..n], u);
    }
  }

  lemma LastIpIsFound(es: seq<Event>, u: string, now: int)
    requires ProperId(u) && EverTracked(es, u) && now < LastTrack(es, u) + TTL
    ensures (u, LastIp(es, u)) in FoundPairs(RunState(es).redis, now)
  {
    hide RunState, StillHeld, LastTrack, LastIp, EverTracked, FoundPairs;
    RedisReflectsRun(es, u);
    LastIpIsHeld(es, u);
    FoundPairsIsFound(RunState(es).redis, now, (u, LastIp(es, u)));
  }

  lemma StampsAreNewer(es: seq<Event>, pairs: set<Pair>, now: int, at: Stamps)
    requires (forall i :: 0 <= i < |es| ==> DoneBefore(es[i], now)) && forall p :: p in at ==> at[p] >= now
    ensures var stamps := StampsOf(pairs, at, now);
            forall p, q :: p in RunState(es).rows && q in stamps ==> RunState(es).rows[p].updatedAt < stamps[q]
  {
    RowsAreOlder(es, now);
    hide DoneBefore, RunState;
  }

  /** Whatever row the ordered query answers with, it is that of this address. */
  ghost predicate SurelyLast(rows: Rows, u: string, ip: string) {
    forall x :: MostRecent(rows, u, x) ==> x == ip
  }

  /** Every other address of the user that the sync writes comes before this one. */
  ghost predicate OthersEarlier(rows: Rows, at: Stamps, u: string, ip: string)
    requires (u, ip) in at
  {
    forall x :: (u, x) in at && x != ip ==> Earlier(rows, at, (u, x), (u, ip))
  }

  /** A sync after a run, begun when the user's set is alive and all earlier syncs are over: `lastRequestIp` is sure
      to be the address of the last request if and only if every other live address of the user comes before that
      one in the order (statement, creation). */
  lemma LastIpIsLastRequestIff(es: seq<Event>, u: string, now: int, at: Stamps)
    requires ProperId(u) && EverTracked(es, u) && now < LastTrack(es, u) + TTL
    requires (forall i :: 0 <= i < |es| ==> DoneBefore(es[i], now)) && forall p :: p in at ==> at[p] >= now
    ensures var s, last := RunState(es), LastIp(es, u);
            var stamps := StampsOf(FoundPairs(s.redis, now), at, now);
            (u, last) in stamps
            && (SurelyLast(After(s, Sync(now, at)).rows, u, last) <==> OthersEarlier(s.rows, stamps, u, last))
  {
    var s, last := RunState(es), LastIp(es, u);
    var pairs := FoundPairs(s.redis, now);
    var stamps := StampsOf(pairs, at, now);
    LastIpIsFound(es, u, now);
    StampsAreNewer(es, pairs, now, at);
    hide RunState, LastTrack, LastIp, EverTracked, FoundPairs, SurelyLast, OthersEarlier, DoneBefore, ProperId;
    NewestDecides(s.rows, stamps, u, last);
  }

  lemma NewestDecides(rows: Rows, at: Stamps, u: string, last: string)
    requires forall p, q :: p in rows && q in at ==> rows[p].updatedAt < at[q]
    requires (u, last) in at
    ensures SurelyLast(Upserted(rows, at), u, last) <==> OthersEarlier(rows, at, u, last)
  {
    var ips := set p | p in at && p.0 == u :: p.1;
    assert last in ips;
    forall x ensures (u, x) in at <==> x in ips {}
    var best := Newest(rows, at, u, ips);
    forall ip ensures MostRecent(Upserted(rows, at), u, ip) <==>
      ((u, ip) in at && forall x :: (u, x) in at ==> !Earlier(rows, at, (u, ip), (u, x)))
    {
      LastIpIsNewestRow(rows, at, u, ip);
    }
    assert MostRecent(Upserted(rows, at), u, best);
    forall x | (u, x) in at && !Earlier(rows, at, (u, x), (u, best)) ensures MostRecent(Upserted(rows, at), u, x) {}
  }

  lemma {:induction false} Newest(rows: Rows, at: Stamps, u: string, ips: set<string>) returns (best: string)
    requires ips != {} && forall x :: x in ips ==> (u, x) in at
    ensures best in ips && forall x :: x in ips ==> !Earlier(rows, at, (u, best), (u, x))
    decreases ips
  {
    var a :| a in ips;
    if ips == {a} {
      best := a;
    } else {
      assert ips - {a} != {};
      var b := Newest(rows, at, u, ips - {a});
      best := if Earlier(rows, at, (u, b), (u, a)) then a else b;
    }
  }

  lemma RunGrows(es: seq<Event>, e: Event)
    ensures RunState(es + [e]) == After(RunState(es), e)
  {
    assert (es + [e])[..|es|] == es;
  }

  lemma FoundOfOne(u: string, ips: set<string>, expireAt: int, now: int)
    requires ProperId(u) && now < expireAt
    ensures FoundPairs(map[KeyOf(u) := IpSet(ips, expireAt)], now) == set ip | ip in ips :: (u, ip)
  {
    var redis := map[KeyOf(u) := IpSet(ips, expireAt)];
    forall p: Pair ensures p in FoundPairs(redis, now) <==> p.0 == u && p.1 in ips {
      FoundPairsIsFound(redis, now, p);
      if Found(redis, now, p) {
        KeysDiffer(p.0, u);
      }
    }
  }

  /** What a first request, a further one and a sync do to the one set. */
  lemma FirstTrack(u: string, rows: Rows, ip: string, now: int)
    ensures After(State(map[], rows), Track(u, ip, now)) == State(map[KeyOf(u) := IpSet({ip}, now + TTL)], rows)
  {
    assert {} + {ip} == {ip};
  }

  lemma NextTrack(u: string, rows: Rows, ips: set<string>, expireAt: int, ip: string, now: int)
    requires now < expireAt
    ensures After(State(map[KeyOf(u) := IpSet(ips, expireAt)], rows), Track(u, ip, now))
            == State(map[KeyOf(u) := IpSet(ips + {ip}, now + TTL)], rows)
  {}

  lemma OneSync(u: string, rows: Rows, ips: set<string>, expireAt: int, now: int)
    requires ProperId(u) && now < expireAt
    ensures var s := State(map[KeyOf(u) := IpSet(ips, expireAt)], rows);
            After(s, Sync(now, map[])) == s.(rows := Upserted(rows, map ip | ip in ips :: (u, ip) := now))
  {
    FoundOfOne(u, ips, expireAt, now);
    var redis := map[KeyOf(u) := IpSet(ips, expireAt)];
    assert StampsOf(FoundPairs(redis, now), map[], now) == map ip | ip in ips :: (u, ip) := now;
  }

  /** A request from an address and a sync, one unit of time later. */
  function Visit(u: string, ip: string, now: int): seq<Event> {
    [Track(u, ip, now), Sync(now + 1, map[])]
  }

  lemma VisitGrows(es: seq<Event>, u: string, ip: string, now: int)
    ensures RunState(es + Visit(u, ip, now)) == After(After(RunState(es), Track(u, ip, now)), Sync(now + 1, map[]))
  {
    hide After;
    RunGrows(es, Track(u, ip, now));
    RunGrows(es + [Track(u, ip, now)], Sync(now + 1, map[]));
    assert es + [Track(u, ip, now)] + [Sync(now + 1, map[])] == es + Visit(u, ip, now);
  }

  /** Requests from a at 1, from b at 3 and from a again at 5, with syncs at 2, 4 and 6. */
  function Visits(u: string, a: string, b: string): seq<Event> {
    Visit(u, a, 1) + Visit(u, b, 3)
  }

  lemma FirstVisit(u: string, a: string)
    requires ProperId(u)
    ensures RunState(Visit(u, a, 1)) == State(map[KeyOf(u) := IpSet({a}, 1 + TTL)], map[(u, a) := Stamp(2, 2)])
  {
    assert RunState([]) == State(map[], map[]);
    hide RunState, After, Upserted, KeyOf, ProperId;
    VisitGrows([], u, a, 1);
    assert [] + Visit(u, a, 1) == Visit(u, a, 1);
    FirstTrack(u, map[], a, 1);
    OneSync(u, map[], {a}, 1 + TTL, 2);
    FirstRow(u, a);
  }

  lemma SecondVisit(u: string, a: string, b: string)
    requires ProperId(u) && a != b
    ensures RunState(Visits(u, a, b))
            == State(map[KeyOf(u) := IpSet({a} + {b}, 3 + TTL)], map[(u, a) := Stamp(2, 4), (u, b) := Stamp(4, 4)])
  {
    hide RunState, After, Upserted, KeyOf, ProperId, Visit;
    var first := map[(u, a) := Stamp(2, 2)];
    FirstVisit(u, a);
    VisitGrows(Visit(u, a, 1), u, b, 3);
    NextTrack(u, first, {a}, 1 + TTL, b, 3);
    OneSync(u, first, {a} + {b}, 3 + TTL, 4);
    BothRows(u, a, b);
  }

  lemma FirstRow(u: string, a: string)
    ensures Upserted(map[], map ip | ip in {a} :: (u, ip) := 2) == map[(u, a) := Stamp(2, 2)]
  {}

  lemma BothRows(u: string, a: string, b: string)
    requires a != b
    ensures Upserted(map[(u, a) := Stamp(2, 2)], map ip | ip in {a} + {b} :: (u, ip) := 4)
            == map[(u, a) := Stamp(2, 4), (u, b) := Stamp(4, 4)]
  {}

  /** In this run the last sync meets a's row of time 2 and b's of time 4, and stores b, though the last request
      came from a. */
  lemma LastIpMayBeStale(u: string, a: string, b: string)
    requires ProperId(u) && a != b
    ensures var es := Visits(u, a, b) + [Track(u, a, 5)];
            Monotone(es + [Sync(6, map[])]) && EverTracked(es, u) && LastIp(es, u) == a
            && SurelyLast(RunState(es + [Sync(6, map[])]).rows, u, b)
  {
    assert Monotone(Visits(u, a, b) + [Track(u, a, 5)] + [Sync(6, map[])]);
    hide RunState, After, Upserted, SurelyLast, KeyOf, ProperId, Visits, Monotone;
    var es, rows := Visits(u, a, b), map[(u, a) := Stamp(2, 4), (u, b) := Stamp(4, 4)];
    LastTrackIsLast(es, Track(u, a, 5));
    hide LastIp, EverTracked;
    SecondVisit(u, a, b);
    RunGrows(es, Track(u, a, 5));
    RunGrows(es + [Track(u, a, 5)], Sync(6, map[]));
    NextTrack(u, rows, {a} + {b}, 3 + TTL, a, 5);
    OneSync(u, rows, {a} + {b} + {a}, 5 + TTL, 6);
    LaterRowWins(u, a, b, {a} + {b} + {a});
  }

  lemma LastTrackIsLast(es: seq<Event>, e: Event)
    requires e.Track?
    ensures EverTracked(es + [e], e.user) && LastIp(es + [e], e.user) == e.ip
  {
    assert Tracks((es + [e])[|es|], e.user);
  }

  lemma LaterRowWins(u: string, a: string, b: string, ips: set<string>)
    requires a != b && ips == {a, b}
    ensures var rows := map[(u, a) := Stamp(2, 4), (u, b) := Stamp(4, 4)];
            SurelyLast(Upserted(rows, map ip | ip in ips :: (u, ip) := 6), u, b)
  {
    var rows := Upserted(map[(u, a) := Stamp(2, 4), (u, b) := Stamp(4, 4)], map ip | ip in ips :: (u, ip) := 6);
    assert rows == map[(u, a) := Stamp(2, 6), (u, b) := Stamp(4, 6)];
    forall ip | MostRecent(rows, u, ip) ensures ip == b {
      assert AtLeast(rows[(u, ip)], rows[(u, b)]);
    }
  }
}
