/** The per-address rate limiter of src/shared/middleware/api-throttle.middleware.ts. */
module ApiThrottle {
  import opened Common

  /** The two families of methods that are counted; anything else (HEAD, OPTIONS, ...) opens a window
      but is never counted. */
  datatype Kind = Get | Write | Other

  /** The family of a method, given in capitals. */
  function KindOf(verb: string): Kind {
    if verb == "GET" then Get
    else if verb == "POST" || verb == "PUT" || verb == "PATCH" || verb == "DELETE" then Write
    else Other
  }

  /** Limits and windows as parsed from the environment: any integers. */
  datatype Config = Config(getLimit: int, getWindow: int, postLimit: int, postWindow: int) {
    function Limit(kind: Kind): int {
      if kind == Get then getLimit else postLimit
    }

    function Window(kind: Kind): int {
      if kind == Get then getWindow else postWindow
    }
  }

  datatype Entry = Entry(getCount: int, postCount: int, resetTime: int) {
    function Count(kind: Kind): int {
      if kind == Get then getCount else postCount
    }
  }

  type Store = map<string, Entry>

  /** What the caller sees: the next handler runs (with the quota headers of a counted method), or 429. */
  datatype Response =
    | Skipped
    | Passed(quota: Option<int>, remaining: int, reset: int)
    | TooMany(limit: int, retryAfter: int, reset: int)

  datatype Event =
    | Request(ip: string, path: string, kind: Kind, now: int)
    | Cleanup(now: int)

  predicate SkipsThrottle(path: string) {
    "/health" <= path || "/metrics" <= path || "/favicon.ico" <= path
  }

  /** The entry in force at `now`: the stored one until its reset time has passed, then a new one whose
      window depends on the method that opened it. */
  function Current(cfg: Config, store: Store, ip: string, kind: Kind, now: int): Entry {
    if ip in store && store[ip].resetTime >= now then store[ip] else Entry(0, 0, now + cfg.Window(kind))
  }

  function Counted(e: Entry, kind: Kind): Entry {
    match kind
    case Get => e.(getCount := e.getCount + 1)
    case Write => e.(postCount := e.postCount + 1)
    case Other => e
  }

  function Answer(cfg: Config, e: Entry, kind: Kind, now: int): Response {
    if kind == Other then Passed(None, 0, e.resetTime)
    else if e.Count(kind) > cfg.Limit(kind) then
      TooMany(cfg.Limit(kind), CeilDiv(e.resetTime - now, 1000), e.resetTime)
    else Passed(Some(cfg.Limit(kind)), cfg.Limit(kind) - e.Count(kind), e.resetTime)
  }

  function Live(store: Store, now: int): Store {
    map ip | ip in store && store[ip].resetTime >= now :: store[ip]
  }

  function StoreAfter(cfg: Config, store: Store, e: Event): Store {
    match e
    case Cleanup(now) => Live(store, now)
    case Request(ip, path, kind, now) =>
      if SkipsThrottle(path) then store
      else store[ip := Counted(Current(cfg, store, ip, kind, now), kind)]
  }

  function ResponseTo(cfg: Config, store: Store, e: Event): Response {
    match e
    case Cleanup(_) => Skipped
    case Request(ip, path, kind, now) =>
      if SkipsThrottle(path) then Skipped
      else Answer(cfg, Counted(Current(cfg, store, ip, kind, now), kind), kind, now)
  }

  class ApiThrottleMiddleware {
    const cfg: Config
    var store: Store

    constructor (cfg: Config)
      ensures this.cfg == cfg && store == map[]
    {
      this.cfg := cfg;
      store := map[];
    }

    method Use(ip: string, path: string, verb: string, now: int) returns (r: Response)
      modifies this
      ensures store == StoreAfter(cfg, old(store), Request(ip, path, KindOf(verb), now))
      ensures r == ResponseTo(cfg, old(store), Request(ip, path, KindOf(verb), now))
    {
      if SkipsThrottle(path) {
        return Skipped;
      }
      if ip !in store || store[ip].resetTime < now {
        store := store[ip := Entry(0, 0, now + if verb == "GET" then cfg.getWindow else cfg.postWindow)];
      }
      var entry := store[ip];
      if verb == "GET" {
        entry := entry.(getCount := entry.getCount + 1);
        store := store[ip := entry];
        if entry.getCount > cfg.getLimit {
          return TooMany(cfg.getLimit, CeilDiv(entry.resetTime - now, 1000), entry.resetTime);
        }
        return Passed(Some(cfg.getLimit), cfg.getLimit - entry.getCount, entry.resetTime);
      } else if verb == "POST" || verb == "PUT" || verb == "PATCH" || verb == "DELETE" {
        entry := entry.(postCount := entry.postCount + 1);
        store := store[ip := entry];
        if entry.postCount > cfg.postLimit {
          return TooMany(cfg.postLimit, CeilDiv(entry.resetTime - now, 1000), entry.resetTime);
        }
        return Passed(Some(cfg.postLimit), cfg.postLimit - entry.postCount, entry.resetTime);
      }
      r := Passed(None, 0, entry.resetTime);
    }

    /** The loop deletes exactly the expired entries. */
    method CleanUp(now: int)
      modifies this
      ensures store == StoreAfter(cfg, old(store), Cleanup(now))
    {
      var ips := store.Keys;
      while ips != {}
        invariant ips <= store.Keys <= old(store).Keys
        invariant forall ip :: ip in store ==> store[ip] == old(store)[ip]
        invariant forall ip :: ip in old(store) && ip !in ips ==> (ip in store <==> old(store)[ip].resetTime >= now)
        decreases ips
      {
        var ip :| ip in ips;
        if store[ip].resetTime < now {
          store := store - {ip};
        }
        ips := ips - {ip};
      }
    }
  }

  // ----- Single requests -----

  lemma FamiliesOfMethods(verb: string)
    ensures KindOf(verb) == Get <==> verb == "GET"
    ensures KindOf(verb) == Write <==> verb in ["POST", "PUT", "PATCH", "DELETE"]
  {}

  /** Exactly the paths that begin in one of these three ways are let through uncounted. */
  lemma SkippedIff(cfg: Config, store: Store, ip: string, path: string, kind: Kind, now: int)
    ensures var e := Request(ip, path, kind, now);
            var skipped := (|path| >= 7 && path[..7] == "/health") || (|path| >= 8 && path[..8] == "/metrics")
                           || (|path| >= 12 && path[..12] == "/favicon.ico");
            (ResponseTo(cfg, store, e) == Skipped <==> skipped) && (skipped ==> StoreAfter(cfg, store, e) == store)
  {}

  /** An address without a window, or whose window is over, gets one: for the GET time if a GET opens it, and for the
      time of writes otherwise. It has its limit to spend, of which the request itself is the first. */
  lemma FreshWindow(cfg: Config, store: Store, ip: string, path: string, kind: Kind, now: int)
    requires !SkipsThrottle(path) && (ip !in store || store[ip].resetTime < now)
    ensures var r := ResponseTo(cfg, store, Request(ip, path, kind, now));
            match kind
            case Get =>
              var reset := now + cfg.getWindow;
              if cfg.getLimit >= 1 then r == Passed(Some(cfg.getLimit), cfg.getLimit - 1, reset)
              else r.TooMany? && r.limit == cfg.getLimit && r.reset == reset
            case Write =>
              var reset := now + cfg.postWindow;
              if cfg.postLimit >= 1 then r == Passed(Some(cfg.postLimit), cfg.postLimit - 1, reset)
              else r.TooMany? && r.limit == cfg.postLimit && r.reset == reset
            case Other => r == Passed(None, 0, now + cfg.postWindow)
  {}

  /** Within a window the families do not influence each other. */
  lemma FamiliesAreSeparate(cfg: Config, store: Store, e: Event, again: Event)
    requires e.Request? && again.Request? && e.ip == again.ip && e.kind != again.kind && again.kind != Other
    requires e.ip in store && e.now <= again.now <= store[e.ip].resetTime
    ensures ResponseTo(cfg, StoreAfter(cfg, store, e), again) == ResponseTo(cfg, store, again)
  {}

  /** Clean-up drops exactly the entries whose reset time has passed. */
  lemma CleanUpIs(cfg: Config, store: Store, now: int, ip: string)
    ensures var after := StoreAfter(cfg, store, Cleanup(now));
            (ip in after <==> ip in store && now <= store[ip].resetTime) && (ip in after ==> after[ip] == store[ip])
  {}

  /** The clock never runs backwards, and starts at t or later. */
  predicate Monotone(es: seq<Event>, t: int)
    decreases |es|
  {
    es == [] || (t <= es[0].now && Monotone(es[1..], es[0].now))
  }

  /** Event e is a request of this kind from this address, in the closed interval [a, b], let through. */
  predicate AcceptedAt(cfg: Config, store: Store, e: Event, ip: string, kind: Kind, a: int, b: int) {
    e.Request? && e.ip == ip && e.kind == kind && a <= e.now <= b && ResponseTo(cfg, store, e).Passed?
  }

  /** How many such requests a run lets through. */
  function Accepted(cfg: Config, store: Store, es: seq<Event>, ip: string, kind: Kind, a: int, b: int): nat
    decreases |es|
  {
    if es == [] then 0
    else
      (if AcceptedAt(cfg, store, es[0], ip, kind, a, b) then 1 else 0)
      + Accepted(cfg, StoreAfter(cfg, store, es[0]), es[1..], ip, kind, a, b)
  }

  function Room(cfg: Config, e: Entry, kind: Kind): int {
    Max(0, cfg.Limit(kind) - e.Count(kind))
  }

  lemma {:induction false} AcceptedAfterEnd(cfg: Config, store: Store, es: seq<Event>, ip: string, kind: Kind, a: int,
                                            b: int, t: int)
    requires Monotone(es, t) && b < t
    ensures Accepted(cfg, store, es, ip, kind, a, b) == 0
    decreases |es|
  {
    if es != [] {
      AcceptedAfterEnd(cfg, StoreAfter(cfg, store, es[0]), es[1..], ip, kind, a, b, es[0].now);
    }
  }

  /** While one window lasts to the end of the interval, it lets through what is left of the limit. */
  lemma {:induction false} OneWindow(cfg: Config, store: Store, es: seq<Event>, ip: string, kind: Kind, a: int,
                                     b: int, t: int)
    requires Monotone(es, t) && kind != Other
    requires ip in store && store[ip].resetTime >= b
    ensures Accepted(cfg, store, es, ip, kind, a, b) <= Room(cfg, store[ip], kind)
    decreases |es|
  {
    if es != [] {
      if es[0].now > b {
        AcceptedAfterEnd(cfg, store, es, ip, kind, a, b, es[0].now);
      } else {
        OneWindow(cfg, StoreAfter(cfg, store, es[0]), es[1..], ip, kind, a, b, es[0].now);
      }
    }
  }

  /** From any state, an interval no longer than either window sees at most the rest of one window and the
      whole of the next: a window opened inside the interval outlasts it. */
  lemma {:induction false} TwoWindows(cfg: Config, store: Store, es: seq<Event>, ip: string, kind: Kind, a: int,
                                      b: int, t: int)
    requires Monotone(es, t) && kind != Other && a <= t
    requires b - a <= cfg.getWindow && b - a <= cfg.postWindow
    ensures Accepted(cfg, store, es, ip, kind, a, b)
            <= (if ip in store then Room(cfg, store[ip], kind) else 0) + Max(0, cfg.Limit(kind))
    decreases |es|
  {
    if es != [] {
      var e, next := es[0], StoreAfter(cfg, store, es[0]);
      if e.Request? && e.ip == ip && !SkipsThrottle(e.path) && (ip !in store || store[ip].resetTime < e.now) {
        OneWindow(cfg, next, es[1..], ip, kind, a, b, e.now);
      } else {
        TwoWindows(cfg, next, es[1..], ip, kind, a, b, e.now);
      }
    }
  }

  predicate CountsNonNegative(store: Store) {
    forall ip :: ip in store ==> store[ip].getCount >= 0 && store[ip].postCount >= 0
  }

  /** The limiter's guarantee, over every run, any mix of addresses and clean-ups, and every closed
      interval no longer than the shorter window: at most twice the limit is let through, although GETs and
      writes share one reset time that either may have set. */
  lemma {:induction false} IntervalBound(cfg: Config, store: Store, es: seq<Event>, ip: string, kind: Kind, a: int,
                                         b: int, t: int)
    requires Monotone(es, t) && kind != Other && CountsNonNegative(store)
    requires b - a <= cfg.getWindow && b - a <= cfg.postWindow
    ensures Accepted(cfg, store, es, ip, kind, a, b) <= 2 * Max(0, cfg.Limit(kind))
    decreases |es|
  {
    if a <= t {
      TwoWindows(cfg, store, es, ip, kind, a, b, t);
    } else if es != [] {
      if a <= es[0].now {
        TwoWindows(cfg, store, es, ip, kind, a, b, es[0].now);
      } else {
        IntervalBound(cfg, StoreAfter(cfg, store, es[0]), es[1..], ip, kind, a, b, es[0].now);
      }
    }
  }

  /** n GETs of one address at one instant, then some more traffic. */
  function Burst(n: nat, ip: string, now: int, rest: seq<Event>): seq<Event> {
    if n == 0 then rest else [Request(ip, "/", Get, now)] + Burst(n - 1, ip, now, rest)
  }

  lemma {:induction false} BurstIsAccepted(cfg: Config, store: Store, n: nat, ip: string, now: int, rest: seq<Event>,
                                           a: int, b: int)
    requires ip in store && store[ip].resetTime >= now && store[ip].getCount + n <= cfg.getLimit
    requires a <= now <= b
    ensures var e := store[ip].(getCount := store[ip].getCount + n);
            Accepted(cfg, store, Burst(n, ip, now, rest), ip, Get, a, b)
            == n + Accepted(cfg, store[ip := e], rest, ip, Get, a, b)
    decreases n
  {
    if n == 0 {
      assert store[ip := store[ip]] == store;
    } else {
      var es := Burst(n, ip, now, rest);
      var e := es[0];
      var next := StoreAfter(cfg, store, e);
      assert es[1..] == Burst(n - 1, ip, now, rest);
      assert next[ip] == store[ip].(getCount := store[ip].getCount + 1);
      BurstIsAccepted(cfg, next, n - 1, ip, now, rest, a, b);
      assert next[ip := store[ip].(getCount := store[ip].getCount + n)]
             == store[ip := store[ip].(getCount := store[ip].getCount + n)];
    }
  }

  lemma {:induction false} BurstIsMonotone(n: nat, ip: string, now: int, rest: seq<Event>, t: int)
    requires t <= now && Monotone(rest, now)
    ensures Monotone(Burst(n, ip, now, rest), t)
    decreases n
  {
    if n == 0 {
      LaterStart(rest, t, now);
    } else {
      BurstIsMonotone(n - 1, ip, now, rest, now);
      assert Burst(n, ip, now, rest)[1..] == Burst(n - 1, ip, now, rest);
    }
  }

  lemma LaterStart(es: seq<Event>, t: int, later: int)
    requires t <= later && Monotone(es, later)
    ensures Monotone(es, t)
  {}

  /** A write that opens a window, a limit's worth of GETs at its last instant, and another a millisecond later. */
  function DoubleBurst(cfg: Config, ip: string, now: int): seq<Event>
    requires cfg.getLimit >= 0
  {
    var reset := now + cfg.postWindow;
    [Request(ip, "/", Write, now)] + Burst(cfg.getLimit, ip, reset, Burst(cfg.getLimit, ip, reset + 1, []))
  }

  /** The factor two is needed: in this run from the empty store all of these GETs pass. */
  lemma BoundIsMet(cfg: Config, ip: string, now: int)
    requires cfg.getLimit >= 1 && cfg.getWindow >= 0 && cfg.postWindow >= 0
    ensures var es, reset := DoubleBurst(cfg, ip, now), now + cfg.postWindow;
            Monotone(es, now) && Accepted(cfg, map[], es, ip, Get, reset, reset + 1) == 2 * cfg.getLimit
  {
    var n, reset := cfg.getLimit, now + cfg.postWindow;
    var second := Burst(n, ip, reset + 1, []);
    BurstIsMonotone(n, ip, reset + 1, [], reset);
    BurstIsMonotone(n, ip, reset, second, now);
    var es := DoubleBurst(cfg, ip, now);
    assert es[1..] == Burst(n, ip, reset, second);
    var start := map[ip := Entry(0, 1, reset)];
    assert StoreAfter(cfg, map[], es[0]) == start;
    BurstIsAccepted(cfg, start, n, ip, reset, second, reset, reset + 1);
    SecondBurst(cfg, ip, reset);
    assert start[ip := Entry(n, 1, reset)] == map[ip := Entry(n, 1, reset)];
  }

  lemma SecondBurst(cfg: Config, ip: string, reset: int)
    requires cfg.getLimit >= 1 && cfg.getWindow >= 0
    ensures var n := cfg.getLimit;
            Accepted(cfg, map[ip := Entry(n, 1, reset)], Burst(n, ip, reset + 1, []), ip, Get, reset, reset + 1) == n
  {
    var n := cfg.getLimit;
    var full := map[ip := Entry(n, 1, reset)];
    var second := Burst(n, ip, reset + 1, []);
    var next := StoreAfter(cfg, full, second[0]);
    assert second[1..] == Burst(n - 1, ip, reset + 1, []);
    assert next[ip] == Entry(1, 0, reset + 1 + cfg.getWindow);
    BurstIsAccepted(cfg, next, n - 1, ip, reset + 1, [], reset, reset + 1);
  }

  /** The requests of one address, in order. */
  function Own(es: seq<Event>, ip: string): seq<Event> {
    if es == [] then []
    else (if es[0].Request? && es[0].ip == ip then [es[0]] else []) + Own(es[1..], ip)
  }

  /** What one address is answered during a run. */
  function Seen(cfg: Config, store: Store, es: seq<Event>, ip: string): seq<Response>
    decreases |es|
  {
    if es == [] then []
    else
      (if es[0].Request? && es[0].ip == ip then [ResponseTo(cfg, store, es[0])] else [])
      + Seen(cfg, StoreAfter(cfg, store, es[0]), es[1..], ip)
  }

  /** At t and later the two stores hold the same live entry for the address, or neither does. */
  predicate Agree(s: Store, r: Store, ip: string, t: int) {
    if ip in s && s[ip].resetTime >= t then ip in r && r[ip] == s[ip]
    else ip in r ==> r[ip].resetTime < t
  }

  lemma {:induction false} OwnRun(cfg: Config, s: Store, r: Store, es: seq<Event>, ip: string, t: int)
    requires Monotone(es, t) && Agree(s, r, ip, t)
    ensures Seen(cfg, s, es, ip) == Seen(cfg, r, Own(es, ip), ip)
    decreases |es|
  {
    if es != [] {
      var e := es[0];
      var s' := StoreAfter(cfg, s, e);
      if e.Request? && e.ip == ip {
        OwnRun(cfg, s', StoreAfter(cfg, r, e), es[1..], ip, e.now);
        assert Own(es, ip)[0] == e && Own(es, ip)[1..] == Own(es[1..], ip);
      } else {
        OwnRun(cfg, s', r, es[1..], ip, e.now);
        assert Own(es, ip) == Own(es[1..], ip);
      }
    }
  }

  /** Addresses do not influence each other and clean-up is invisible: decisions, remaining counts and
      retry times of one address are those of its requests run alone, never cleaned. */
  lemma AddressesAreIndependent(cfg: Config, es: seq<Event>, ip: string, t: int)
    requires Monotone(es, t)
    ensures Seen(cfg, map[], es, ip) == Seen(cfg, map[], Own(es, ip), ip)
  {
    OwnRun(cfg, map[], map[], es, ip, t);
  }

  lemma {:induction false} OwnAppend(es: seq<Event>, e: Event, ip: string)
    ensures Own(es + [e], ip) == Own(es, ip) + if e.Request? && e.ip == ip then [e] else []
  {
    if es != [] {
      OwnAppend(es[1..], e, ip);
      assert (es + [e])[1..] == es[1..] + [e];
    }
  }

  /** Between two requests of an address, other traffic and clean-ups do not matter. */
  lemma NextAnswer(cfg: Config, store: Store, e: Event, between: seq<Event>, again: Event)
    requires e.Request? && again.Request? && again.ip == e.ip && Own(between, e.ip) == []
    requires Monotone(between + [again], e.now)
    ensures Seen(cfg, store, [e] + between + [again], e.ip)
            == [ResponseTo(cfg, store, e), ResponseTo(cfg, StoreAfter(cfg, store, e), again)]
  {
    var es, next := between + [again], StoreAfter(cfg, store, e);
    assert [e] + between + [again] == [e] + es && ([e] + es)[1..] == es;
    OwnAppend(between, again, e.ip);
    OwnRun(cfg, next, next, es, e.ip, e.now);
    assert Seen(cfg, next, [again], e.ip) == [ResponseTo(cfg, next, again)];
  }

  /** The remaining count in the headers is a promise: whatever other addresses do, until the reset time the next
      request of the same family passes exactly if it was positive, leaves one less, and reports the same reset;
      one after the reset time starts a new window. */
  lemma RemainingIsHonest(cfg: Config, store: Store, ip: string, path: string, kind: Kind, now: int,
                          between: seq<Event>, later: int)
    requires !SkipsThrottle(path) && kind != Other && cfg.Limit(kind) >= 1
    requires Own(between, ip) == [] && Monotone(between + [Request(ip, path, kind, later)], now)
    requires ResponseTo(cfg, store, Request(ip, path, kind, now)).Passed?
    ensures var first, again := Request(ip, path, kind, now), Request(ip, path, kind, later);
            var seen := Seen(cfg, store, [first] + between + [again], ip);
            |seen| == 2 && seen[0].Passed? && seen[0].quota == Some(cfg.Limit(kind)) && seen[0].remaining >= 0
            && (later <= seen[0].reset ==>
                  if seen[0].remaining > 0 then seen[1] == Passed(seen[0].quota, seen[0].remaining - 1, seen[0].reset)
                  else seen[1].TooMany? && seen[1].reset == seen[0].reset)
            && (later > seen[0].reset ==>
                  seen[1] == Passed(seen[0].quota, cfg.Limit(kind) - 1, later + cfg.Window(kind)))
  {
    var e := Request(ip, path, kind, now);
    NextAnswer(cfg, store, e, between, Request(ip, path, kind, later));
    assert StoreAfter(cfg, store, e)[ip] == Counted(Current(cfg, store, ip, kind, now), kind);
  }

  /** A refused client is told its limit, and refused until the reset time. One that waits longer than `retryAfter`
      seconds, sending nothing meanwhile, is let through (if the limit allows anything); one that waits exactly that
      long is refused again precisely when the time to the reset is a whole number of seconds. Other traffic in
      between does not matter. */
  lemma RetryAfterIsHonest(cfg: Config, store: Store, ip: string, path: string, kind: Kind, now: int,
                           between: seq<Event>, later: int)
    requires !SkipsThrottle(path) && kind != Other && cfg.Limit(kind) >= 1
    requires Own(between, ip) == [] && Monotone(between + [Request(ip, path, kind, later)], now)
    requires ResponseTo(cfg, store, Request(ip, path, kind, now)).TooMany?
    requires CountsNonNegative(store)
    ensures var first, again := Request(ip, path, kind, now), Request(ip, path, kind, later);
            var seen := Seen(cfg, store, [first] + between + [again], ip);
            |seen| == 2 && seen[0].TooMany? && seen[0].limit == (if kind == Get then cfg.getLimit else cfg.postLimit)
            && (later <= seen[0].reset ==> seen[1].TooMany? && seen[1].reset == seen[0].reset)
            && (later > now + 1000 * seen[0].retryAfter ==> seen[1].Passed?)
            && (later == now + 1000 * seen[0].retryAfter ==> (seen[1].TooMany? <==> (seen[0].reset - now) % 1000 == 0))
  {
    var e := Request(ip, path, kind, now);
    NextAnswer(cfg, store, e, between, Request(ip, path, kind, later));
    var entry := Counted(Current(cfg, store, ip, kind, now), kind);
    assert StoreAfter(cfg, store, e)[ip] == entry;
    var wait := entry.resetTime - now;
    assert 1000 * CeilDiv(wait, 1000) >= wait;
    assert 1000 * CeilDiv(wait, 1000) == wait <==> wait % 1000 == 0;
  }

  /** For example, with one GET a second: the second GET is told to wait one second, and does so in vain. */
  lemma ExactWaitMayBeRefused(path: string)
    requires !SkipsThrottle(path)
    ensures var cfg := Config(1, 1000, 1, 1000);
            var get, late := Request("a", path, Get, 0), Request("a", path, Get, 1000);
            Monotone([get] + ([get] + [] + [late]), 0)
            && Seen(cfg, map[], [get] + ([get] + [] + [late]), "a")
               == [Passed(Some(1), 0, 1000)] + [TooMany(1, 1, 1000), TooMany(1, 0, 1000)]
  {
    var cfg := Config(1, 1000, 1, 1000);
    var get, late := Request("a", path, Get, 0), Request("a", path, Get, 1000);
    var one := map["a" := Entry(1, 0, 1000)];
    FirstGet(path);
    SecondGet(path);
    LateGet(path);
    InSequence(get, late);
    hide SkipsThrottle, Seen, Own, Monotone, ResponseTo, StoreAfter;
    NextAnswer(cfg, one, get, [], late);
    FirstSeen(cfg, map[], get, [get] + [] + [late]);
  }

  lemma FirstGet(path: string)
    requires !SkipsThrottle(path)
    ensures var cfg, get := Config(1, 1000, 1, 1000), Request("a", path, Get, 0);
            StoreAfter(cfg, map[], get) == map["a" := Entry(1, 0, 1000)]
            && ResponseTo(cfg, map[], get) == Passed(Some(1), 0, 1000)
  {
    hide SkipsThrottle;
  }

  lemma SecondGet(path: string)
    requires !SkipsThrottle(path)
    ensures var cfg, get := Config(1, 1000, 1, 1000), Request("a", path, Get, 0);
            var one := map["a" := Entry(1, 0, 1000)];
            StoreAfter(cfg, one, get) == map["a" := Entry(2, 0, 1000)]
            && ResponseTo(cfg, one, get) == TooMany(1, 1, 1000)
  {
    hide SkipsThrottle;
  }

  lemma LateGet(path: string)
    requires !SkipsThrottle(path)
    ensures var cfg, late := Config(1, 1000, 1, 1000), Request("a", path, Get, 1000);
            ResponseTo(cfg, map["a" := Entry(2, 0, 1000)], late) == TooMany(1, 0, 1000)
  {
    hide SkipsThrottle;
  }

  lemma InSequence(a: Event, b: Event)
    requires 0 <= a.now <= b.now
    ensures Own([], "a") == [] && Monotone([] + [b], a.now) && Monotone([a] + ([a] + [] + [b]), 0)
  {
    InOrder([], b, a.now);
    InOrder([b], a, a.now);
    InOrder([a] + [] + [b], a, 0);
    assert [b] + [] == [b] && [] + [b] == [b] && [a] + [] + [b] == [a] + [b];
  }

  lemma InOrder(es: seq<Event>, e: Event, t: int)
    requires t <= e.now && Monotone(es, e.now)
    ensures Monotone([e] + es, t)
  {
    assert ([e] + es)[1..] == es;
  }

  lemma FirstSeen(cfg: Config, store: Store, e: Event, es: seq<Event>)
    requires e.Request?
    ensures Seen(cfg, store, [e] + es, e.ip)
            == [ResponseTo(cfg, store, e)] + Seen(cfg, StoreAfter(cfg, store, e), es, e.ip)
  {
    assert ([e] + es)[1..] == es;
  }
}
