/**
 The feedback rate limiter: fixed windows per actor in a bounded table of buckets (internal/mcp/feedback.go).
 Times and durations are integers (nanoseconds).
 */
module RateLimiter {
  import opened Basics

  const MAX_RATE_ACTORS: nat := 10_000
  const DEFAULT_LIMIT: nat := 30
  const SECOND: nat := 1_000_000_000
  const DEFAULT_WINDOW: nat := 60 * SECOND

  datatype Bucket = Bucket(windowStart: int, count: nat)

  type Buckets = map<string, Bucket>

  datatype Outcome = Accepted | TooMany(retry: int) | TableFull(retry: int)

  datatype Config = Config(limit: nat, window: int)

  predicate ConfigOk(c: Config) {
    c.limit > 0 && c.window > 0
  }

  // ---------------------------------------------------------------- one request

  /** Buckets dropped to make room for a newcomer: long expired, or from the future. */
  predicate Stale(c: Config, b: Bucket, now: int) {
    now - b.windowStart >= 2 * c.window || now < b.windowStart
  }

  predicate LongExpired(c: Config, b: Bucket, now: int) {
    now - b.windowStart >= 2 * c.window
  }

  function WithoutStale(c: Config, bs: Buckets, now: int): Buckets {
    map k | k in bs && !Stale(c, bs[k], now) :: bs[k]
  }

  function WithoutLongExpired(c: Config, bs: Buckets, now: int): Buckets {
    map k | k in bs && !LongExpired(c, bs[k], now) :: bs[k]
  }

  predicate Newcomer(bs: Buckets, key: string) {
    key !in bs && |bs| >= MAX_RATE_ACTORS
  }

  function RoomMade(c: Config, bs: Buckets, key: string, now: int): Buckets {
    if Newcomer(bs, key) then WithoutStale(c, bs, now) else bs
  }

  /** The bucket a request is counted in. */
  function Current(c: Config, bs: Buckets, key: string, now: int): Bucket {
    if key !in bs || now - bs[key].windowStart >= c.window || now < bs[key].windowStart then Bucket(now, 0) else bs[key]
  }

  function RetryAfter(c: Config, b: Bucket, now: int): int {
    var retry := c.window - (now - b.windowStart);
    if retry < SECOND then SECOND else retry
  }

  function Decide(c: Config, bs: Buckets, key: string, now: int): Outcome {
    var room := RoomMade(c, bs, key, now);
    if Newcomer(bs, key) && |room| >= MAX_RATE_ACTORS then TableFull(c.window)
    else var b := Current(c, room, key, now);
         if b.count >= c.limit then TooMany(RetryAfter(c, b, now)) else Accepted
  }

  function Next(c: Config, bs: Buckets, key: string, now: int): Buckets {
    var room := RoomMade(c, bs, key, now);
    if Decide(c, bs, key, now) != Accepted then room
    else var b := Current(c, room, key, now);
         var counted := room[key := b.(count := b.count + 1)];
         if |counted| >= MAX_RATE_ACTORS then WithoutLongExpired(c, counted, now) else counted
  }

  class FeedbackRateLimiter {
    const config: Config
    var buckets: Buckets

    constructor (limit: int, window: int)
      ensures ConfigOk(config) && buckets == map[]
      ensures config.limit == if limit <= 0 then DEFAULT_LIMIT else limit
      ensures config.window == if window <= 0 then DEFAULT_WINDOW else window
    {
      config := Config(if limit <= 0 then DEFAULT_LIMIT else limit, if window <= 0 then DEFAULT_WINDOW else window);
      buckets := map[];
    }

    method DropStale(now: int)
      modifies this
      ensures buckets == WithoutStale(config, old(buckets), now)
    {
      var todo := buckets.Keys;
      while todo != {}
        invariant todo <= buckets.Keys <= old(buckets).Keys
        invariant forall k :: k in buckets ==> buckets[k] == old(buckets)[k]
        invariant forall k :: k in old(buckets) && k !in todo ==>
                    (k in buckets <==> !Stale(config, old(buckets)[k], now))
        decreases todo
      {
        var k :| k in todo;
        todo := todo - {k};
        if Stale(config, buckets[k], now) {
          buckets := buckets - {k};
        }
      }
    }

    method DropLongExpired(now: int)
      modifies this
      ensures buckets == WithoutLongExpired(config, old(buckets), now)
    {
      var todo := buckets.Keys;
      while todo != {}
        invariant todo <= buckets.Keys <= old(buckets).Keys
        invariant forall k :: k in buckets ==> buckets[k] == old(buckets)[k]
        invariant forall k :: k in old(buckets) && k !in todo ==>
                    (k in buckets <==> !LongExpired(config, old(buckets)[k], now))
        decreases todo
      {
        var k :| k in todo;
        todo := todo - {k};
        if LongExpired(config, buckets[k], now) {
          buckets := buckets - {k};
        }
      }
    }

    method Allow(key: string, now: int) returns (ok: bool, retry: int)
      requires ConfigOk(config)
      modifies this
      ensures buckets == Next(config, old(buckets), key, now)
      ensures match Decide(config, old(buckets), key, now)
              case Accepted => ok && retry == 0
              case TooMany(r) => !ok && retry == r
              case TableFull(r) => !ok && retry == r
    {
      if key !in buckets && |buckets| >= MAX_RATE_ACTORS {
        DropStale(now);
        if |buckets| >= MAX_RATE_ACTORS {
          return false, config.window;
        }
      }
      var b := if key in buckets then buckets[key] else Bucket(now, 0);
      if key !in buckets || now - b.windowStart >= config.window || now < b.windowStart {
        b := Bucket(now, 0);
      }
      if b.count >= config.limit {
        retry := config.window - (now - b.windowStart);
        if retry < SECOND {
          retry := SECOND;
        }
        return false, retry;
      }
      b := b.(count := b.count + 1);
      buckets := buckets[key := b];
      if |buckets| >= MAX_RATE_ACTORS {
        DropLongExpired(now);
      }
      return true, 0;
    }
  }

  // ---------------------------------------------------------------- whole runs

  datatype Request = Request(key: string, now: int)

  predicate Monotone(rs: seq<Request>) {
    forall i, j :: 0 <= i < j < |rs| ==> rs[i].now <= rs[j].now
  }

  function After(c: Config, rs: seq<Request>): Buckets {
    if rs == [] then map[] else Next(c, After(c, Front(rs)), Last(rs).key, Last(rs).now)
  }

  /** The decision on the last request of a run. */
  function Verdict(c: Config, rs: seq<Request>): Outcome
    requires rs != []
  {
    Decide(c, After(c, Front(rs)), Last(rs).key, Last(rs).now)
  }

  /** How many requests of an actor were accepted at time t or later. */
  function Since(c: Config, rs: seq<Request>, key: string, t: int): nat {
    if rs == [] then 0
    else Since(c, Front(rs), key, t)
         + if Last(rs).key == key && Last(rs).now >= t && Verdict(c, rs) == Accepted then 1 else 0
  }

  /** Accepted in the half-open interval [from, until). */
  function AcceptedIn(c: Config, rs: seq<Request>, key: string, from: int, until: int): int {
    Since(c, rs, key, from) - Since(c, rs, key, until)
  }

  lemma {:induction false} SinceMonotone(c: Config, rs: seq<Request>, key: string, t: int, u: int)
    requires t <= u
    ensures Since(c, rs, key, t) >= Since(c, rs, key, u)
  {
    if rs != [] { SinceMonotone(c, Front(rs), key, t, u); }
  }

  lemma {:induction false} NoneLater(c: Config, rs: seq<Request>, key: string, t: int)
    requires forall i :: 0 <= i < |rs| ==> rs[i].now < t
    ensures Since(c, rs, key, t) == 0
  {
    if rs != [] { NoneLater(c, Front(rs), key, t); }
  }

  /** The table of buckets never outgrows its bound. */
  lemma {:induction false} TableBounded(c: Config, rs: seq<Request>)
    ensures |After(c, rs)| <= MAX_RATE_ACTORS
  {
    if rs != [] {
      TableBounded(c, Front(rs));
      var bs, key, now := After(c, Front(rs)), Last(rs).key, Last(rs).now;
      var room := RoomMade(c, bs, key, now);
      SubmapSize(room, bs);
      var counted := room[key := Current(c, room, key, now).(count := Current(c, room, key, now).count + 1)];
      assert counted.Keys == room.Keys + {key};
      SubmapSize(WithoutLongExpired(c, counted, now), counted);
    }
  }

  /** At most twice the limit in any interval of one window that starts at t. */
  predicate TwiceAtMost(c: Config, rs: seq<Request>, key: string, t: int) {
    AcceptedIn(c, rs, key, t, t + c.window) <= 2 * c.limit
  }

  /** At most the limit between t and the start of the current window. */
  predicate OnceBefore(c: Config, rs: seq<Request>, key: string, t: int, start: int) {
    AcceptedIn(c, rs, key, t, start) <= c.limit
  }

  /** A bucket counts what was accepted since its window started; nothing is later than that window. */
  ghost predicate Counts(c: Config, rs: seq<Request>, key: string, b: Bucket, now: int) {
    && b.windowStart <= now && Since(c, rs, key, b.windowStart) == b.count <= c.limit
    && Since(c, rs, key, b.windowStart + c.window) == 0
    && forall t :: b.windowStart - c.window < t <= b.windowStart ==> OnceBefore(c, rs, key, t, b.windowStart)
  }

  /** What a table tells about one actor after a run whose last request came no later than `now`: without a
      bucket, nothing was accepted within one window. */
  ghost predicate Accounted(c: Config, rs: seq<Request>, bs: Buckets, key: string, now: int) {
    && (forall t :: TwiceAtMost(c, rs, key, t))
    && (if key in bs then Counts(c, rs, key, bs[key], now) else Since(c, rs, key, now - c.window + 1) == 0)
  }

  lemma {:induction false} TimePasses(c: Config, rs: seq<Request>, bs: Buckets, key: string, now: int, later: int)
    requires Accounted(c, rs, bs, key, now) && now <= later
    ensures Accounted(c, rs, bs, key, later)
  {
    SinceMonotone(c, rs, key, now - c.window + 1, later - c.window + 1);
  }

  /** Dropping a long-expired bucket forgets nothing that still counts. */
  lemma {:induction false} DroppedIsOld(c: Config, rs: seq<Request>, bs: Buckets, bs': Buckets, key: string, now: int)
    requires ConfigOk(c) && Accounted(c, rs, bs, key, now)
    requires key in bs' ==> key in bs && bs'[key] == bs[key]
    requires key in bs && key !in bs' ==> Stale(c, bs[key], now)
    ensures Accounted(c, rs, bs', key, now)
  {
    if key in bs && key !in bs' {
      SinceMonotone(c, rs, key, bs[key].windowStart + c.window, now - c.window + 1);
    }
  }

  /** A refused request, or one of another actor, changes no count. */
  lemma {:induction false} NotCounted(c: Config, rs: seq<Request>, bs: Buckets, key: string, now: int)
    requires rs != [] && Accounted(c, Front(rs), bs, key, now)
    requires Last(rs).key != key || Verdict(c, rs) != Accepted
    ensures Accounted(c, rs, bs, key, now)
  {
    assert forall t :: Since(c, rs, key, t) == Since(c, Front(rs), key, t);
    forall t ensures TwiceAtMost(c, rs, key, t) { assert TwiceAtMost(c, Front(rs), key, t); }
    if key in bs {
      var s := bs[key].windowStart;
      forall t | s - c.window < t <= s ensures OnceBefore(c, rs, key, t, s) {
        assert OnceBefore(c, Front(rs), key, t, s);
      }
    }
  }

  /** The window that a new request would be counted in starts after everything older has been paid for. */
  lemma {:induction false} CurrentCounts(c: Config, rs: seq<Request>, bs: Buckets, key: string, now: int)
    requires ConfigOk(c) && Accounted(c, rs, bs, key, now)
    requires forall i :: 0 <= i < |rs| ==> rs[i].now <= now
    ensures Counts(c, rs, key, Current(c, bs, key, now), now)
    ensures now - Current(c, bs, key, now).windowStart < c.window
  {
    var b := Current(c, bs, key, now);
    if b == Bucket(now, 0) && !(key in bs && bs[key] == b) {
      NoneLater(c, rs, key, now + c.window);
      if key in bs {
        var expired := bs[key];
        SinceMonotone(c, rs, key, expired.windowStart + c.window, now);
        forall t | now - c.window < t <= now ensures OnceBefore(c, rs, key, t, now) {
          SinceMonotone(c, rs, key, expired.windowStart, t);
        }
      } else {
        SinceMonotone(c, rs, key, now - c.window + 1, now);
        forall t | now - c.window < t <= now ensures OnceBefore(c, rs, key, t, now) {
          SinceMonotone(c, rs, key, now - c.window + 1, t);
        }
      }
    }
  }

  /** Accepting one more request within a limit that is not yet used up. */
  lemma {:induction false} AcceptedCounts(c: Config, rs: seq<Request>, b: Bucket)
    requires rs != [] && ConfigOk(c) && Verdict(c, rs) == Accepted
    requires var key, now := Last(rs).key, Last(rs).now;
             && Counts(c, Front(rs), key, b, now) && now - b.windowStart < c.window && b.count < c.limit
             && forall t :: TwiceAtMost(c, Front(rs), key, t)
    ensures Counts(c, rs, Last(rs).key, b.(count := b.count + 1), Last(rs).now)
    ensures forall t :: TwiceAtMost(c, rs, Last(rs).key, t)
  {
    var before, key, now, s := Front(rs), Last(rs).key, Last(rs).now, b.windowStart;
    assert forall t :: Since(c, rs, key, t) == Since(c, before, key, t) + if now >= t then 1 else 0;
    forall t | s - c.window < t <= s ensures OnceBefore(c, rs, key, t, s) { assert OnceBefore(c, before, key, t, s); }
    forall t ensures TwiceAtMost(c, rs, key, t) {
      assert TwiceAtMost(c, before, key, t);
      if t <= now < t + c.window {
        if t <= s { assert OnceBefore(c, before, key, t, s); } else { SinceMonotone(c, before, key, s, t); }
      }
    }
  }

  lemma {:induction false} NextAccounted(c: Config, rs: seq<Request>, key: string)
    requires ConfigOk(c) && rs != [] && Accounted(c, Front(rs), After(c, Front(rs)), key, Last(rs).now)
    requires Monotone(rs)
    ensures Accounted(c, rs, After(c, rs), key, Last(rs).now)
  {
    var before, bs, who, now := Front(rs), After(c, Front(rs)), Last(rs).key, Last(rs).now;
    var room := RoomMade(c, bs, who, now);
    DroppedIsOld(c, before, bs, room, key, now);
    if Verdict(c, rs) != Accepted {
      NotCounted(c, rs, room, key, now);
    } else {
      var b := Current(c, room, who, now);
      var counted := room[who := b.(count := b.count + 1)];
      if key == who {
        CurrentCounts(c, before, room, who, now);
        AcceptedCounts(c, rs, b);
      } else {
        NotCounted(c, rs, room, key, now);
      }
      assert Accounted(c, rs, counted, key, now);
      DroppedIsOld(c, rs, counted, After(c, rs), key, now);
    }
  }

  lemma {:induction false} AllAccounted(c: Config, rs: seq<Request>, key: string, now: int)
    requires ConfigOk(c) && Monotone(rs) && (rs != [] ==> Last(rs).now <= now)
    ensures Accounted(c, rs, After(c, rs), key, now)
  {
    if rs == [] {
      forall t ensures TwiceAtMost(c, rs, key, t) {}
    } else {
      AllAccounted(c, Front(rs), key, Last(rs).now);
      NextAccounted(c, rs, key);
      TimePasses(c, rs, After(c, rs), key, Last(rs).now, now);
    }
  }

  /** No interval of one window's length sees more than twice the limit accepted for an actor. */
  lemma {:induction false} TwiceTheLimitAtMost(c: Config, rs: seq<Request>, key: string, t: int)
    requires ConfigOk(c) && Monotone(rs)
    ensures AcceptedIn(c, rs, key, t, t + c.window) <= 2 * c.limit
  {
    AllAccounted(c, rs, key, if rs == [] then 0 else Last(rs).now);
    assert TwiceAtMost(c, rs, key, t);
  }

  // ---------------------------------------------------------------- eviction is invisible

  /** The limiter without a bound on its table. */
  function IdealDecide(c: Config, bs: Buckets, key: string, now: int): Outcome {
    var b := Current(c, bs, key, now);
    if b.count >= c.limit then TooMany(RetryAfter(c, b, now)) else Accepted
  }

  function IdealNext(c: Config, bs: Buckets, key: string, now: int): Buckets {
    var b := Current(c, bs, key, now);
    if IdealDecide(c, bs, key, now) == Accepted then bs[key := b.(count := b.count + 1)] else bs
  }

  /** The unbounded limiter, fed the requests that were not refused for want of room. */
  function IdealAfter(c: Config, rs: seq<Request>): Buckets {
    if rs == [] then map[]
    else if Verdict(c, rs).TableFull? then IdealAfter(c, Front(rs))
    else IdealNext(c, IdealAfter(c, Front(rs)), Last(rs).key, Last(rs).now)
  }

  /** A bounded table lacks only buckets that expired long ago. */
  ghost predicate Shadows(c: Config, bs: Buckets, ideal: Buckets, now: int) {
    && (forall k :: k in bs ==> k in ideal && ideal[k] == bs[k])
    && (forall k :: k in ideal ==> ideal[k].windowStart <= now && (k in bs || LongExpired(c, ideal[k], now)))
  }

  lemma {:induction false} ShadowStep(c: Config, bs: Buckets, ideal: Buckets, key: string, now: int)
    requires ConfigOk(c) && Shadows(c, bs, ideal, now)
    ensures Decide(c, bs, key, now).TableFull? ==> Shadows(c, Next(c, bs, key, now), ideal, now)
    ensures !Decide(c, bs, key, now).TableFull? ==>
              && Decide(c, bs, key, now) == IdealDecide(c, ideal, key, now)
              && Shadows(c, Next(c, bs, key, now), IdealNext(c, ideal, key, now), now)
  {
    var room := RoomMade(c, bs, key, now);
    assert Shadows(c, room, ideal, now);
    assert Current(c, room, key, now) == Current(c, ideal, key, now);
    if Decide(c, bs, key, now) == Accepted {
      var b := Current(c, room, key, now).(count := Current(c, room, key, now).count + 1);
      assert Shadows(c, room[key := b], ideal[key := b], now);
    }
  }

  lemma {:induction false} AfterShadowsIdeal(c: Config, rs: seq<Request>, now: int)
    requires ConfigOk(c) && Monotone(rs) && (rs != [] ==> Last(rs).now <= now)
    ensures Shadows(c, After(c, rs), IdealAfter(c, rs), now)
  {
    if rs != [] {
      AfterShadowsIdeal(c, Front(rs), Last(rs).now);
      ShadowStep(c, After(c, Front(rs)), IdealAfter(c, Front(rs)), Last(rs).key, Last(rs).now);
    }
  }

  /** Eviction never changes a decision: but for refusals of newcomers while the table is full, the verdicts,
      retry times included, are those of a limiter that never forgets. */
  lemma {:induction false} EvictionInvisible(c: Config, rs: seq<Request>)
    requires ConfigOk(c) && Monotone(rs) && rs != []
    ensures Verdict(c, rs).TableFull? ||
            Verdict(c, rs) == IdealDecide(c, IdealAfter(c, Front(rs)), Last(rs).key, Last(rs).now)
    ensures Verdict(c, rs).TableFull? ==>
              Last(rs).key !in After(c, Front(rs)) && |After(c, Front(rs))| == MAX_RATE_ACTORS
  {
    AfterShadowsIdeal(c, Front(rs), Last(rs).now);
    ShadowStep(c, After(c, Front(rs)), IdealAfter(c, Front(rs)), Last(rs).key, Last(rs).now);
    TableBounded(c, Front(rs));
  }
}
