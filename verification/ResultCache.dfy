/**
 The time- and size-bounded cache of query results (internal/mcp/execguard.go). Times are nanoseconds; a run
 of the cache is sequential.
 */
module ResultCache {
  import opened Basics
  import opened Text

  const DEFAULT_TTL_SECONDS := 60
  const MAX_ENTRIES := 100
  const MAX_ROWS := 5000
  const SECOND := 1_000_000_000
  const NUL: char := 0 as char

  datatype QueryResult = QueryResult(rowCount: nat, rows: string)

  datatype Entry = Entry(result: QueryResult, masked: seq<string>, expires: int)

  type Entries = map<string, Entry>

  predicate Expired(e: Entry, now: int) {
    now > e.expires
  }

  /** Whether a result is kept, under the lifetime in force. */
  predicate Keeps(ttl: int, res: Option<QueryResult>) {
    ttl > 0 && res.Some? && res.value.rowCount <= MAX_ROWS
  }

  function Live(es: Entries, now: int): Entries {
    map k | k in es && !Expired(es[k], now) :: es[k]
  }

  /** Room for one more entry: expired ones go first; if that is not enough, all of them. */
  function RoomFor(es: Entries, now: int): Entries {
    if |es| < MAX_ENTRIES then es
    else if |Live(es, now)| < MAX_ENTRIES then Live(es, now) else map[]
  }

  // ---------------------------------------------------------------- one operation

  /** The lifetime in force, in seconds, and what is stored. */
  datatype State = State(ttl: int, entries: Entries)

  datatype Op =
    | Set(seconds: int)
    | Get(key: string, now: int)
    | Put(key: string, res: Option<QueryResult>, masked: seq<string>, now: int)

  function Next(s: State, op: Op): State {
    match op
    case Set(seconds) => if seconds <= 0 then State(0, map[]) else State(seconds, s.entries)
    case Get(key, now) =>
      if s.ttl > 0 && key in s.entries && Expired(s.entries[key], now) then s.(entries := s.entries - {key}) else s
    case Put(key, res, masked, now) =>
      if Keeps(s.ttl, res)
      then s.(entries := RoomFor(s.entries, now)[key := Entry(res.value, masked, now + s.ttl * SECOND)])
      else s
  }

  /** What Get answers. */
  function Hit(s: State, key: string, now: int): Option<Entry> {
    if s.ttl > 0 && key in s.entries && !Expired(s.entries[key], now) then Some(s.entries[key]) else None
  }

  class Cache {
    var entries: Entries
    var ttlSeconds: int

    function Contents(): State
      reads this
    {
      State(ttlSeconds, entries)
    }

    constructor ()
      ensures Contents() == After([])
    {
      entries, ttlSeconds := map[], DEFAULT_TTL_SECONDS;
    }

    method SetTTL(seconds: int)
      modifies this
      ensures Contents() == Next(old(Contents()), Op.Set(seconds))
    {
      ttlSeconds := if seconds < 0 then 0 else seconds;
      if ttlSeconds == 0 {
        entries := map[];
      }
    }

    method Get(key: string, now: int) returns (hit: Option<Entry>)
      modifies this`entries
      ensures hit == Hit(old(Contents()), key, now)
      ensures Contents() == Next(old(Contents()), Op.Get(key, now))
    {
      if ttlSeconds <= 0 {
        return None;
      }
      if key !in entries || now > entries[key].expires {
        if key in entries {
          entries := entries - {key};
        }
        return None;
      }
      return Some(entries[key]);
    }

    method Put(key: string, res: Option<QueryResult>, masked: seq<string>, now: int)
      modifies this`entries
      ensures Contents() == Next(old(Contents()), Op.Put(key, res, masked, now))
    {
      if ttlSeconds <= 0 || res.None? || res.value.rowCount > MAX_ROWS {
        return;
      }
      if |entries| >= MAX_ENTRIES {
        var todo := entries.Keys;
        while todo != {}
          invariant todo <= entries.Keys <= old(entries).Keys
          invariant forall k :: k in entries ==> entries[k] == old(entries)[k]
          invariant forall k :: k in old(entries) && k !in todo ==> (k in entries <==> !Expired(old(entries)[k], now))
          decreases todo
        {
          var k :| k in todo;
          todo := todo - {k};
          if now > entries[k].expires {
            entries := entries - {k};
          }
        }
        assert entries == Live(old(entries), now);
        if |entries| >= MAX_ENTRIES {
          entries := map[];
        }
      }
      entries := entries[key := Entry(res.value, masked, now + ttlSeconds * SECOND)];
    }
  }

  // ---------------------------------------------------------------- whole runs

  function After(ops: seq<Op>): State {
    if ops == [] then State(DEFAULT_TTL_SECONDS, map[]) else Next(After(Front(ops)), Last(ops))
  }

  /** The entry made by the latest Put of the key that was kept, since caching was last switched off. */
  function LastKept(ops: seq<Op>, key: string): Option<Entry> {
    if ops == [] then None
    else match Last(ops)
         case Set(s) => if s <= 0 then None else LastKept(Front(ops), key)
         case Get(_, _) => LastKept(Front(ops), key)
         case Put(k, res, masked, now) =>
           var ttl := After(Front(ops)).ttl;
           if k == key && Keeps(ttl, res) then Some(Entry(res.value, masked, now + ttl * SECOND))
           else LastKept(Front(ops), key)
  }

  lemma {:induction false} EntriesAreLastKept(ops: seq<Op>, key: string)
    requires key in After(ops).entries
    ensures LastKept(ops, key) == Some(After(ops).entries[key])
  {
    if key in After(Front(ops)).entries { EntriesAreLastKept(Front(ops), key); }
  }

  /** A hit is the latest result kept for its key, within that result's own lifetime. */
  lemma {:induction false} HitIsLatest(ops: seq<Op>, key: string, now: int)
    ensures Hit(After(ops), key, now).Some? ==> Hit(After(ops), key, now) == LastKept(ops, key)
    ensures Hit(After(ops), key, now).Some? ==> now <= Hit(After(ops), key, now).value.expires && After(ops).ttl > 0
  {
    if key in After(ops).entries { EntriesAreLastKept(ops, key); }
  }

  /** The cache never holds more than its bound. */
  lemma {:induction false} CacheBounded(ops: seq<Op>)
    ensures |After(ops).entries| <= MAX_ENTRIES
  {
    if ops != [] {
      var before := After(Front(ops));
      CacheBounded(Front(ops));
      match Last(ops)
      case Set(_) =>
      case Get(key, _) => SubmapSize(before.entries - {key}, before.entries);
      case Put(key, res, masked, now) =>
        if Keeps(before.ttl, res) {
          var room := RoomFor(before.entries, now);
          assert After(ops).entries.Keys == room.Keys + {key};
        }
    }
  }

  // ---------------------------------------------------------------- cache keys

  function CacheKey(profile: string, sql: string, maxRows: int): string {
    profile + ([NUL] + (TrimSpace(sql) + ([NUL] + Itoa(maxRows))))
  }

  lemma {:induction false} LastNul(a: string, p: string)
    requires NUL !in p
    ensures var s := a + ([NUL] + p);
            s[|a|] == NUL && (forall i :: |a| < i < |s| ==> s[i] != NUL) && s[..|a|] == a && s[|a| + 1..] == p
  {
    var s := a + ([NUL] + p);
    assert forall i :: |a| < i < |s| ==> s[i] == p[i - |a| - 1];
  }

  lemma {:induction false} SplitLast(a: string, p: string, b: string, q: string)
    requires NUL !in p && NUL !in q && a + ([NUL] + p) == b + ([NUL] + q)
    ensures a == b && p == q
  {
    LastNul(a, p);
    LastNul(b, q);
  }

  lemma {:induction false} NoNulInItoa(n: int)
    ensures NUL !in Itoa(n)
  {
    DigitsAreDigits(if n < 0 then -n else n);
  }

  lemma {:induction false} TrimmedLeft(s: string)
    ensures TrimLeft(s) != "" ==> !IsBlank(TrimLeft(s)[0])
  {
    if s != "" && IsBlank(s[0]) { TrimmedLeft(s[1..]); }
  }

  lemma {:induction false} TrimRightIsPrefix(s: string)
    ensures TrimRight(s) <= s
  {
    if s != "" && IsBlank(s[|s| - 1]) { TrimRightIsPrefix(s[..|s| - 1]); }
  }

  lemma {:induction false} TrimmedFirst(s: string)
    ensures TrimSpace(s) != "" ==> !IsBlank(TrimSpace(s)[0])
  {
    TrimmedLeft(s);
    TrimRightIsPrefix(TrimLeft(s));
  }

  /** The longer profile goes on with NUL, and not with NUL and a blank. */
  predicate NulExtends(p: string, q: string) {
    |p| < |q| && q[..|p|] == p && q[|p|] == NUL && (|p| + 1 < |q| ==> !IsBlank(q[|p| + 1]))
  }

  /** What equal keys tell: the numeral is split off at the last NUL. */
  lemma {:induction false} EqualKeys(p: string, s: string, m: int, q: string, t: string, n: int)
    requires CacheKey(p, s, m) == CacheKey(q, t, n)
    ensures m == n && p + ([NUL] + TrimSpace(s)) == q + ([NUL] + TrimSpace(t))
  {
    NoNulInItoa(m);
    NoNulInItoa(n);
    KeyParts(p, s, m);
    KeyParts(q, t, n);
    SplitLast(p + ([NUL] + TrimSpace(s)), Itoa(m), q + ([NUL] + TrimSpace(t)), Itoa(n));
    ItoaInjective(m, n);
  }

  lemma {:induction false} KeyParts(p: string, s: string, m: int)
    ensures CacheKey(p, s, m) == (p + ([NUL] + TrimSpace(s))) + ([NUL] + Itoa(m))
  {
  }

  lemma {:induction false} LongerProfileExtends(p: string, s: string, q: string, t: string)
    requires p + ([NUL] + TrimSpace(s)) == q + ([NUL] + TrimSpace(t)) && |p| < |q|
    ensures NulExtends(p, q)
  {
    var k := p + ([NUL] + TrimSpace(s));
    assert k[..|p|] == p && k[|p|] == NUL && k[|p| + 1..] == TrimSpace(s);
    assert k[..|q|] == q;
    assert q[..|p|] == k[..|p|] && q[|p|] == k[|p|];
    TrimmedFirst(s);
    if |p| + 1 < |q| { assert q[|p| + 1] == k[|p| + 1] == TrimSpace(s)[0]; }
  }

  /** Equal keys mean the same profile, the same statement up to outer blanks and the same bound, unless one profile
      goes on where the other ends with NUL; so always for profiles without NUL and for queries of one profile. */
  lemma {:induction false} CacheKeyInjective(p: string, s: string, m: int, q: string, t: string, n: int)
    requires !NulExtends(p, q) && !NulExtends(q, p)
    requires CacheKey(p, s, m) == CacheKey(q, t, n)
    ensures p == q && TrimSpace(s) == TrimSpace(t) && m == n
  {
    EqualKeys(p, s, m, q, t, n);
    if |p| < |q| {
      LongerProfileExtends(p, s, q, t);
    } else if |q| < |p| {
      LongerProfileExtends(q, t, p, s);
    } else {
      var k := p + ([NUL] + TrimSpace(s));
      assert k[..|p|] == p && k[..|p|] == q && k[|p| + 1..] == TrimSpace(s) && k[|p| + 1..] == TrimSpace(t);
    }
  }

  ghost predicate CanCollide(p: string, q: string) {
    exists s, t, m, n :: CacheKey(p, s, m) == CacheKey(q, t, n)
  }

  /** Two queries that share a key, for any profiles one of which extends the other. */
  lemma {:induction false} ExtendingProfilesCollide(p: string, q: string)
    requires NulExtends(p, q)
    ensures var r := q[|p| + 1..]; CacheKey(p, r + [NUL, 'x'], 1) == CacheKey(q, "x", 1)
  {
    var r := q[|p| + 1..];
    var s := r + [NUL, 'x'];
    assert s[0] == (if r == "" then NUL else q[|p| + 1]) && s[|s| - 1] == 'x';
    assert TrimSpace(s) == s && TrimSpace("x") == "x";
    assert q == p + ([NUL] + r);
    assert CacheKey(p, s, 1) == CacheKey(q, "x", 1);
  }

  /** Different profiles share a key for some queries if and only if one extends the other by NUL. */
  lemma {:induction false} ProfilesCollideExactly(p: string, q: string)
    requires p != q
    ensures CanCollide(p, q) <==> NulExtends(p, q) || NulExtends(q, p)
  {
    if CanCollide(p, q) {
      var s, t, m, n :| CacheKey(p, s, m) == CacheKey(q, t, n);
      if !NulExtends(p, q) && !NulExtends(q, p) { CacheKeyInjective(p, s, m, q, t, n); }
    }
    if NulExtends(p, q) {
      ExtendingProfilesCollide(p, q);
    }
    if NulExtends(q, p) {
      ExtendingProfilesCollide(q, p);
    }
  }
}
