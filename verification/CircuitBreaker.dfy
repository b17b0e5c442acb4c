/**
 The per-profile circuit breaker in front of a database (internal/dbconn/manager.go). Times are nanoseconds.
 */
module CircuitBreaker {

  const THRESHOLD: nat := 3
  const COOLDOWN: int := 30 * 1_000_000_000

  datatype Until = Never | Until(time: int)

  datatype Breaker = Breaker(failures: nat, openUntil: Until)

  predicate Open(b: Breaker, now: int) {
    b.openUntil.Until? && now < b.openUntil.time
  }

  class Manager {
    var brk: map<string, Breaker>

    constructor ()
      ensures brk == map[]
    {
      brk := map[];
    }

    method BreakerCheck(profile: string, now: int) returns (refused: bool)
      ensures refused <==> profile in brk && Open(brk[profile], now)
    {
      refused := profile in brk && brk[profile].openUntil.Until? && now < brk[profile].openUntil.time;
    }

    method BreakerRecord(profile: string, failed: bool, now: int)
      modifies this
      ensures brk ==
              old(brk)[profile :=
                Recorded(if profile in old(brk) then old(brk)[profile] else Breaker(0, Never), failed, now)]
    {
      if profile !in brk {
        brk := brk[profile := Breaker(0, Never)];
      }
      var b := brk[profile];
      if !failed {
        brk := brk[profile := Breaker(0, Never)];
        return;
      }
      b := b.(failures := b.failures + 1);
      if b.failures >= THRESHOLD {
        b := b.(openUntil := Until(now + COOLDOWN));
      }
      brk := brk[profile := b];
    }
  }

  function Recorded(b: Breaker, failed: bool, now: int): Breaker {
    if !failed then Breaker(0, Never)
    else Breaker(b.failures + 1, if b.failures + 1 >= THRESHOLD then Until(now + COOLDOWN) else b.openUntil)
  }

  // ---------------------------------------------------------------- whole runs

  datatype Call = Call(profile: string, failed: bool, now: int)

  function After(calls: seq<Call>): map<string, Breaker> {
    if calls == [] then map[] else
    var before, c := After(calls[..|calls| - 1]), calls[|calls| - 1];
    before[c.profile := Recorded(if c.profile in before then before[c.profile] else Breaker(0, Never), c.failed, c.now)]
  }

  /** The profile's failures since its last success, oldest first. */
  function RecentFailures(calls: seq<Call>, profile: string): seq<int> {
    if calls == [] then [] else
    var before, c := RecentFailures(calls[..|calls| - 1], profile), calls[|calls| - 1];
    if c.profile != profile then before else if c.failed then before + [c.now] else []
  }

  lemma {:induction false} BreakerTracksFailures(calls: seq<Call>, profile: string)
    ensures var recent := RecentFailures(calls, profile);
            if profile in After(calls)
            then After(calls)[profile] ==
                   Breaker(|recent|, if |recent| >= THRESHOLD then Until(recent[|recent| - 1] + COOLDOWN) else Never)
            else recent == []
  {
    if calls != [] { BreakerTracksFailures(calls[..|calls| - 1], profile); }
  }

  /** Calls are refused exactly until 30 seconds after the latest failure, once there are three since the last
      success. */
  lemma {:induction false} RefusedExactly(calls: seq<Call>, profile: string, now: int)
    ensures var recent := RecentFailures(calls, profile);
            profile in After(calls) && Open(After(calls)[profile], now)
            <==> |recent| >= THRESHOLD && now < recent[|recent| - 1] + COOLDOWN
  {
    BreakerTracksFailures(calls, profile);
  }
}
