/** The RateLimiter object, and the verifier that consults it. */
module RateLimiter {
  import opened Wrappers
  import opened L = Lockout

  /** time.Duration. Overflow would be an error here, not a wrap. */
  newtype Duration = x: int | -0x8000_0000_0000_0000 <= x < 0x8000_0000_0000_0000

  /** backoff: the doubling loop computes the closed form, and its accumulator never
      passes 64 minutes, so it cannot overflow. */
  method Backoff(lockCount: nat) returns (d: Duration)
    requires lockCount >= 1
    ensures d as int == LockoutTime(lockCount)
  {
    d := BASE_LOCKOUT as Duration;
    var i := 1;
    while i < lockCount
      invariant 1 <= i <= lockCount
      invariant d as int == Power2(i - 1) * MINUTE
      invariant d as int <= 64 * MINUTE
    {
      PowersMissSixty(i - 1);
      if d as int >= MAX_LOCKOUT {
        Power2Grows(i - 1, lockCount - 1);
        return MAX_LOCKOUT as Duration;
      }
      assert Power2(i) == 2 * Power2(i - 1);
      d := d * 2;
      i := i + 1;
    }
    if d as int > MAX_LOCKOUT {
      return MAX_LOCKOUT as Duration;
    }
  }

  class RateLimiter {
    var byIP: map<string, LockState>
    var byAcct: map<string, LockState>

    function State(): Limiter
      reads this
    {
      Limiter(byIP, byAcct)
    }

    constructor ()
      ensures State() == Limiter(map[], map[])
    {
      byIP, byAcct := map[], map[];
    }

    /** Either key being locked refuses the attempt. */
    method Allow(ip: string, account: string, now: int) returns (allowed: bool)
      ensures allowed == Allowed(State(), ip, account, now)
    {
      if ip in byIP && Locked(byIP[ip], now) {
        return false;
      }
      if account in byAcct && Locked(byAcct[account], now) {
        return false;
      }
      return true;
    }

    method RecordFailure(ip: string, account: string, now: int)
      modifies this
      ensures State() == L.RecordFailure(old(State()), ip, account, now)
    {
      byIP := Bump(byIP, ip, now);
      byAcct := Bump(byAcct, account, now);
    }

    method RecordSuccess(ip: string, account: string)
      modifies this
      ensures State() == L.RecordSuccess(old(State()), ip, account)
    {
      byIP := byIP - {ip};
      byAcct := byAcct - {account};
    }

    /** LimitedVerifier.Verify for a wrapped verifier that says `a.good`. */
    method Verify(a: Attempt) returns (v: Verdict)
      modifies this
      ensures (State(), v) == L.Verify(old(State()), a)
    {
      var allowed := Allow(a.ip, a.account, a.checked);
      if !allowed {
        return Refused;
      }
      if !a.good {
        RecordFailure(a.ip, a.account, a.recorded);
        return Rejected;
      }
      RecordSuccess(a.ip, a.account);
      return Accepted;
    }
  }

  /** recordFailure on one table. */
  method Bump(m: map<string, LockState>, key: string, now: int) returns (m': map<string, LockState>)
    ensures m' == m[key := Failed(if key in m then m[key] else FRESH, now)]
  {
    var s := if key in m then m[key] else FRESH;
    s := s.(failures := s.failures + 1);
    if s.failures < FAILURE_THRESHOLD {
      return m[key := s];
    }
    var lockCount := s.lockCount + 1;
    var d := Backoff(lockCount);
    return m[key := LockState(0, lockCount, Some(now + d as int))];
  }
}
