/** The Owner object: the pairing handlers over the attempts and the limiter. */
module Owner {
  import opened Wrappers
  import opened Pairing
  import opened PairingAttempts
  import Devices
  import L = Lockout
  import opened H = PairingHandlers
  import RateLimiter

  class Owner {
    const email: string
    const limiter: RateLimiter.RateLimiter
    const store: Devices.Store
    var attempts: Attempts

    constructor (email: string, limiter: RateLimiter.RateLimiter, store: Devices.Store)
      ensures attempts == map[] && this.email == email && this.limiter == limiter && this.store == store
    {
      this.email, this.limiter, this.store := email, limiter, store;
      attempts := map[];
    }

    /** sweepLocked: one pass over the map, deleting what is past its time. */
    method Sweep(now: int)
      modifies this
      ensures attempts == Swept(old(attempts), now)
    {
      var todo := attempts.Keys;
      while todo != {}
        invariant todo <= old(attempts).Keys
        invariant attempts ==
          map id | id in old(attempts) && (id in todo || !Expired(old(attempts)[id].attempt, now)) :: old(attempts)[id]
        decreases |todo|
      {
        var id :| id in todo;
        if Expired(attempts[id].attempt, now) {
          attempts := attempts - {id};
        }
        todo := todo - {id};
      }
    }

    /** handlePairStart, for a freshly drawn id. */
    method PairStart(id: string, pubKey: string, name: string, platform: string, started: int, now: int)
      returns (status: Status)
      modifies this
      ensures status == if AcceptableKey(pubKey) then OK else BadRequest
      ensures attempts ==
        if AcceptableKey(pubKey)
        then Started(old(attempts), id, Record(NewAttempt(pubKey, started), name, platform), now, true)
        else old(attempts)
    {
      if Devices.DecodeKey(pubKey).None? {
        return BadRequest;
      }
      var r := Record(NewAttempt(pubKey, started), name, platform);
      Sweep(now);
      attempts := attempts[id := r];
      return OK;
    }

    /** satisfyFactor; the outcome is counted at `recorded`. */
    method SatisfyFactor(ip: string, id: string, f: Factor, good: bool, now: int, later: int, recorded: int)
      returns (status: Status)
      modifies this, limiter
      ensures var (m, answer) := Satisfied(old(attempts), id, f, good, now, later, true);
        && attempts == m && status == StatusOf(answer)
        && limiter.State() == Counted(old(limiter.State()), ip, email, answer, recorded)
      ensures now <= later && IsLive(old(attempts), id, later) && !good ==>
        && status == Unauthorized
        && CounterIs(old(limiter.State()), limiter.State(), ip, email, s => L.Failed(s, recorded))
      ensures now <= later && IsLive(old(attempts), id, later) && good ==>
        status == OK && CounterIs(old(limiter.State()), limiter.State(), ip, email, s => L.FRESH)
      ensures now <= later && !IsLive(old(attempts), id, later) ==>
        status != OK && status != Unauthorized && limiter.State() == old(limiter.State())
    {
      if now <= later {
        CountedExactly(attempts, limiter.State(), ip, email, id, f, good, now, later, recorded, true);
      }
      Sweep(now);
      if id !in attempts {
        return NotFound;
      }
      var r := attempts[id];
      var (a, answer) := Satisfy(r.attempt, f, good, later);
      attempts := attempts[id := r.(attempt := a)];
      match answer {
        case Accepted => limiter.RecordSuccess(ip, email);
        case BadEvidence => limiter.RecordFailure(ip, email, recorded);
        case PastTTL =>
        case AlreadyConsumed =>
        case Incomplete =>
      }
      return StatusOf(Some(answer));
    }

    /** handlePairPassword; a wrong email counts like a wrong password. */
    method PairPassword(ip: string, id: string, emailMatches: bool, good: bool,
                        checked: int, now: int, later: int, recorded: int) returns (status: Status)
      modifies this, limiter
      ensures !L.Allowed(old(limiter.State()), ip, email, checked) ==>
        status == TooManyRequests && attempts == old(attempts) && limiter.State() == old(limiter.State())
      ensures L.Allowed(old(limiter.State()), ip, email, checked) && (email == "" || !emailMatches) ==>
        && status == Unauthorized && attempts == old(attempts)
        && limiter.State() == L.RecordFailure(old(limiter.State()), ip, email, recorded)
      ensures L.Allowed(old(limiter.State()), ip, email, checked) && email != "" && emailMatches ==>
        now <= later && IsLive(old(attempts), id, later) && !good ==>
        && status == Unauthorized
        && CounterIs(old(limiter.State()), limiter.State(), ip, email, s => L.Failed(s, recorded))
      ensures
        var s := H.Run(email, State(old(limiter.State()), old(attempts), map[]),
                       [Ask(0, ip, checked),
                        if email == "" || !emailMatches then OtherEmail(0, checked)
                        else Decide(0, id, Password, good, now, later),
                        Count(0, recorded)]);
        limiter.State() == s.limiter && attempts == s.attempts
      ensures L.Allowed(old(limiter.State()), ip, email, checked) && email != "" && emailMatches ==>
        var (m, answer) := Satisfied(old(attempts), id, Password, good, now, later, true);
        && attempts == m && status == StatusOf(answer)
        && limiter.State() == Counted(old(limiter.State()), ip, email, answer, recorded)
    {
      OneCall(email, limiter.State(), attempts, ip, checked,
        if email == "" || !emailMatches then OtherEmail(0, checked) else Decide(0, id, Password, good, now, later), recorded);
      var allowed := limiter.Allow(ip, email, checked);
      if !allowed {
        return TooManyRequests;
      }
      if email == "" || !emailMatches {
        limiter.RecordFailure(ip, email, recorded);
        return Unauthorized;
      }
      status := SatisfyFactor(ip, id, Password, good, now, later, recorded);
    }

    /** handlePairTOTP and handlePairPasskey: the other two factors, behind the same gate. */
    method PairFactor(ip: string, id: string, f: Factor, good: bool, checked: int, now: int, later: int, recorded: int)
      returns (status: Status)
      modifies this, limiter
      ensures !L.Allowed(old(limiter.State()), ip, email, checked) ==>
        status == TooManyRequests && attempts == old(attempts) && limiter.State() == old(limiter.State())
      ensures L.Allowed(old(limiter.State()), ip, email, checked) && now <= later && IsLive(old(attempts), id, later) && !good ==>
        && status == Unauthorized
        && CounterIs(old(limiter.State()), limiter.State(), ip, email, s => L.Failed(s, recorded))
      ensures
        var s := H.Run(email, State(old(limiter.State()), old(attempts), map[]),
                       [Ask(0, ip, checked), Decide(0, id, f, good, now, later), Count(0, recorded)]);
        limiter.State() == s.limiter && attempts == s.attempts
    {
      OneCall(email, limiter.State(), attempts, ip, checked, Decide(0, id, f, good, now, later), recorded);
      var allowed := limiter.Allow(ip, email, checked);
      if !allowed {
        return TooManyRequests;
      }
      status := SatisfyFactor(ip, id, f, good, now, later, recorded);
    }

    /** handlePairComplete: the attempt first, and only then the row; `able` is false when
        the database refuses. */
    method PairComplete(id: string, deviceID: string, now: int, later: int, able: bool) returns (status: Status)
      modifies this, store
      ensures var (m, r) := Completed(old(attempts), id, now, later, true);
        && attempts == m
        && (r.Some? && r.value.0 == Accepted ==>
              var row := Devices.Row(r.value.1.deviceName, r.value.1.platform, r.value.1.attempt.devicePub, false);
              var inserted := Devices.Insert(old(store.rows), deviceID, row);
              && status == (if able && inserted.Some? then OK else ServerError)
              && store.rows == (if able && inserted.Some? then inserted.value else old(store.rows)))
        && (!(r.Some? && r.value.0 == Accepted) ==>
              && store.rows == old(store.rows)
              && status == StatusOf(if r.None? then None else Some(r.value.0)))
    {
      Sweep(now);
      if id !in attempts {
        return NotFound;
      }
      var r := attempts[id];
      var (_, answer) := Complete(r.attempt, later);
      if answer != Accepted {
        return StatusOf(Some(answer));
      }
      attempts := attempts - {id};
      var ok := store.PairDevice(deviceID, r.deviceName, r.platform, r.attempt.devicePub, able);
      return if ok then OK else ServerError;
    }

    /** handleDevicesRevoke, once the middleware has let it through. */
    method DevicesRevoke(deviceID: string, able: bool) returns (status: Status)
      modifies store
      ensures status ==
        if deviceID == "" then BadRequest
        else if !able then ServerError
        else if deviceID in old(store.rows) then OK else NotFound
      ensures store.rows ==
        if status == OK then Devices.Revoke(old(store.rows), deviceID).value else old(store.rows)
    {
      if deviceID == "" {
        return BadRequest;
      }
      var r := store.RevokeDevice(deviceID, able);
      match r {
        case Done => return OK;
        case NoSuchDevice => return NotFound;
        case Failed => return ServerError;
      }
    }
  }
}
