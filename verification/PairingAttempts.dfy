/** The attempts in progress that Owner keeps: the critical sections of its
    handlers as functions of the map. */
module PairingAttempts {
  import opened Wrappers
  import opened Pairing
  import Devices

  datatype Record = Record(attempt: AttemptState, deviceName: string, platform: string)

  type Attempts = map<string, Record>

  function Swept(m: Attempts, now: int): Attempts {
    map id | id in m && !Expired(m[id].attempt, now) :: m[id]
  }

  function SweptIf(m: Attempts, now: int, sweeping: bool): Attempts {
    if sweeping then Swept(m, now) else m
  }

  /** handlePairStart refuses a device key of the wrong shape. */
  predicate AcceptableKey(pubKey: string) {
    Devices.DecodeKey(pubKey).Some?
  }

  /** The section of handlePairStart, for an attempt built before the lock. */
  function Started(m: Attempts, id: string, r: Record, now: int, sweeping: bool): Attempts {
    SweptIf(m, now, sweeping)[id := r]
  }

  /** The section of satisfyFactor: the sweep reads the clock at `now`, the attempt
      at `later`. None: unknown pairing id. */
  function Satisfied(m: Attempts, id: string, f: Factor, good: bool, now: int, later: int, sweeping: bool)
    : (Attempts, Option<Answer>)
  {
    var s := SweptIf(m, now, sweeping);
    if id !in s then (s, None)
    else
      var (a, answer) := Satisfy(s[id].attempt, f, good, later);
      (s[id := s[id].(attempt := a)], Some(answer))
  }

  /** The section of handlePairComplete: a completed attempt leaves the map. */
  function Completed(m: Attempts, id: string, now: int, later: int, sweeping: bool)
    : (Attempts, Option<(Answer, Record)>)
  {
    var s := SweptIf(m, now, sweeping);
    if id !in s then (s, None)
    else
      var (_, answer) := Complete(s[id].attempt, later);
      (if answer == Accepted then s - {id} else s, Some((answer, s[id])))
  }

  /** The sweep takes exactly the attempts started more than ten minutes ago. */
  lemma SweptExactly(m: Attempts, now: int, id: string)
    ensures id in Swept(m, now) <==> id in m && now - m[id].attempt.startedAt <= 600_000_000_000
    ensures id in Swept(m, now) ==> Swept(m, now)[id] == m[id]
  {
  }

  // ---- When the handlers say yes ---------------------------------------------------------

  /** Starting puts the new attempt beside those that are still in time. */
  lemma StartedExactly(m: Attempts, id: string, r: Record, now: int, sweeping: bool, other: string)
    ensures var m' := Started(m, id, r, now, sweeping);
      && id in m' && m'[id] == r
      && (other in m' && other != id ==> other in m && m'[other] == m[other])
      && (other in m && other != id && now - m[other].attempt.startedAt <= PAIRING_TTL ==> other in m')
  {
  }

  /** Evidence is accepted exactly for an attempt that is there, in time and not used
      up, when the factor's verifier accepts it; it then adds that factor. Every other
      attempt that is still in time stays as it was, and this one if it is not accepted. */
  lemma SatisfiedExactly(m: Attempts, id: string, f: Factor, good: bool, now: int, later: int, sweeping: bool)
    requires now <= later
    ensures var (m', answer) := Satisfied(m, id, f, good, now, later, sweeping);
      && (answer == Some(Accepted) <==>
            good && id in m && !m[id].attempt.consumed && later - m[id].attempt.startedAt <= PAIRING_TTL)
      && (answer == Some(Accepted) ==>
            id in m' && m'[id] == m[id].(attempt := m[id].attempt.(satisfied := m[id].attempt.satisfied + {f})))
      && (forall other :: other in m && !Expired(m[other].attempt, now) && (other != id || answer != Some(Accepted)) ==>
            other in m' && m'[other] == m[other])
      && (forall other :: other in m' ==> other in m)
  {
  }

  /** An attempt completes exactly when it is there, in time, not used up and has all
      three factors; it is then gone, and the record handed on is the one started. Every
      other attempt that is still in time stays, and this one if it does not complete. */
  lemma CompletedExactly(m: Attempts, id: string, now: int, later: int, sweeping: bool)
    requires now <= later
    ensures var (m', r) := Completed(m, id, now, later, sweeping);
      && (r.Some? && r.value.0 == Accepted <==>
            && id in m && !m[id].attempt.consumed && m[id].attempt.satisfied == ALL_FACTORS
            && later - m[id].attempt.startedAt <= PAIRING_TTL)
      && (r.Some? && r.value.0 == Accepted ==> r.value.1 == m[id] && id !in m')
      && (forall other :: other in m && !Expired(m[other].attempt, now) ==>
            (other == id && r.Some? && r.value.0 == Accepted) || (other in m' && m'[other] == m[other]))
      && (forall other :: other in m' ==> other in m)
  {
    if id in m {
      CompleteExactly(m[id].attempt, later);
    }
    hide Missing;
  }

  /** A device that brings its three factors, in any order, within ten minutes of the
      start is paired with the key it started with, whatever other attempts there are. */
  lemma PairingCompletes(m: Attempts, id: string, r: Record, key: string, f: Factor, g: Factor, h: Factor,
                         t: seq<int>, sweeping: bool)
    requires |t| == 6 && r.attempt == NewAttempt(key, t[0]) && {f, g, h} == ALL_FACTORS
    requires t[0] <= t[1] <= t[2] <= t[3] <= t[4] <= t[5] <= t[0] + PAIRING_TTL
    ensures
      var m1 := Started(m, id, r, t[1], sweeping);
      var (m2, a2) := Satisfied(m1, id, f, true, t[2], t[2], sweeping);
      var (m3, a3) := Satisfied(m2, id, g, true, t[3], t[3], sweeping);
      var (m4, a4) := Satisfied(m3, id, h, true, t[4], t[4], sweeping);
      var done := Completed(m4, id, t[5], t[5], sweeping).1;
      && a2 == a3 == a4 == Some(Accepted)
      && done.Some? && done.value.0 == Accepted
      && done.value.1 == r.(attempt := r.attempt.(satisfied := ALL_FACTORS))
  {
    var m1 := Started(m, id, r, t[1], sweeping);
    var m2 := Satisfied(m1, id, f, true, t[2], t[2], sweeping).0;
    var m3 := Satisfied(m2, id, g, true, t[3], t[3], sweeping).0;
    var m4 := Satisfied(m3, id, h, true, t[4], t[4], sweeping).0;
    assert m1[id] == r;
    hide Started, Satisfied, Completed, SweptIf;
    SatisfiedExactly(m1, id, f, true, t[2], t[2], sweeping);
    SatisfiedExactly(m2, id, g, true, t[3], t[3], sweeping);
    SatisfiedExactly(m3, id, h, true, t[4], t[4], sweeping);
    CompletedExactly(m4, id, t[5], t[5], sweeping);
    assert {} + {f} + {g} + {h} == ALL_FACTORS;
  }
}
