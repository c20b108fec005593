/** Every step of the identity system keeps the invariant: it takes away what it
    uses, logs what it did, and adds what that now vouches for. */
module IdentitySteps {
  import opened Wrappers
  import opened Text
  import opened Pairing
  import opened PairingAttempts
  import D = Devices
  import A = DeviceAuth
  import S = StepUp
  import T = Tickets
  import opened IdentitySystem
  import opened IdentityInvariant

  // ---- Pairing ---------------------------------------------------------------------------

  lemma SweepKeeps(cfg: Config, s: State, now: int)
    requires Inv(cfg, s)
    ensures Inv(cfg, s.(attempts := SweptIf(s.attempts, now, cfg.sweeping)))
  {
    hide Inv;
    SweptAttempts(s.attempts, now, cfg.sweeping);
    hide SubMap, SweptIf;
    Recede(cfg, s, s.(attempts := SweptIf(s.attempts, now, cfg.sweeping)));
  }

  lemma StartedKeeps(cfg: Config, s: State, id: string, r: Record, at: int)
    requires Inv(cfg, s) && r.attempt == NewAttempt(r.attempt.devicePub, at) && AcceptableKey(r.attempt.devicePub)
    ensures Inv(cfg, Append(s, AttemptStarted(r.attempt.devicePub, at)).(
      attempts := s.attempts[id := r],
      notes := s.notes.(serial := s.notes.serial[id := |s.log|], proofs := s.notes.proofs[id := map[]])))
  {
    hide AcceptableKey, Inv, Good, AttemptOk;
    var e := AttemptStarted(r.attempt.devicePub, at);
    NothingToShow(cfg, s.log, e);
    Advance(cfg, s, s, e);
    NewAttemptOk(cfg, s, e);
    hide Less, Harmless;
    WithAttempt(cfg, Append(s, e), id, r,
      s.notes.(serial := s.notes.serial[id := |s.log|], proofs := s.notes.proofs[id := map[]]));
  }

  lemma PairStartKeeps(cfg: Config, s: State, id: string, key: string, name: string, platform: string, lag: nat)
    requires Inv(cfg, s)
    ensures Inv(cfg, StepPairStart(cfg, s, id, key, name, platform, lag))
  {
    hide AcceptableKey, Inv, SweptIf;
    if AcceptableKey(key) {
      SweepKeeps(cfg, s, s.now);
      StartedKeeps(cfg, s.(attempts := SweptIf(s.attempts, s.now, cfg.sweeping)), id,
        Record(NewAttempt(key, s.now - lag), name, platform), s.now - lag);
    }
  }

  lemma NewAttemptOk(cfg: Config, s: State, e: Event)
    requires Inv(cfg, s) && e.AttemptStarted?
    ensures AttemptOk(s.log + [e], NewAttempt(e.key, e.at), |s.log|, map[])
    ensures forall id :: id in s.attempts ==> Note(s.notes.serial, id) < |s.log|
  {
    hide LogOk;
    forall k | 0 <= k < |s.log| ensures !(s.log[k].AttemptCompleted? && s.log[k].serial == |s.log|) {
      NothingRefersAhead(cfg, s.log, k);
    }
    forall id | id in s.attempts ensures Note(s.notes.serial, id) < |s.log| {
      assert AttemptOk(s.log, s.attempts[id].attempt, Note(s.notes.serial, id), Proofs(s.notes.proofs, id));
    }
  }

  /** One more factor for one attempt. */
  lemma OneMore(log: Log, a: AttemptState, serial: nat, proofs: map<Factor, nat>, f: Factor, at: int)
    requires AttemptOk(log, a, serial, proofs) && !Expired(a, at)
    ensures AttemptOk(log + [FactorVerified(serial, f, at)], a.(satisfied := a.satisfied + {f}), serial, proofs[f := |log|])
  {
    var log', proofs' := log + [FactorVerified(serial, f, at)], proofs[f := |log|];
    forall g | g in proofs' ensures proofs'[g] < |log'| && Shows(log', serial, g, proofs'[g]) {
      if g != f {
        assert Shows(log, serial, g, proofs[g]);
      }
    }
  }

  /** What the invariant says of one attempt. */
  lemma OneAttempt(cfg: Config, s: State, id: string)
    requires Inv(cfg, s) && id in s.attempts
    ensures AttemptOk(s.log, s.attempts[id].attempt, Note(s.notes.serial, id), Proofs(s.notes.proofs, id))
    ensures forall i :: i in s.attempts && i != id ==> Note(s.notes.serial, i) != Note(s.notes.serial, id)
  {
    hide AttemptOk, LogOk, PendingOk, GrantsOk, TicketsOk, ThreadsOk;
  }

  lemma VerifiedKeeps(cfg: Config, s: State, id: string, f: Factor)
    requires Inv(cfg, s) && id in s.attempts && !Expired(s.attempts[id].attempt, s.now)
    ensures
      var r, proofs := s.attempts[id], Proofs(s.notes.proofs, id);
      var e := FactorVerified(Note(s.notes.serial, id), f, s.now);
      Inv(cfg, Append(s, e).(attempts := s.attempts[id := r.(attempt := r.attempt.(satisfied := r.attempt.satisfied + {f}))],
                             notes := s.notes.(proofs := s.notes.proofs[id := proofs[f := |s.log|]])))
  {
    hide Inv, AttemptOk, Good, Expired;
    var r, serial, proofs := s.attempts[id], Note(s.notes.serial, id), Proofs(s.notes.proofs, id);
    var e := FactorVerified(serial, f, s.now);
    OneAttempt(cfg, s, id);
    OneMore(s.log, r.attempt, serial, proofs, f, s.now);
    NothingToShow(cfg, s.log, e);
    Advance(cfg, s, s, e);
    hide Less, Harmless;
    WithAttempt(cfg, Append(s, e), id, r.(attempt := r.attempt.(satisfied := r.attempt.satisfied + {f})),
      s.notes.(proofs := s.notes.proofs[id := proofs[f := |s.log|]]));
  }

  lemma PairFactorKeeps(cfg: Config, s: State, id: string, f: Factor, good: bool, lag: nat)
    requires Inv(cfg, s)
    ensures Inv(cfg, StepPairFactor(cfg, s, id, f, good, lag))
  {
    hide Inv, SweptIf;
    SweepKeeps(cfg, s, s.now - lag);
    var m := SweptIf(s.attempts, s.now - lag, cfg.sweeping);
    var s0 := s.(attempts := m);
    if id in m {
      var (a, answer) := Satisfy(m[id].attempt, f, good, s.now);
      if answer == Accepted {
        VerifiedKeeps(cfg, s0, id, f);
      } else {
        assert m[id] == m[id].(attempt := a);
        RefutedKeeps(cfg, s0, FactorRefuted(Note(s.notes.serial, id), f, s.now));
        assert m[id := m[id]] == m;
      }
    }
  }

  lemma RefutedKeeps(cfg: Config, s: State, e: Event)
    requires Inv(cfg, s) && e.FactorRefuted?
    ensures Inv(cfg, Append(s, e))
  {
    hide Inv, Good;
    NothingToShow(cfg, s.log, e);
    Advance(cfg, s, s, e);
  }

  /** Completing an attempt vouches for all three factors. */
  lemma CompletionIsGood(cfg: Config, log: Log, a: AttemptState, serial: nat, proofs: map<Factor, nat>, at: int)
    requires AttemptOk(log, a, serial, proofs) && Complete(a, at).1 == Accepted
    ensures Good(cfg, log + [AttemptCompleted(serial, proofs, at)], |log|)
  {
    CompleteExactly(a, at);
    var log' := log + [AttemptCompleted(serial, proofs, at)];
    forall f: Factor ensures f in proofs && proofs[f] < |log| && Shows(log', serial, f, proofs[f]) {
      assert f in ALL_FACTORS by {
        match f
        case Password =>
        case Totp =>
        case Passkey =>
      }
      assert Shows(log, serial, f, proofs[f]);
    }
  }

  lemma CompletedKeeps(cfg: Config, s: State, n: nat, id: string)
    requires Inv(cfg, s) && n !in s.threads && id in s.attempts
    requires Complete(s.attempts[id].attempt, s.now).1 == Accepted
    ensures
      var e := AttemptCompleted(Note(s.notes.serial, id), Proofs(s.notes.proofs, id), s.now);
      Inv(cfg, Append(s, e).(attempts := s.attempts - {id},
                             threads := s.threads[n := Inserting(s.attempts[id], |s.log|)]))
  {
    hide Inv, AttemptOk, Apart, Good, ThreadOk, Complete;
    var r, serial, proofs := s.attempts[id], Note(s.notes.serial, id), Proofs(s.notes.proofs, id);
    var e := AttemptCompleted(serial, proofs, s.now);
    var s0 := s.(attempts := s.attempts - {id});
    Without(s.attempts, s.attempts, id, r);
    hide SubMap;
    assert Less(s0, s);
    hide Less;
    OneAttempt(cfg, s, id);
    CompletionIsGood(cfg, s.log, r.attempt, serial, proofs, s.now);
    Advance(cfg, s, s0, e);
    InsertingHolds(cfg, s, r.attempt, serial, proofs, r);
    hide Harmless;
    WithThread(cfg, Append(s0, e), n, Inserting(r, |s.log|));
  }

  lemma PairCompleteKeeps(cfg: Config, s: State, n: nat, id: string, lag: nat)
    requires Inv(cfg, s)
    ensures Inv(cfg, StepPairComplete(cfg, s, n, id, lag))
  {
    hide Inv, Complete, SweptIf;
    if n !in s.threads {
      SweepKeeps(cfg, s, s.now - lag);
      var m := SweptIf(s.attempts, s.now - lag, cfg.sweeping);
      if id in m && Complete(m[id].attempt, s.now).1 == Accepted {
        CompletedKeeps(cfg, s.(attempts := m), n, id);
      }
    }
  }

  lemma InsertingHolds(cfg: Config, s: State, a: AttemptState, serial: nat, proofs: map<Factor, nat>, r: Record)
    requires Inv(cfg, s) && AttemptOk(s.log, a, serial, proofs) && r.attempt == a
    ensures ThreadOk(s.log + [AttemptCompleted(serial, proofs, s.now)], s.devices, Inserting(r, |s.log|))
    ensures forall m :: m in s.threads ==> Apart(s.threads[m], Inserting(r, |s.log|))
  {
    hide AcceptableKey, AttemptsOk, PendingOk, GrantsOk, TicketsOk;
    assert Good(cfg, s.log, serial);
    hide Good;
    forall k | 0 <= k < |s.log| ensures !(s.log[k].RowInserted? && s.log[k].completed == |s.log|) {
      NothingRefersAhead(cfg, s.log, k);
    }
    HeldBefore(cfg, s);
  }

  /** What threads hold lies in the log. */
  lemma HeldBefore(cfg: Config, s: State)
    requires Inv(cfg, s)
    ensures forall m :: m in s.threads ==>
      && (s.threads[m].Inserting? ==> s.threads[m].completed < |s.log|)
      && (s.threads[m].Checking? ==> s.threads[m].taken < |s.log|)
      && (s.threads[m].SteppingUp? ==> s.threads[m].admitted < |s.log|)
      && (s.threads[m].Revoking? ==> s.threads[m].served < |s.log|)
      && (s.threads[m].Ticketing? ==> s.threads[m].admitted < |s.log|)
  {
    hide RowsOk, LogOk, AcceptableKey, AttemptsOk, PendingOk, GrantsOk, TicketsOk, Apart;
    forall m | m in s.threads ensures ThreadOk(s.log, s.devices, s.threads[m]) {
    }
  }

  /** What the invariant says of one thread. */
  lemma OneThread(cfg: Config, s: State, n: nat)
    requires Inv(cfg, s) && n in s.threads
    ensures ThreadOk(s.log, s.devices, s.threads[n])
    ensures forall m :: m in s.threads && m != n ==> Apart(s.threads[m], s.threads[n])
  {
    hide RowsOk, LogOk, AttemptsOk, PendingOk, GrantsOk, TicketsOk, ThreadOk, Apart;
  }

  lemma PairInsertKeeps(cfg: Config, s: State, n: nat, dev: string)
    requires Inv(cfg, s)
    ensures Inv(cfg, StepPairInsert(s, n, dev))
  {
    hide Inv, ThreadOk, Good, AcceptableKey;
    if n in s.threads && s.threads[n].Inserting? {
      var Inserting(r, completed) := s.threads[n];
      OneThread(cfg, s, n);
      Without(s.threads, s.threads, n, s.threads[n]);
      hide SubMap;
      if dev in s.devices {
        Recede(cfg, s, End(s, n));
      } else {
        InsertionIsGood(cfg, s, n, dev);
        RowInsertedKeeps(cfg, s, End(s, n), dev, D.Row(r.deviceName, r.platform, r.attempt.devicePub, false), completed);
      }
    }
  }

  lemma RowInsertedKeeps(cfg: Config, s: State, t: State, dev: string, r: D.Row, completed: nat)
    requires Inv(cfg, s) && Less(t, s) && t.devices == s.devices && dev !in s.devices
    requires !r.revoked && AcceptableKey(r.pubKey)
    requires Good(cfg, s.log + [RowInserted(dev, r.pubKey, completed)], |s.log|)
    requires forall m :: m in t.threads ==> Spares(RowInserted(dev, r.pubKey, completed), t.threads[m])
    ensures Inv(cfg, t.(devices := t.devices[dev := r],
                        log := t.log + [RowInserted(dev, r.pubKey, completed)],
                        notes := t.notes.(row := t.notes.row[dev := |t.log|])))
  {
    var e := RowInserted(dev, r.pubKey, completed);
    var s0 := t.(devices := t.devices[dev := r]);
    assert Less(s0, s);
    RowsGrow(t.log, t.devices, t.notes.row, dev, r, completed);
    hide Less, Good, Rest, RowsOk, SubMap, AcceptableKey;
    LessKeeps(cfg, s, s0);
    Logged(cfg, s0, e);
    NoteOfRow(cfg, Append(s0, e), t.notes.row[dev := |t.log|]);
  }

  /** Rest does not read the notes of rows. */
  lemma NoteOfRow(cfg: Config, s: State, row: map<string, nat>)
    requires Rest(cfg, s)
    ensures Rest(cfg, s.(notes := s.notes.(row := row)))
  {
    hide LogOk, AttemptsOk, PendingOk, GrantsOk, TicketsOk, ThreadsOk;
  }

  lemma InsertionIsGood(cfg: Config, s: State, n: nat, dev: string)
    requires Inv(cfg, s) && n in s.threads && s.threads[n].Inserting? && dev !in s.devices
    ensures AcceptableKey(s.threads[n].record.attempt.devicePub)
    ensures var t := s.threads[n];
      Good(cfg, s.log + [RowInserted(dev, t.record.attempt.devicePub, t.completed)], |s.log|)
  {
    hide Rest, AcceptableKey;
    OneThread(cfg, s, n);
  }

  lemma RowsGrow(log: Log, devices: D.Table, row: map<string, nat>, dev: string, r: D.Row, completed: nat)
    requires RowsOk(log, devices, row) && dev !in devices && !r.revoked && AcceptableKey(r.pubKey)
    ensures RowsOk(log + [RowInserted(dev, r.pubKey, completed)], devices[dev := r], row[dev := |log|])
  {
    hide D.DecodeKey;
    var e := RowInserted(dev, r.pubKey, completed);
    forall d | d in devices ensures RowOk(log + [e], devices[d], d, Note(row, d)) {
      RowStays(log, e, devices[d], d, Note(row, d));
    }
  }

  // ---- Challenges ---------------------------------------------------------------------------

  lemma ChallengeLookupKeeps(cfg: Config, s: State, n: nat, dev: string)
    requires Inv(cfg, s) && A.MayBeChallenged(s.devices, dev)
    ensures Inv(cfg, s.(threads := s.threads[n := Storing(dev)]))
  {
    hide Inv, D.DecodeKey;
    WithThread(cfg, s, n, Storing(dev));
  }

  lemma ChallengeStoreKeeps(cfg: Config, s: State, n: nat, nonce: seq<Byte>)
    requires Inv(cfg, s)
    ensures Inv(cfg, StepChallengeStore(cfg, s, n, nonce))
  {
    hide Inv, Good;
    if n in s.threads && s.threads[n].Storing? {
      var dev := s.threads[n].dev;
      var e := ChallengeStored(dev, nonce, s.now);
      var p, c := A.SweptIf(s.pending, s.now, cfg.sweeping), A.Challenge(nonce, s.now + A.CHALLENGE_TTL);
      SweptChallenges(s.pending, s.now, cfg.sweeping);
      Without(p, s.pending, dev, c);
      Without(s.threads, s.threads, n, s.threads[n]);
      OneThread(cfg, s, n);
      hide SubMap, A.SweptIf;
      var s0 := End(s, n).(pending := p - {dev});
      assert Less(s0, s);
      hide Less;
      NothingToShow(cfg, s.log, e);
      Advance(cfg, s, s0, e);
      WithChallenge(cfg, Append(s0, e), dev, c, |s.log|);
    }
  }

  lemma AuthTakeKeeps(cfg: Config, s: State, n: nat, dev: string, sig: seq<Byte>, route: Route)
    requires Inv(cfg, s)
    ensures Inv(cfg, StepAuthTake(s, n, dev, sig, route))
  {
    hide Inv, Good, ThreadOk;
    if n !in s.threads && dev in s.pending {
      var c := s.pending[dev];
      Without(s.pending, s.pending, dev, c);
      hide SubMap;
      var s0 := s.(pending := s.pending - {dev});
      assert Less(s0, s);
      hide Less;
      Recede(cfg, s, s0);
      if !A.Stale(c, s.now) {
        var e := ChallengeTaken(dev, Note(s.notes.stored, dev), sig, s.now);
        var t := Checking(dev, c.nonce, sig, route, |s.log|);
        TakingIsGood(cfg, s, dev, sig, route);
        Advance(cfg, s, s0, e);
        HeldBefore(cfg, s);
        assert forall m :: m in s.threads ==> Apart(s.threads[m], t);
        hide Apart;
        WithThread(cfg, Append(s0, e), n, t);
      }
    }
  }

  lemma TakingIsGood(cfg: Config, s: State, dev: string, sig: seq<Byte>, route: Route)
    requires Inv(cfg, s) && dev in s.pending && !A.Stale(s.pending[dev], s.now)
    ensures var log' := s.log + [ChallengeTaken(dev, Note(s.notes.stored, dev), sig, s.now)];
      && Good(cfg, log', |s.log|)
      && ThreadOk(log', s.devices, Checking(dev, s.pending[dev].nonce, sig, route, |s.log|))
  {
    hide RowsOk, LogOk, AttemptsOk, GrantsOk, TicketsOk, ThreadsOk;
    assert ChallengeOk(s.log, s.pending[dev], dev, Note(s.notes.stored, dev));
    forall k | 0 <= k < |s.log| ensures !(s.log[k].Admitted? && s.log[k].taken == |s.log|) {
      NothingRefersAhead(cfg, s.log, k);
    }
  }

  /** The lookup that admits finds a row nobody has revoked. */
  lemma AdmissionIsGood(cfg: Config, s: State, n: nat)
    requires Inv(cfg, s) && n in s.threads && s.threads[n].Checking?
    requires A.Proves(cfg.check, s.devices, s.threads[n].dev, s.threads[n].nonce, s.threads[n].signature)
    ensures var t := s.threads[n];
      Good(cfg, s.log + [Admitted(t.dev, t.route, t.taken, Note(s.notes.row, t.dev))], |s.log|)
  {
    var t := s.threads[n];
    OneThread(cfg, s, n);
    ProofFindsRow(cfg, s, t.dev, t.nonce, t.signature);
    hide *;
    GoodAdmission(cfg, s.log, s.devices, t, s.devices[t.dev], Note(s.notes.row, t.dev));
  }

  lemma GoodAdmission(cfg: Config, log: Log, devices: D.Table, t: Thread, row: D.Row, at: nat)
    requires t.Checking? && ThreadOk(log, devices, t)
    requires RowOk(log, row, t.dev, at) && !row.revoked
    requires D.DecodeKey(row.pubKey).Some? && cfg.check(D.DecodeKey(row.pubKey).value, t.nonce, t.signature)
    ensures Good(cfg, log + [Admitted(t.dev, t.route, t.taken, at)], |log|)
  {
    hide D.DecodeKey;
  }

  lemma ProofFindsRow(cfg: Config, s: State, dev: string, nonce: seq<Byte>, signature: seq<Byte>)
    requires Inv(cfg, s) && A.Proves(cfg.check, s.devices, dev, nonce, signature)
    ensures dev in s.devices && RowOk(s.log, s.devices[dev], dev, Note(s.notes.row, dev)) && !s.devices[dev].revoked
    ensures D.DecodeKey(s.devices[dev].pubKey).Some?
    ensures cfg.check(D.DecodeKey(s.devices[dev].pubKey).value, nonce, signature)
  {
    hide Rest, RowOk, D.DecodeKey;
  }

  /** A request that has just been admitted has not been served, nor given a ticket. */
  lemma AdmittedHolds(cfg: Config, s: State, e: Event, target: string)
    requires Inv(cfg, s) && e.Admitted?
    ensures e.route == RevokeDevice(target) ==> ThreadOk(s.log + [e], s.devices, SteppingUp(e.dev, target, |s.log|))
    ensures e.route.WsTicket? ==> ThreadOk(s.log + [e], s.devices, Ticketing(|s.log|))
    ensures forall m :: m in s.threads ==>
      Apart(s.threads[m], SteppingUp(e.dev, target, |s.log|)) && Apart(s.threads[m], Ticketing(|s.log|))
  {
    hide AttemptsOk, PendingOk, GrantsOk, TicketsOk, ThreadsOk;
    forall k | 0 <= k < |s.log|
      ensures !(s.log[k].RevokeServed? && s.log[k].admitted == |s.log|)
      ensures !(s.log[k].TicketIssued? && s.log[k].admitted == |s.log|)
    {
      NothingRefersAhead(cfg, s.log, k);
    }
    HeldBefore(cfg, s);
  }

  lemma AuthLookupKeeps(cfg: Config, s: State, n: nat)
    requires Inv(cfg, s)
    ensures Inv(cfg, StepAuthLookup(cfg, s, n))
  {
    hide Inv, Good, ThreadOk, A.Proves;
    if n in s.threads && s.threads[n].Checking? {
      var Checking(dev, nonce, sig, route, taken) := s.threads[n];
      var s0 := End(s, n);
      OneThread(cfg, s, n);
      Without(s.threads, s.threads, n, s.threads[n]);
      hide SubMap;
      assert Less(s0, s);
      hide Less;
      Recede(cfg, s, s0);
      if A.Proves(cfg.check, s.devices, dev, nonce, sig) {
        var e := Admitted(dev, route, taken, Note(s.notes.row, dev));
        AdmissionIsGood(cfg, s, n);
        Advance(cfg, s, s0, e);
        if route.RevokeDevice? || route.WsTicket? {
          var t := if route.RevokeDevice? then SteppingUp(dev, route.target, |s.log|) else Ticketing(|s.log|);
          AdmittedHolds(cfg, s0, e, if route.RevokeDevice? then route.target else "");
          hide Apart;
          Without(s.threads, s.threads, n, t);
          WithThread(cfg, Append(s0, e), n, t);
        }
      }
    }
  }

  // ---- Step-up ----------------------------------------------------------------------------------

  lemma GrantKeeps(cfg: Config, s: State, dev: string, action: string)
    requires Inv(cfg, s)
    ensures Inv(cfg, StepGrant(s, dev, action))
  {
    hide Inv, S.GrantKey, Good;
    if S.NoNul(action) {
      var e := StepUpGranted(dev, action, s.now);
      NothingToShow(cfg, s.log, e);
      Advance(cfg, s, s, e);
      NewGrantOk(cfg, s, e);
      WithGrant(cfg, Append(s, e), S.GrantKey(dev, action), s.now + S.STEP_UP_TTL, |s.log|);
    }
  }

  lemma NewGrantOk(cfg: Config, s: State, e: Event)
    requires Inv(cfg, s) && e.StepUpGranted? && S.NoNul(e.action)
    ensures GrantOk(s.log + [e], e.at + S.STEP_UP_TTL, S.GrantKey(e.dev, e.action), |s.log|)
  {
    hide RowsOk, LogOk, AttemptsOk, PendingOk, TicketsOk, ThreadsOk, S.GrantKey;
    forall k | 0 <= k < |s.log| ensures !(s.log[k].RevokeServed? && s.log[k].grant == |s.log|) {
      NothingRefersAhead(cfg, s.log, k);
    }
  }

  /** Other keys note other grants. */
  lemma GrantsApart(cfg: Config, s: State, key: string)
    requires Inv(cfg, s) && key in s.grants
    ensures GrantOk(s.log, s.grants[key], key, Note(s.notes.grant, key))
    ensures forall k :: k in s.grants && k != key ==> Note(s.notes.grant, k) != Note(s.notes.grant, key)
  {
    hide RowsOk, LogOk, AttemptsOk, PendingOk, TicketsOk, ThreadsOk, S.GrantKey;
    assert GrantOk(s.log, s.grants[key], key, Note(s.notes.grant, key));
    forall k | k in s.grants && k != key ensures Note(s.notes.grant, k) != Note(s.notes.grant, key) {
      assert GrantOk(s.log, s.grants[k], k, Note(s.notes.grant, k));
    }
  }

  lemma ServedKeeps(cfg: Config, s: State, n: nat)
    requires Inv(cfg, s) && n in s.threads && s.threads[n].SteppingUp?
    requires var key := S.GrantKey(s.threads[n].dev, S.REVOKE_DEVICE);
      key in s.grants && s.now <= s.grants[key]
    ensures
      var t := s.threads[n];
      var key := S.GrantKey(t.dev, S.REVOKE_DEVICE);
      var e := RevokeServed(t.dev, t.admitted, Note(s.notes.grant, key), s.now);
      Inv(cfg, Append(s, e).(grants := s.grants - {key}, threads := s.threads[n := Revoking(t.target, |s.log|)]))
  {
    hide Inv, S.GrantKey, Good, GrantOk;
    var SteppingUp(dev, target, admitted) := s.threads[n];
    var key := S.GrantKey(dev, S.REVOKE_DEVICE);
    var e := RevokeServed(dev, admitted, Note(s.notes.grant, key), s.now);
    OneThread(cfg, s, n);
    var t := Revoking(target, |s.log|);
    Without(s.threads, s.threads, n, t);
    Without(s.grants, s.grants, key, 0);
    hide SubMap;
    var s0 := End(s, n).(grants := s.grants - {key});
    assert Less(s0, s);
    hide Less;
    GrantsApart(cfg, s, key);
    ServedIsGood(cfg, s, n);
    Advance(cfg, s, s0, e);
    RevokingHolds(cfg, s, n, e);
    hide Harmless, ThreadOk, Apart;
    WithThread(cfg, Append(s0, e), n, t);
  }

  /** A request that has just been served has revoked nothing yet. */
  lemma RevokingHolds(cfg: Config, s: State, n: nat, e: Event)
    requires Inv(cfg, s) && n in s.threads && s.threads[n].SteppingUp?
    requires e.RevokeServed? && e.admitted == s.threads[n].admitted
    ensures ThreadOk(s.log + [e], s.devices, Revoking(s.threads[n].target, |s.log|))
    ensures forall m :: m in s.threads ==> Apart(s.threads[m], Revoking(s.threads[n].target, |s.log|))
  {
    OneThread(cfg, s, n);
    HeldBefore(cfg, s);
    assert LogOk(cfg, s.log);
    hide Inv, LogOk;
    forall k | 0 <= k < |s.log| ensures !(s.log[k].RowRevoked? && s.log[k].served == |s.log|) {
      NothingRefersAhead(cfg, s.log, k);
    }
  }

  lemma StepUpKeeps(cfg: Config, s: State, n: nat)
    requires Inv(cfg, s)
    ensures Inv(cfg, StepStepUp(s, n))
  {
    hide Inv, S.GrantKey;
    if n in s.threads && s.threads[n].SteppingUp? {
      var key := S.GrantKey(s.threads[n].dev, S.REVOKE_DEVICE);
      if key in s.grants && s.now <= s.grants[key] {
        ServedKeeps(cfg, s, n);
      } else {
        Without(s.threads, s.threads, n, s.threads[n]);
        Without(s.grants, s.grants, key, 0);
        hide SubMap;
        Recede(cfg, s, End(s, n).(grants := if key in s.grants then s.grants - {key} else s.grants));
      }
    }
  }

  lemma ServedIsGood(cfg: Config, s: State, n: nat)
    requires Inv(cfg, s) && n in s.threads && s.threads[n].SteppingUp?
    requires S.GrantKey(s.threads[n].dev, S.REVOKE_DEVICE) in s.grants
    requires s.now <= s.grants[S.GrantKey(s.threads[n].dev, S.REVOKE_DEVICE)]
    ensures var t := s.threads[n];
      var at := Note(s.notes.grant, S.GrantKey(t.dev, S.REVOKE_DEVICE));
      Good(cfg, s.log + [RevokeServed(t.dev, t.admitted, at, s.now)], |s.log|)
  {
    hide Rest, S.GrantKey;
    var t := s.threads[n];
    var key := S.GrantKey(t.dev, S.REVOKE_DEVICE);
    var at := Note(s.notes.grant, key);
    OneThread(cfg, s, n);
    GrantsApart(cfg, s, key);
    S.GrantKeyInjective(s.log[at].dev, s.log[at].action, t.dev, S.REVOKE_DEVICE);
  }

  lemma RevokeRowKeeps(cfg: Config, s: State, n: nat)
    requires Inv(cfg, s)
    ensures Inv(cfg, StepRevokeRow(s, n))
  {
    hide Inv;
    if n in s.threads && s.threads[n].Revoking? {
      Without(s.threads, s.threads, n, s.threads[n]);
      hide SubMap;
      Recede(cfg, s, End(s, n));
      if s.threads[n].target in s.devices {
        RevocationIsGood(cfg, s, n);
        hide Good, ThreadOk;
        OneThread(cfg, s, n);
        RevokedKeeps(cfg, End(s, n), s.threads[n].target, s.threads[n].served);
      }
    }
  }

  lemma RevocationIsGood(cfg: Config, s: State, n: nat)
    requires Inv(cfg, s) && n in s.threads && s.threads[n].Revoking?
    ensures Good(cfg, s.log + [RowRevoked(s.threads[n].target, s.threads[n].served)], |s.log|)
  {
    hide Inv;
    OneThread(cfg, s, n);
  }

  lemma RevokedKeeps(cfg: Config, s: State, target: string, served: nat)
    requires Inv(cfg, s) && target in s.devices
    requires Good(cfg, s.log + [RowRevoked(target, served)], |s.log|)
    requires forall m :: m in s.threads ==> Spares(RowRevoked(target, served), s.threads[m])
    ensures Inv(cfg, Append(s, RowRevoked(target, served)).(
      devices := s.devices[target := s.devices[target].(revoked := true)]))
  {
    hide Rest, RowsOk, Good;
    var s0 := s.(devices := s.devices[target := s.devices[target].(revoked := true)]);
    LessKeeps(cfg, s, s0);
    hide Less;
    Logged(cfg, s0, RowRevoked(target, served));
    RowRevokedKeeps(s.log, s.devices, s.notes.row, target, served);
  }

  lemma RowRevokedKeeps(log: Log, devices: D.Table, row: map<string, nat>, target: string, served: nat)
    requires RowsOk(log, devices, row) && target in devices
    ensures RowsOk(log + [RowRevoked(target, served)], devices[target := devices[target].(revoked := true)], row)
  {
    hide D.DecodeKey;
    var e := RowRevoked(target, served);
    forall d | d in devices && d != target ensures RowOk(log + [e], devices[d], d, Note(row, d)) {
      RowStays(log, e, devices[d], d, Note(row, d));
    }
    assert RowOk(log, devices[target], target, Note(row, target));
  }

  // ---- Tickets -------------------------------------------------------------------------------------

  lemma TicketIssueKeeps(cfg: Config, s: State, n: nat, ticket: string)
    requires Inv(cfg, s)
    ensures Inv(cfg, StepTicketIssue(cfg, s, n, ticket))
  {
    hide Inv, TicketOk, Good;
    if n in s.threads && s.threads[n].Ticketing? {
      var e := TicketIssued(ticket, s.threads[n].admitted, s.now);
      var m, expiresAt := T.SweptIf(s.tickets, s.now, cfg.sweeping), s.now + T.TICKET_TTL;
      SweptTickets(s.tickets, s.now, cfg.sweeping);
      Without(m, s.tickets, ticket, expiresAt);
      Without(s.threads, s.threads, n, s.threads[n]);
      OneThread(cfg, s, n);
      hide SubMap, T.SweptIf;
      var s0 := End(s, n).(tickets := m - {ticket});
      assert Less(s0, s);
      hide Less;
      TicketIsGood(cfg, s, n, ticket);
      Advance(cfg, s, s0, e);
      NewTicketOk(cfg, s, e);
      WithTicket(cfg, Append(s0, e), ticket, expiresAt, |s.log|);
    }
  }

  lemma TicketIsGood(cfg: Config, s: State, n: nat, ticket: string)
    requires Inv(cfg, s) && n in s.threads && s.threads[n].Ticketing?
    ensures Good(cfg, s.log + [TicketIssued(ticket, s.threads[n].admitted, s.now)], |s.log|)
  {
    hide Inv;
    OneThread(cfg, s, n);
  }

  lemma NewTicketOk(cfg: Config, s: State, e: Event)
    requires Inv(cfg, s) && e.TicketIssued?
    ensures TicketOk(s.log + [e], e.at + T.TICKET_TTL, e.ticket, |s.log|)
  {
    hide RowsOk, LogOk, AttemptsOk, PendingOk, GrantsOk, ThreadsOk;
    forall k | 0 <= k < |s.log| ensures !(s.log[k].StreamAdmitted? && s.log[k].issued == |s.log|) {
      NothingRefersAhead(cfg, s.log, k);
    }
  }

  /** Other tickets note other entries. */
  lemma TicketsApart(cfg: Config, s: State, ticket: string)
    requires Inv(cfg, s) && ticket in s.tickets
    ensures TicketOk(s.log, s.tickets[ticket], ticket, Note(s.notes.issued, ticket))
    ensures forall t :: t in s.tickets && t != ticket ==> Note(s.notes.issued, t) != Note(s.notes.issued, ticket)
  {
    hide RowsOk, LogOk, AttemptsOk, PendingOk, GrantsOk, ThreadsOk;
    assert TicketOk(s.log, s.tickets[ticket], ticket, Note(s.notes.issued, ticket));
    forall t | t in s.tickets && t != ticket ensures Note(s.notes.issued, t) != Note(s.notes.issued, ticket) {
      assert TicketOk(s.log, s.tickets[t], t, Note(s.notes.issued, t));
    }
  }

  lemma StreamIsGood(cfg: Config, s: State, ticket: string)
    requires Inv(cfg, s) && ticket in s.tickets && s.now < s.tickets[ticket]
    ensures Good(cfg, s.log + [StreamAdmitted(Note(s.notes.issued, ticket), s.now)], |s.log|)
  {
    hide Inv;
    TicketsApart(cfg, s, ticket);
  }

  lemma TicketUseKeeps(cfg: Config, s: State, ticket: string)
    requires Inv(cfg, s)
    ensures Inv(cfg, StepTicketUse(s, ticket))
  {
    hide Inv, Good;
    if ticket in s.tickets {
      var s0 := s.(tickets := s.tickets - {ticket});
      Without(s.tickets, s.tickets, ticket, 0);
      hide SubMap;
      assert Less(s0, s);
      hide Less;
      Recede(cfg, s, s0);
      if s.now < s.tickets[ticket] {
        TicketsApart(cfg, s, ticket);
        StreamIsGood(cfg, s, ticket);
        Advance(cfg, s, s0, StreamAdmitted(Note(s.notes.issued, ticket), s.now));
      }
    }
  }

  // ---- Every step, every run -----------------------------------------------------------------------

  lemma DiesKeeps(cfg: Config, s: State, n: nat)
    requires Inv(cfg, s)
    ensures Inv(cfg, End(s, n))
  {
    hide Inv;
    Recede(cfg, s, End(s, n));
  }

  lemma TickKeeps(cfg: Config, s: State, passed: nat)
    requires Inv(cfg, s)
    ensures Inv(cfg, s.(now := s.now + passed))
  {
    hide Inv;
    Recede(cfg, s, s.(now := s.now + passed));
  }

  lemma StepKeeps(cfg: Config, s: State, act: Act)
    requires Inv(cfg, s)
    ensures Inv(cfg, Step(cfg, s, act))
  {
    hide Inv, StepPairStart, StepPairFactor, StepPairComplete, StepPairInsert, StepChallengeStore, StepAuthTake,
         StepAuthLookup, StepGrant, StepStepUp, StepRevokeRow, StepTicketIssue, StepTicketUse, A.MayBeChallenged;
    match act
    case Tick(passed) => TickKeeps(cfg, s, passed);
    case PairStart(id, key, name, platform, lag) => PairStartKeeps(cfg, s, id, key, name, platform, lag);
    case PairFactor(id, f, good, lag) => PairFactorKeeps(cfg, s, id, f, good, lag);
    case PairComplete(n, id, lag) => PairCompleteKeeps(cfg, s, n, id, lag);
    case PairInsert(n, dev) => PairInsertKeeps(cfg, s, n, dev);
    case ChallengeLookup(n, dev) =>
      if n !in s.threads && A.MayBeChallenged(s.devices, dev) {
        ChallengeLookupKeeps(cfg, s, n, dev);
      }
    case ChallengeStore(n, nonce) => ChallengeStoreKeeps(cfg, s, n, nonce);
    case AuthTake(n, dev, sig, route) => AuthTakeKeeps(cfg, s, n, dev, sig, route);
    case AuthLookup(n) => AuthLookupKeeps(cfg, s, n);
    case Grant(dev, action) => GrantKeeps(cfg, s, dev, action);
    case StepUpConsume(n) => StepUpKeeps(cfg, s, n);
    case RevokeRow(n) => RevokeRowKeeps(cfg, s, n);
    case TicketIssue(n, ticket) => TicketIssueKeeps(cfg, s, n, ticket);
    case TicketUse(ticket) =>
      if ticket != "" {
        TicketUseKeeps(cfg, s, ticket);
      }
    case Dies(n) => DiesKeeps(cfg, s, n);
  }

  lemma {:induction false} RunKeeps(cfg: Config, s: State, acts: seq<Act>)
    requires Inv(cfg, s)
    ensures Inv(cfg, Run(cfg, s, acts))
    decreases |acts|
  {
    hide Inv, Step;
    if acts != [] {
      StepKeeps(cfg, s, acts[0]);
      RunKeeps(cfg, Step(cfg, s, acts[0]), acts[1..]);
    }
  }
}
