/** The invariant of the identity system and what its log therefore says. */
module IdentityInvariant {
  import opened Wrappers
  import opened Text
  import opened Pairing
  import opened PairingAttempts
  import D = Devices
  import A = DeviceAuth
  import S = StepUp
  import T = Tickets
  import opened IdentitySystem

  // ---- What an entry of the log vouches for ---------------------------------------------

  /** Entry `j` shows factor `f` verified for the attempt started at entry `serial`,
      after its start and within its time. */
  ghost predicate Shows(log: Log, serial: nat, f: Factor, j: nat) {
    && serial < j < |log| && log[serial].AttemptStarted?
    && log[j].FactorVerified? && log[j].serial == serial && log[j].factor == f
    && log[j].at - log[serial].at <= PAIRING_TTL
  }

  ghost predicate GoodCompleted(log: Log, i: nat, serial: nat, proofs: map<Factor, nat>, at: int)
    requires i < |log|
  {
    && serial < i && log[serial].AttemptStarted? && at - log[serial].at <= PAIRING_TTL
    && (forall f: Factor :: f in proofs && proofs[f] < i && Shows(log, serial, f, proofs[f]))
    && (forall k :: 0 <= k < i ==> !(log[k].AttemptCompleted? && log[k].serial == serial))
  }

  ghost predicate GoodRow(log: Log, i: nat, dev: string, key: string, completed: nat)
    requires i < |log|
  {
    && completed < i && log[completed].AttemptCompleted?
    && log[completed].serial < completed && log[log[completed].serial].AttemptStarted?
    && key == log[log[completed].serial].key
    && (forall k :: 0 <= k < i ==> !(log[k].RowInserted? && log[k].completed == completed))
    && (forall k :: 0 <= k < i ==> !(log[k].RowInserted? && log[k].dev == dev))
  }

  ghost predicate Untouched(log: Log, dev: string, from: nat, to: nat)
    requires to <= |log|
  {
    forall k :: from < k < to ==>
      !(log[k].ChallengeStored? && log[k].dev == dev) && !(log[k].ChallengeTaken? && log[k].dev == dev)
  }

  ghost predicate GoodTaken(log: Log, i: nat, dev: string, stored: nat, at: int)
    requires i < |log|
  {
    && stored < i && log[stored].ChallengeStored? && log[stored].dev == dev
    && at <= log[stored].at + A.CHALLENGE_TTL
    && Untouched(log, dev, stored, i)
  }

  ghost predicate GoodAdmitted(cfg: Config, log: Log, i: nat, dev: string, taken: nat, row: nat)
    requires i < |log|
  {
    && taken < i && log[taken].ChallengeTaken? && log[taken].dev == dev
    && log[taken].stored < taken && log[log[taken].stored].ChallengeStored?
    && row < i && log[row].RowInserted? && log[row].dev == dev
    && D.DecodeKey(log[row].key).Some?
    && cfg.check(D.DecodeKey(log[row].key).value, log[log[taken].stored].nonce, log[taken].signature)
    && (forall k :: 0 <= k < i ==> !(log[k].Admitted? && log[k].taken == taken))
    && (forall k :: 0 <= k < i ==> !(log[k].RowRevoked? && log[k].dev == dev))
  }

  ghost predicate GoodServed(log: Log, i: nat, dev: string, admitted: nat, grant: nat, at: int)
    requires i < |log|
  {
    && admitted < i && log[admitted].Admitted? && log[admitted].dev == dev && log[admitted].route.RevokeDevice?
    && grant < i && log[grant].StepUpGranted? && log[grant].dev == dev && log[grant].action == S.REVOKE_DEVICE
    && at <= log[grant].at + S.STEP_UP_TTL
    && (forall k :: 0 <= k < i ==> !(log[k].RevokeServed? && log[k].admitted == admitted))
    && (forall k :: 0 <= k < i ==> !(log[k].RevokeServed? && log[k].grant == grant))
  }

  ghost predicate GoodTicket(log: Log, i: nat, admitted: nat)
    requires i < |log|
  {
    && admitted < i && log[admitted].Admitted? && log[admitted].route.WsTicket?
    && (forall k :: 0 <= k < i ==> !(log[k].TicketIssued? && log[k].admitted == admitted))
  }

  ghost predicate GoodStream(log: Log, i: nat, issued: nat, at: int)
    requires i < |log|
  {
    && issued < i && log[issued].TicketIssued? && at < log[issued].at + T.TICKET_TTL
    && (forall k :: 0 <= k < i ==> !(log[k].StreamAdmitted? && log[k].issued == issued))
  }

  /** The row revoked is the one that a request named, which was served for it. */
  ghost predicate GoodRevoked(log: Log, i: nat, dev: string, served: nat)
    requires i < |log|
  {
    && served < i && log[served].RevokeServed?
    && log[served].admitted < served && log[log[served].admitted].Admitted?
    && log[log[served].admitted].route == RevokeDevice(dev)
    && (forall k :: 0 <= k < i ==> !(log[k].RowRevoked? && log[k].served == served))
  }

  ghost predicate Good(cfg: Config, log: Log, i: nat)
    requires i < |log|
  {
    match log[i]
    case AttemptStarted(key, _) => AcceptableKey(key)
    case AttemptCompleted(serial, proofs, at) => GoodCompleted(log, i, serial, proofs, at)
    case RowInserted(dev, key, completed) => GoodRow(log, i, dev, key, completed)
    case ChallengeTaken(dev, stored, _, at) => GoodTaken(log, i, dev, stored, at)
    case Admitted(dev, _, taken, row) => GoodAdmitted(cfg, log, i, dev, taken, row)
    case RevokeServed(dev, admitted, grant, at) => GoodServed(log, i, dev, admitted, grant, at)
    case RowRevoked(dev, served) => GoodRevoked(log, i, dev, served)
    case TicketIssued(_, admitted, _) => GoodTicket(log, i, admitted)
    case StreamAdmitted(issued, at) => GoodStream(log, i, issued, at)
    case _ => true
  }

  ghost predicate LogOk(cfg: Config, log: Log) {
    forall i :: 0 <= i < |log| ==> Good(cfg, log, i)
  }

  // ---- The invariant, field by field -----------------------------------------------------

  ghost predicate AttemptOk(log: Log, a: AttemptState, serial: nat, proofs: map<Factor, nat>) {
    && serial < |log| && log[serial] == AttemptStarted(a.devicePub, a.startedAt)
    && !a.consumed && a.satisfied == proofs.Keys
    && (forall f :: f in proofs ==> proofs[f] < |log| && Shows(log, serial, f, proofs[f]))
    && (forall k :: 0 <= k < |log| ==> !(log[k].AttemptCompleted? && log[k].serial == serial))
  }

  ghost predicate AttemptsOk(log: Log, attempts: Attempts, serial: map<string, nat>, proofs: map<string, map<Factor, nat>>) {
    && (forall id :: id in attempts ==>
          AttemptOk(log, attempts[id].attempt, Note(serial, id), Proofs(proofs, id)))
    && (forall id1, id2 :: id1 in attempts && id2 in attempts && id1 != id2 ==>
          Note(serial, id1) != Note(serial, id2))
  }

  ghost predicate RowOk(log: Log, row: D.Row, dev: string, at: nat) {
    && at < |log| && log[at].RowInserted? && log[at].dev == dev && log[at].key == row.pubKey
    && D.DecodeKey(row.pubKey).Some?
    && (!row.revoked ==> forall k :: 0 <= k < |log| ==> !(log[k].RowRevoked? && log[k].dev == dev))
  }

  ghost predicate RowsOk(log: Log, devices: D.Table, row: map<string, nat>) {
    && (forall dev :: dev in devices ==> RowOk(log, devices[dev], dev, Note(row, dev)))
    && (forall k :: 0 <= k < |log| && (log[k].RowInserted? || log[k].RowRevoked?) ==> log[k].dev in devices)
  }

  ghost predicate ChallengeOk(log: Log, c: A.Challenge, dev: string, stored: nat) {
    && stored < |log| && log[stored].ChallengeStored? && log[stored].dev == dev
    && log[stored].nonce == c.nonce && c.expiresAt == log[stored].at + A.CHALLENGE_TTL
    && Untouched(log, dev, stored, |log|)
  }

  ghost predicate PendingOk(log: Log, pending: A.Pending, devices: D.Table, stored: map<string, nat>) {
    forall dev :: dev in pending ==>
      dev in devices && ChallengeOk(log, pending[dev], dev, Note(stored, dev))
  }

  ghost predicate GrantOk(log: Log, expiresAt: int, key: string, at: nat) {
    && at < |log| && log[at].StepUpGranted? && S.NoNul(log[at].action)
    && S.GrantKey(log[at].dev, log[at].action) == key && expiresAt == log[at].at + S.STEP_UP_TTL
    && (forall k :: 0 <= k < |log| ==> !(log[k].RevokeServed? && log[k].grant == at))
  }

  ghost predicate GrantsOk(log: Log, grants: S.Grants, grant: map<string, nat>) {
    forall key :: key in grants ==> GrantOk(log, grants[key], key, Note(grant, key))
  }

  ghost predicate TicketOk(log: Log, expiresAt: int, ticket: string, at: nat) {
    && at < |log| && log[at].TicketIssued? && log[at].ticket == ticket
    && expiresAt == log[at].at + T.TICKET_TTL
    && (forall k :: 0 <= k < |log| ==> !(log[k].StreamAdmitted? && log[k].issued == at))
  }

  ghost predicate TicketsOk(log: Log, tickets: T.Tickets, issued: map<string, nat>) {
    forall ticket :: ticket in tickets ==> TicketOk(log, tickets[ticket], ticket, Note(issued, ticket))
  }

  ghost predicate ThreadOk(log: Log, devices: D.Table, t: Thread) {
    match t
    case Inserting(r, completed) =>
      && completed < |log| && log[completed].AttemptCompleted?
      && log[completed].serial < completed && log[log[completed].serial].AttemptStarted?
      && log[log[completed].serial].key == r.attempt.devicePub && AcceptableKey(r.attempt.devicePub)
      && (forall k :: 0 <= k < |log| ==> !(log[k].RowInserted? && log[k].completed == completed))
    case Storing(dev) => dev in devices
    case Checking(dev, nonce, sig, _, taken) =>
      && taken < |log| && log[taken].ChallengeTaken? && log[taken].dev == dev && log[taken].signature == sig
      && log[taken].stored < taken && log[log[taken].stored].ChallengeStored?
      && log[log[taken].stored].nonce == nonce
      && (forall k :: 0 <= k < |log| ==> !(log[k].Admitted? && log[k].taken == taken))
    case SteppingUp(dev, target, admitted) =>
      && admitted < |log| && log[admitted].Admitted? && log[admitted].dev == dev
      && log[admitted].route == RevokeDevice(target)
      && (forall k :: 0 <= k < |log| ==> !(log[k].RevokeServed? && log[k].admitted == admitted))
    case Revoking(target, served) =>
      && served < |log| && log[served].RevokeServed?
      && log[served].admitted < served && log[log[served].admitted].Admitted?
      && log[log[served].admitted].route == RevokeDevice(target)
      && (forall k :: 0 <= k < |log| ==> !(log[k].RowRevoked? && log[k].served == served))
    case Ticketing(admitted) =>
      && admitted < |log| && log[admitted].Admitted? && log[admitted].route.WsTicket?
      && (forall k :: 0 <= k < |log| ==> !(log[k].TicketIssued? && log[k].admitted == admitted))
  }

  /** Two threads never hold the same completed attempt, taken challenge, admission or
      service. */
  predicate Apart(t: Thread, u: Thread) {
    && (t.Inserting? && u.Inserting? ==> t.completed != u.completed)
    && (t.Checking? && u.Checking? ==> t.taken != u.taken)
    && (t.SteppingUp? && u.SteppingUp? ==> t.admitted != u.admitted)
    && (t.Revoking? && u.Revoking? ==> t.served != u.served)
    && (t.Ticketing? && u.Ticketing? ==> t.admitted != u.admitted)
  }

  ghost predicate ThreadsOk(log: Log, devices: D.Table, threads: map<nat, Thread>) {
    && (forall n :: n in threads ==> ThreadOk(log, devices, threads[n]))
    && (forall n, m :: n in threads && m in threads && n != m ==> Apart(threads[n], threads[m]))
  }

  /** All but the rows, which insertion and revocation treat differently. */
  ghost predicate Rest(cfg: Config, s: State) {
    && LogOk(cfg, s.log)
    && AttemptsOk(s.log, s.attempts, s.notes.serial, s.notes.proofs)
    && PendingOk(s.log, s.pending, s.devices, s.notes.stored)
    && GrantsOk(s.log, s.grants, s.notes.grant)
    && TicketsOk(s.log, s.tickets, s.notes.issued)
    && ThreadsOk(s.log, s.devices, s.threads)
  }

  ghost predicate Inv(cfg: Config, s: State) {
    Rest(cfg, s) && RowsOk(s.log, s.devices, s.notes.row)
  }

  // ---- Adding an entry to the log -----------------------------------------------------------

  /** Entries vouch for what lies before them; a later one changes nothing. */
  lemma GoodStays(cfg: Config, log: Log, e: Event, i: nat)
    requires i < |log| && Good(cfg, log, i)
    ensures Good(cfg, log + [e], i)
  {
    var log' := log + [e];
    assert forall k :: 0 <= k <= i ==> log'[k] == log[k];
    match log[i]
    case AttemptCompleted(serial, proofs, at) =>
      forall f: Factor ensures f in proofs && proofs[f] < i && Shows(log', serial, f, proofs[f]) {
        assert f in proofs && proofs[f] < i && Shows(log, serial, f, proofs[f]);
      }
    case _ =>
  }

  lemma LogGrows(cfg: Config, log: Log, e: Event)
    requires LogOk(cfg, log) && Good(cfg, log + [e], |log|)
    ensures LogOk(cfg, log + [e])
  {
    forall i | 0 <= i < |log + [e]| ensures Good(cfg, log + [e], i) {
      if i < |log| {
        GoodStays(cfg, log, e, i);
      }
    }
  }

  /** Entries that refer to nothing need nothing. */
  lemma NothingToShow(cfg: Config, log: Log, e: Event)
    requires e.FactorVerified? || e.FactorRefuted? || e.ChallengeStored? || e.StepUpGranted?
          || (e.AttemptStarted? && AcceptableKey(e.key))
    ensures Good(cfg, log + [e], |log|)
  {
  }

  lemma AttemptsStay(log: Log, e: Event, attempts: Attempts, serial: map<string, nat>, proofs: map<string, map<Factor, nat>>)
    requires AttemptsOk(log, attempts, serial, proofs)
    requires e.AttemptCompleted? ==> forall id :: id in attempts ==> Note(serial, id) != e.serial
    ensures AttemptsOk(log + [e], attempts, serial, proofs)
  {
    forall id | id in attempts
      ensures AttemptOk(log + [e], attempts[id].attempt, Note(serial, id), Proofs(proofs, id))
    {
      assert AttemptOk(log, attempts[id].attempt, Note(serial, id), Proofs(proofs, id));
    }
  }

  lemma RowStays(log: Log, e: Event, row: D.Row, dev: string, at: nat)
    requires RowOk(log, row, dev, at) && !(e.RowRevoked? && e.dev == dev)
    ensures RowOk(log + [e], row, dev, at)
  {
  }

  lemma RowsStay(log: Log, e: Event, devices: D.Table, row: map<string, nat>)
    requires RowsOk(log, devices, row) && !e.RowInserted? && !e.RowRevoked?
    ensures RowsOk(log + [e], devices, row)
  {
    forall dev | dev in devices ensures RowOk(log + [e], devices[dev], dev, Note(row, dev)) {
      RowStays(log, e, devices[dev], dev, Note(row, dev));
    }
  }

  lemma PendingStays(log: Log, e: Event, pending: A.Pending, devices: D.Table, stored: map<string, nat>)
    requires PendingOk(log, pending, devices, stored)
    requires e.ChallengeStored? || e.ChallengeTaken? ==> e.dev !in pending
    ensures PendingOk(log + [e], pending, devices, stored)
  {
    forall dev | dev in pending ensures ChallengeOk(log + [e], pending[dev], dev, Note(stored, dev)) {
      assert ChallengeOk(log, pending[dev], dev, Note(stored, dev));
    }
  }

  lemma GrantsStay(log: Log, e: Event, grants: S.Grants, grant: map<string, nat>)
    requires GrantsOk(log, grants, grant)
    requires e.RevokeServed? ==> forall key :: key in grants ==> Note(grant, key) != e.grant
    ensures GrantsOk(log + [e], grants, grant)
  {
    forall key | key in grants ensures GrantOk(log + [e], grants[key], key, Note(grant, key)) {
      assert GrantOk(log, grants[key], key, Note(grant, key));
    }
  }

  lemma TicketsStay(log: Log, e: Event, tickets: T.Tickets, issued: map<string, nat>)
    requires TicketsOk(log, tickets, issued)
    requires e.StreamAdmitted? ==> forall t :: t in tickets ==> Note(issued, t) != e.issued
    ensures TicketsOk(log + [e], tickets, issued)
  {
    forall t | t in tickets ensures TicketOk(log + [e], tickets[t], t, Note(issued, t)) {
      assert TicketOk(log, tickets[t], t, Note(issued, t));
    }
  }

  /** The entry does not use up what the thread holds. */
  predicate Spares(e: Event, t: Thread) {
    && (t.Inserting? && e.RowInserted? ==> e.completed != t.completed)
    && (t.Checking? && e.Admitted? ==> e.taken != t.taken)
    && (t.SteppingUp? && e.RevokeServed? ==> e.admitted != t.admitted)
    && (t.Revoking? && e.RowRevoked? ==> e.served != t.served)
    && (t.Ticketing? && e.TicketIssued? ==> e.admitted != t.admitted)
  }

  lemma ThreadStays(log: Log, e: Event, devices: D.Table, t: Thread)
    requires ThreadOk(log, devices, t) && Spares(e, t)
    ensures ThreadOk(log + [e], devices, t)
  {
    hide AcceptableKey;
    assert forall k :: 0 <= k < |log| ==> (log + [e])[k] == log[k];
  }

  lemma ThreadsStay(log: Log, e: Event, devices: D.Table, threads: map<nat, Thread>)
    requires ThreadsOk(log, devices, threads)
    requires forall n :: n in threads ==> Spares(e, threads[n])
    ensures ThreadsOk(log + [e], devices, threads)
  {
    hide ThreadOk, Spares, Apart;
    forall n | n in threads ensures ThreadOk(log + [e], devices, threads[n]) {
      ThreadStays(log, e, devices, threads[n]);
    }
  }

  /** The entry uses up nothing that the state still offers. */
  ghost predicate Harmless(s: State, e: Event) {
    && (e.AttemptCompleted? ==> forall id :: id in s.attempts ==> Note(s.notes.serial, id) != e.serial)
    && (e.ChallengeStored? || e.ChallengeTaken? ==> e.dev !in s.pending)
    && (e.RevokeServed? ==> forall key :: key in s.grants ==> Note(s.notes.grant, key) != e.grant)
    && (e.StreamAdmitted? ==> forall t :: t in s.tickets ==> Note(s.notes.issued, t) != e.issued)
    && (forall n :: n in s.threads ==> Spares(e, s.threads[n]))
  }

  lemma Logged(cfg: Config, s: State, e: Event)
    requires Rest(cfg, s) && Good(cfg, s.log + [e], |s.log|) && Harmless(s, e)
    ensures Rest(cfg, Append(s, e))
  {
    hide LogOk, AttemptsOk, PendingOk, GrantsOk, TicketsOk, ThreadsOk, Good;
    LogGrows(cfg, s.log, e);
    AttemptsStay(s.log, e, s.attempts, s.notes.serial, s.notes.proofs);
    PendingStays(s.log, e, s.pending, s.devices, s.notes.stored);
    GrantsStay(s.log, e, s.grants, s.notes.grant);
    TicketsStay(s.log, e, s.tickets, s.notes.issued);
    ThreadsStay(s.log, e, s.devices, s.threads);
  }

  // ---- Taking away and adding ----------------------------------------------------------------

  ghost predicate SubMap<K(!new), V>(m: map<K, V>, n: map<K, V>) {
    forall k :: k in m ==> k in n && m[k] == n[k]
  }

  lemma Without<K(!new), V>(m: map<K, V>, n: map<K, V>, k: K, v: V)
    requires SubMap(m, n)
    ensures SubMap(m - {k}, n) && (m - {k})[k := v] == m[k := v]
  {
  }

  lemma SweptAttempts(m: Attempts, now: int, sweeping: bool)
    ensures SubMap(SweptIf(m, now, sweeping), m)
  {
  }

  lemma SweptChallenges(m: A.Pending, now: int, sweeping: bool)
    ensures SubMap(A.SweptIf(m, now, sweeping), m)
  {
  }

  lemma SweptTickets(m: T.Tickets, now: int, sweeping: bool)
    ensures SubMap(T.SweptIf(m, now, sweeping), m)
  {
  }

  /** The same history with less on offer, and no device fewer. */
  ghost predicate Less(t: State, s: State) {
    && t.log == s.log && t.notes == s.notes
    && (t.devices == s.devices || s.devices.Keys <= t.devices.Keys)
    && (t.attempts == s.attempts || SubMap(t.attempts, s.attempts))
    && (t.pending == s.pending || SubMap(t.pending, s.pending))
    && (t.grants == s.grants || SubMap(t.grants, s.grants))
    && (t.tickets == s.tickets || SubMap(t.tickets, s.tickets))
    && (t.threads == s.threads || SubMap(t.threads, s.threads))
  }

  lemma LessKeeps(cfg: Config, s: State, t: State)
    requires Rest(cfg, s) && Less(t, s)
    ensures Rest(cfg, t)
  {
    hide LogOk, AttemptOk, ChallengeOk, GrantOk, TicketOk, ThreadsOk;
    assert SubMap(t.attempts, s.attempts) && SubMap(t.pending, s.pending) && SubMap(t.grants, s.grants)
        && SubMap(t.tickets, s.tickets) && SubMap(t.threads, s.threads) && s.devices.Keys <= t.devices.Keys;
    hide Less;
    FewerThreads(s.log, s.devices, s.threads, t.devices, t.threads);
  }

  lemma FewerThreads(log: Log, devices: D.Table, threads: map<nat, Thread>, devices': D.Table, threads': map<nat, Thread>)
    requires ThreadsOk(log, devices, threads)
    requires devices.Keys <= devices'.Keys && SubMap(threads', threads)
    ensures ThreadsOk(log, devices', threads')
  {
    hide AcceptableKey;
    forall n | n in threads' ensures ThreadOk(log, devices', threads'[n]) {
      assert ThreadOk(log, devices, threads[n]);
    }
  }

  /** One step in three: less on offer, one more entry. */
  lemma Advance(cfg: Config, s: State, t: State, e: Event)
    requires Inv(cfg, s) && Less(t, s) && t.devices == s.devices
    requires Good(cfg, t.log + [e], |t.log|) && Harmless(t, e) && !e.RowInserted? && !e.RowRevoked?
    ensures Inv(cfg, Append(t, e))
  {
    hide Good, Harmless, Rest, RowsOk;
    LessKeeps(cfg, s, t);
    Logged(cfg, t, e);
    RowsStay(t.log, e, t.devices, t.notes.row);
  }

  lemma Recede(cfg: Config, s: State, t: State)
    requires Inv(cfg, s) && Less(t, s) && t.devices == s.devices
    ensures Inv(cfg, t)
  {
    hide Rest, RowsOk;
    LessKeeps(cfg, s, t);
  }

  lemma WithAttempt(cfg: Config, s: State, id: string, r: Record, notes: Notes)
    requires Inv(cfg, s)
    requires notes == s.notes.(serial := notes.serial, proofs := notes.proofs)
    requires AttemptOk(s.log, r.attempt, Note(notes.serial, id), Proofs(notes.proofs, id))
    requires forall i :: i in s.attempts && i != id ==>
      && Note(notes.serial, i) == Note(s.notes.serial, i) && Proofs(notes.proofs, i) == Proofs(s.notes.proofs, i)
      && Note(notes.serial, i) != Note(notes.serial, id)
    ensures Inv(cfg, s.(attempts := s.attempts[id := r], notes := notes))
  {
    hide RowsOk, LogOk, AttemptOk, PendingOk, GrantsOk, TicketsOk, ThreadsOk;
  }

  lemma WithThread(cfg: Config, s: State, n: nat, t: Thread)
    requires Inv(cfg, s) && ThreadOk(s.log, s.devices, t)
    requires forall m :: m in s.threads && m != n ==> Apart(s.threads[m], t)
    ensures Inv(cfg, s.(threads := s.threads[n := t]))
  {
    hide RowsOk, LogOk, AttemptsOk, PendingOk, GrantsOk, TicketsOk, ThreadOk;
  }

  lemma WithChallenge(cfg: Config, s: State, dev: string, c: A.Challenge, at: nat)
    requires Inv(cfg, s) && dev in s.devices && ChallengeOk(s.log, c, dev, at)
    ensures Inv(cfg, s.(pending := s.pending[dev := c], notes := s.notes.(stored := s.notes.stored[dev := at])))
  {
    hide RowsOk, LogOk, AttemptsOk, ChallengeOk, GrantsOk, TicketsOk, ThreadsOk;
  }

  lemma WithGrant(cfg: Config, s: State, key: string, expiresAt: int, at: nat)
    requires Inv(cfg, s) && GrantOk(s.log, expiresAt, key, at)
    ensures Inv(cfg, s.(grants := s.grants[key := expiresAt], notes := s.notes.(grant := s.notes.grant[key := at])))
  {
    hide RowsOk, LogOk, AttemptsOk, PendingOk, GrantOk, TicketsOk, ThreadsOk;
  }

  lemma WithTicket(cfg: Config, s: State, ticket: string, expiresAt: int, at: nat)
    requires Inv(cfg, s) && TicketOk(s.log, expiresAt, ticket, at)
    ensures Inv(cfg, s.(tickets := s.tickets[ticket := expiresAt],
                        notes := s.notes.(issued := s.notes.issued[ticket := at])))
  {
    hide RowsOk, LogOk, AttemptsOk, PendingOk, GrantsOk, TicketOk, ThreadsOk;
  }

  // ---- References point backwards ---------------------------------------------------------------

  /** No entry yet refers to the next one. */
  lemma NothingRefersAhead(cfg: Config, log: Log, k: nat)
    requires LogOk(cfg, log) && k < |log|
    ensures log[k].AttemptCompleted? ==> log[k].serial < |log|
    ensures log[k].RowInserted? ==> log[k].completed < |log|
    ensures log[k].Admitted? ==> log[k].taken < |log|
    ensures log[k].RevokeServed? ==> log[k].admitted < |log| && log[k].grant < |log|
    ensures log[k].RowRevoked? ==> log[k].served < |log|
    ensures log[k].TicketIssued? ==> log[k].admitted < |log|
    ensures log[k].StreamAdmitted? ==> log[k].issued < |log|
  {
    assert Good(cfg, log, k);
  }
}
