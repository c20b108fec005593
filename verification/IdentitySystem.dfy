/** Pairing, device authentication, step-up, tickets and revocation as one
    transition system.

    A step is one critical section or one table access of a handler; what a handler
    carries from one section to the next is a thread. Any interleaving of any
    requests with any passing of time is a run. The log records what happened; the
    notes remember, for the proofs only, where in the log. Neither influences a step. */
module IdentitySystem {
  import opened Wrappers
  import opened Text
  import opened Pairing
  import opened PairingAttempts
  import D = Devices
  import A = DeviceAuth
  import S = StepUp
  import T = Tickets

  /** What RequireDevice wraps. */
  datatype Route = Files | Sessions | DeviceList | RevokeDevice(target: string) | WsTicket

  datatype Event =
    | AttemptStarted(key: string, at: int)
    | FactorVerified(serial: nat, factor: Factor, at: int)
    | FactorRefuted(serial: nat, factor: Factor, at: int)
    | AttemptCompleted(serial: nat, proofs: map<Factor, nat>, at: int)
    | RowInserted(dev: string, key: string, completed: nat)
    | ChallengeStored(dev: string, nonce: seq<Byte>, at: int)
    | ChallengeTaken(dev: string, stored: nat, signature: seq<Byte>, at: int)
    | Admitted(dev: string, route: Route, taken: nat, row: nat)
    | StepUpGranted(dev: string, action: string, at: int)
    | RevokeServed(dev: string, admitted: nat, grant: nat, at: int)
    | RowRevoked(dev: string, served: nat)
    | TicketIssued(ticket: string, admitted: nat, at: int)
    | StreamAdmitted(issued: nat, at: int)

  type Log = seq<Event>

  /** A handler between two of its sections. */
  datatype Thread =
    | Inserting(record: Record, completed: nat)      // handlePairComplete before the row
    | Storing(dev: string)                           // IssueChallenge after the lookup
    | Checking(dev: string, nonce: seq<Byte>, signature: seq<Byte>, route: Route, taken: nat)
    | SteppingUp(dev: string, target: string, admitted: nat)   // RequireStepUp
    | Revoking(target: string, served: nat)          // handleDevicesRevoke
    | Ticketing(admitted: nat)                       // handleAuthWSTicket

  datatype Notes = Notes(
    serial: map<string, nat>,                // per pairing id
    proofs: map<string, map<Factor, nat>>,   // per pairing id
    stored: map<string, nat>,                // per device
    row: map<string, nat>,                   // per device
    grant: map<string, nat>,                 // per grant key
    issued: map<string, nat>)                // per ticket

  datatype State = State(
    now: int,
    attempts: Attempts,
    devices: D.Table,
    pending: A.Pending,
    grants: S.Grants,
    tickets: T.Tickets,
    threads: map<nat, Thread>,
    log: Log,
    notes: Notes)

  /** The signature check, and whether the maps are swept; nothing proved here depends
      on either. */
  datatype Config = Config(check: A.SignatureCheck, sweeping: bool)

  const EMPTY: State :=
    State(0, map[], map[], map[], map[], map[], map[], [], Notes(map[], map[], map[], map[], map[], map[]))

  datatype Act =
    | Tick(passed: nat)
    | PairStart(id: string, key: string, name: string, platform: string, lag: nat)
    | PairFactor(id: string, factor: Factor, good: bool, lag: nat)
    | PairComplete(thread: nat, id: string, lag: nat)
    | PairInsert(thread: nat, dev: string)
    | ChallengeLookup(thread: nat, dev: string)
    | ChallengeStore(thread: nat, nonce: seq<Byte>)
    | AuthTake(thread: nat, dev: string, signature: seq<Byte>, route: Route)
    | AuthLookup(thread: nat)
    | Grant(dev: string, action: string)
    | StepUpConsume(thread: nat)
    | RevokeRow(thread: nat)
    | TicketIssue(thread: nat, ticket: string)
    | TicketUse(ticket: string)
    | Dies(thread: nat)                              // a handler gives up between sections

  /** The note for a key; there always is one when it is read. */
  function Note(m: map<string, nat>, key: string): nat {
    if key in m then m[key] else 0
  }

  function Proofs(m: map<string, map<Factor, nat>>, id: string): map<Factor, nat> {
    if id in m then m[id] else map[]
  }

  function Append(s: State, e: Event): State {
    s.(log := s.log + [e])
  }

  function End(s: State, thread: nat): State {
    s.(threads := s.threads - {thread})
  }

  /** One step, its section or access at the time `now`; a clock read earlier in the
      same handler lags behind. A step that cannot happen changes nothing. */
  function Step(cfg: Config, s: State, act: Act): State {
    match act
    case Tick(passed) => s.(now := s.now + passed)
    case PairStart(id, key, name, platform, lag) => StepPairStart(cfg, s, id, key, name, platform, lag)
    case PairFactor(id, f, good, lag) => StepPairFactor(cfg, s, id, f, good, lag)
    case PairComplete(n, id, lag) => StepPairComplete(cfg, s, n, id, lag)
    case PairInsert(n, dev) => StepPairInsert(s, n, dev)
    case ChallengeLookup(n, dev) =>
      if n in s.threads || !A.MayBeChallenged(s.devices, dev) then s
      else s.(threads := s.threads[n := Storing(dev)])
    case ChallengeStore(n, nonce) => StepChallengeStore(cfg, s, n, nonce)
    case AuthTake(n, dev, sig, route) => StepAuthTake(s, n, dev, sig, route)
    case AuthLookup(n) => StepAuthLookup(cfg, s, n)
    case Grant(dev, action) => StepGrant(s, dev, action)
    case StepUpConsume(n) => StepStepUp(s, n)
    case RevokeRow(n) => StepRevokeRow(s, n)
    case TicketIssue(n, ticket) => StepTicketIssue(cfg, s, n, ticket)
    case TicketUse(ticket) => if ticket == "" then s else StepTicketUse(s, ticket)
    case Dies(n) => End(s, n)
  }

  function StepPairStart(cfg: Config, s: State, id: string, key: string, name: string, platform: string, lag: nat): State {
    if !AcceptableKey(key) then s
    else
      var record := Record(NewAttempt(key, s.now - lag), name, platform);
      s.(attempts := Started(s.attempts, id, record, s.now, cfg.sweeping),
         log := s.log + [AttemptStarted(key, s.now - lag)],
         notes := s.notes.(serial := s.notes.serial[id := |s.log|], proofs := s.notes.proofs[id := map[]]))
  }

  function StepPairFactor(cfg: Config, s: State, id: string, f: Factor, good: bool, lag: nat): State {
    var (attempts', answer) := Satisfied(s.attempts, id, f, good, s.now - lag, s.now, cfg.sweeping);
    if answer == Some(Accepted) then
      s.(attempts := attempts',
         log := s.log + [FactorVerified(Note(s.notes.serial, id), f, s.now)],
         notes := s.notes.(proofs := s.notes.proofs[id := Proofs(s.notes.proofs, id)[f := |s.log|]]))
    else if answer == Some(BadEvidence) then
      s.(attempts := attempts', log := s.log + [FactorRefuted(Note(s.notes.serial, id), f, s.now)])
    else s.(attempts := attempts')
  }

  function StepPairComplete(cfg: Config, s: State, n: nat, id: string, lag: nat): State {
    if n in s.threads then s
    else
      var (attempts', r) := Completed(s.attempts, id, s.now - lag, s.now, cfg.sweeping);
      if r.None? || r.value.0 != Accepted then s.(attempts := attempts')
      else
        s.(attempts := attempts',
           log := s.log + [AttemptCompleted(Note(s.notes.serial, id), Proofs(s.notes.proofs, id), s.now)],
           threads := s.threads[n := Inserting(r.value.1, |s.log|)])
  }

  function StepPairInsert(s: State, n: nat, dev: string): State {
    if n !in s.threads || !s.threads[n].Inserting? then s
    else
      var Inserting(r, completed) := s.threads[n];
      var key := r.attempt.devicePub;
      match D.Insert(s.devices, dev, D.Row(r.deviceName, r.platform, key, false))
      case None => End(s, n)
      case Some(devices') =>
        s.(threads := s.threads - {n},
           devices := devices',
           log := s.log + [RowInserted(dev, key, completed)],
           notes := s.notes.(row := s.notes.row[dev := |s.log|]))
  }

  function StepChallengeStore(cfg: Config, s: State, n: nat, nonce: seq<Byte>): State {
    if n !in s.threads || !s.threads[n].Storing? then s
    else
      var dev := s.threads[n].dev;
      s.(threads := s.threads - {n},
         pending := A.StoreChallenge(s.pending, dev, nonce, s.now, cfg.sweeping),
         log := s.log + [ChallengeStored(dev, nonce, s.now)],
         notes := s.notes.(stored := s.notes.stored[dev := |s.log|]))
  }

  function StepAuthTake(s: State, n: nat, dev: string, sig: seq<Byte>, route: Route): State {
    if n in s.threads || dev == "" then s
    else
      var (pending', c) := A.TakeChallenge(s.pending, dev, s.now);
      if c.None? then s.(pending := pending')
      else
        s.(pending := pending',
           log := s.log + [ChallengeTaken(dev, Note(s.notes.stored, dev), sig, s.now)],
           threads := s.threads[n := Checking(dev, c.value.nonce, sig, route, |s.log|)])
  }

  /** The thread of a request admitted to a route that has more to do. */
  function Continued(threads: map<nat, Thread>, n: nat, dev: string, route: Route, admitted: nat): map<nat, Thread> {
    match route
    case RevokeDevice(target) => threads[n := SteppingUp(dev, target, admitted)]
    case WsTicket => threads[n := Ticketing(admitted)]
    case _ => threads - {n}
  }

  function StepAuthLookup(cfg: Config, s: State, n: nat): State {
    if n !in s.threads || !s.threads[n].Checking? then s
    else
      var Checking(dev, nonce, sig, route, taken) := s.threads[n];
      if !A.Proves(cfg.check, s.devices, dev, nonce, sig) then End(s, n)
      else
        s.(threads := Continued(s.threads, n, dev, route, |s.log|),
           log := s.log + [Admitted(dev, route, taken, Note(s.notes.row, dev))])
  }

  /** Grants come from a ceremony elsewhere; actions are the constants of the code. */
  function StepGrant(s: State, dev: string, action: string): State {
    if !S.NoNul(action) then s
    else
      s.(grants := S.Granted(s.grants, dev, action, s.now),
         log := s.log + [StepUpGranted(dev, action, s.now)],
         notes := s.notes.(grant := s.notes.grant[S.GrantKey(dev, action) := |s.log|]))
  }

  function StepStepUp(s: State, n: nat): State {
    if n !in s.threads || !s.threads[n].SteppingUp? then s
    else
      var SteppingUp(dev, target, admitted) := s.threads[n];
      var key := S.GrantKey(dev, S.REVOKE_DEVICE);
      var (grants', answer) := S.Consumed(s.grants, dev, S.REVOKE_DEVICE, s.now);
      if answer != S.Served then s.(threads := s.threads - {n}, grants := grants')
      else
        s.(grants := grants',
           log := s.log + [RevokeServed(dev, admitted, Note(s.notes.grant, key), s.now)],
           threads := s.threads[n := Revoking(target, |s.log|)])
  }

  function StepRevokeRow(s: State, n: nat): State {
    if n !in s.threads || !s.threads[n].Revoking? then s
    else
      match D.Revoke(s.devices, s.threads[n].target)
      case None => End(s, n)
      case Some(devices') =>
        s.(threads := s.threads - {n},
           devices := devices',
           log := s.log + [RowRevoked(s.threads[n].target, s.threads[n].served)])
  }

  function StepTicketIssue(cfg: Config, s: State, n: nat, ticket: string): State {
    if n !in s.threads || !s.threads[n].Ticketing? then s
    else
      s.(threads := s.threads - {n},
         tickets := T.Issued(s.tickets, ticket, s.now, cfg.sweeping),
         log := s.log + [TicketIssued(ticket, s.threads[n].admitted, s.now)],
         notes := s.notes.(issued := s.notes.issued[ticket := |s.log|]))
  }

  function StepTicketUse(s: State, ticket: string): State {
    var (tickets', ok) := T.Used(s.tickets, ticket, s.now);
    if !ok then s.(tickets := tickets')
    else s.(tickets := tickets', log := s.log + [StreamAdmitted(Note(s.notes.issued, ticket), s.now)])
  }

  function Run(cfg: Config, s: State, acts: seq<Act>): State
    decreases |acts|
  {
    if acts == [] then s else Run(cfg, Step(cfg, s, acts[0]), acts[1..])
  }
}
