/** Sweeping is unobservable: on every run, whatever is asked of it, a map that drops
    what is past its time answers like one that never drops anything. */
module Sweeping {
  import opened Wrappers
  import opened Text
  import opened Pairing
  import opened PairingAttempts
  import A = DeviceAuth
  import T = Tickets

  // ---- One step: `m` swept, `n` not, what is missing is past its time -------------------------

  ghost predicate FewerAttempts(m: Attempts, n: Attempts, now: int) {
    && (forall id :: id in m ==> id in n && m[id] == n[id])
    && (forall id :: id in n && id !in m ==> Expired(n[id].attempt, now))
  }

  ghost predicate FewerChallenges(m: A.Pending, n: A.Pending, now: int) {
    && (forall d :: d in m ==> d in n && m[d] == n[d])
    && (forall d :: d in n && d !in m ==> A.Stale(n[d], now))
  }

  ghost predicate FewerTickets(m: T.Tickets, n: T.Tickets, now: int) {
    && (forall t :: t in m ==> t in n && m[t] == n[t])
    && (forall t :: t in n && t !in m ==> now > n[t])
  }

  lemma StartedAlike(m: Attempts, n: Attempts, id: string, r: Record, now: int)
    requires FewerAttempts(m, n, now)
    ensures FewerAttempts(Started(m, id, r, now, true), Started(n, id, r, now, false), now)
  {
  }

  lemma SweptAlike(m: Attempts, n: Attempts, when: int, now: int)
    requires FewerAttempts(m, n, now) && when <= now
    ensures FewerAttempts(SweptIf(m, when, true), SweptIf(n, when, false), now)
  {
  }

  /** The answers that anything is made of: whether evidence was accepted or refuted. */
  predicate SameVerdict(x: Option<Answer>, y: Option<Answer>) {
    (x == Some(Accepted) <==> y == Some(Accepted)) && (x == Some(BadEvidence) <==> y == Some(BadEvidence))
  }

  lemma BothUpdated(m: Attempts, n: Attempts, id: string, r: Record, now: int)
    requires FewerAttempts(m, n, now)
    ensures FewerAttempts(m[id := r], n[id := r], now)
  {
  }

  /** Evidence for an attempt past its time changes nothing. */
  lemma TooLate(n: Attempts, id: string, f: Factor, good: bool, now: int)
    requires id in n && Expired(n[id].attempt, now)
    ensures var (a, answer) := Satisfy(n[id].attempt, f, good, now);
      n[id := n[id].(attempt := a)] == n && answer != Accepted && answer != BadEvidence
  {
    assert n[id := n[id]] == n;
  }

  lemma SatisfiedAlike(m: Attempts, n: Attempts, id: string, f: Factor, good: bool, when: int, now: int)
    requires FewerAttempts(m, n, now) && when <= now
    ensures FewerAttempts(Satisfied(m, id, f, good, when, now, true).0, Satisfied(n, id, f, good, when, now, false).0, now)
    ensures SameVerdict(Satisfied(m, id, f, good, when, now, true).1, Satisfied(n, id, f, good, when, now, false).1)
  {
    SweptAlike(m, n, when, now);
    var p := SweptIf(m, when, true);
    assert SweptIf(n, when, false) == n;
    if id in p {
      var r := n[id].(attempt := Satisfy(n[id].attempt, f, good, now).0);
      assert p[id] == n[id];
      BothUpdated(p, n, id, r, now);
    } else if id in n {
      TooLate(n, id, f, good, now);
    }
    hide SweptIf, Satisfy, FewerAttempts;
  }

  lemma CompletedAlike(m: Attempts, n: Attempts, id: string, when: int, now: int)
    requires FewerAttempts(m, n, now) && when <= now
    ensures var (m', x) := Completed(m, id, when, now, true);
      var (n', y) := Completed(n, id, when, now, false);
      && FewerAttempts(m', n', now)
      && (x.Some? && x.value.0 == Accepted <==> y.Some? && y.value.0 == Accepted)
      && (x.Some? && x.value.0 == Accepted ==> x == y)
  {
    SweptAlike(m, n, when, now);
    var p := SweptIf(m, when, true);
    hide SweptIf, Missing;
    if id in n && id !in p {
      assert Expired(n[id].attempt, now);
    }
  }

  lemma StoredAlike(m: A.Pending, n: A.Pending, dev: string, nonce: seq<Byte>, now: int)
    requires FewerChallenges(m, n, now)
    ensures FewerChallenges(A.StoreChallenge(m, dev, nonce, now, true), A.StoreChallenge(n, dev, nonce, now, false), now)
  {
  }

  lemma TakenAlike(m: A.Pending, n: A.Pending, dev: string, now: int)
    requires FewerChallenges(m, n, now)
    ensures A.TakeChallenge(m, dev, now).1 == A.TakeChallenge(n, dev, now).1
    ensures FewerChallenges(A.TakeChallenge(m, dev, now).0, A.TakeChallenge(n, dev, now).0, now)
  {
  }

  lemma IssuedAlike(m: T.Tickets, n: T.Tickets, ticket: string, now: int)
    requires FewerTickets(m, n, now)
    ensures FewerTickets(T.Issued(m, ticket, now, true), T.Issued(n, ticket, now, false), now)
  {
  }

  lemma UsedAlike(m: T.Tickets, n: T.Tickets, ticket: string, now: int)
    requires FewerTickets(m, n, now)
    ensures T.Used(m, ticket, now).1 == T.Used(n, ticket, now).1
    ensures FewerTickets(T.Used(m, ticket, now).0, T.Used(n, ticket, now).0, now)
  {
  }

  // ---- Every run of pairing attempts ---------------------------------------------------------

  /** `when` is the clock read by the sweep, before the one read at `at`. */
  datatype AttemptOp =
    | Start(id: string, record: Record, at: int)
    | Evidence(id: string, factor: Factor, good: bool, when: int, at: int)
    | Finish(id: string, when: int, at: int)

  /** An answer without the kind of refusal. */
  datatype Verdict = Done | Verified | Refuted | Paired(record: Record) | Refused

  function AttemptStep(m: Attempts, op: AttemptOp, sweeping: bool): (Attempts, Verdict) {
    match op
    case Start(id, r, at) => (Started(m, id, r, at, sweeping), Done)
    case Evidence(id, f, good, when, at) =>
      var (m', x) := Satisfied(m, id, f, good, when, at, sweeping);
      (m', if x == Some(Accepted) then Verified else if x == Some(BadEvidence) then Refuted else Refused)
    case Finish(id, when, at) =>
      var (m', x) := Completed(m, id, when, at, sweeping);
      (m', if x.Some? && x.value.0 == Accepted then Paired(x.value.1) else Refused)
  }

  predicate AttemptsInOrder(ops: seq<AttemptOp>, from: int)
    decreases |ops|
  {
    ops == [] || (from <= ops[0].at && (!ops[0].Start? ==> ops[0].when <= ops[0].at) && AttemptsInOrder(ops[1..], ops[0].at))
  }

  function AttemptAnswers(m: Attempts, ops: seq<AttemptOp>, sweeping: bool): seq<Verdict>
    decreases |ops|
  {
    if ops == [] then []
    else [AttemptStep(m, ops[0], sweeping).1] + AttemptAnswers(AttemptStep(m, ops[0], sweeping).0, ops[1..], sweeping)
  }

  lemma AttemptLater(m: Attempts, n: Attempts, now: int, later: int)
    requires FewerAttempts(m, n, now) && now <= later
    ensures FewerAttempts(m, n, later)
  {
  }

  lemma AttemptStepAlike(m: Attempts, n: Attempts, op: AttemptOp)
    requires FewerAttempts(m, n, op.at) && (!op.Start? ==> op.when <= op.at)
    ensures AttemptStep(m, op, true).1 == AttemptStep(n, op, false).1
    ensures FewerAttempts(AttemptStep(m, op, true).0, AttemptStep(n, op, false).0, op.at)
  {
    match op {
      case Start(id, r, at) => StartedAlike(m, n, id, r, at);
      case Evidence(id, f, good, when, at) => SatisfiedAlike(m, n, id, f, good, when, at);
      case Finish(id, when, at) => CompletedAlike(m, n, id, when, at);
    }
    hide FewerAttempts, Started, Satisfied, Completed;
  }

  lemma {:induction false} AttemptSweepUnobservable(m: Attempts, n: Attempts, ops: seq<AttemptOp>, from: int)
    requires FewerAttempts(m, n, from) && AttemptsInOrder(ops, from)
    ensures AttemptAnswers(m, ops, true) == AttemptAnswers(n, ops, false)
    decreases |ops|
  {
    hide FewerAttempts, AttemptStep;
    if ops != [] {
      AttemptLater(m, n, from, ops[0].at);
      AttemptStepAlike(m, n, ops[0]);
      AttemptSweepUnobservable(AttemptStep(m, ops[0], true).0, AttemptStep(n, ops[0], false).0, ops[1..], ops[0].at);
    }
  }

  // ---- Every run of challenges ------------------------------------------------------------------

  datatype ChallengeOp = Store(dev: string, nonce: seq<Byte>, at: int) | Take(dev: string, at: int)

  function ChallengeStep(p: A.Pending, op: ChallengeOp, sweeping: bool): (A.Pending, Option<A.Challenge>) {
    match op
    case Store(dev, nonce, at) => (A.StoreChallenge(p, dev, nonce, at, sweeping), None)
    case Take(dev, at) => A.TakeChallenge(p, dev, at)
  }

  predicate ChallengesInOrder(ops: seq<ChallengeOp>, from: int)
    decreases |ops|
  {
    ops == [] || (from <= ops[0].at && ChallengesInOrder(ops[1..], ops[0].at))
  }

  function ChallengeAnswers(p: A.Pending, ops: seq<ChallengeOp>, sweeping: bool): seq<Option<A.Challenge>>
    decreases |ops|
  {
    if ops == [] then []
    else [ChallengeStep(p, ops[0], sweeping).1] + ChallengeAnswers(ChallengeStep(p, ops[0], sweeping).0, ops[1..], sweeping)
  }

  lemma {:induction false} ChallengeSweepUnobservable(m: A.Pending, n: A.Pending, ops: seq<ChallengeOp>, from: int)
    requires FewerChallenges(m, n, from) && ChallengesInOrder(ops, from)
    ensures ChallengeAnswers(m, ops, true) == ChallengeAnswers(n, ops, false)
    decreases |ops|
  {
    if ops != [] {
      var now := ops[0].at;
      assert FewerChallenges(m, n, now);
      match ops[0] {
        case Store(dev, nonce, _) => StoredAlike(m, n, dev, nonce, now);
        case Take(dev, _) => TakenAlike(m, n, dev, now);
      }
      hide FewerChallenges, A.StoreChallenge, A.TakeChallenge;
      ChallengeSweepUnobservable(ChallengeStep(m, ops[0], true).0, ChallengeStep(n, ops[0], false).0, ops[1..], now);
    }
  }

  // ---- Every run of tickets -----------------------------------------------------------------------

  datatype TicketOp = Issue(ticket: string, at: int) | Use(ticket: string, at: int)

  function TicketStep(t: T.Tickets, op: TicketOp, sweeping: bool): (T.Tickets, bool) {
    match op
    case Issue(ticket, at) => (T.Issued(t, ticket, at, sweeping), true)
    case Use(ticket, at) => T.Used(t, ticket, at)
  }

  predicate TicketsInOrder(ops: seq<TicketOp>, from: int)
    decreases |ops|
  {
    ops == [] || (from <= ops[0].at && TicketsInOrder(ops[1..], ops[0].at))
  }

  function TicketAnswers(t: T.Tickets, ops: seq<TicketOp>, sweeping: bool): seq<bool>
    decreases |ops|
  {
    if ops == [] then []
    else [TicketStep(t, ops[0], sweeping).1] + TicketAnswers(TicketStep(t, ops[0], sweeping).0, ops[1..], sweeping)
  }

  lemma {:induction false} TicketSweepUnobservable(m: T.Tickets, n: T.Tickets, ops: seq<TicketOp>, from: int)
    requires FewerTickets(m, n, from) && TicketsInOrder(ops, from)
    ensures TicketAnswers(m, ops, true) == TicketAnswers(n, ops, false)
    decreases |ops|
  {
    if ops != [] {
      var now := ops[0].at;
      assert FewerTickets(m, n, now);
      match ops[0] {
        case Issue(ticket, _) => IssuedAlike(m, n, ticket, now);
        case Use(ticket, _) => UsedAlike(m, n, ticket, now);
      }
      hide FewerTickets, T.Issued, T.Used;
      TicketSweepUnobservable(TicketStep(m, ops[0], true).0, TicketStep(n, ops[0], false).0, ops[1..], now);
    }
  }

  /** From empty maps, on every run with a clock that never goes back: the same
      evidence verified and refuted, the same attempts completed, the same challenges
      handed back, the same tickets honoured. */
  lemma SweepingUnobservable(attempts: seq<AttemptOp>, challenges: seq<ChallengeOp>, tickets: seq<TicketOp>, from: int)
    ensures AttemptsInOrder(attempts, from) ==>
      AttemptAnswers(map[], attempts, true) == AttemptAnswers(map[], attempts, false)
    ensures ChallengesInOrder(challenges, from) ==>
      ChallengeAnswers(map[], challenges, true) == ChallengeAnswers(map[], challenges, false)
    ensures TicketsInOrder(tickets, from) ==>
      TicketAnswers(map[], tickets, true) == TicketAnswers(map[], tickets, false)
  {
    hide AttemptsInOrder, ChallengesInOrder, TicketsInOrder, AttemptAnswers, ChallengeAnswers, TicketAnswers;
    if AttemptsInOrder(attempts, from) {
      AttemptSweepUnobservable(map[], map[], attempts, from);
    }
    if ChallengesInOrder(challenges, from) {
      ChallengeSweepUnobservable(map[], map[], challenges, from);
    }
    if TicketsInOrder(tickets, from) {
      TicketSweepUnobservable(map[], map[], tickets, from);
    }
  }
}
