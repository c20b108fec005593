/** The factor handlers of a pairing, section by section: asking the limiter, deciding on
    the evidence, and counting the outcome. Between its sections any other handler may
    run. */
module PairingHandlers {
  import opened Wrappers
  import opened Pairing
  import opened PairingAttempts
  import L = Lockout
  import G = GuessRuns

  datatype Status = OK | BadRequest | Unauthorized | NotFound | Conflict | Gone | TooManyRequests | ServerError

  function StatusOf(answer: Option<Answer>): Status {
    match answer
    case None => NotFound
    case Some(Accepted) => OK
    case Some(PastTTL) => Gone
    case Some(AlreadyConsumed) => Conflict
    case Some(Incomplete) => Conflict
    case Some(BadEvidence) => Unauthorized
  }

  /** What an answer does to the counters: only verified and refuted evidence counts. */
  function Counted(l: L.Limiter, ip: string, email: string, answer: Option<Answer>, at: int): L.Limiter {
    match answer
    case Some(Accepted) => L.RecordSuccess(l, ip, email)
    case Some(BadEvidence) => L.RecordFailure(l, ip, email, at)
    case _ => l
  }

  /** An attempt that evidence can still be brought for. */
  predicate IsLive(m: Attempts, id: string, at: int) {
    id in m && !m[id].attempt.consumed && at - m[id].attempt.startedAt <= PAIRING_TTL
  }

  /** What one outcome does to the counter of a key, and to every other. */
  ghost predicate CounterIs(l: L.Limiter, l': L.Limiter, ip: string, email: string, hit: L.LockState -> L.LockState) {
    && (forall key :: L.Of(l', L.Ip, key) == if key == ip then hit(L.Of(l, L.Ip, key)) else L.Of(l, L.Ip, key))
    && (forall key :: L.Of(l', L.Account, key) == if key == email then hit(L.Of(l, L.Account, key)) else L.Of(l, L.Account, key))
  }

  /** Refused evidence for a live attempt is one more failure of the address and the
      account, accepted evidence clears both, anything else leaves them; the answers are
      401, 200 and neither. No other key is touched. */
  lemma CountedExactly(m: Attempts, l: L.Limiter, ip: string, email: string, id: string, f: Factor, good: bool,
                       now: int, later: int, at: int, sweeping: bool)
    requires now <= later
    ensures var answer := Satisfied(m, id, f, good, now, later, sweeping).1;
      var l' := Counted(l, ip, email, answer, at);
      && (IsLive(m, id, later) && !good ==> StatusOf(answer) == Unauthorized && CounterIs(l, l', ip, email, s => L.Failed(s, at)))
      && (IsLive(m, id, later) && good ==> StatusOf(answer) == OK && CounterIs(l, l', ip, email, s => L.FRESH))
      && (!IsLive(m, id, later) ==> StatusOf(answer) != OK && StatusOf(answer) != Unauthorized && l' == l)
  {
    SatisfiedExactly(m, id, f, good, now, later, sweeping);
    var answer := Satisfied(m, id, f, good, now, later, sweeping).1;
    AnswerIs(m, id, f, good, now, later, sweeping);
    hide Satisfied, L.Failed;
  }

  lemma AnswerIs(m: Attempts, id: string, f: Factor, good: bool, now: int, later: int, sweeping: bool)
    requires now <= later
    ensures var answer := Satisfied(m, id, f, good, now, later, sweeping).1;
      && (IsLive(m, id, later) ==> answer == Some(if good then Accepted else BadEvidence))
      && (!IsLive(m, id, later) ==> answer in {None, Some(AlreadyConsumed), Some(PastTTL)})
  {
  }

  /** What a caller is told about an attempt that is not live: 404 if it is not there or was
      past its time when the handler swept, 410 if it got past its time since, 409 if it is
      used up. */
  lemma RefusalIs(m: Attempts, id: string, f: Factor, good: bool, now: int, later: int)
    requires now <= later && !IsLive(m, id, later)
    ensures var status := StatusOf(Satisfied(m, id, f, good, now, later, true).1);
      && (status == NotFound <==> id !in m || now - m[id].attempt.startedAt > PAIRING_TTL)
      && (status == Conflict <==> id in m && now - m[id].attempt.startedAt <= PAIRING_TTL && m[id].attempt.consumed)
      && (status == Gone <==>
            && id in m && now - m[id].attempt.startedAt <= PAIRING_TTL && !m[id].attempt.consumed
            && later - m[id].attempt.startedAt > PAIRING_TTL)
  {
  }

  // ---- Sections -----------------------------------------------------------------------------

  /** A call that was let through, before and after the decision. */
  datatype Call = Asked(ip: string) | Decided(ip: string, answer: Option<Answer>)

  datatype State = State(limiter: L.Limiter, attempts: Attempts, calls: map<nat, Call>)

  datatype Section =
    | Ask(n: nat, ip: string, at: int)
    | OtherEmail(n: nat, at: int)
    | Decide(n: nat, id: string, factor: Factor, good: bool, when: int, at: int)
    | Count(n: nat, at: int)
    | Leave(n: nat, at: int)
    | Elsewhere(attempts: Attempts, at: int)     // starting and completing attempts

  function Step(email: string, s: State, x: Section): State {
    match x
    case Ask(n, ip, at) =>
      if n in s.calls || !L.Allowed(s.limiter, ip, email, at) then s else s.(calls := s.calls[n := Asked(ip)])
    case OtherEmail(n, _) =>
      if n !in s.calls || !s.calls[n].Asked? then s
      else s.(calls := s.calls[n := Decided(s.calls[n].ip, Some(BadEvidence))])
    case Decide(n, id, f, good, when, at) =>
      if n !in s.calls || !s.calls[n].Asked? then s
      else
        var (m, answer) := Satisfied(s.attempts, id, f, good, when, at, true);
        s.(attempts := m, calls := s.calls[n := Decided(s.calls[n].ip, answer)])
    case Count(n, at) =>
      if n !in s.calls || !s.calls[n].Decided? then s
      else s.(limiter := Counted(s.limiter, s.calls[n].ip, email, s.calls[n].answer, at), calls := s.calls - {n})
    case Leave(n, _) => s.(calls := s.calls - {n})
    case Elsewhere(m, _) => s.(attempts := m)
  }

  function Run(email: string, s: State, xs: seq<Section>): State
    decreases |xs|
  {
    if xs == [] then s else Run(email, Step(email, s, xs[0]), xs[1..])
  }

  // ---- Handlers are guesses --------------------------------------------------------------------

  function GateOf(s: State): G.Gate {
    G.Gate(s.limiter, map n | n in s.calls :: s.calls[n].ip)
  }

  /** What a section is for the limiter. */
  function Shadow(s: State, x: Section): seq<G.Event> {
    match x
    case Ask(n, ip, at) => [G.Check(n, ip, at)]
    case Count(n, at) =>
      if n !in s.calls || !s.calls[n].Decided? then []
      else if s.calls[n].answer == Some(Accepted) then [G.Succeed(n, at)]
      else if s.calls[n].answer == Some(BadEvidence) then [G.Fail(n, at)]
      else [G.Leave(n, at)]
    case Leave(n, at) => [G.Leave(n, at)]
    case _ => []
  }

  function Shadows(email: string, s: State, xs: seq<Section>): seq<G.Event>
    decreases |xs|
  {
    if xs == [] then [] else Shadow(s, xs[0]) + Shadows(email, Step(email, s, xs[0]), xs[1..])
  }

  lemma OneEvent(email: string, g: G.Gate, e: G.Event)
    ensures G.Run(email, g, [e]) == G.Step(email, g, e)
  {
    hide G.Step;
    assert [e][1..] == [];
    assert G.Run(email, G.Step(email, g, e), []) == G.Step(email, g, e);
  }

  /** Each section does to the limiter and the calls let through what its shadow does. */
  lemma SectionIsShadow(email: string, s: State, x: Section)
    ensures G.Run(email, GateOf(s), Shadow(s, x)) == GateOf(Step(email, s, x))
  {
    if Shadow(s, x) != [] {
      OneEvent(email, GateOf(s), Shadow(s, x)[0]);
      assert Shadow(s, x) == [Shadow(s, x)[0]];
    }
    hide L.Allowed, L.RecordFailure, L.RecordSuccess, Satisfied, G.Run;
    var s' := Step(email, s, x);
    match x
    case Ask(n, ip, at) => FlightIs(s, s', n);
    case Count(n, at) => FlightIs(s, s', n);
    case Leave(n, at) => FlightIs(s, s', n);
    case OtherEmail(n, _) => FlightIs(s, s', n);
    case Decide(n, _, _, _, _, _) => FlightIs(s, s', n);
    case Elsewhere(_, _) =>
  }

  /** Changing one call changes one entry in flight. */
  lemma FlightIs(s: State, s': State, n: nat)
    ensures n in s'.calls && s'.calls == s.calls[n := s'.calls[n]] ==> GateOf(s').flight == GateOf(s).flight[n := s'.calls[n].ip]
    ensures s'.calls == s.calls - {n} ==> GateOf(s').flight == GateOf(s).flight - {n}
    ensures n in s.calls && n in s'.calls && s'.calls == s.calls[n := s'.calls[n]] && s'.calls[n].ip == s.calls[n].ip ==>
      GateOf(s').flight == GateOf(s).flight
  {
  }

  lemma {:induction false} RunIsShadows(email: string, s: State, xs: seq<Section>)
    ensures G.Run(email, GateOf(s), Shadows(email, s, xs)) == GateOf(Run(email, s, xs))
    decreases |xs|
  {
    if xs != [] {
      var s1 := Step(email, s, xs[0]);
      SectionIsShadow(email, s, xs[0]);
      RunIsShadows(email, s1, xs[1..]);
      G.FailsConcat(email, GateOf(s), Shadow(s, xs[0]), Shadows(email, s1, xs[1..]), L.Ip, "");
    } else {
      assert G.Run(email, GateOf(s), []) == GateOf(s);
    }
    hide Step, Shadow, GateOf, G.Run;
  }

  /** The section counts a refutation against the key. */
  predicate Refutes(email: string, s: State, x: Section, side: L.Side, key: string) {
    && x.Count? && x.n in s.calls && s.calls[x.n].Decided? && s.calls[x.n].answer == Some(BadEvidence)
    && G.Hits(email, s.calls[x.n].ip, side, key)
  }

  /** How many refutations of a key a run counts. */
  function Refuted(email: string, s: State, xs: seq<Section>, side: L.Side, key: string): nat
    decreases |xs|
  {
    if xs == [] then 0
    else (if Refutes(email, s, xs[0], side, key) then 1 else 0) + Refuted(email, Step(email, s, xs[0]), xs[1..], side, key)
  }

  lemma OneRefuted(email: string, s: State, x: Section, side: L.Side, key: string)
    ensures G.Fails(email, GateOf(s), Shadow(s, x), side, key) == if Refutes(email, s, x, side, key) then 1 else 0
  {
    if Shadow(s, x) != [] {
      var e := Shadow(s, x)[0];
      assert Shadow(s, x) == [e] && [e][1..] == [];
      assert G.Fails(email, G.Step(email, GateOf(s), e), [], side, key) == 0;
      assert G.Fails(email, GateOf(s), [e], side, key) == if G.Counts(email, GateOf(s), e, side, key) then 1 else 0;
    }
    hide G.Step, G.Fails, G.Hits;
  }

  lemma {:induction false} RefutedIsFails(email: string, s: State, xs: seq<Section>, side: L.Side, key: string)
    ensures Refuted(email, s, xs, side, key) == G.Fails(email, GateOf(s), Shadows(email, s, xs), side, key)
    decreases |xs|
  {
    if xs != [] {
      var s1 := Step(email, s, xs[0]);
      OneRefuted(email, s, xs[0], side, key);
      SectionIsShadow(email, s, xs[0]);
      RefutedIsFails(email, s1, xs[1..], side, key);
      G.FailsConcat(email, GateOf(s), Shadow(s, xs[0]), Shadows(email, s1, xs[1..]), side, key);
      hide Step, Shadow, GateOf, G.Run, G.Fails, Refutes;
    }
  }

  // ---- The bound, for handlers ---------------------------------------------------------------------

  predicate InOrder(xs: seq<Section>, now: int)
    decreases |xs|
  {
    xs == [] || (now <= xs[0].at && InOrder(xs[1..], xs[0].at))
  }

  /** At most `c` calls of the key are under way at any time, and no accepted evidence of
      it is counted. */
  ghost predicate Calm(email: string, s: State, xs: seq<Section>, c: nat, side: L.Side, key: string)
    decreases |xs|
  {
    && |G.Holding(email, GateOf(s), side, key)| <= c
    && (xs != [] ==>
          && !(xs[0].Count? && xs[0].n in s.calls && s.calls[xs[0].n].Decided? && s.calls[xs[0].n].answer == Some(Accepted)
               && G.Hits(email, s.calls[xs[0].n].ip, side, key))
          && Calm(email, Step(email, s, xs[0]), xs[1..], c, side, key))
  }

  lemma {:induction false} ShadowsOrderly(email: string, s: State, xs: seq<Section>, now: int)
    requires InOrder(xs, now)
    ensures G.Orderly(Shadows(email, s, xs), now)
    decreases |xs|
  {
    if xs != [] {
      var s1 := Step(email, s, xs[0]);
      var rest := Shadows(email, s1, xs[1..]);
      ShadowsOrderly(email, s1, xs[1..], xs[0].at);
      hide Step;
      LaterOrderly(rest, now, xs[0].at);
      if Shadow(s, xs[0]) == [] {
        assert Shadow(s, xs[0]) + rest == rest;
      } else {
        assert (Shadow(s, xs[0]) + rest)[1..] == rest;
      }
    }
  }

  lemma LaterOrderly(es: seq<G.Event>, now: int, at: int)
    requires now <= at && G.Orderly(es, at)
    ensures G.Orderly(es, now)
  {
  }

  lemma {:induction false} ShadowsCalm(email: string, s: State, xs: seq<Section>, c: nat, side: L.Side, key: string)
    requires Calm(email, s, xs, c, side, key)
    ensures G.Calm(email, GateOf(s), Shadows(email, s, xs), c, side, key)
    decreases |xs|
  {
    if xs != [] {
      var s1 := Step(email, s, xs[0]);
      var rest := Shadows(email, s1, xs[1..]);
      ShadowsCalm(email, s1, xs[1..], c, side, key);
      SectionIsShadow(email, s, xs[0]);
      if Shadow(s, xs[0]) == [] {
        assert Shadow(s, xs[0]) + rest == rest && GateOf(s1) == GateOf(s) by {
          assert G.Run(email, GateOf(s), []) == GateOf(s);
        }
      } else {
        var e := Shadow(s, xs[0])[0];
        OneEvent(email, GateOf(s), e);
        assert Shadow(s, xs[0]) == [e] && ([e] + rest)[1..] == rest;
      }
      hide Step, G.Step, G.Run, G.Hits, G.Holding;
    }
  }

  /** The guess bound of the handlers themselves. In every run of their sections, in any
      interleaving with each other and with whatever starts and completes attempts, with at
      most c calls of a key under way and no accepted evidence of it, and with 5m >= c:
      5 + 5m(k-1) + c counted refutations of the key span at least the lockouts 1..k. */
  lemma HandlersAreBounded(email: string, s: State, xs: seq<Section>, side: L.Side, key: string, c: nat, m: nat, k: nat,
                           now: int)
    requires k >= 1 && m >= 1 && 1 <= c <= 5 * m && InOrder(xs, now) && Calm(email, s, xs, c, side, key)
    requires L.Of(s.limiter, side, key).failures < L.FAILURE_THRESHOLD
    requires Refuted(email, s, xs, side, key) >= 5 + 5 * m * (k - 1) + c
    ensures var es := Shadows(email, s, xs);
      var first := G.FirstFail(email, GateOf(s), es, side, key);
      first.Some? && G.LastFail(email, GateOf(s), es, side, key, now) - first.value >= L.MinTime(k)
  {
    ShadowsOrderly(email, s, xs, now);
    ShadowsCalm(email, s, xs, c, side, key);
    RefutedIsFails(email, s, xs, side, key);
    assert GateOf(s).limiter == s.limiter;
    hide *;
    G.OwnerGuessBound(email, GateOf(s), Shadows(email, s, xs), side, key, c, m, k, now, now);
  }

  /** The three sections of one call, with nothing in between. */
  lemma OneCall(email: string, l: L.Limiter, m: Attempts, ip: string, asked: int, x: Section, counted: int)
    requires (x.OtherEmail? || x.Decide?) && x.n == 0
    ensures var s := Run(email, State(l, m, map[]), [Ask(0, ip, asked), x, Count(0, counted)]);
      && s.calls == map[]
      && (!L.Allowed(l, ip, email, asked) ==> s.limiter == l && s.attempts == m)
      && (L.Allowed(l, ip, email, asked) && x.OtherEmail? ==>
            s.attempts == m && s.limiter == L.RecordFailure(l, ip, email, counted))
      && (L.Allowed(l, ip, email, asked) && x.Decide? ==>
            var (m', answer) := Satisfied(m, x.id, x.factor, x.good, x.when, x.at, true);
            s.attempts == m' && s.limiter == Counted(l, ip, email, answer, counted))
  {
    var s0 := State(l, m, map[]);
    var s1 := Step(email, s0, Ask(0, ip, asked));
    var s2 := Step(email, s1, x);
    var s3 := Step(email, s2, Count(0, counted));
    assert [Ask(0, ip, asked), x, Count(0, counted)][1..] == [x, Count(0, counted)];
    assert [x, Count(0, counted)][1..] == [Count(0, counted)] && [Count(0, counted)][1..] == [];
    assert Run(email, s3, []) == s3 && Run(email, s2, [Count(0, counted)]) == Run(email, s3, []);
    assert Run(email, s1, [x, Count(0, counted)]) == Run(email, s2, [Count(0, counted)]);
    hide Satisfied, L.Allowed, L.RecordFailure, L.RecordSuccess, Run;
    assert s1.calls == (if L.Allowed(l, ip, email, asked) then map[0 := Asked(ip)] else map[]);
    assert s3.calls == map[];
  }
}
